/** The learned rule table both underwriting engines share, identical in code/backend/decide.py
    and code/decide.py: the similarity of a row to an applicant, the search for the most
    similar row, and the learning step that either corrects a row matching the applicant
    exactly or appends one for the applicant.

    The pandas frame `rules_df` is a `RuleTable` object whose `rows` are its rows in order. Its
    index labels are taken to be the positions 0, 1, ... (true of a freshly built frame and kept
    by the append at label `len(rules_df)`), so `idxmax` and `.loc` are positions here. BMI
    values are exact reals; the floating-point rounding of the source is not modelled. */
module RuleTables {
  import opened Wrappers

  /** The exceptions the engines can raise. */
  datatype PyError = ValueError | ZeroDivisionError | TypeError | AttributeError

  /** The four decisions an operational rule gives. */
  datatype Verdict = Rejected | Accepted | ExtraCharge | NeedInfo {
    /** The text the engines store and compare. */
    function Label(): string {
      match this
      case Rejected => "rejected"
      case Accepted => "accepted"
      case ExtraCharge => "accepted with extra charge"
      case NeedInfo => "need for additional information"
    }
  }

  /** The four decisions have four different texts, and there are no others. */
  lemma VerdictLabels(v: Verdict, v': Verdict)
    ensures v.Label() == v'.Label() ==> v == v'
    ensures v.Label() in {"rejected", "accepted", "accepted with extra charge", "need for additional information"}
  {
  }

  /** What an operational rule returns: a decision and the comment explaining it. */
  datatype Ruling = Ruling(verdict: Verdict, comment: string)

  /** The four features of an applicant (`x_input`). */
  datatype Features = Features(bmi: real, age: int, smoker: bool, sport: bool)

  /** One row of the rule table. */
  datatype Rule = Rule(bmi: real, age: int, smoker: bool, sport: bool, decision: string, comment: string) {
    function Key(): Features {
      Features(bmi, age, smoker, sport)
    }
  }

  /** The row the learning step appends for an applicant. */
  function NewRule(x: Features, decision: string, comment: string): (r: Rule)
    ensures r.Key() == x && r.decision == decision && r.comment == comment
  {
    Rule(x.bmi, x.age, x.smoker, x.sport, decision, comment)
  }

  function Abs(v: real): (r: real)
    ensures r >= 0.0 && (r == 0.0 <==> v == 0.0)
  {
    if v < 0.0 then -v else v
  }

  /** The row agrees with the applicant on all four features (`perfect_match`). */
  predicate Matches(row: Rule, x: Features) {
    row.Key() == x
  }

  /** `compute_similarity`: one point for each feature, less a hundredth of the distance for
      the two numeric ones. It reaches its maximum 4 exactly on a row matching the applicant. */
  function Similarity(row: Rule, x: Features): (s: real)
    ensures s <= 4.0
    ensures s == 4.0 <==> Matches(row, x)
  {
    (1.0 - Abs(row.bmi - x.bmi) / 100.0) +
    (1.0 - Abs((row.age - x.age) as real) / 100.0) +
    (if row.smoker == x.smoker then 1.0 else 0.0) +
    (if row.sport == x.sport then 1.0 else 0.0)
  }

  /** `similarities.idxmax()`: the position of the first row of greatest similarity. */
  function BestIndex(rows: seq<Rule>, x: Features): (b: nat)
    requires |rows| > 0
    ensures b < |rows|
    ensures forall j :: 0 <= j < |rows| ==> Similarity(rows[j], x) <= Similarity(rows[b], x)
    ensures forall j :: 0 <= j < b ==> Similarity(rows[j], x) < Similarity(rows[b], x)
    decreases |rows|
  {
    if |rows| == 1 then 0
    else
      var k := BestIndex(rows[..|rows| - 1], x);
      assert forall j :: 0 <= j < |rows| - 1 ==> rows[..|rows| - 1][j] == rows[j];
      if Similarity(rows[|rows| - 1], x) > Similarity(rows[k], x) then |rows| - 1 else k
  }

  /** The most similar row agrees with the applicant on every feature. */
  predicate PerfectMatch(rows: seq<Rule>, x: Features)
    requires |rows| > 0
  {
    Matches(rows[BestIndex(rows, x)], x)
  }

  /** The most similar row matches exactly if and only if some row does, and it is then the
      first row that does. */
  lemma PerfectMatchIff(rows: seq<Rule>, x: Features)
    requires |rows| > 0
    ensures PerfectMatch(rows, x) <==> exists j :: 0 <= j < |rows| && Matches(rows[j], x)
    ensures PerfectMatch(rows, x) ==> forall j :: 0 <= j < BestIndex(rows, x) ==> !Matches(rows[j], x)
  {
    var b := BestIndex(rows, x);
    if j :| 0 <= j < |rows| && Matches(rows[j], x) {
      assert Similarity(rows[j], x) == 4.0;
      assert Similarity(rows[b], x) == 4.0;
    }
  }

  /** The search only looks at the features: rows that differ in their decisions and comments
      alone give the same best position. */
  lemma {:induction false} BestIndexOnlyFeatures(rows: seq<Rule>, rows': seq<Rule>, x: Features)
    requires |rows| > 0 && |rows'| == |rows|
    requires forall j :: 0 <= j < |rows| ==> rows[j].Key() == rows'[j].Key()
    ensures BestIndex(rows, x) == BestIndex(rows', x)
    decreases |rows|
  {
    forall j | 0 <= j < |rows| ensures Similarity(rows[j], x) == Similarity(rows'[j], x) {
      assert rows[j].Key() == rows'[j].Key();
    }
    if |rows| > 1 {
      var n := |rows| - 1;
      assert forall j :: 0 <= j < n ==> rows[..n][j] == rows[j] && rows'[..n][j] == rows'[j];
      BestIndexOnlyFeatures(rows[..n], rows'[..n], x);
    }
  }

  /** The learning step (`decide_and_learn` with `learn_flag`): a perfectly matching best row
      whose decision differs from the operational one gets the operational decision and comment;
      without a perfect match the applicant is appended with them; nothing else changes. */
  function Learned(rows: seq<Rule>, x: Features, decision: string, comment: string, learn: bool): (r: seq<Rule>)
    requires |rows| > 0
    ensures !learn ==> r == rows
    ensures learn && !PerfectMatch(rows, x) ==> r == rows + [NewRule(x, decision, comment)]
    ensures learn && PerfectMatch(rows, x) ==>
              var b := BestIndex(rows, x);
              r == if rows[b].decision != decision then rows[b := rows[b].(decision := decision, comment := comment)]
                   else rows
  {
    var b := BestIndex(rows, x);
    if !learn then rows
    else if Matches(rows[b], x) then
      if rows[b].decision != decision then rows[b := rows[b].(decision := decision, comment := comment)] else rows
    else rows + [NewRule(x, decision, comment)]
  }

  /** The decision and comment the table answers with: the best row's, or the operational ones
      when a learning step has just corrected that row. */
  datatype Answer = Answer(decision: string, comment: string)

  function TableAnswer(rows: seq<Rule>, x: Features, decision: string, comment: string, learn: bool): (a: Answer)
    requires |rows| > 0
    ensures var b := BestIndex(rows, x);
            if learn && PerfectMatch(rows, x) && rows[b].decision != decision then a == Answer(decision, comment)
            else a == Answer(rows[b].decision, rows[b].comment)
  {
    var b := BestIndex(rows, x);
    if Matches(rows[b], x) && rows[b].decision != decision && learn then Answer(decision, comment)
    else Answer(rows[b].decision, rows[b].comment)
  }

  /** The table after `decide_and_learn`, given the operational ruling: an empty one is left as
      it is (the search raised before anything changed), any other becomes `Learned`. */
  function DecidedRows(rows: seq<Rule>, x: Features, op: Ruling, learn: bool): (r: seq<Rule>)
    ensures rows == [] || !learn ==> r == rows
    ensures rows != [] ==> |rows| <= |r| <= |rows| + 1
  {
    if rows == [] then rows
    else
      LearnedSize(rows, x, op.verdict.Label(), op.comment, learn);
      Learned(rows, x, op.verdict.Label(), op.comment, learn)
  }

  /** The table grows by one row exactly when learning finds no perfect match, and otherwise
      keeps its size; every row but the corrected one is kept. */
  lemma LearnedSize(rows: seq<Rule>, x: Features, decision: string, comment: string, learn: bool)
    requires |rows| > 0
    ensures |Learned(rows, x, decision, comment, learn)| ==
            |rows| + (if learn && !PerfectMatch(rows, x) then 1 else 0)
    ensures forall j :: 0 <= j < |rows| && j != BestIndex(rows, x) ==>
              Learned(rows, x, decision, comment, learn)[j] == rows[j]
    ensures Learned(rows, x, decision, comment, learn)[BestIndex(rows, x)].Key() == rows[BestIndex(rows, x)].Key()
  {
  }

  /** After a learning step the table answers the same applicant with the operational decision
      from a row matching it exactly. */
  lemma LearningTeaches(rows: seq<Rule>, x: Features, decision: string, comment: string)
    requires |rows| > 0
    ensures var rows' := Learned(rows, x, decision, comment, true);
            PerfectMatch(rows', x) && rows'[BestIndex(rows', x)].decision == decision
  {
    var b := BestIndex(rows, x);
    var rows' := Learned(rows, x, decision, comment, true);
    PerfectMatchIff(rows, x);
    if Matches(rows[b], x) {
      if rows[b].decision != decision {
        BestIndexOnlyFeatures(rows, rows', x);
      }
    } else {
      var n := NewRule(x, decision, comment);
      assert rows' == rows + [n];
      assert rows'[..|rows|] == rows;
      assert forall j :: 0 <= j < |rows| ==> !Matches(rows[j], x);
      assert Similarity(rows[b], x) < 4.0;
      assert Similarity(n, x) == 4.0;
      assert BestIndex(rows', x) == |rows|;
    }
  }

  /** Learning twice from the same applicant and decision changes no more than learning once. */
  lemma LearningSettles(rows: seq<Rule>, x: Features, decision: string, comment: string)
    requires |rows| > 0
    ensures var rows' := Learned(rows, x, decision, comment, true);
            Learned(rows', x, decision, comment, true) == rows'
  {
    LearningTeaches(rows, x, decision, comment);
  }

  /** The frame `rules_df`, updated in place by the learning step. */
  class RuleTable {
    var rows: seq<Rule>

    constructor (rows: seq<Rule>)
      ensures this.rows == rows
    {
      this.rows := rows;
    }

    /** The table part of `decide_and_learn`: `find_best_rule`, the perfect-match test and the
        learning step, given the operational decision and comment. `idxmax` of an empty frame
        raises ValueError before anything is changed. */
    method Consult(x: Features, decision: string, comment: string, learn: bool) returns (r: Result<Answer, PyError>)
      modifies this
      ensures old(rows) == [] ==> r == Failure(ValueError) && rows == old(rows)
      ensures old(rows) != [] ==> r == Success(TableAnswer(old(rows), x, decision, comment, learn)) &&
                                  rows == Learned(old(rows), x, decision, comment, learn)
    {
      if rows == [] {
        return Failure(ValueError);
      }
      var best := BestIndex(rows, x);
      var bestRule := rows[best];
      var perfect := Matches(bestRule, x);
      var answer := Answer(bestRule.decision, bestRule.comment);
      if perfect {
        if bestRule.decision != decision && learn {
          rows := rows[best := bestRule.(decision := decision, comment := comment)];
          answer := Answer(decision, comment);
        }
      } else {
        if learn {
          rows := rows + [NewRule(x, decision, comment)];
        }
      }
      return Success(answer);
    }
  }
}
