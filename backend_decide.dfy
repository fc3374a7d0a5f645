/** The current underwriting engine (code/backend/decide.py): an ordered cascade of threshold
    rules gives the operational decision, and the learned rule table is consulted, and possibly
    corrected or extended, for every applicant. The module global `rules_df` is the field of an
    `Engine` object; loading it from its CSV file is I/O and its initial rows are a parameter. */
module BackendDecide {
  import opened Wrappers
  import opened RuleTables

  /** `operational_rule`: the first branch that applies decides, in the source's order. */
  function OperationalRule(x: Features): (r: Ruling)
    ensures x.age > 85 ==> r.verdict == Rejected
    ensures x.age <= 85 && x.bmi > 45.0 ==> r.verdict == Rejected
  {
    var bmi := x.bmi;
    var age := x.age;
    var smoker := x.smoker;
    var sport := x.sport;
    // Hard rejections
    if age > 85 then Ruling(Rejected, "very high age (86+ years)")
    else if bmi > 45.0 then Ruling(Rejected, "morbid obesity (BMI > 45)")
    else if bmi < 14.0 && age < 18 then Ruling(Rejected, "severely underweight minor (BMI < 14)")
    else if bmi < 16.0 && age >= 18 then Ruling(Rejected, "severe underweight adult (BMI < 16)")
    else if smoker && bmi > 35.0 then Ruling(Rejected, "obese smoker (BMI > 35)")
    else if smoker && age > 67 && !sport then Ruling(Rejected, "aged smoker without sport")
    // Adolescents
    else if age < 18 then
      if bmi < 16.0 || bmi > 30.0 then Ruling(NeedInfo, "BMI outside healthy adolescent range")
      else Ruling(Accepted, "healthy adolescent profile")
    // Very healthy older adults
    else if age <= 85 && age > 60 && !smoker && sport && 18.5 <= bmi <= 30.0 then
      Ruling(ExtraCharge, "healthy older adult (60–85), active and good BMI")
    else if age > 75 && !sport then Ruling(Rejected, "older adult (>=76), not active")
    // Extra charge rules
    else if smoker && bmi > 25.0 then Ruling(ExtraCharge, "smoker with overweight BMI")
    else if smoker && age > 60 then Ruling(ExtraCharge, "older smoker")
    else if 35.0 <= bmi <= 45.0 then Ruling(ExtraCharge, "obese (BMI 35–45)")
    else if bmi < 18.5 then Ruling(ExtraCharge, "underweight adult")
    else if age >= 70 && !smoker then Ruling(ExtraCharge, "advanced age (70+)")
    else if !sport && bmi > 30.0 then Ruling(ExtraCharge, "inactive overweight")
    // Need more information
    else if 65 <= age < 70 then Ruling(NeedInfo, "age between 65–70, require medical exam")
    else if 18 <= age <= 25 && (bmi < 18.5 || bmi > 30.0) then Ruling(NeedInfo, "unusual BMI for young adult")
    // Default acceptance
    else if 18.5 <= bmi <= 30.0 && age <= 60 && !smoker && sport then
      Ruling(Accepted, "healthy BMI, non-smoker, active, age ≤ 60")
    else if 18.5 <= bmi <= 30.0 && age <= 60 && !smoker then Ruling(Accepted, "healthy BMI, non-smoker, age ≤ 60")
    // Catch-all
    else Ruling(ExtraCharge, "moderate risk profile, no major issues")
  }

  /** A minor who escapes the hard rejections is accepted with a BMI from 16 to 30 and needs
      more information otherwise. */
  lemma AdolescentRule(x: Features)
    requires x.age < 18 && 14.0 <= x.bmi <= 45.0 && !(x.smoker && x.bmi > 35.0)
    ensures 16.0 <= x.bmi <= 30.0 ==> OperationalRule(x).verdict == Accepted
    ensures !(16.0 <= x.bmi <= 30.0) ==> OperationalRule(x).verdict == NeedInfo
  {
  }

  /** A non-smoker aged 18 to 60 with a BMI from 18.5 to 30 is accepted. */
  lemma HealthyAdultAccepted(x: Features)
    requires 18 <= x.age <= 60 && 18.5 <= x.bmi <= 30.0 && !x.smoker
    ensures OperationalRule(x).verdict == Accepted
  {
  }

  /** An adult smoker is never accepted without an extra charge. */
  lemma AdultSmokerNotAccepted(x: Features)
    requires x.age >= 18 && x.smoker
    ensures OperationalRule(x).verdict != Accepted
  {
  }

  /** A smoking minor is not rejected for smoking: with a BMI from 16 to 30 the rule accepts
      them outright, as it does a non-smoking minor. */
  lemma SmokingMinorAccepted(x: Features)
    requires x.age < 18 && 16.0 <= x.bmi <= 30.0
    ensures OperationalRule(x).verdict == Accepted
    ensures OperationalRule(x) == OperationalRule(x.(smoker := !x.smoker))
  {
  }

  /** Anyone over 75 who does no sport is rejected. */
  lemma InactiveElderRejected(x: Features)
    requires 75 < x.age && !x.sport
    ensures OperationalRule(x).verdict == Rejected
  {
  }

  /** The four results of `decide_and_learn` besides the table. */
  datatype Outcome = Outcome(decision: string, operationalDecision: string, comment: string, operationalComment: string)

  /** What `decide_and_learn` returns for a table: ValueError for an empty table; otherwise the
      table's answer next to the operational decision and comment. The answer is the most
      similar row's decision and comment, except when learning has just corrected a perfectly
      matching row that disagreed, which answers with the operational pair. */
  function Decide(rows: seq<Rule>, x: Features, learn: bool): (r: Result<Outcome, PyError>)
    ensures rows == [] <==> r == Failure(ValueError)
    ensures r.Success? ==> r.value.operationalDecision == OperationalRule(x).verdict.Label() &&
                           r.value.operationalComment == OperationalRule(x).comment
    ensures r.Success? ==>
              var op := OperationalRule(x);
              var b := BestIndex(rows, x);
              if learn && PerfectMatch(rows, x) && rows[b].decision != op.verdict.Label() then
                r.value.decision == op.verdict.Label() && r.value.comment == op.comment
              else
                r.value.decision == rows[b].decision && r.value.comment == rows[b].comment
  {
    if rows == [] then Failure(ValueError)
    else
      var op := OperationalRule(x);
      var a := TableAnswer(rows, x, op.verdict.Label(), op.comment, learn);
      Success(Outcome(a.decision, op.verdict.Label(), a.comment, op.comment))
  }

  /** `decide_and_learn(rules_df, x_input, learn_flag)`, updating the table in place. */
  method DecideAndLearn(table: RuleTable, x: Features, learn: bool) returns (r: Result<Outcome, PyError>)
    modifies table
    ensures r == Decide(old(table.rows), x, learn)
    ensures table.rows == DecidedRows(old(table.rows), x, OperationalRule(x), learn)
  {
    var op := OperationalRule(x);
    var answer := table.Consult(x, op.verdict.Label(), op.comment, learn);
    match answer
    case Failure(e) =>
      r := Failure(e);
    case Success(a) =>
      r := Success(Outcome(a.decision, op.verdict.Label(), a.comment, op.comment));
  }

  /** With learning, an applicant the table has no exact row for is answered from the most
      similar row and added to the table with the operational decision and comment; a
      disagreeing exact row is corrected and the operational pair returned; an agreeing exact
      row answers with its own comment and the table is unchanged. */
  lemma LearningOutcome(rows: seq<Rule>, x: Features)
    requires rows != []
    ensures var op := OperationalRule(x);
            var b := BestIndex(rows, x);
            var r := Decide(rows, x, true).value;
            (!PerfectMatch(rows, x) ==>
               r.decision == rows[b].decision && r.comment == rows[b].comment &&
               DecidedRows(rows, x, op, true) == rows + [NewRule(x, op.verdict.Label(), op.comment)]) &&
            (PerfectMatch(rows, x) && rows[b].decision != op.verdict.Label() ==>
               r.decision == op.verdict.Label() && r.comment == op.comment &&
               DecidedRows(rows, x, op, true) ==
                 rows[b := rows[b].(decision := op.verdict.Label(), comment := op.comment)]) &&
            (PerfectMatch(rows, x) && rows[b].decision == op.verdict.Label() ==>
               r.decision == op.verdict.Label() && r.comment == rows[b].comment &&
               DecidedRows(rows, x, op, true) == rows)
  {
  }

  /** After a learning call, asking again for the same applicant without learning gives the
      operational decision. */
  lemma LearnedThenPredicted(rows: seq<Rule>, x: Features)
    requires rows != []
    ensures var rows' := DecidedRows(rows, x, OperationalRule(x), true);
            Decide(rows', x, false).Success? &&
            Decide(rows', x, false).value.decision == OperationalRule(x).verdict.Label()
  {
    var op := OperationalRule(x);
    LearningTeaches(rows, x, op.verdict.Label(), op.comment);
  }

  /** The API side of the module: the global rule table. */
  class Engine {
    var rulesTable: RuleTable

    /** The table as loaded at start-up. */
    constructor (initial: seq<Rule>)
      ensures fresh(rulesTable) && rulesTable.rows == initial
    {
      rulesTable := new RuleTable(initial);
    }

    /** `predict_decision`: the decision and comment without learning; the table is unchanged. */
    method PredictDecision(x: Features) returns (r: Result<Answer, PyError>)
      modifies rulesTable
      ensures rulesTable.rows == old(rulesTable.rows)
      ensures old(rulesTable.rows) == [] ==> r == Failure(ValueError)
      ensures old(rulesTable.rows) != [] ==>
                r == Success(Answer(Decide(old(rulesTable.rows), x, false).value.decision,
                                    Decide(old(rulesTable.rows), x, false).value.comment))
    {
      var outcome := DecideAndLearn(rulesTable, x, false);
      match outcome
      case Failure(e) =>
        r := Failure(e);
      case Success(o) =>
        r := Success(Answer(o.decision, o.comment));
    }

    /** `replace_rule_table`: a new table holding exactly the given rules; returns their count. */
    method ReplaceRuleTable(newRules: seq<Rule>) returns (n: nat)
      modifies this
      ensures fresh(rulesTable) && rulesTable.rows == newRules
      ensures n == |newRules|
    {
      rulesTable := new RuleTable(newRules);
      n := |rulesTable.rows|;
    }
  }
}
