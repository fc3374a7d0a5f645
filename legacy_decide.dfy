/** The earlier underwriting engine (code/decide.py): a six-branch operational rule, a rule
    table seeded with six rows, the same similarity search and learning step as the current
    engine, and a prediction that derives the features from raw form data. */
module LegacyDecide {
  import opened Wrappers
  import opened RuleTables
  import Text
  import FormDates

  /** `rules_data`: the six rows the table starts with. */
  const SeedRules: seq<Rule> := [
    Rule(22.0, 25, false, true, "accepted", "Nothing special"),
    Rule(30.0, 45, true, false, "accepted with extra charge", "Higher risk: middle-aged smoker, inactive"),
    Rule(27.0, 35, false, false, "need for additional information", "Missing health activity data"),
    Rule(35.0, 55, true, false, "rejected", "Too high risk: older smoker with high BMI"),
    Rule(19.0, 20, false, true, "accepted", "Young and active, low risk"),
    Rule(25.0, 40, true, true, "accepted with extra charge", "Smoker but compensates with sport activity")
  ]

  /** `operational_rule`: six branches tried in order, the last a catch-all. */
  function OperationalRule(x: Features): (r: Ruling)
    ensures x.smoker && x.bmi > 30.0 ==> r.verdict == Rejected
    ensures x.smoker && x.bmi <= 30.0 && !x.sport ==> r.verdict == ExtraCharge
  {
    if x.smoker && x.bmi > 30.0 then
      Ruling(Rejected, "Rejected because of too high risk (smoker with high BMI)")
    else if x.smoker && !x.sport then
      Ruling(ExtraCharge, "Smoker without physical activity → higher premium")
    else if x.bmi < 20.0 && x.age < 25 then
      Ruling(Accepted, "Nothing special: low BMI and young")
    else if x.bmi > 27.0 && x.age > 50 then
      Ruling(Rejected, "Rejected due to advanced age and high BMI")
    else if x.sport && !x.smoker then
      Ruling(Accepted, "Nothing special: healthy lifestyle")
    else
      Ruling(NeedInfo, "Unclear risk profile → additional info needed")
  }

  /** Which applicants each decision goes to, with the branch order folded in. */
  lemma OperationalRuleCases(x: Features)
    ensures OperationalRule(x).verdict == Rejected <==>
              (x.smoker && x.bmi > 30.0) || (x.bmi > 27.0 && x.age > 50 && (!x.smoker || x.sport))
    ensures OperationalRule(x).verdict == ExtraCharge <==> x.smoker && !x.sport && x.bmi <= 30.0
    ensures OperationalRule(x).verdict == NeedInfo <==>
              !(x.smoker && x.bmi > 30.0) && !(x.smoker && !x.sport) && !(x.bmi < 20.0 && x.age < 25) &&
              !(x.bmi > 27.0 && x.age > 50) && !(x.sport && !x.smoker)
  {
  }

  /** The first five seed rows hold the decision the operational rule gives their features; the
      sixth does not: a sporting smoker aged 40 with BMI 25 is unclear to the rule. */
  lemma SeedRulesAgainstRule()
    ensures |SeedRules| == 6
    ensures forall j :: 0 <= j < 5 ==>
              OperationalRule(SeedRules[j].Key()).verdict.Label() == SeedRules[j].decision
    ensures OperationalRule(SeedRules[5].Key()).verdict == NeedInfo
    ensures SeedRules[5].decision == ExtraCharge.Label()
  {
    assert OperationalRule(SeedRules[0].Key()).verdict == Accepted;
    assert OperationalRule(SeedRules[1].Key()).verdict == ExtraCharge;
    assert OperationalRule(SeedRules[2].Key()).verdict == NeedInfo;
    assert OperationalRule(SeedRules[3].Key()).verdict == Rejected;
    assert OperationalRule(SeedRules[4].Key()).verdict == Accepted;
  }

  /** The three results of `decide_and_learn` besides the table. */
  datatype Outcome = Outcome(decision: string, operationalDecision: string, comment: string)

  /** What `decide_and_learn` returns for a table: ValueError for an empty table; otherwise the
      table's decision, the operational one, and always the operational comment. The table's
      decision is the most similar row's, except when learning has just corrected a perfectly
      matching row that disagreed, which answers with the operational decision. */
  function Decide(rows: seq<Rule>, x: Features, learn: bool): (r: Result<Outcome, PyError>)
    ensures rows == [] <==> r == Failure(ValueError)
    ensures r.Success? ==> r.value.operationalDecision == OperationalRule(x).verdict.Label() &&
                           r.value.comment == OperationalRule(x).comment
    ensures r.Success? ==>
              var op := OperationalRule(x);
              var b := BestIndex(rows, x);
              r.value.decision ==
                if learn && PerfectMatch(rows, x) && rows[b].decision != op.verdict.Label() then op.verdict.Label()
                else rows[b].decision
  {
    if rows == [] then Failure(ValueError)
    else
      var op := OperationalRule(x);
      var a := TableAnswer(rows, x, op.verdict.Label(), op.comment, learn);
      Success(Outcome(a.decision, op.verdict.Label(), op.comment))
  }

  /** `decide_and_learn(rules_df, x_input, learn_flag)`, updating the table in place. */
  method DecideAndLearn(table: RuleTable, x: Features, learn: bool) returns (r: Result<Outcome, PyError>)
    modifies table
    ensures r == Decide(old(table.rows), x, learn)
    ensures table.rows == DecidedRows(old(table.rows), x, OperationalRule(x), learn)
  {
    var op := OperationalRule(x);
    var answer := table.Consult(x, op.verdict.Label(), op.comment, learn);
    match answer
    case Failure(e) =>
      r := Failure(e);
    case Success(a) =>
      r := Success(Outcome(a.decision, op.verdict.Label(), op.comment));
  }

  /** With learning, an applicant the table has no exact row for gets the most similar row's
      decision and is added to the table with the operational decision and comment; a
      disagreeing exact row is corrected and the operational decision returned; an agreeing
      exact row leaves the table unchanged. */
  lemma LearningOutcome(rows: seq<Rule>, x: Features)
    requires rows != []
    ensures var op := OperationalRule(x);
            var b := BestIndex(rows, x);
            var r := Decide(rows, x, true).value;
            r.comment == op.comment &&
            (!PerfectMatch(rows, x) ==>
               r.decision == rows[b].decision &&
               DecidedRows(rows, x, op, true) == rows + [NewRule(x, op.verdict.Label(), op.comment)]) &&
            (PerfectMatch(rows, x) && rows[b].decision != op.verdict.Label() ==>
               r.decision == op.verdict.Label() &&
               DecidedRows(rows, x, op, true) ==
                 rows[b := rows[b].(decision := op.verdict.Label(), comment := op.comment)]) &&
            (PerfectMatch(rows, x) && rows[b].decision == op.verdict.Label() ==>
               r.decision == op.verdict.Label() && DecidedRows(rows, x, op, true) == rows)
  {
  }

  /** Learning from the sixth seed row's own features corrects that row to the operational
      decision and comment and leaves the other five and the size as they are. */
  lemma SeedRowCorrected()
    ensures var x := SeedRules[5].Key();
            var op := OperationalRule(x);
            DecidedRows(SeedRules, x, op, true) ==
              SeedRules[5 := SeedRules[5].(decision := op.verdict.Label(), comment := op.comment)] &&
            Decide(SeedRules, x, true).value.decision == NeedInfo.Label()
  {
    var x := SeedRules[5].Key();
    SeedSixthBest();
    SeedRulesAgainstRule();
    VerdictLabels(NeedInfo, ExtraCharge);
    LearningOutcome(SeedRules, x);
  }

  /** The sixth seed row is the first that matches its own features exactly. */
  lemma SeedSixthBest()
    ensures var x := SeedRules[5].Key();
            PerfectMatch(SeedRules, x) && BestIndex(SeedRules, x) == 5
  {
    var x := SeedRules[5].Key();
    SeedRulesAgainstRule();
    PerfectMatchIff(SeedRules, x);
    assert Matches(SeedRules[5], x);
    assert forall j :: 0 <= j < 5 ==> !Matches(SeedRules[j], x);
  }

  // ---------------------------------------------------------------------------------------
  // predict_decision: the features derived from the form

  /** The form data `predict_decision` reads; each value may be missing (`None`). */
  datatype FormData = FormData(height_cm: Option<real>, weight_kg: Option<real>,
                               date_of_birth: Option<string>, smokes: bool,
                               sports: Option<seq<string>>)

  /** The year the age is counted from. */
  const CurrentYear := 2025

  /** `round(v, 1)` on an exact value: the nearest tenth, ties to the even tenth. */
  function RoundTenth(v: real): (r: real)
    ensures (r * 10.0).Floor as real == r * 10.0
    ensures -0.05 <= r - v <= 0.05
    ensures v >= 0.0 ==> r >= 0.0
  {
    var q := v * 10.0;
    var f := q.Floor;
    var frac := q - f as real;
    var k := if frac < 0.5 then f else if frac > 0.5 then f + 1 else if f % 2 == 0 then f else f + 1;
    k as real / 10.0
  }

  /** The characters Python's `int()` ignores around a number (`str.isspace`). */
  predicate PyIsSpace(c: char)
    ensures PyIsSpace(c) ==> !Text.IsDigit(c) && c != '-' && c != '+' && c != '.'
  {
    c == ' ' || ('\t' <= c <= '\r') || ('\U{001C}' <= c <= '\U{001F}') || c == '\U{0085}' ||
    c == '\U{00A0}' || c == '\U{1680}' || ('\U{2000}' <= c <= '\U{200A}') ||
    c == '\U{2028}' || c == '\U{2029}' || c == '\U{202F}' || c == '\U{205F}' || c == '\U{3000}'
  }

  function StripStart(s: string): (r: string)
    ensures |r| <= |s| && r == s[|s| - |r|..]
    ensures r == [] || !PyIsSpace(r[0])
    ensures forall i :: 0 <= i < |s| - |r| ==> PyIsSpace(s[i])
    decreases |s|
  {
    if s != [] && PyIsSpace(s[0]) then StripStart(s[1..]) else s
  }

  function StripEnd(s: string): (r: string)
    ensures |r| <= |s| && r == s[..|r|]
    ensures r == [] || !PyIsSpace(r[|r| - 1])
    ensures forall i :: |r| <= i < |s| ==> PyIsSpace(s[i])
    decreases |s|
  {
    if s != [] && PyIsSpace(s[|s| - 1]) then StripEnd(s[..|s| - 1]) else s
  }

  /** `int(s)` for a string: optional surrounding whitespace, an optional sign, and ASCII
      digits; anything else raises ValueError (`None` here). */
  function PyInt(s: string): (r: Option<int>)
    ensures s != "" && Text.AllDigits(s) ==> r == Some(Text.DecimalValue(s))
    ensures s == "" ==> r == None
  {
    var t := StripEnd(StripStart(s));
    var digits := if |t| > 0 && (t[0] == '-' || t[0] == '+') then t[1..] else t;
    if digits != "" && Text.AllDigits(digits) then
      var v: int := Text.DecimalValue(digits);
      Some(if t[0] == '-' then -v else v)
    else None
  }

  /** `date_of_birth.split(".")[-1]`. */
  function LastField(dob: string): (r: string)
    ensures '.' !in r
    ensures '.' !in dob ==> r == dob
  {
    if '.' !in dob then Text.SplitWithoutSeparator(dob, '.'); LastFieldOf(dob)
    else LastFieldOf(dob)
  }

  function LastFieldOf(dob: string): string {
    var parts := Text.Split(dob, '.');
    parts[|parts| - 1]
  }

  /** `weight_kg / (height_m ** 2)` with `height_m = height_cm / 100`, before rounding. */
  function ExactBmi(heightCm: real, weightKg: real): real
    requires heightCm != 0.0
  {
    var heightM := heightCm / 100.0;
    weightKg / (heightM * heightM)
  }

  /** `round(weight_kg / (height_m ** 2), 1)`: within half a tenth of the exact BMI and a whole
      number of tenths. */
  function Bmi(heightCm: real, weightKg: real): (b: real)
    requires heightCm != 0.0
    ensures -0.05 <= b - ExactBmi(heightCm, weightKg) <= 0.05
    ensures (b * 10.0).Floor as real == b * 10.0
  {
    RoundTenth(ExactBmi(heightCm, weightKg))
  }

  /** The applicant's features as `predict_decision` derives them, or the exception it raises:
      TypeError for a missing height or weight, ZeroDivisionError for a height of 0,
      AttributeError for a missing date of birth, ValueError when its last field is not an
      integer, TypeError for a missing sports list. */
  function DeriveFeatures(form: FormData): (r: Result<Features, PyError>)
    ensures form.height_cm.None? || form.weight_kg.None? ==> r == Failure(TypeError)
    ensures form.height_cm.Some? && form.weight_kg.Some? && form.height_cm.value == 0.0 ==>
              r == Failure(ZeroDivisionError)
    ensures r.Success? ==>
              form.height_cm.Some? && form.weight_kg.Some? && form.height_cm.value != 0.0 &&
              form.date_of_birth.Some? && form.sports.Some? &&
              r.value.bmi == Bmi(form.height_cm.value, form.weight_kg.value) &&
              PyInt(LastField(form.date_of_birth.value)).Some? &&
              r.value.age == CurrentYear - PyInt(LastField(form.date_of_birth.value)).value &&
              r.value.smoker == form.smokes &&
              r.value.sport == (|form.sports.value| > 0)
    ensures form.height_cm.Some? && form.weight_kg.Some? && form.height_cm.value != 0.0 ==>
              (form.date_of_birth.None? ==> r == Failure(AttributeError)) &&
              (form.date_of_birth.Some? && PyInt(LastField(form.date_of_birth.value)).None? ==>
                 r == Failure(ValueError)) &&
              ((form.date_of_birth.Some? && PyInt(LastField(form.date_of_birth.value)).Some? &&
                form.sports.None?) ==> r == Failure(TypeError))
  {
    if form.height_cm.None? || form.weight_kg.None? then Failure(TypeError)
    else if form.height_cm.value == 0.0 then Failure(ZeroDivisionError)
    else
      var bmi := Bmi(form.height_cm.value, form.weight_kg.value);
      if form.date_of_birth.None? then Failure(AttributeError)
      else match PyInt(LastField(form.date_of_birth.value))
        case None => Failure(ValueError)
        case Some(birthYear) =>
          if form.sports.None? then Failure(TypeError)
          else Success(Features(bmi, CurrentYear - birthYear, form.smokes, |form.sports.value| > 0))
  }

  /** A "DD.MM.YYYY" date of birth gives the age 2025 less the year. */
  lemma DottedBirthYear(dob: string)
    requires FormDates.IsDottedShape(dob)
    ensures PyInt(LastField(dob)) == Some(Text.DecimalValue(dob[6..]))
  {
    FormDates.DottedPieces(dob);
  }

  /** A "YYYY-MM-DD" date of birth has no "." and is not an integer, so the prediction raises
      ValueError. */
  lemma IsoBirthDateRejected(form: FormData)
    requires form.height_cm.Some? && form.weight_kg.Some? && form.height_cm.value != 0.0
    requires form.date_of_birth.Some? && FormDates.IsIsoShape(form.date_of_birth.value)
    ensures DeriveFeatures(form) == Failure(ValueError)
  {
    IsoDateNotInteger(form.date_of_birth.value);
  }

  /** The last "."-field of a "YYYY-MM-DD" string is the whole string, which `int()` rejects. */
  lemma IsoDateNotInteger(s: string)
    requires FormDates.IsIsoShape(s)
    ensures PyInt(LastField(s)) == None
  {
    assert '.' !in s by {
      forall i | 0 <= i < |s| ensures s[i] != '.' {
        if i < 4 { assert s[i] == s[..4][i]; }
        else if 4 < i < 7 { assert s[i] == s[5..7][i - 5]; }
        else if i > 7 { assert s[i] == s[8..][i - 8]; }
      }
    }
    assert LastField(s) == s;
    assert Text.IsDigit(s[0]) by { assert s[0] == s[..4][0]; }
    assert Text.IsDigit(s[9]) by { assert s[9] == s[8..][1]; }
    assert StripStart(s) == s;
    assert StripEnd(s) == s;
    assert !Text.AllDigits(s) by { assert s[4] == '-'; }
  }

  /** Ties round to the even tenth, as Python's `round` does. */
  lemma RoundTenthTies()
    ensures RoundTenth(0.25) == 0.2 && RoundTenth(0.75) == 0.8 && RoundTenth(22.04) == 22.0
  {
    assert (0.25 * 10.0).Floor == 2;
    assert (0.75 * 10.0).Floor == 7;
    assert (22.04 * 10.0).Floor == 220;
  }

  /** `predict_decision`: the decision and the comment for the derived features, without
      learning. */
  function Predict(rows: seq<Rule>, form: FormData): (r: Result<Answer, PyError>)
    ensures DeriveFeatures(form).Failure? ==> r == Failure(DeriveFeatures(form).error)
    ensures DeriveFeatures(form).Success? && rows == [] ==> r == Failure(ValueError)
    ensures DeriveFeatures(form).Success? && rows != [] ==>
              var x := DeriveFeatures(form).value;
              r == Success(Answer(rows[BestIndex(rows, x)].decision, OperationalRule(x).comment))
  {
    match DeriveFeatures(form)
    case Failure(e) => Failure(e)
    case Success(x) =>
      match Decide(rows, x, false)
      case Failure(e) => Failure(e)
      case Success(o) => Success(Answer(o.decision, o.comment))
  }

  /** The API side of the module: the global rule table, seeded at start-up. */
  class Engine {
    var rulesTable: RuleTable

    /** `rules_df = pd.DataFrame(rules_data, columns=columns)`. */
    constructor ()
      ensures fresh(rulesTable) && rulesTable.rows == SeedRules
    {
      rulesTable := new RuleTable(SeedRules);
    }

    /** `predict_decision(form_data)`: the table is not changed. */
    method PredictDecision(form: FormData) returns (r: Result<Answer, PyError>)
      modifies rulesTable
      ensures rulesTable.rows == old(rulesTable.rows)
      ensures r == Predict(old(rulesTable.rows), form)
    {
      var x := DeriveFeatures(form);
      if x.Failure? {
        return Failure(x.error);
      }
      var outcome := DecideAndLearn(rulesTable, x.value, false);
      match outcome
      case Failure(e) =>
        r := Failure(e);
      case Success(o) =>
        r := Success(Answer(o.decision, o.comment));
    }

    /** `replace_rule_table`: a new table holding exactly the given rules; returns their count. */
    method ReplaceRuleTable(newRules: seq<Rule>) returns (n: nat)
      modifies this
      ensures fresh(rulesTable) && rulesTable.rows == newRules
      ensures n == |newRules|
    {
      rulesTable := new RuleTable(newRules);
      n := |rulesTable.rows|;
    }
  }
}
