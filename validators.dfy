/** The per-field validators of the form (code/frontend/helpers/form/validators.ts,
    `makeValidators(t)`). Each maps the raw value of one field to the localised message of the
    first rule it breaks, or to `None` (`null`) when it breaks none. The localisation function
    `t` is a parameter, and so is the clock reading `now` that stands for `new Date()`. */
module Validators {
  import opened Wrappers
  import opened FormTypes
  import opened FormDates
  import Text

  /** The localisation function: a message key to its text. */
  type Translate = string -> string

  const FirstNameRequired := "errors.first_name_required"
  const LastNameRequired := "errors.last_name_required"
  const NameInvalid := "errors.name_invalid"
  const SmokeRequired := "errors.smoke_required"
  const CpdRequired := "errors.cpd_required"
  const CpdMin := "errors.cpd_min"
  const CpdMax := "errors.cpd_max"
  const HeightRequired := "errors.height_required"
  const HeightMin := "errors.height_min"
  const HeightMax := "errors.height_max"
  const WeightRequired := "errors.weight_required"
  const WeightMin := "errors.weight_min"
  const WeightMax := "errors.weight_max"
  const DobRequired := "errors.dob_required"
  const DobFuture := "errors.dob_future"
  const AgeMax := "errors.age_max"
  const AgeMinExact := "errors.age_min_exact"

  // ---------------------------------------------------------------------------------------
  // Names

  /** The shared rule of both name fields: trimmed, a name is required and must match
      NAME_REGEX. Whenever the letter class is a letter class, the names accepted are exactly
      the trimmed values shaped like names. */
  function Name(t: Translate, isLetter: char -> bool, requiredKey: string, v: string): (r: Option<string>)
    ensures Text.Trim(v) == "" ==> r == Some(t(requiredKey))
    ensures Text.Trim(v) != "" && !MatchesName(isLetter, Text.Trim(v)) ==> r == Some(t(NameInvalid))
    ensures LetterClass(isLetter) ==> (r.None? <==> NameShaped(isLetter, Text.Trim(v)))
  {
    var val := Text.Trim(v);
    assert LetterClass(isLetter) ==> (MatchesName(isLetter, val) <==> NameShaped(isLetter, val)) by {
      if LetterClass(isLetter) { MatchesNameIff(isLetter, val); }
    }
    if val == "" then Some(t(requiredKey))
    else if !MatchesName(isLetter, val) then Some(t(NameInvalid))
    else None
  }

  function FirstName(t: Translate, isLetter: char -> bool, v: string): (r: Option<string>)
    ensures Text.Trim(v) == "" ==> r == Some(t(FirstNameRequired))
    ensures Text.Trim(v) != "" && !MatchesName(isLetter, Text.Trim(v)) ==> r == Some(t(NameInvalid))
    ensures LetterClass(isLetter) ==> (r.None? <==> NameShaped(isLetter, Text.Trim(v)))
  {
    Name(t, isLetter, FirstNameRequired, v)
  }

  function LastName(t: Translate, isLetter: char -> bool, v: string): (r: Option<string>)
    ensures Text.Trim(v) == "" ==> r == Some(t(LastNameRequired))
    ensures Text.Trim(v) != "" && !MatchesName(isLetter, Text.Trim(v)) ==> r == Some(t(NameInvalid))
    ensures LetterClass(isLetter) ==> (r.None? <==> NameShaped(isLetter, Text.Trim(v)))
  {
    Name(t, isLetter, LastNameRequired, v)
  }

  /** Every name, with any whitespace around it, passes both name validators. */
  lemma PaddedNamesPass(t: Translate, isLetter: char -> bool, left: string, name: string, right: string)
    requires LetterClass(isLetter)
    requires MatchesName(isLetter, name)
    requires Text.AllWhitespace(left) && Text.AllWhitespace(right)
    ensures FirstName(t, isLetter, left + name + right) == None
    ensures LastName(t, isLetter, left + name + right) == None
  {
    NameBoundaries(isLetter, name);
    Text.TrimPadded(left, name, right);
  }

  /** A blank first name is reported as missing; a run of digits as invalid. */
  lemma BlankAndDigitNames(t: Translate, isLetter: char -> bool, blank: string, digits: string)
    requires LetterClass(isLetter)
    requires Text.AllWhitespace(blank)
    requires digits != "" && Text.AllDigits(digits)
    ensures FirstName(t, isLetter, blank) == Some(t(FirstNameRequired))
    ensures FirstName(t, isLetter, digits) == Some(t(NameInvalid))
  {
    BlankNameMissing(t, isLetter, blank);
    DigitNameInvalid(t, isLetter, digits);
  }

  /** A whitespace-only first name is reported as missing. */
  lemma BlankNameMissing(t: Translate, isLetter: char -> bool, blank: string)
    requires Text.AllWhitespace(blank)
    ensures FirstName(t, isLetter, blank) == Some(t(FirstNameRequired))
  {
    Text.TrimAllWhitespace(blank);
  }

  /** A first name made of digits is reported as invalid. */
  lemma DigitNameInvalid(t: Translate, isLetter: char -> bool, digits: string)
    requires LetterClass(isLetter)
    requires digits != "" && Text.AllDigits(digits)
    ensures FirstName(t, isLetter, digits) == Some(t(NameInvalid))
  {
    assert Text.IsDigit(digits[0]) && Text.IsDigit(digits[|digits| - 1]);
    Text.TrimUntouched(digits);
    assert !isLetter(digits[0]);
    assert !MatchesName(isLetter, digits);
  }

  // ---------------------------------------------------------------------------------------
  // Smoking

  function SmokeAnswer(t: Translate, v: Smoke): (r: Option<string>)
    ensures r.Some? <==> v == Unanswered
    ensures r.Some? ==> r == Some(t(SmokeRequired))
  {
    if v == Unanswered then Some(t(SmokeRequired)) else None
  }

  /** JavaScript's `n < c` and `n > c`: false whenever `n` is NaN. */
  predicate LessThan(n: JsNumber, c: real) {
    n.Finite? && n.value < c
  }

  predicate GreaterThan(n: JsNumber, c: real) {
    n.Finite? && n.value > c
  }

  /** The cigarette count is only checked for a smoker; it must then be given, at least 0
      (NaN counts as below it) and at most 30. */
  function CigarettesPerDay(t: Translate, v: NumberInput, smoker: bool): (r: Option<string>)
    ensures !smoker ==> r == None
    ensures smoker && v == Blank ==> r == Some(t(CpdRequired))
    ensures smoker && v.Number? && (v.n.NaN? || LessThan(v.n, 0.0)) ==> r == Some(t(CpdMin))
    ensures smoker && v.Number? && GreaterThan(v.n, 30.0) ==> r == Some(t(CpdMax))
    ensures r == None <==> !smoker || (v.Number? && v.n.Finite? && 0.0 <= v.n.value <= 30.0)
  {
    if !smoker then None
    else match v
      case Blank => Some(t(CpdRequired))
      case Number(n) =>
        if n.NaN? || LessThan(n, 0.0) then Some(t(CpdMin))
        else if GreaterThan(n, 30.0) then Some(t(CpdMax))
        else None
  }

  /** The rule of height and weight: required, then at least `lo`, then at most `hi`. The
      comparisons are JavaScript's, so a NaN passes both bounds. */
  function Bounded(t: Translate, v: NumberInput, lo: real, hi: real,
                   requiredKey: string, minKey: string, maxKey: string): (r: Option<string>)
    requires lo <= hi
    ensures v == Blank ==> r == Some(t(requiredKey))
    ensures v.Number? && LessThan(v.n, lo) ==> r == Some(t(minKey))
    ensures v.Number? && GreaterThan(v.n, hi) ==> r == Some(t(maxKey))
    ensures r == None <==> v == Number(NaN) || (v.Number? && v.n.Finite? && lo <= v.n.value <= hi)
  {
    match v
    case Blank => Some(t(requiredKey))
    case Number(n) =>
      if LessThan(n, lo) then Some(t(minKey))
      else if GreaterThan(n, hi) then Some(t(maxKey))
      else None
  }

  function Height(t: Translate, v: NumberInput): (r: Option<string>)
    ensures v == Blank ==> r == Some(t(HeightRequired))
    ensures v.Number? && LessThan(v.n, 50.0) ==> r == Some(t(HeightMin))
    ensures v.Number? && GreaterThan(v.n, 250.0) ==> r == Some(t(HeightMax))
    ensures r == None <==> v == Number(NaN) || (v.Number? && v.n.Finite? && 50.0 <= v.n.value <= 250.0)
  {
    Bounded(t, v, 50.0, 250.0, HeightRequired, HeightMin, HeightMax)
  }

  function Weight(t: Translate, v: NumberInput): (r: Option<string>)
    ensures v == Blank ==> r == Some(t(WeightRequired))
    ensures v.Number? && LessThan(v.n, 2.0) ==> r == Some(t(WeightMin))
    ensures v.Number? && GreaterThan(v.n, 300.0) ==> r == Some(t(WeightMax))
    ensures r == None <==> v == Number(NaN) || (v.Number? && v.n.Finite? && 2.0 <= v.n.value <= 300.0)
  {
    Bounded(t, v, 2.0, 300.0, WeightRequired, WeightMin, WeightMax)
  }

  // ---------------------------------------------------------------------------------------
  // Date of birth

  lemma BeforeTransitive(a: Moment, b: Moment, c: Moment)
    requires Before(a, b) && Before(b, c)
    ensures Before(a, c)
  {
  }

  /** The date of birth is required, must not lie after `now`, not before `yearsAgo(100)` and
      not after `yearsAgo(1)`, checked in that order. The dates it accepts are exactly those from
      `yearsAgo(100)` to `yearsAgo(1)`, both included; a date after `now` is reported as lying in
      the future although it also lies after `yearsAgo(1)`. */
  function Dob(t: Translate, now: Moment, v: Option<Moment>): (r: Option<string>)
    requires now.Valid()
    ensures v.None? ==> r == Some(t(DobRequired))
    ensures v.Some? && Before(now, v.value) ==> r == Some(t(DobFuture))
    ensures (v.Some? && !Before(now, v.value) && Before(v.value, ShiftYears(now, 100))) ==>
              r == Some(t(AgeMax))
    ensures (v.Some? && !Before(now, v.value) && !Before(v.value, ShiftYears(now, 100)) &&
             Before(ShiftYears(now, 1), v.value)) ==> r == Some(t(AgeMinExact))
    ensures r == None <==> v.Some? && !Before(v.value, ShiftYears(now, 100)) &&
                           !Before(ShiftYears(now, 1), v.value)
  {
    match v
    case None => Some(t(DobRequired))
    case Some(d) =>
      var minDob := ShiftYears(now, 100);
      var maxDob := ShiftYears(now, 1);
      ShiftYearsOrder(now, 0, 1);
      if Before(now, d) then
        BeforeTransitive(maxDob, now, d);
        Some(t(DobFuture))
      else if Before(d, minDob) then Some(t(AgeMax))
      else if Before(maxDob, d) then Some(t(AgeMinExact))
      else None
  }

  /** A person born at midnight exactly one year before today passes; one born the next day is
      reported as too young. */
  lemma DobOneYearBoundary(t: Translate, now: Moment)
    requires now.Valid()
    ensures Dob(t, now, Some(Moment(ShiftYears(now, 1).date, 0))) == None
    ensures Dob(t, now, Some(Moment(NextDay(ShiftYears(now, 1).date), 0))) == Some(t(AgeMinExact))
  {
    ShiftYearsCalendar(now, 1);
    ShiftYearsCalendar(now, 100);
    var last := ShiftYears(now, 1).date;
    var next := NextDay(last);
    assert next.year == now.date.year ==> last.month == 12 && last.day == 31;
    assert next.year == now.date.year ==> now.date.month == 12 && now.date.day == 31;
    assert !Before(now, Moment(next, 0));
  }
}
