/** The prefill reconciler (code/frontend/helpers/form/prefill.ts): it copies the fields an
    extraction payload carries onto the form, each logical field looked up under a fixed
    priority of alternative keys, and counts the fields it applied.

    The setter callbacks become updates of a `FormState` record: every `Prefill...` method takes
    the state before and returns the state after together with its count. The functions
    `...Value` give, for one field, the value the prefill writes, or `None` when it writes
    nothing; `PrefillState` and `PrefillCount` compose them into the whole of `prefillAll`. */
module Prefill {
  import opened Wrappers
  import opened FormTypes
  import opened FormDates
  import Text

  /** `PrefillPayload`: every key is optional. */
  datatype Payload = Payload(
    first_name: Option<string>, firstName: Option<string>,
    last_name: Option<string>, lastName: Option<string>,
    smokes: Option<bool>, smoke: Option<string>,
    cigarettes_per_day: Option<JsNumber>, cigarettesPerDay: Option<JsNumber>,
    height_cm: Option<JsNumber>, height: Option<JsNumber>,
    weight_kg: Option<JsNumber>, weight: Option<JsNumber>,
    date_of_birth: Option<string>, dob: Option<string>,
    sports: Option<seq<string>>)

  /** The payload with no key at all. */
  const EmptyPayload := Payload(None, None, None, None, None, None, None, None, None, None,
                                None, None, None, None, None)

  /** The form fields the setters write. */
  datatype FormState = FormState(
    firstName: string, lastName: string,
    smoke: Smoke,
    cigarettesPerDay: NumberInput,
    height: NumberInput, weight: NumberInput,
    dob: Option<Moment>,
    sports: seq<SportEntry>)

  /** JavaScript truthiness of an optional string: present and not "". */
  predicate Truthy(s: Option<string>) {
    s.Some? && s.value != ""
  }

  /** JavaScript's `a ?? b`. */
  function Coalesce<T>(a: Option<T>, b: Option<T>): (r: Option<T>)
    ensures a.Some? ==> r == a
    ensures a.None? ==> r == b
  {
    if a.Some? then a else b
  }

  /** 1 when a value is written, 0 otherwise. */
  function Applied<T>(v: Option<T>): (n: nat)
    ensures n <= 1 && (n == 1 <==> v.Some?)
  {
    if v.Some? then 1 else 0
  }

  // ---------------------------------------------------------------------------------------
  // What each field receives

  /** A name is written when either key holds a non-empty string; the value written is the
      snake-case key's when that key is present at all (even as ""), else the camel-case key's,
      trimmed. */
  function NameValue(snake: Option<string>, camel: Option<string>): (r: Option<string>)
    ensures r.Some? <==> Truthy(snake) || Truthy(camel)
    ensures r.Some? && snake.Some? ==> r.value == Text.Trim(snake.value)
    ensures r.Some? && snake.None? ==> r.value == Text.Trim(camel.value)
    ensures r.Some? ==> Text.Trim(r.value) == r.value
  {
    if Truthy(snake) || Truthy(camel) then
      var v := Text.Trim(Coalesce(snake, camel).GetOr(""));
      Text.TrimIdempotent(Coalesce(snake, camel).GetOr(""));
      Some(v)
    else None
  }

  /** A boolean `smokes` wins and maps to "yes" or "no"; otherwise a `smoke` of "yes" or "no"
      is taken as it is, and any other value writes nothing. */
  function SmokeValue(smokes: Option<bool>, smoke: Option<string>): (r: Option<Smoke>)
    ensures smokes.Some? ==> r == Some(if smokes.value then Yes else No)
    ensures smokes.None? ==> (r.Some? <==> smoke == Some("yes") || smoke == Some("no"))
    ensures smokes.None? && r.Some? ==> r.value.Value() == smoke
    ensures r.Some? ==> r.value != Unanswered
  {
    match smokes
    case Some(b) => Some(if b then Yes else No)
    case None =>
      if smoke == Some("yes") then Some(Yes)
      else if smoke == Some("no") then Some(No)
      else None
  }

  /** A number field takes the first of its two keys that is not null (`Number(n)` is `n` for
      a number). */
  function NumberValue(primary: Option<JsNumber>, alternate: Option<JsNumber>): (r: Option<NumberInput>)
    ensures r.Some? <==> primary.Some? || alternate.Some?
    ensures primary.Some? ==> r == Some(Number(primary.value))
    ensures primary.None? && alternate.Some? ==> r == Some(Number(alternate.value))
  {
    match Coalesce(primary, alternate)
    case Some(n) => Some(Number(n))
    case None => None
  }

  /** `names.map((name) => ({ name, level: "hobby" }))`. */
  function HobbyEntries(names: seq<string>): (entries: seq<SportEntry>)
    ensures |entries| == |names|
    ensures forall i :: 0 <= i < |names| ==> entries[i] == SportEntry(names[i], Hobby)
    decreases |names|
  {
    if names == [] then [] else [SportEntry(names[0], Hobby)] + HobbyEntries(names[1..])
  }

  /** The names of a list of sport entries, in order. */
  function SportNames(entries: seq<SportEntry>): (names: seq<string>)
    ensures |names| == |entries|
    ensures forall i :: 0 <= i < |entries| ==> names[i] == entries[i].name
    decreases |entries|
  {
    if entries == [] then [] else [entries[0].name] + SportNames(entries[1..])
  }

  /** A non-empty `sports` array is written as hobby entries; an empty or missing one is not. */
  function SportsValue(sports: Option<seq<string>>): (r: Option<seq<SportEntry>>)
    ensures r.Some? <==> sports.Some? && |sports.value| > 0
    ensures r.Some? ==> SportNames(r.value) == sports.value
    ensures r.Some? ==> forall i :: 0 <= i < |r.value| ==> r.value[i].level == Hobby
  {
    if sports.Some? && |sports.value| > 0 then
      var entries := HobbyEntries(sports.value);
      assert SportNames(entries) == sports.value;
      Some(entries)
    else None
  }

  /** The date of birth is read from `date_of_birth ?? dob`, and written only when the text is
      non-empty and parses. */
  function DobValue(fallback: FallbackParser, date_of_birth: Option<string>, dob: Option<string>): (r: Option<Moment>)
    ensures r == ParseLooseDob(fallback, Coalesce(date_of_birth, dob))
  {
    var raw := Coalesce(date_of_birth, dob);
    if !Truthy(raw) then
      ParseNothing(fallback);
      None
    else ParseLooseDob(fallback, raw)
  }

  // ---------------------------------------------------------------------------------------
  // The six prefill steps

  /** `prefillNames` */
  method PrefillNames(data: Payload, st: FormState) returns (st': FormState, applied: nat)
    ensures st' == st.(firstName := NameValue(data.first_name, data.firstName).GetOr(st.firstName),
                       lastName := NameValue(data.last_name, data.lastName).GetOr(st.lastName))
    ensures applied == Applied(NameValue(data.first_name, data.firstName)) +
                       Applied(NameValue(data.last_name, data.lastName))
  {
    st' := st;
    applied := 0;
    if Truthy(data.first_name) || Truthy(data.firstName) {
      st' := st'.(firstName := Text.Trim(Coalesce(data.first_name, data.firstName).GetOr("")));
      applied := applied + 1;
    }
    if Truthy(data.last_name) || Truthy(data.lastName) {
      st' := st'.(lastName := Text.Trim(Coalesce(data.last_name, data.lastName).GetOr("")));
      applied := applied + 1;
    }
  }

  /** `prefillSmoking` */
  method PrefillSmoking(data: Payload, st: FormState) returns (st': FormState, applied: nat)
    ensures st' == st.(smoke := SmokeValue(data.smokes, data.smoke).GetOr(st.smoke))
    ensures applied == Applied(SmokeValue(data.smokes, data.smoke))
  {
    st' := st;
    applied := 0;
    if data.smokes.Some? {
      st' := st'.(smoke := if data.smokes.value then Yes else No);
      applied := applied + 1;
    } else if data.smoke == Some("yes") || data.smoke == Some("no") {
      st' := st'.(smoke := if data.smoke == Some("yes") then Yes else No);
      applied := applied + 1;
    }
  }

  /** `prefillCPD` */
  method PrefillCigarettes(data: Payload, st: FormState) returns (st': FormState, applied: nat)
    ensures st' == st.(cigarettesPerDay := NumberValue(data.cigarettes_per_day, data.cigarettesPerDay)
                                              .GetOr(st.cigarettesPerDay))
    ensures applied == Applied(NumberValue(data.cigarettes_per_day, data.cigarettesPerDay))
  {
    st' := st;
    applied := 0;
    if data.cigarettes_per_day.Some? {
      st' := st'.(cigarettesPerDay := Number(data.cigarettes_per_day.value));
      applied := applied + 1;
    } else if data.cigarettesPerDay.Some? {
      st' := st'.(cigarettesPerDay := Number(data.cigarettesPerDay.value));
      applied := applied + 1;
    }
  }

  /** `prefillMetrics` */
  method PrefillMetrics(data: Payload, st: FormState) returns (st': FormState, applied: nat)
    ensures st' == st.(height := NumberValue(data.height_cm, data.height).GetOr(st.height),
                       weight := NumberValue(data.weight_kg, data.weight).GetOr(st.weight))
    ensures applied == Applied(NumberValue(data.height_cm, data.height)) +
                       Applied(NumberValue(data.weight_kg, data.weight))
  {
    st' := st;
    applied := 0;
    if data.height_cm.Some? {
      st' := st'.(height := Number(data.height_cm.value));
      applied := applied + 1;
    } else if data.height.Some? {
      st' := st'.(height := Number(data.height.value));
      applied := applied + 1;
    }
    if data.weight_kg.Some? {
      st' := st'.(weight := Number(data.weight_kg.value));
      applied := applied + 1;
    } else if data.weight.Some? {
      st' := st'.(weight := Number(data.weight.value));
      applied := applied + 1;
    }
  }

  /** `prefillSports` */
  method PrefillSports(data: Payload, st: FormState) returns (st': FormState, applied: nat)
    ensures st' == st.(sports := SportsValue(data.sports).GetOr(st.sports))
    ensures applied == Applied(SportsValue(data.sports))
  {
    st' := st;
    applied := 0;
    if data.sports.Some? && |data.sports.value| > 0 {
      st' := st'.(sports := HobbyEntries(data.sports.value));
      applied := applied + 1;
    }
  }

  /** `prefillDob` */
  method PrefillDob(fallback: FallbackParser, data: Payload, st: FormState) returns (st': FormState, applied: nat)
    ensures DobValue(fallback, data.date_of_birth, data.dob).Some? ==>
              st' == st.(dob := DobValue(fallback, data.date_of_birth, data.dob))
    ensures DobValue(fallback, data.date_of_birth, data.dob).None? ==> st' == st
    ensures applied == Applied(DobValue(fallback, data.date_of_birth, data.dob))
  {
    var rawDob := Coalesce(data.date_of_birth, data.dob);
    if !Truthy(rawDob) {
      ParseNothing(fallback);
      return st, 0;
    }
    var parsed := ParseLooseDob(fallback, rawDob);
    if parsed.Some? {
      return st.(dob := parsed), 1;
    }
    return st, 0;
  }

  // ---------------------------------------------------------------------------------------
  // prefillAll

  /** The form after `prefillAll`: each field holds the value its keys provide, or its old
      value when they provide none. */
  function PrefillState(fallback: FallbackParser, data: Payload, st: FormState): (r: FormState)
    ensures NameValue(data.first_name, data.firstName).None? ==> r.firstName == st.firstName
    ensures NameValue(data.last_name, data.lastName).None? ==> r.lastName == st.lastName
    ensures SmokeValue(data.smokes, data.smoke).None? ==> r.smoke == st.smoke
    ensures NumberValue(data.cigarettes_per_day, data.cigarettesPerDay).None? ==>
              r.cigarettesPerDay == st.cigarettesPerDay
    ensures NumberValue(data.height_cm, data.height).None? ==> r.height == st.height
    ensures NumberValue(data.weight_kg, data.weight).None? ==> r.weight == st.weight
    ensures DobValue(fallback, data.date_of_birth, data.dob).None? ==> r.dob == st.dob
    ensures SportsValue(data.sports).None? ==> r.sports == st.sports
  {
    FormState(
      NameValue(data.first_name, data.firstName).GetOr(st.firstName),
      NameValue(data.last_name, data.lastName).GetOr(st.lastName),
      SmokeValue(data.smokes, data.smoke).GetOr(st.smoke),
      NumberValue(data.cigarettes_per_day, data.cigarettesPerDay).GetOr(st.cigarettesPerDay),
      NumberValue(data.height_cm, data.height).GetOr(st.height),
      NumberValue(data.weight_kg, data.weight).GetOr(st.weight),
      match DobValue(fallback, data.date_of_birth, data.dob)
        case Some(d) => Some(d)
        case None => st.dob,
      SportsValue(data.sports).GetOr(st.sports))
  }

  /** The count `prefillAll` returns: one for every field written. It does not depend on the
      state the form was in. */
  function PrefillCount(fallback: FallbackParser, data: Payload): (n: nat)
    ensures n <= 8
  {
    Applied(NameValue(data.first_name, data.firstName)) +
    Applied(NameValue(data.last_name, data.lastName)) +
    Applied(SmokeValue(data.smokes, data.smoke)) +
    Applied(NumberValue(data.cigarettes_per_day, data.cigarettesPerDay)) +
    Applied(NumberValue(data.height_cm, data.height)) +
    Applied(NumberValue(data.weight_kg, data.weight)) +
    Applied(DobValue(fallback, data.date_of_birth, data.dob)) +
    Applied(SportsValue(data.sports))
  }

  /** `prefillAll`: the six steps in the source's order, their counts added up. */
  method PrefillAll(fallback: FallbackParser, data: Payload, st: FormState) returns (st': FormState, applied: nat)
    ensures st' == PrefillState(fallback, data, st)
    ensures applied == PrefillCount(fallback, data)
    ensures applied <= 8
  {
    var n: nat;
    applied := 0;
    st' := st;
    st', n := PrefillNames(data, st');
    applied := applied + n;
    st', n := PrefillSmoking(data, st');
    applied := applied + n;
    st', n := PrefillCigarettes(data, st');
    applied := applied + n;
    st', n := PrefillMetrics(data, st');
    applied := applied + n;
    st', n := PrefillDob(fallback, data, st');
    applied := applied + n;
    st', n := PrefillSports(data, st');
    applied := applied + n;
  }

  // ---------------------------------------------------------------------------------------
  // Properties

  /** The snake-case key wins whenever it holds a name; the camel-case key is used only when
      the snake-case key is missing. */
  lemma NamePriority(snake: Option<string>, camel: Option<string>)
    ensures Truthy(snake) ==> NameValue(snake, camel) == Some(Text.Trim(snake.value))
    ensures snake.None? && Truthy(camel) ==> NameValue(snake, camel) == Some(Text.Trim(camel.value))
    ensures !Truthy(snake) && !Truthy(camel) ==> NameValue(snake, camel) == None
  {
  }

  /** A snake-case key present as "" hides a camel-case name: the field is set to "" and still
      counted. */
  lemma EmptySnakeNameHidesCamel(camel: string)
    requires camel != ""
    ensures NameValue(Some(""), Some(camel)) == Some("")
  {
    Text.TrimUntouched("");
  }

  /** Likewise a `date_of_birth` present as "" hides `dob`, and nothing is written. */
  lemma EmptyDateOfBirthHidesDob(fallback: FallbackParser, dob: string)
    ensures DobValue(fallback, Some(""), Some(dob)) == None
  {
    ParseNothing(fallback);
  }

  /** A non-empty sports list is written name by name, in order, each at the hobby level. */
  lemma SportsKeepNames(names: seq<string>)
    requires |names| > 0
    ensures SportsValue(Some(names)).Some?
    ensures |SportsValue(Some(names)).value| == |names|
    ensures forall i :: 0 <= i < |names| ==>
              SportsValue(Some(names)).value[i] == SportEntry(names[i], Hobby)
  {
    var entries := SportsValue(Some(names)).value;
    assert SportNames(entries) == names;
  }

  /** Each entry a `sports` list is written as is named after the element it comes from. */
  lemma {:induction false} HobbyEntriesNames(names: seq<string>)
    ensures SportNames(HobbyEntries(names)) == names
    decreases |names|
  {
    if names != [] {
      HobbyEntriesNames(names[1..]);
    }
  }

  /** Nothing is written, and nothing counted, for a payload without keys. */
  lemma EmptyPayloadChangesNothing(fallback: FallbackParser, st: FormState)
    ensures PrefillState(fallback, EmptyPayload, st) == st
    ensures PrefillCount(fallback, EmptyPayload) == 0
  {
    ParseNothing(fallback);
  }

  /** A payload that writes nothing counts zero, and one that counts zero writes nothing. */
  lemma CountZeroIffNothingWritten(fallback: FallbackParser, data: Payload, st: FormState)
    ensures PrefillCount(fallback, data) == 0 ==> PrefillState(fallback, data, st) == st
    ensures PrefillCount(fallback, data) == 0 <==>
              (forall st0: FormState :: PrefillState(fallback, data, st0) == st0)
  {
    if forall st0: FormState :: PrefillState(fallback, data, st0) == st0 {
      var a := FormState("", "", Unanswered, Blank, Blank, Blank, None, []);
      var b := FormState("x", "x", Yes, Number(NaN), Number(NaN), Number(NaN),
                         Some(Moment(CalendarDate(2000, 1, 1), 0)), [SportEntry("", Hobby)]);
      assert PrefillState(fallback, data, a) == a;
      assert PrefillState(fallback, data, b) == b;
      NoValueWhenFixed(fallback, data, a, b);
    }
  }

  /** A field whose value is the same from two states that differ in it was not written. */
  lemma NoValueWhenFixed(fallback: FallbackParser, data: Payload, a: FormState, b: FormState)
    requires a.firstName != b.firstName && a.lastName != b.lastName && a.smoke != b.smoke
    requires a.cigarettesPerDay != b.cigarettesPerDay && a.height != b.height && a.weight != b.weight
    requires a.dob != b.dob && a.sports != b.sports
    requires PrefillState(fallback, data, a) == a && PrefillState(fallback, data, b) == b
    ensures PrefillCount(fallback, data) == 0
  {
  }

  /** Prefilling twice with the same payload gives the state prefilling once gives. */
  lemma PrefillIdempotent(fallback: FallbackParser, data: Payload, st: FormState)
    ensures PrefillState(fallback, data, PrefillState(fallback, data, st)) == PrefillState(fallback, data, st)
  {
  }
}
