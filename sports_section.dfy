/** The list operations of the sports section of the form
    (code/frontend/app/components/form/SportsSection.tsx). Each handler builds a new list from
    the current one and hands it to `setSports`; nothing is changed in place, so each is a
    function from the list before to the list after. */
module SportsSection {
  import opened Wrappers
  import opened FormTypes

  /** The entry the add button appends. */
  const NewEntry := SportEntry("", Hobby)

  /** `addSport()`: the list with one blank hobby entry at its end. */
  function AddSport(sports: seq<SportEntry>): (r: seq<SportEntry>)
    ensures |r| == |sports| + 1
    ensures r[..|sports|] == sports
    ensures r[|sports|] == NewEntry
  {
    sports + [NewEntry]
  }

  /** `removeSport(i)`: `sports.filter((_, idx) => idx !== i)`, the elements whose index is
      not `i`. Written as the filter walks the list: `i` is the index still to be skipped,
      counted from the head of what is left. */
  function RemoveSport(sports: seq<SportEntry>, i: int): (r: seq<SportEntry>)
    ensures 0 <= i < |sports| ==> r == sports[..i] + sports[i + 1..]
    ensures !(0 <= i < |sports|) ==> r == sports
    decreases |sports|
  {
    if sports == [] then []
    else if i == 0 then RemoveSport(sports[1..], i - 1)
    else
      var tail := RemoveSport(sports[1..], i - 1);
      assert 0 < i <= |sports| - 1 ==> sports[..i] + sports[i + 1..] == [sports[0]] + (sports[1..][..i - 1] + sports[1..][i..]);
      [sports[0]] + tail
  }

  /** A partial entry: the fields an update overrides (`Partial<SportEntry>`). */
  datatype SportPatch = SportPatch(name: Option<string>, level: Option<Level>)

  /** `{ ...row, ...patch }`: the patched fields replaced, the others kept. */
  function Patched(row: SportEntry, patch: SportPatch): (r: SportEntry)
    ensures r.name == (if patch.name.Some? then patch.name.value else row.name)
    ensures r.level == (if patch.level.Some? then patch.level.value else row.level)
  {
    SportEntry(patch.name.GetOr(row.name), patch.level.GetOr(row.level))
  }

  /** `updateSport(i, patch)`: `sports.map((row, idx) => idx === i ? { ...row, ...patch } : row)`,
      walked like `RemoveSport`. */
  function UpdateSport(sports: seq<SportEntry>, i: int, patch: SportPatch): (r: seq<SportEntry>)
    ensures |r| == |sports|
    ensures forall j :: 0 <= j < |sports| && j != i ==> r[j] == sports[j]
    ensures 0 <= i < |sports| ==> r[i] == Patched(sports[i], patch)
    decreases |sports|
  {
    if sports == [] then []
    else
      var head := if i == 0 then Patched(sports[0], patch) else sports[0];
      [head] + UpdateSport(sports[1..], i - 1, patch)
  }

  /** The level select's `onChange`: a cleared select (`null`) stands for "hobby". */
  function LevelOrDefault(v: Option<Level>): (l: Level)
    ensures v.None? ==> l == Hobby
    ensures v.Some? ==> l == v.value
  {
    v.GetOr(Hobby)
  }

  /** What the user can do in the section: the add button, and per rendered row `i` a name
      change, a level selection and the remove button. */
  datatype Action =
    | Add
    | Rename(i: int, name: string)
    | SelectLevel(i: int, v: Option<Level>)
    | Remove(i: int)

  /** An action the rendered section can issue: row actions name a rendered row, and the remove
      button is disabled while the list has exactly one entry. */
  predicate Enabled(sports: seq<SportEntry>, a: Action)
    ensures Enabled(sports, a) && a.Remove? ==> |sports| >= 2
  {
    match a
    case Add => true
    case Rename(i, _) => 0 <= i < |sports|
    case SelectLevel(i, _) => 0 <= i < |sports|
    case Remove(i) => 0 <= i < |sports| && |sports| != 1
  }

  /** The list after one action; an action that is not enabled does nothing. */
  function Step(sports: seq<SportEntry>, a: Action): (r: seq<SportEntry>)
    ensures !Enabled(sports, a) ==> r == sports
    ensures a.Remove? && Enabled(sports, a) ==> |r| == |sports| - 1
    ensures !a.Remove? ==> |r| >= |sports|
    ensures |r| <= |sports| + 1
  {
    if !Enabled(sports, a) then sports
    else match a
      case Add => AddSport(sports)
      case Rename(i, name) => UpdateSport(sports, i, SportPatch(Some(name), None))
      case SelectLevel(i, v) => UpdateSport(sports, i, SportPatch(None, Some(LevelOrDefault(v))))
      case Remove(i) => RemoveSport(sports, i)
  }

  /** The list after a sequence of actions, first to last. */
  function Run(sports: seq<SportEntry>, actions: seq<Action>): (r: seq<SportEntry>)
    ensures |r| <= |sports| + |actions|
    ensures actions == [] ==> r == sports
    decreases |actions|
  {
    if actions == [] then sports else Run(Step(sports, actions[0]), actions[1..])
  }

  /** A single step never removes the last entry. */
  lemma StepKeepsAnEntry(sports: seq<SportEntry>, a: Action)
    requires |sports| >= 1
    ensures |Step(sports, a)| >= 1
  {
  }

  /** A list with at least one entry keeps at least one through any sequence of actions. */
  lemma {:induction false} RunKeepsAnEntry(sports: seq<SportEntry>, actions: seq<Action>)
    requires |sports| >= 1
    ensures |Run(sports, actions)| >= 1
    decreases |actions|
  {
    if actions != [] {
      StepKeepsAnEntry(sports, actions[0]);
      RunKeepsAnEntry(Step(sports, actions[0]), actions[1..]);
    }
  }

  /** Removing a row just added gives back the list before the add. */
  lemma RemoveUndoesAdd(sports: seq<SportEntry>)
    ensures RemoveSport(AddSport(sports), |sports|) == sports
  {
    assert AddSport(sports)[..|sports|] == sports;
  }

  /** An update with an empty patch changes nothing; an update that writes back the entry's
      own fields changes nothing. */
  lemma UpdateWithoutChange(sports: seq<SportEntry>, i: int)
    ensures UpdateSport(sports, i, SportPatch(None, None)) == sports
    ensures 0 <= i < |sports| ==>
              UpdateSport(sports, i, SportPatch(Some(sports[i].name), Some(sports[i].level))) == sports
  {
  }

  /** Renaming row `i` twice keeps only the second name. */
  lemma RenameTwice(sports: seq<SportEntry>, i: int, a: string, b: string)
    ensures UpdateSport(UpdateSport(sports, i, SportPatch(Some(a), None)), i, SportPatch(Some(b), None)) ==
            UpdateSport(sports, i, SportPatch(Some(b), None))
  {
  }

  /** Clearing the level select of row `i` sets that row to the hobby level. */
  lemma ClearLevelIsHobby(sports: seq<SportEntry>, i: int)
    requires 0 <= i < |sports|
    ensures Step(sports, SelectLevel(i, None))[i] == SportEntry(sports[i].name, Hobby)
  {
  }
}
