/** The value types of the insurance form (code/frontend/helpers/form/types.ts) and the
    language of `NAME_REGEX`, `^\p{L}+(?:[ '\-]\p{L}+)*$`: runs of letters joined by a single
    space, apostrophe or hyphen. */
module FormTypes {
  import opened Wrappers
  import Text

  /** The smoker answer: "yes", "no", or not answered yet (`null`). */
  datatype Smoke = Yes | No | Unanswered {
    /** The value the form stores for the answer. */
    function Value(): Option<string> {
      match this
      case Yes => Some("yes")
      case No => Some("no")
      case Unanswered => None
    }
  }

  /** How a sport is practised. */
  datatype Level = Hobby | Competitive {
    function Value(): string {
      match this
      case Hobby => "hobby"
      case Competitive => "competitive"
    }
  }

  datatype SportEntry = SportEntry(name: string, level: Level)

  /** A JavaScript number: NaN, or a finite value (infinities are not modelled). */
  datatype JsNumber = NaN | Finite(value: real)

  /** The value of a numeric form field, `number | ""`: empty, or a number. */
  datatype NumberInput = Blank | Number(n: JsNumber)

  /** The three answers are stored as three different values, and there are no others. */
  lemma SmokeValues(s: Smoke, s': Smoke)
    ensures s.Value() == s'.Value() ==> s == s'
    ensures s.Value() in {Some("yes"), Some("no"), None}
  {
  }

  /** The two levels are stored as two different values, and there are no others. */
  lemma LevelValues(l: Level, l': Level)
    ensures l.Value() == l'.Value() ==> l == l'
    ensures l.Value() in {"hobby", "competitive"}
  {
  }

  // ---------------------------------------------------------------------------------------
  // NAME_REGEX. The Unicode letter class \p{L} is a parameter `isLetter`; all the grammar
  // needs to know of it is that a letter is neither a separator, nor whitespace, nor a digit.

  predicate IsNameSeparator(c: char) {
    c == ' ' || c == '\'' || c == '-'
  }

  ghost predicate LetterClass(isLetter: char -> bool) {
    forall c :: isLetter(c) ==> !IsNameSeparator(c) && !Text.IsWhitespace(c) && !Text.IsDigit(c)
  }

  /** `NAME_REGEX.test(s)`: a letter, then what may follow a letter. */
  predicate MatchesName(isLetter: char -> bool, s: string)
    ensures MatchesName(isLetter, s) ==> |s| > 0 && isLetter(s[0]) && isLetter(s[|s| - 1])
  {
    |s| > 0 && isLetter(s[0]) && MatchesAfterLetter(isLetter, s[1..])
  }

  /** What may follow a letter in `\p{L}+(?:[ '\-]\p{L}+)*$`: the end, another letter, or one
      separator and a letter. */
  predicate MatchesAfterLetter(isLetter: char -> bool, s: string)
    ensures MatchesAfterLetter(isLetter, s) && s != [] ==> isLetter(s[|s| - 1])
    decreases |s|
  {
    s == [] ||
    (isLetter(s[0]) && MatchesAfterLetter(isLetter, s[1..])) ||
    (|s| >= 2 && IsNameSeparator(s[0]) && isLetter(s[1]) && MatchesAfterLetter(isLetter, s[2..]))
  }

  /** Only letters and separators, no two separators side by side. */
  ghost predicate LettersAndSingleSeparators(isLetter: char -> bool, s: string) {
    && (forall i :: 0 <= i < |s| ==> isLetter(s[i]) || IsNameSeparator(s[i]))
    && (forall i :: 0 <= i < |s| - 1 ==> !(IsNameSeparator(s[i]) && IsNameSeparator(s[i + 1])))
  }

  /** The shape of a name, stated without the grammar: non-empty, starting and ending with a
      letter, letters and single separators in between. */
  ghost predicate NameShaped(isLetter: char -> bool, s: string) {
    |s| > 0 && isLetter(s[0]) && isLetter(s[|s| - 1]) && LettersAndSingleSeparators(isLetter, s)
  }

  /** What may follow a letter, stated without the grammar. */
  ghost predicate AfterLetterShaped(isLetter: char -> bool, s: string) {
    LettersAndSingleSeparators(isLetter, s) && (s == [] || isLetter(s[|s| - 1]))
  }

  lemma {:induction false} AfterLetterIff(isLetter: char -> bool, s: string)
    requires LetterClass(isLetter)
    ensures MatchesAfterLetter(isLetter, s) <==> AfterLetterShaped(isLetter, s)
    decreases |s|
  {
    if s != [] {
      AfterLetterIff(isLetter, s[1..]);
      if |s| >= 2 {
        AfterLetterIff(isLetter, s[2..]);
      }
      if MatchesAfterLetter(isLetter, s) {
        if isLetter(s[0]) && MatchesAfterLetter(isLetter, s[1..]) {
          ShapedCons(isLetter, s);
        } else {
          ShapedCons(isLetter, s[1..]);
          ShapedCons(isLetter, s);
        }
      }
      if AfterLetterShaped(isLetter, s) {
        ShapedTail(isLetter, s);
        if !isLetter(s[0]) {
          assert IsNameSeparator(s[0]);
          assert |s| >= 2;
          assert !IsNameSeparator(s[1]);
          ShapedTail(isLetter, s[1..]);
        }
      }
    }
  }

  /** A shaped tail stays shaped when a letter, or a separator before a letter, is put in front. */
  lemma ShapedCons(isLetter: char -> bool, s: string)
    requires LetterClass(isLetter)
    requires |s| >= 1
    requires isLetter(s[0]) || IsNameSeparator(s[0])
    requires AfterLetterShaped(isLetter, s[1..])
    requires |s| >= 2 ==> !(IsNameSeparator(s[0]) && IsNameSeparator(s[1]))
    requires |s| == 1 ==> isLetter(s[0])
    ensures AfterLetterShaped(isLetter, s)
  {
    var t := s[1..];
    forall i | 0 <= i < |s| ensures isLetter(s[i]) || IsNameSeparator(s[i]) {
      if i > 0 { assert s[i] == t[i - 1]; }
    }
    forall i | 0 <= i < |s| - 1 ensures !(IsNameSeparator(s[i]) && IsNameSeparator(s[i + 1])) {
      if i > 0 { assert s[i] == t[i - 1] && s[i + 1] == t[i]; }
    }
    if |s| >= 2 { assert s[|s| - 1] == t[|t| - 1]; }
  }

  /** A shaped string's tail is shaped. */
  lemma ShapedTail(isLetter: char -> bool, s: string)
    requires |s| >= 1
    requires AfterLetterShaped(isLetter, s)
    ensures AfterLetterShaped(isLetter, s[1..])
  {
    var t := s[1..];
    forall i | 0 <= i < |t| ensures isLetter(t[i]) || IsNameSeparator(t[i]) {
      assert t[i] == s[i + 1];
    }
    forall i | 0 <= i < |t| - 1 ensures !(IsNameSeparator(t[i]) && IsNameSeparator(t[i + 1])) {
      assert t[i] == s[i + 1] && t[i + 1] == s[i + 2];
    }
  }

  /** The grammar accepts exactly the name-shaped strings. */
  lemma MatchesNameIff(isLetter: char -> bool, s: string)
    requires LetterClass(isLetter)
    ensures MatchesName(isLetter, s) <==> NameShaped(isLetter, s)
  {
    if |s| > 0 {
      AfterLetterIff(isLetter, s[1..]);
      if isLetter(s[0]) && AfterLetterShaped(isLetter, s[1..]) {
        ShapedCons(isLetter, s);
        if |s| >= 2 { assert s[|s| - 1] == s[1..][|s| - 2]; }
      }
      if NameShaped(isLetter, s) {
        ShapedTail(isLetter, s);
      }
    }
  }

  /** The empty string is not a name. */
  lemma EmptyIsNoName(isLetter: char -> bool)
    ensures !MatchesName(isLetter, "")
  {
  }

  /** Every name begins and ends with a letter, and holds only letters and single separators. */
  lemma NameBoundaries(isLetter: char -> bool, s: string)
    requires LetterClass(isLetter)
    requires MatchesName(isLetter, s)
    ensures isLetter(s[0]) && isLetter(s[|s| - 1])
    ensures forall i :: 0 <= i < |s| ==> isLetter(s[i]) || IsNameSeparator(s[i])
    ensures forall i :: 0 <= i < |s| - 1 ==> !(IsNameSeparator(s[i]) && IsNameSeparator(s[i + 1]))
  {
    MatchesNameIff(isLetter, s);
  }

  /** Any non-empty run of letters is a name. */
  lemma LetterRunIsName(isLetter: char -> bool, s: string)
    requires LetterClass(isLetter)
    requires |s| > 0 && forall i :: 0 <= i < |s| ==> isLetter(s[i])
    ensures MatchesName(isLetter, s)
  {
    MatchesNameIff(isLetter, s);
  }

  /** Two names joined by one separator form a name. */
  lemma JoinedNamesAreName(isLetter: char -> bool, a: string, sep: char, b: string)
    requires LetterClass(isLetter)
    requires MatchesName(isLetter, a) && MatchesName(isLetter, b) && IsNameSeparator(sep)
    ensures MatchesName(isLetter, a + [sep] + b)
  {
    MatchesNameIff(isLetter, a);
    MatchesNameIff(isLetter, b);
    var s := a + [sep] + b;
    forall i | 0 <= i < |s| ensures isLetter(s[i]) || IsNameSeparator(s[i]) {
      if i < |a| { assert s[i] == a[i]; }
      else if i > |a| { assert s[i] == b[i - |a| - 1]; }
    }
    forall i | 0 <= i < |s| - 1 ensures !(IsNameSeparator(s[i]) && IsNameSeparator(s[i + 1])) {
      if i < |a| - 1 { assert s[i] == a[i] && s[i + 1] == a[i + 1]; }
      else if i == |a| - 1 { assert s[i] == a[|a| - 1]; }
      else if i == |a| { assert s[i + 1] == b[0]; }
      else { assert s[i] == b[i - |a| - 1] && s[i + 1] == b[i - |a|]; }
    }
    assert s[0] == a[0] && s[|s| - 1] == b[|b| - 1];
    MatchesNameIff(isLetter, s);
  }

  /** A name neither starts nor ends with whitespace, so trimming leaves it as it is. */
  lemma NameIsTrimmed(isLetter: char -> bool, s: string)
    requires LetterClass(isLetter)
    requires MatchesName(isLetter, s)
    ensures Text.Trim(s) == s
  {
    NameBoundaries(isLetter, s);
    Text.TrimUntouched(s);
  }
}
