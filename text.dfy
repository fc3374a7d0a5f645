/** The string built-ins the form code relies on, as JavaScript (and, for `split`, Python)
    define them: `split` on one separator character, `join`, `filter(Boolean)` on a list of
    strings, `trim`, and the decimal value of a run of ASCII digits (`Number("0042")`). */
module Text {

  /** `s.split(sep)` for a one-character separator: the maximal separator-free pieces, in order.
      The empty string splits into one empty piece, in JavaScript and in Python alike. */
  function Split(s: string, sep: char): (parts: seq<string>)
    ensures |parts| >= 1
    ensures forall i :: 0 <= i < |parts| ==> sep !in parts[i]
    decreases |s|
  {
    if s == [] then [""]
    else if s[0] == sep then [""] + Split(s[1..], sep)
    else
      var tail := Split(s[1..], sep);
      [[s[0]] + tail[0]] + tail[1..]
  }

  /** `parts.join(sep)`: the pieces with one separator between neighbours; `[].join(sep)` is "". */
  function Join(parts: seq<string>, sep: char): (r: string)
    ensures |parts| >= 1 ==> parts[0] <= r
    ensures |parts| >= 2 ==> |r| > |parts[0]| && r[|parts[0]|] == sep
    decreases |parts|
  {
    if |parts| == 0 then ""
    else if |parts| == 1 then parts[0]
    else parts[0] + [sep] + Join(parts[1..], sep)
  }

  /** `parts.filter(Boolean)`: the pieces that are not the empty string, in order. */
  function NonEmpty(parts: seq<string>): (kept: seq<string>)
    ensures forall i :: 0 <= i < |kept| ==> kept[i] != "" && kept[i] in parts
    ensures |kept| <= |parts|
    decreases |parts|
  {
    if parts == [] then []
    else (if parts[0] == "" then [] else [parts[0]]) + NonEmpty(parts[1..])
  }

  /** Splitting at one separator splits each side on its own. */
  lemma {:induction false} SplitAppend(a: string, b: string, sep: char)
    ensures Split(a + [sep] + b, sep) == Split(a, sep) + Split(b, sep)
    decreases |a|
  {
    if a == [] {
      assert a + [sep] + b == [sep] + b;
      assert ([sep] + b)[1..] == b;
    } else {
      assert (a + [sep] + b)[0] == a[0];
      assert (a + [sep] + b)[1..] == a[1..] + [sep] + b;
      SplitAppend(a[1..], b, sep);
    }
  }

  /** A string without the separator is a single piece. */
  lemma {:induction false} SplitWithoutSeparator(s: string, sep: char)
    requires sep !in s
    ensures Split(s, sep) == [s]
    decreases |s|
  {
    if s != [] {
      assert s[0] in s;
      assert forall c :: c in s[1..] ==> c in s;
      SplitWithoutSeparator(s[1..], sep);
      assert [s[0]] + s[1..] == s;
    }
  }

  /** Joining the pieces of a split gives back the string. */
  lemma {:induction false} JoinSplit(s: string, sep: char)
    ensures Join(Split(s, sep), sep) == s
    decreases |s|
  {
    if s != [] {
      JoinSplit(s[1..], sep);
      var tail := Split(s[1..], sep);
      if s[0] == sep {
        assert Split(s, sep) == [""] + tail;
        assert ([""] + tail)[1..] == tail;
        assert Join([""] + tail, sep) == "" + [sep] + Join(tail, sep);
        assert [s[0]] + s[1..] == s;
      } else {
        var parts := Split(s, sep);
        assert parts == [[s[0]] + tail[0]] + tail[1..];
        if |tail| == 1 {
          assert Join(parts, sep) == [s[0]] + tail[0];
        } else {
          assert parts[1..] == tail[1..];
          assert Join(tail, sep) == tail[0] + [sep] + Join(tail[1..], sep);
          assert Join(parts, sep) == [s[0]] + tail[0] + [sep] + Join(tail[1..], sep);
        }
        assert [s[0]] + s[1..] == s;
      }
    }
  }

  /** Splitting a join of separator-free pieces gives back the pieces. */
  lemma {:induction false} SplitJoin(parts: seq<string>, sep: char)
    requires |parts| >= 1
    requires forall i :: 0 <= i < |parts| ==> sep !in parts[i]
    ensures Split(Join(parts, sep), sep) == parts
    decreases |parts|
  {
    if |parts| == 1 {
      SplitWithoutSeparator(parts[0], sep);
    } else {
      SplitJoin(parts[1..], sep);
      SplitAppend(parts[0], Join(parts[1..], sep), sep);
      SplitWithoutSeparator(parts[0], sep);
      assert [parts[0]] + parts[1..] == parts;
    }
  }

  /** Dropping empty pieces commutes with concatenation. */
  lemma {:induction false} NonEmptyAppend(a: seq<string>, b: seq<string>)
    ensures NonEmpty(a + b) == NonEmpty(a) + NonEmpty(b)
    decreases |a|
  {
    if a == [] {
      assert a + b == b;
    } else {
      assert (a + b)[0] == a[0];
      assert (a + b)[1..] == a[1..] + b;
      NonEmptyAppend(a[1..], b);
    }
  }

  /** A list whose pieces are all non-empty is left as it is. */
  lemma {:induction false} NonEmptyKeepsNonEmpty(parts: seq<string>)
    requires forall i :: 0 <= i < |parts| ==> parts[i] != ""
    ensures NonEmpty(parts) == parts
    decreases |parts|
  {
    if parts != [] {
      NonEmptyKeepsNonEmpty(parts[1..]);
      assert [parts[0]] + parts[1..] == parts;
    }
  }

  /** The characters `String.prototype.trim` removes: ECMAScript's WhiteSpace (tab, vertical
      tab, form feed, space, no-break space, byte-order mark and the Unicode space separators)
      and its LineTerminators (line feed, carriage return, line and paragraph separators). */
  predicate IsWhitespace(c: char) {
    c == '\t' || c == '\n' || c == '\U{000B}' || c == '\U{000C}' || c == '\r' || c == ' ' ||
    c == '\U{00A0}' || c == '\U{1680}' || ('\U{2000}' <= c <= '\U{200A}') ||
    c == '\U{2028}' || c == '\U{2029}' || c == '\U{202F}' || c == '\U{205F}' ||
    c == '\U{3000}' || c == '\U{FEFF}'
  }

  predicate AllWhitespace(s: string) {
    forall i :: 0 <= i < |s| ==> IsWhitespace(s[i])
  }

  function TrimStart(s: string): (r: string)
    ensures |r| <= |s| && r == s[|s| - |r|..]
    ensures r == [] || !IsWhitespace(r[0])
    ensures AllWhitespace(s[..|s| - |r|])
    decreases |s|
  {
    if s != [] && IsWhitespace(s[0]) then
      var r := TrimStart(s[1..]);
      assert s[..|s| - |r|] == [s[0]] + s[1..][..|s| - 1 - |r|];
      r
    else s
  }

  function TrimEnd(s: string): (r: string)
    ensures |r| <= |s| && r == s[..|r|]
    ensures r == [] || !IsWhitespace(r[|r| - 1])
    ensures AllWhitespace(s[|r|..])
    decreases |s|
  {
    if s != [] && IsWhitespace(s[|s| - 1]) then
      var r := TrimEnd(s[..|s| - 1]);
      assert s[|r|..] == s[..|s| - 1][|r|..] + [s[|s| - 1]];
      r
    else s
  }

  /** `r` is the piece of `s` at offset `i`, with only whitespace before and after it. */
  predicate Middle(s: string, i: int, r: string) {
    0 <= i <= |s| - |r| && r == s[i..i + |r|] && AllWhitespace(s[..i]) && AllWhitespace(s[i + |r|..])
  }

  /** `s.trim()`: the contiguous middle of `s` that neither starts nor ends with whitespace,
      everything cut off on either side being whitespace. */
  function Trim(s: string): (r: string)
    ensures exists i :: Middle(s, i, r)
    ensures r == [] || (!IsWhitespace(r[0]) && !IsWhitespace(r[|r| - 1]))
  {
    var a := TrimStart(s);
    var r := TrimEnd(a);
    TrimmedMiddle(s, a, r);
    r
  }

  /** What is left after cutting whitespace off the front and then off the back sits between
      two whitespace-only pieces of the original. */
  lemma TrimmedMiddle(s: string, a: string, r: string)
    requires |a| <= |s| && a == s[|s| - |a|..] && AllWhitespace(s[..|s| - |a|])
    requires |r| <= |a| && r == a[..|r|] && AllWhitespace(a[|r|..])
    ensures Middle(s, |s| - |a|, r)
    ensures r != [] ==> r[0] == a[0]
  {
    var i := |s| - |a|;
    assert s[i + |r|..] == a[|r|..];
  }

  /** A string that neither starts nor ends with whitespace is its own trim. */
  lemma TrimUntouched(s: string)
    requires s == [] || (!IsWhitespace(s[0]) && !IsWhitespace(s[|s| - 1]))
    ensures Trim(s) == s
  {
    var a := TrimStart(s);
    assert a == s;
  }

  /** Trimming twice is trimming once. */
  lemma TrimIdempotent(s: string)
    ensures Trim(Trim(s)) == Trim(s)
  {
    TrimUntouched(Trim(s));
  }

  /** Trimming cuts off whitespace padding on either side and nothing else. */
  lemma {:induction false} TrimPadded(left: string, s: string, right: string)
    requires AllWhitespace(left) && AllWhitespace(right)
    requires s == [] || (!IsWhitespace(s[0]) && !IsWhitespace(s[|s| - 1]))
    ensures Trim(left + s + right) == s
  {
    if s == [] {
      assert left + s + right == left + right;
      TrimAllWhitespace(left + right);
    } else {
      TrimStartPadded(left, s + right);
      assert left + s + right == left + (s + right);
      TrimEndPadded(s, right);
    }
  }

  lemma {:induction false} TrimStartPadded(left: string, s: string)
    requires AllWhitespace(left)
    requires s == [] || !IsWhitespace(s[0])
    ensures TrimStart(left + s) == s
    decreases |left|
  {
    if left != [] {
      assert (left + s)[1..] == left[1..] + s;
      TrimStartPadded(left[1..], s);
    }
  }

  lemma {:induction false} TrimEndPadded(s: string, right: string)
    requires AllWhitespace(right)
    requires s == [] || !IsWhitespace(s[|s| - 1])
    ensures TrimEnd(s + right) == s
    decreases |right|
  {
    if right != [] {
      assert (s + right)[..|s + right| - 1] == s + right[..|right| - 1];
      TrimEndPadded(s, right[..|right| - 1]);
    }
  }

  /** Whitespace alone trims to the empty string. */
  lemma {:induction false} TrimAllWhitespace(s: string)
    requires AllWhitespace(s)
    ensures Trim(s) == ""
    decreases |s|
  {
    if s != [] {
      TrimAllWhitespace(s[1..]);
    }
  }

  predicate IsDigit(c: char) {
    '0' <= c <= '9'
  }

  predicate AllDigits(s: string) {
    forall i :: 0 <= i < |s| ==> IsDigit(s[i])
  }

  /** The number a run of ASCII digits stands for, read in base ten, leading zeros allowed. */
  function DecimalValue(s: string): (n: nat)
    requires AllDigits(s)
    ensures |s| > 0 ==> n % 10 == s[|s| - 1] as int - '0' as int
    decreases |s|
  {
    if s == [] then 0
    else
      var init := s[..|s| - 1];
      assert IsDigit(s[|s| - 1]);
      var m := DecimalValue(init);
      var d := s[|s| - 1] as int - '0' as int;
      LastDigit(m, d);
      10 * m + d
  }

  /** Dropping the last digit of a digit string divides its value by ten. */
  lemma DecimalValueDropLast(s: string)
    requires AllDigits(s) && |s| > 0
    ensures AllDigits(s[..|s| - 1])
    ensures DecimalValue(s) / 10 == DecimalValue(s[..|s| - 1])
  {
    LastDigit(DecimalValue(s[..|s| - 1]), s[|s| - 1] as int - '0' as int);
  }

  /** Appending a digit d to a number m gives 10 * m + d, whose last digit is d. */
  lemma LastDigit(m: nat, d: int)
    requires 0 <= d < 10
    ensures (10 * m + d) % 10 == d && (10 * m + d) / 10 == m
  {
  }

  /** A run of k digits stands for a number below 10^k. */
  lemma {:induction false} DecimalValueBound(s: string)
    requires AllDigits(s)
    ensures DecimalValue(s) < Pow10(|s|)
    decreases |s|
  {
    if s != [] {
      DecimalValueBound(s[..|s| - 1]);
    }
  }

  function Pow10(k: nat): (p: nat)
    ensures p >= 1
  {
    if k == 0 then 1 else 10 * Pow10(k - 1)
  }
}
