/** String helpers shared by the Python and the JavaScript halves of the
    tracker: whitespace stripping, decimal rendering and parsing, case
    changes and character replacement. Strings are sequences of characters;
    only ASCII whitespace and ASCII letters are given their special meaning. */
module Text {
  import opened Wrappers

  // ---------------------------------------------------------------------
  // Whitespace
  // ---------------------------------------------------------------------

  /** The six ASCII whitespace characters that Python's str.strip and
      JavaScript's trim both remove. Python also strips the separators
      \x1c-\x1f, and both strip further Unicode spaces; those are not given
      this meaning here. */
  predicate IsSpace(c: char) {
    c == ' ' || c == '\t' || c == '\n' || c == '\r' || c == '\U{000B}' || c == '\U{000C}'
  }

  predicate AllSpace(s: string) {
    forall i :: 0 <= i < |s| ==> IsSpace(s[i])
  }

  /** The first position at or after i that holds no whitespace (|s| when
      there is none). */
  function SpaceRun(s: string, i: nat): (a: nat)
    requires i <= |s|
    ensures i <= a <= |s|
    ensures forall k :: i <= k < a ==> IsSpace(s[k])
    ensures a < |s| ==> !IsSpace(s[a])
    decreases |s| - i
  {
    if i < |s| && IsSpace(s[i]) then SpaceRun(s, i + 1) else i
  }

  /** The end of s[a..j] once its trailing whitespace is dropped. */
  function SpaceTail(s: string, a: nat, j: nat): (b: nat)
    requires a <= j <= |s|
    ensures a <= b <= j
    ensures forall k :: b <= k < j ==> IsSpace(s[k])
    ensures b > a ==> !IsSpace(s[b - 1])
    decreases j - a
  {
    if j > a && IsSpace(s[j - 1]) then SpaceTail(s, a, j - 1) else j
  }

  /** Drops trailing whitespace (Python's str.rstrip). */
  function RStrip(s: string): (r: string)
    ensures |r| <= |s| && r == s[..|r|]
    ensures r == [] || !IsSpace(r[|r| - 1])
    ensures AllSpace(s[|r|..])
  {
    var b := SpaceTail(s, 0, |s|);
    assert forall k :: 0 <= k < |s| - b ==> s[b..][k] == s[b + k];
    s[..b]
  }

  /** Drops whitespace at both ends (Python's str.strip, JavaScript's trim). */
  function Strip(s: string): (r: string)
    ensures |r| <= |s|
    ensures r == [] || (!IsSpace(r[0]) && !IsSpace(r[|r| - 1]))
  {
    var a := SpaceRun(s, 0);
    s[a..SpaceTail(s, a, |s|)]
  }

  /** r sits at offset a of s with only whitespace before and after it. */
  predicate PaddedBy(s: string, a: int, r: string) {
    0 <= a <= |s| - |r| && r == s[a..a + |r|] && AllSpace(s[..a]) && AllSpace(s[a + |r|..])
  }

  /** What stripping keeps is a contiguous piece of the input with only
      whitespace before and after it. */
  lemma StripSlice(s: string)
    ensures exists a :: PaddedBy(s, a, Strip(s))
  {
    var a := SpaceRun(s, 0);
    var b := SpaceTail(s, a, |s|);
    assert Strip(s) == s[a..b];
    assert forall k :: 0 <= k < |s| - b ==> s[b..][k] == s[b + k];
    assert PaddedBy(s, a, s[a..b]);
  }

  /** Stripping yields the empty string exactly for all-whitespace input. */
  lemma StripEmptyIffAllSpace(s: string)
    ensures Strip(s) == [] <==> AllSpace(s)
  {
    var a := SpaceRun(s, 0);
    var b := SpaceTail(s, a, |s|);
    assert Strip(s) == s[a..b];
  }

  /** A string without whitespace at either end is its own strip. */
  lemma StripUnpadded(s: string)
    requires s != [] && !IsSpace(s[0]) && !IsSpace(s[|s| - 1])
    ensures Strip(s) == s
  {
    assert SpaceRun(s, 0) == 0;
    assert SpaceTail(s, 0, |s|) == |s|;
    assert s[0..|s|] == s;
  }

  /** Stripping twice is stripping once. */
  lemma StripIdempotent(s: string)
    ensures Strip(Strip(s)) == Strip(s)
  {
    var r := Strip(s);
    if r != [] {
      StripUnpadded(r);
    }
  }

  // ---------------------------------------------------------------------
  // Decimal numbers
  // ---------------------------------------------------------------------

  predicate IsDigit(c: char) { '0' <= c <= '9' }

  predicate AllDigits(s: string) {
    forall i :: 0 <= i < |s| ==> IsDigit(s[i])
  }

  function DigitChar(d: nat): (c: char)
    requires d < 10
    ensures IsDigit(c) && (c as int) - ('0' as int) == d
  {
    (('0' as int) + d) as char
  }

  function DigitValue(c: char): (d: nat)
    requires IsDigit(c)
    ensures d < 10 && DigitChar(d) == c
  {
    (c as int) - ('0' as int)
  }

  /** The value of a string of decimal digits, most significant first. */
  function DigitsValue(s: string): nat
    requires AllDigits(s)
  {
    if s == [] then 0 else DigitsValue(s[..|s| - 1]) * 10 + DigitValue(s[|s| - 1])
  }

  /** The shortest decimal rendering of n (Python's str and JavaScript's
      String on a non-negative integer). */
  function NatToDecimal(n: nat): (r: string)
    ensures |r| >= 1 && AllDigits(r)
    ensures r[0] == '0' ==> n == 0 && |r| == 1
  {
    if n < 10 then [DigitChar(n)] else NatToDecimal(n / 10) + [DigitChar(n % 10)]
  }

  /** Rendering then reading back a decimal gives the number again. */
  lemma {:induction false} DecimalRoundTrip(n: nat)
    ensures DigitsValue(NatToDecimal(n)) == n
  {
    var r := NatToDecimal(n);
    if n >= 10 {
      DecimalRoundTrip(n / 10);
      assert r[..|r| - 1] == NatToDecimal(n / 10);
    }
  }

  /** Distinct numbers have distinct renderings. */
  lemma DecimalInjective(a: nat, b: nat)
    ensures NatToDecimal(a) == NatToDecimal(b) ==> a == b
  {
    DecimalRoundTrip(a);
    DecimalRoundTrip(b);
  }

  /** Python's str / JavaScript's String on any integer. */
  function IntToString(i: int): (r: string)
    ensures |r| >= 1
    ensures i >= 0 ==> r == NatToDecimal(i)
    ensures i < 0 ==> r == "-" + NatToDecimal(-i)
  {
    if i < 0 then "-" + NatToDecimal(-i) else NatToDecimal(i)
  }

  /** Python's f"{n:02}": at least two digits, zero-padded on the left. */
  function Pad2(n: nat): (r: string)
    ensures |r| >= 2 && AllDigits(r)
    ensures |r| == if n < 10 then 2 else |NatToDecimal(n)|
    ensures r[0] == '0' <==> n < 10
  {
    if n < 10 then "0" + NatToDecimal(n) else NatToDecimal(n)
  }

  /** A leading zero does not change a digit string's value. */
  lemma {:induction false} LeadingZero(s: string)
    requires AllDigits(s)
    ensures AllDigits("0" + s) && DigitsValue("0" + s) == DigitsValue(s)
  {
    var z := "0" + s;
    assert AllDigits(z) by {
      forall i | 0 <= i < |z| ensures IsDigit(z[i]) {
        if i > 0 { assert z[i] == s[i - 1]; }
      }
    }
    if s != [] {
      assert z[..|z| - 1] == "0" + s[..|s| - 1];
      LeadingZero(s[..|s| - 1]);
    }
  }

  /** The padded rendering still reads back as n. */
  lemma Pad2RoundTrip(n: nat)
    ensures DigitsValue(Pad2(n)) == n
  {
    DecimalRoundTrip(n);
    if n < 10 { LeadingZero(NatToDecimal(n)); }
  }

  /** Reads an integer the way the form inputs are read into int fields:
      surrounding whitespace is ignored, then a numeral. */
  function ParseInt(s: string): (r: Option<int>)
    ensures var t := Strip(s);
      r.Some? <==> (t != [] && AllDigits(t)) || (|t| >= 2 && (t[0] == '-' || t[0] == '+') && AllDigits(t[1..]))
  {
    ParseNumeral(Strip(s))
  }

  /** An optional sign, then one or more ASCII digits; anything else is
      unparsable (None). */
  function ParseNumeral(t: string): (r: Option<int>)
    ensures r.Some? <==>
      (AllDigits(t) && t != []) ||
      (|t| >= 2 && (t[0] == '-' || t[0] == '+') && AllDigits(t[1..]))
    ensures r.Some? && AllDigits(t) ==> r.value >= 0
  {
    if t != [] && AllDigits(t) then Some(DigitsValue(t))
    else if |t| >= 2 && t[0] == '-' && AllDigits(t[1..]) then Some(0 - DigitsValue(t[1..]))
    else if |t| >= 2 && t[0] == '+' && AllDigits(t[1..]) then Some(DigitsValue(t[1..]))
    else None
  }

  /** Rendering an integer and parsing it back is the identity. */
  lemma ParseIntRoundTrip(i: int)
    ensures ParseInt(IntToString(i)) == Some(i)
  {
    if i >= 0 {
      ParseNaturalRoundTrip(i);
    } else {
      ParseNegativeRoundTrip(i);
    }
  }

  lemma ParseNaturalRoundTrip(i: int)
    requires i >= 0
    ensures ParseInt(IntToString(i)) == Some(i)
  {
    var d := NatToDecimal(i);
    DecimalRoundTrip(i);
    ParseDigits(d);
  }

  lemma ParseNegativeRoundTrip(i: int)
    requires i < 0
    ensures ParseInt(IntToString(i)) == Some(i)
  {
    DecimalRoundTrip(-i);
    ParseNegatedDigits(IntToString(i), NatToDecimal(-i), -i);
  }

  /** A bare run of digits reads as its value. */
  lemma ParseDigits(s: string)
    requires s != [] && AllDigits(s)
    ensures ParseInt(s) == Some(DigitsValue(s))
  {
    assert IsDigit(s[0]) && IsDigit(s[|s| - 1]);
    StripUnpadded(s);
  }

  /** A minus sign before a run of digits reads as the negated value. */
  lemma ParseNegatedDigits(s: string, d: string, n: nat)
    requires s == "-" + d && d != [] && AllDigits(d) && DigitsValue(d) == n
    ensures ParseInt(s) == Some(0 - n)
  {
    assert s[|s| - 1] == d[|d| - 1] && IsDigit(d[|d| - 1]);
    StripUnpadded(s);
    NumeralNegated(d);
  }

  lemma NumeralNegated(d: string)
    requires d != [] && AllDigits(d)
    ensures ParseNumeral("-" + d) == Some(0 - DigitsValue(d))
  {
    var s := "-" + d;
    assert s[1..] == d;
    assert !IsDigit(s[0]);
  }

  // ---------------------------------------------------------------------
  // Case
  // ---------------------------------------------------------------------

  predicate IsLower(c: char) { 'a' <= c <= 'z' }
  predicate IsUpper(c: char) { 'A' <= c <= 'Z' }
  predicate IsLetter(c: char) { IsLower(c) || IsUpper(c) }

  function Upper(c: char): (u: char)
    ensures !IsLower(u) && IsLetter(u) == IsLetter(c)
  {
    if IsLower(c) then ((c as int) - 32) as char else c
  }

  function Lower(c: char): (l: char)
    ensures !IsUpper(l) && IsLetter(l) == IsLetter(c)
  {
    if IsUpper(c) then ((c as int) + 32) as char else c
  }

  /** Case-folded copy of s, used to say that a function changes case only. */
  function Lowered(s: string): (r: string)
    ensures |r| == |s| && forall i :: 0 <= i < |s| ==> r[i] == Lower(s[i])
  {
    if s == [] then [] else [Lower(s[0])] + Lowered(s[1..])
  }

  lemma LowerUpper(c: char)
    ensures Lower(Upper(c)) == Lower(c)
  {}

  /** Python's str.capitalize: first character upper case, the rest lower case. */
  function Capitalize(s: string): (r: string)
    ensures |r| == |s|
    ensures s != [] ==> !IsLower(r[0])
    ensures forall i :: 1 <= i < |r| ==> !IsUpper(r[i])
  {
    if s == [] then [] else [Upper(s[0])] + Lowered(s[1..])
  }

  /** Capitalizing changes the case of letters and nothing else. */
  lemma CapitalizeKeepsLetters(s: string)
    ensures Lowered(Capitalize(s)) == Lowered(s)
  {
    if s != [] {
      var r := Capitalize(s);
      forall i | 0 <= i < |s| ensures Lowered(r)[i] == Lowered(s)[i] {
        if i == 0 { LowerUpper(s[0]); }
      }
    }
  }

  /** Python's str.title, ASCII letters as the cased characters: a letter is
      upper-cased when the character before it is not a letter, lower-cased
      otherwise. */
  function TitleCase(s: string): (r: string)
    ensures |r| == |s|
  {
    TitleFrom(s, false)
  }

  function TitleFrom(s: string, prevCased: bool): (r: string)
    ensures |r| == |s|
  {
    if s == [] then []
    else [if prevCased then Lower(s[0]) else Upper(s[0])] + TitleFrom(s[1..], IsLetter(s[0]))
  }

  /** The defining property of title case: each letter is upper case exactly
      when it starts a word, and only case changes. */
  lemma {:induction false} TitleFromSpec(s: string, prevCased: bool)
    ensures Lowered(TitleFrom(s, prevCased)) == Lowered(s)
    ensures forall i :: 0 <= i < |s| && IsLetter(s[i]) ==>
              (IsUpper(TitleFrom(s, prevCased)[i]) <==>
               (if i == 0 then !prevCased else !IsLetter(s[i - 1])))
  {
    if s != [] {
      TitleFromSpec(s[1..], IsLetter(s[0]));
      var r := TitleFrom(s, prevCased);
      assert r[1..] == TitleFrom(s[1..], IsLetter(s[0]));
      LowerUpper(s[0]);
      assert Lowered(r) == [Lower(r[0])] + Lowered(r[1..]);
      forall i | 1 <= i < |s| && IsLetter(s[i])
        ensures IsUpper(r[i]) <==> !IsLetter(s[i - 1])
      {
        assert r[i] == r[1..][i - 1];
        assert s[i] == s[1..][i - 1];
        if i - 1 > 0 { assert s[i - 1] == s[1..][i - 2]; }
      }
    }
  }

  /** Inside a word, lower-case letters stay as they are. */
  lemma {:induction false} TitleFromLowerWord(s: string)
    requires forall i :: 0 <= i < |s| ==> IsLower(s[i])
    ensures TitleFrom(s, true) == s
  {
    if s != [] {
      TitleFromLowerWord(s[1..]);
      assert s == [s[0]] + s[1..];
    }
  }

  /** A lower-case word is title-cased by upper-casing its first letter. */
  lemma TitleWord(c: char, tail: string)
    requires IsLower(c) && forall i :: 0 <= i < |tail| ==> IsLower(tail[i])
    ensures TitleCase([c] + tail) == [Upper(c)] + tail
  {
    TitleFromLowerWord(tail);
    assert ([c] + tail)[1..] == tail;
  }

  lemma TitleCaseSpec(s: string)
    ensures Lowered(TitleCase(s)) == Lowered(s)
    ensures forall i :: 0 <= i < |s| && IsLetter(s[i]) ==>
              (IsUpper(TitleCase(s)[i]) <==> i == 0 || !IsLetter(s[i - 1]))
  {
    TitleFromSpec(s, false);
  }

  // ---------------------------------------------------------------------
  // Replacement, prefixes, splitting
  // ---------------------------------------------------------------------

  /** Every occurrence of c replaced by rep (Python's str.replace, JavaScript's
      replace with a global pattern, for a one-character pattern). */
  function ReplaceChar(s: string, c: char, rep: string): (r: string)
    ensures c !in rep ==> c !in r
    ensures forall x :: x in r ==> x in s || x in rep
  {
    if s == [] then [] else (if s[0] == c then rep else [s[0]]) + ReplaceChar(s[1..], c, rep)
  }

  /** Replacement works character by character, so it distributes over
      concatenation. */
  lemma {:induction false} ReplaceCharAppend(a: string, b: string, c: char, rep: string)
    ensures ReplaceChar(a + b, c, rep) == ReplaceChar(a, c, rep) + ReplaceChar(b, c, rep)
  {
    if a == [] {
      assert a + b == b;
    } else {
      assert (a + b)[0] == a[0];
      assert (a + b)[1..] == a[1..] + b;
      ReplaceCharAppend(a[1..], b, c, rep);
    }
  }

  /** A string without c is left as it is. */
  lemma {:induction false} ReplaceAbsent(s: string, c: char, rep: string)
    requires c !in s
    ensures ReplaceChar(s, c, rep) == s
  {
    if s != [] {
      assert s == [s[0]] + s[1..];
      ReplaceAbsent(s[1..], c, rep);
    }
  }

  predicate StartsWith(s: string, prefix: string) {
    |prefix| <= |s| && s[..|prefix|] == prefix
  }

  /** The pieces of s between occurrences of sep (JavaScript's split with a
      one-character separator). */
  function Split(s: string, sep: char): (parts: seq<string>)
    ensures |parts| >= 1
    ensures forall i :: 0 <= i < |parts| ==> sep !in parts[i]
    decreases |s|
  {
    if sep !in s then [s]
    else
      var i := FirstIndex(s, sep);
      [s[..i]] + Split(s[i + 1..], sep)
  }

  function FirstIndex(s: string, c: char): (i: nat)
    requires c in s
    ensures i < |s| && s[i] == c && c !in s[..i]
  {
    if s[0] == c then 0 else 1 + FirstIndex(s[1..], c)
  }

  /** Joins pieces with sep between them. */
  function Join(parts: seq<string>, sep: char): string
    requires |parts| >= 1
  {
    if |parts| == 1 then parts[0] else parts[0] + [sep] + Join(parts[1..], sep)
  }

  /** Two pieces without the separator, joined by it, split back into the
      same two pieces. */
  lemma SplitPair(a: string, b: string, sep: char)
    requires sep !in a && sep !in b
    ensures Split(a + [sep] + b, sep) == [a, b]
  {
    var s := a + [sep] + b;
    assert s[|a|] == sep;
    var i := FirstIndex(s, sep);
    assert s[..i] == a;
    assert s[i + 1..] == b;
  }

  /** Splitting then joining gives the original string back. */
  lemma {:induction false} SplitJoin(s: string, sep: char)
    ensures Join(Split(s, sep), sep) == s
    decreases |s|
  {
    if sep in s {
      var i := FirstIndex(s, sep);
      var rest := s[i + 1..];
      var tail := Split(rest, sep);
      SplitJoin(rest, sep);
      var parts := Split(s, sep);
      assert parts == [s[..i]] + tail;
      assert parts[1..] == tail;
      assert Join(parts, sep) == s[..i] + [sep] + Join(tail, sep);
      assert s == s[..i] + [sep] + rest;
    }
  }
}
