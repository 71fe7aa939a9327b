/** The Python string operations the modelled code relies on: `str.split`
    with a one-character separator, `str.join`, `str.strip`, `str.replace`
    with an empty replacement, `int()` and the decimal form of integers used
    in f-strings. Strings are sequences of characters. */
module Text {
  import opened Common

  /** Python's `str.isspace` on one character: the characters `str.strip()`
      and `int()` treat as white space. */
  predicate IsSpace(c: char) {
    || ('\t' <= c <= '\r')
    || ('\U{1C}' <= c <= ' ')
    || c == '\U{85}' || c == '\U{A0}' || c == '\U{1680}'
    || ('\U{2000}' <= c <= '\U{200A}')
    || c == '\U{2028}' || c == '\U{2029}' || c == '\U{202F}'
    || c == '\U{205F}' || c == '\U{3000}'
  }

  // ---------------------------------------------------------------------
  // split / join

  /** `s.split(sep)`: the pieces between separators, empty pieces included,
      so `n` separators give `n + 1` pieces. */
  function Split(s: string, sep: char): (parts: seq<string>)
    ensures |parts| >= 1
    decreases |s|
  {
    if s == [] then [""]
    else
      var rest := Split(s[1..], sep);
      if s[0] == sep then [""] + rest
      else [[s[0]] + rest[0]] + rest[1..]
  }

  /** No part of a split holds the separator. */
  lemma {:induction false} SplitSepFree(s: string, sep: char)
    ensures forall i :: 0 <= i < |Split(s, sep)| ==> sep !in Split(s, sep)[i]
    decreases |s|
  {
    if s != [] {
      SplitSepFree(s[1..], sep);
      var rest := Split(s[1..], sep);
      if s[0] != sep {
        assert sep !in [s[0]] + rest[0];
      }
    }
  }

  lemma AppendAssoc<T>(a: seq<T>, b: seq<T>, c: seq<T>)
    ensures a + (b + c) == (a + b) + c
  {
  }

  /** `sep.join(parts)`. */
  function Join(parts: seq<string>, sep: char): string
  {
    if |parts| == 0 then ""
    else if |parts| == 1 then parts[0]
    else parts[0] + [sep] + Join(parts[1..], sep)
  }

  lemma {:induction false} SplitOfSepFree(s: string, sep: char)
    requires sep !in s
    ensures Split(s, sep) == [s]
  {
    if s != [] {
      SplitOfSepFree(s[1..], sep);
      assert s == [s[0]] + s[1..];
    }
  }

  /** A separator in the middle of a string splits it into the pieces of
      either side. */
  lemma {:induction false} SplitConcat(a: string, b: string, sep: char)
    ensures Split(a + [sep] + b, sep) == Split(a, sep) + Split(b, sep)
  {
    var s := a + [sep] + b;
    if a == [] {
      assert s[1..] == b;
    } else {
      assert s[1..] == a[1..] + [sep] + b;
      SplitConcat(a[1..], b, sep);
    }
  }

  /** Splitting undoes joining when no part holds the separator. */
  lemma {:induction false} SplitOfJoin(parts: seq<string>, sep: char)
    requires |parts| >= 1
    requires forall i :: 0 <= i < |parts| ==> sep !in parts[i]
    ensures Split(Join(parts, sep), sep) == parts
  {
    SplitOfSepFree(parts[0], sep);
    if |parts| > 1 {
      SplitOfJoin(parts[1..], sep);
      SplitConcat(parts[0], Join(parts[1..], sep), sep);
      assert parts == [parts[0]] + parts[1..];
    }
  }

  lemma {:induction false} JoinPrefix(p: string, parts: seq<string>, sep: char)
    requires |parts| >= 1
    ensures Join([p + parts[0]] + parts[1..], sep) == p + Join(parts, sep)
  {
    var q := [p + parts[0]] + parts[1..];
    assert q[1..] == parts[1..];
  }

  /** A character that is neither the separator nor in any part is not in the join. */
  lemma {:induction false} JoinAvoids(parts: seq<string>, sep: char, c: char)
    requires c != sep
    requires forall i :: 0 <= i < |parts| ==> c !in parts[i]
    ensures c !in Join(parts, sep)
  {
    if |parts| > 1 {
      JoinAvoids(parts[1..], sep, c);
    }
  }

  lemma {:induction false} JoinOfSplit(s: string, sep: char)
    ensures Join(Split(s, sep), sep) == s
    decreases |s|
  {
    if s != [] {
      var rest := Split(s[1..], sep);
      JoinOfSplit(s[1..], sep);
      if s[0] == sep {
        assert ([""] + rest)[1..] == rest;
      } else {
        JoinPrefix([s[0]], rest, sep);
        assert s == [s[0]] + s[1..];
      }
    }
  }

  // ---------------------------------------------------------------------
  // filtering and tokens

  /** `list(filter(lambda x: x != "", parts))`. */
  function NonEmpty(parts: seq<string>): (r: seq<string>)
    ensures forall i :: 0 <= i < |r| ==> r[i] != ""
    ensures forall x :: x in r ==> x in parts
    ensures |r| <= |parts|
  {
    if parts == [] then []
    else (if parts[0] == "" then [] else [parts[0]]) + NonEmpty(parts[1..])
  }

  lemma {:induction false} NonEmptyConcat(a: seq<string>, b: seq<string>)
    ensures NonEmpty(a + b) == NonEmpty(a) + NonEmpty(b)
  {
    if a != [] {
      assert (a + b)[1..] == a[1..] + b;
      NonEmptyConcat(a[1..], b);
    } else {
      assert a + b == b;
    }
  }

  lemma {:induction false} NonEmptyKeepsAll(parts: seq<string>)
    requires forall i :: 0 <= i < |parts| ==> parts[i] != ""
    ensures NonEmpty(parts) == parts
  {
    if parts != [] {
      NonEmptyKeepsAll(parts[1..]);
    }
  }

  /** The tokens of a line: `[t for t in line.split(" ") if t != ""]`, so
      runs of spaces never produce a token. */
  function Tokens(line: string): (r: seq<string>)
    ensures forall i :: 0 <= i < |r| ==> r[i] != "" && ' ' !in r[i]
  {
    var parts := Split(line, ' ');
    SplitSepFree(line, ' ');
    var r := NonEmpty(parts);
    assert forall i :: 0 <= i < |r| ==> r[i] in parts;
    r
  }

  /** A space separates the tokens of its two sides. */
  lemma TokensConcat(a: string, b: string)
    ensures Tokens(a + " " + b) == Tokens(a) + Tokens(b)
  {
    SplitConcat(a, b, ' ');
    NonEmptyConcat(Split(a, ' '), Split(b, ' '));
  }

  /** Words joined by single spaces come back as the same words. */
  lemma TokensOfWords(words: seq<string>)
    requires |words| >= 1
    requires forall i :: 0 <= i < |words| ==> words[i] != "" && ' ' !in words[i]
    ensures Tokens(Join(words, ' ')) == words
  {
    SplitOfJoin(words, ' ');
    NonEmptyKeepsAll(words);
  }

  // ---------------------------------------------------------------------
  // strip

  /** `s.lstrip()`. */
  function TrimStart(s: string): string {
    if s != [] && IsSpace(s[0]) then TrimStart(s[1..]) else s
  }

  /** `lstrip` keeps a suffix, which starts with no white space, and drops
      only white space. */
  lemma {:induction false} TrimStartSpec(s: string)
    ensures var r := TrimStart(s);
            |r| <= |s| && r == s[|s| - |r|..] &&
            (r == [] || !IsSpace(r[0])) &&
            forall i :: 0 <= i < |s| - |r| ==> IsSpace(s[i])
  {
    if s != [] && IsSpace(s[0]) {
      var t := s[1..];
      TrimStartSpec(t);
      var r := TrimStart(t);
      assert TrimStart(s) == r;
      assert s[|s| - |r|..] == t[|t| - |r|..];
      forall i | 0 <= i < |s| - |r|
        ensures IsSpace(s[i])
      {
        if i > 0 {
          assert s[i] == t[i - 1];
        }
      }
    }
  }

  /** `s.rstrip()`. */
  function TrimEnd(s: string): string {
    if s != [] && IsSpace(s[|s| - 1]) then TrimEnd(s[..|s| - 1]) else s
  }

  /** `rstrip` keeps a prefix, which ends with no white space, and drops
      only white space. */
  lemma {:induction false} TrimEndSpec(s: string)
    ensures var r := TrimEnd(s);
            |r| <= |s| && r == s[..|r|] &&
            (r == [] || !IsSpace(r[|r| - 1])) &&
            forall i :: |r| <= i < |s| ==> IsSpace(s[i])
  {
    if s != [] && IsSpace(s[|s| - 1]) {
      TrimEndSpec(s[..|s| - 1]);
    }
  }

  /** No white space at either end. */
  predicate IsStripped(s: string) {
    s == [] || (!IsSpace(s[0]) && !IsSpace(s[|s| - 1]))
  }

  /** `s.strip()`: the longest infix without white space at either end. */
  function Strip(s: string): string {
    TrimEnd(TrimStart(s))
  }

  /** A stripped string has no white space at either end, is no longer
      than the original, and is empty exactly when the original is all
      white space. */
  lemma StripSpec(s: string)
    ensures IsStripped(Strip(s)) && |Strip(s)| <= |s|
    ensures Strip(s) == "" <==> forall i :: 0 <= i < |s| ==> IsSpace(s[i])
  {
    var t := TrimStart(s);
    TrimStartSpec(s);
    TrimEndSpec(t);
    var r := Strip(s);
    if r != [] {
      assert r[0] == t[0];
    }
    if t != [] {
      assert !IsSpace(s[|s| - |t|]);
    }
  }

  /** `[x.strip() for x in xs]`. */
  function StripEach(xs: seq<string>): (r: seq<string>)
    ensures |r| == |xs| && forall i :: 0 <= i < |xs| ==> r[i] == Strip(xs[i])
  {
    seq(|xs|, i requires 0 <= i < |xs| => Strip(xs[i]))
  }

  /** Every element of a stripped list is stripped. */
  lemma StripEachStrips(xs: seq<string>)
    ensures forall i :: 0 <= i < |xs| ==> IsStripped(StripEach(xs)[i])
  {
    forall i | 0 <= i < |xs|
      ensures IsStripped(StripEach(xs)[i])
    {
      StripSpec(xs[i]);
    }
  }

  lemma StripEachSnoc(xs: seq<string>, x: string)
    ensures StripEach(xs + [x]) == StripEach(xs) + [Strip(x)]
  {
  }

  /** Stripping stripped strings changes none of them. */
  lemma StripEachStripped(xs: seq<string>)
    requires forall i :: 0 <= i < |xs| ==> IsStripped(xs[i])
    ensures StripEach(xs) == xs
  {
    forall i | 0 <= i < |xs|
      ensures Strip(xs[i]) == xs[i]
    {
      StripStripped(xs[i]);
    }
  }

  /** Stripping changes nothing on a stripped string, and removes one added
      leading blank. */
  lemma StripStripped(s: string)
    requires IsStripped(s)
    ensures Strip(s) == s
    ensures Strip(" " + s) == s
  {
    assert (" " + s)[1..] == s;
  }

  // ---------------------------------------------------------------------
  // replace

  /** `s.replace(c, "")` for a one-character `c`. */
  function RemoveChar(s: string, c: char): (r: string)
    ensures c !in r
    ensures |r| <= |s|
  {
    if s == [] then []
    else (if s[0] == c then [] else [s[0]]) + RemoveChar(s[1..], c)
  }

  /** Removing a character adds no other. */
  lemma {:induction false} RemoveCharKeeps(s: string, c: char)
    ensures forall x :: x in RemoveChar(s, c) ==> x in s
  {
    if s != [] {
      RemoveCharKeeps(s[1..], c);
      assert forall x :: x in s[1..] ==> x in s;
    }
  }

  lemma {:induction false} RemoveCharConcat(a: string, b: string, c: char)
    ensures RemoveChar(a + b, c) == RemoveChar(a, c) + RemoveChar(b, c)
  {
    if a == [] {
      assert a + b == b;
    } else {
      assert (a + b)[1..] == a[1..] + b;
      RemoveCharConcat(a[1..], b, c);
      var head := if a[0] == c then [] else [a[0]];
      var x, y := RemoveChar(a[1..], c), RemoveChar(b, c);
      assert RemoveChar(a + b, c) == head + (x + y);
      AppendAssoc(head, x, y);
    }
  }

  lemma {:induction false} RemoveCharAbsent(s: string, c: char)
    requires c !in s
    ensures RemoveChar(s, c) == s
  {
    if s != [] {
      RemoveCharAbsent(s[1..], c);
    }
  }

  /** `s.replace(pat, "")`: occurrences of `pat` are removed left to right,
      without overlap. */
  function RemoveAll(s: string, pat: string): (r: string)
    requires pat != ""
    ensures |r| <= |s|
    decreases |s|
  {
    if |s| < |pat| then s
    else if s[..|pat|] == pat then RemoveAll(s[|pat|..], pat)
    else [s[0]] + RemoveAll(s[1..], pat)
  }

  /** A string that never holds the first character of `pat` holds no
      occurrence of it, so nothing is removed. */
  lemma {:induction false} RemoveAllAbsent(s: string, pat: string)
    requires pat != "" && pat[0] !in s
    ensures RemoveAll(s, pat) == s
    decreases |s|
  {
    if |s| >= |pat| {
      assert s[..|pat|][0] == s[0];
      RemoveAllAbsent(s[1..], pat);
    }
  }

  // ---------------------------------------------------------------------
  // numbers

  predicate IsDigit(c: char) {
    '0' <= c <= '9'
  }

  function DigitChar(d: nat): (c: char)
    requires d < 10
    ensures IsDigit(c)
  {
    (('0' as int) + d) as char
  }

  function DigitValue(c: char): (d: nat)
    requires IsDigit(c)
    ensures d < 10
  {
    (c as int) - ('0' as int)
  }

  /** The decimal form of a natural number, as `str(n)` writes it. */
  function NatToString(n: nat): (s: string)
    ensures |s| >= 1
    ensures forall i :: 0 <= i < |s| ==> IsDigit(s[i])
  {
    if n < 10 then [DigitChar(n)] else NatToString(n / 10) + [DigitChar(n % 10)]
  }

  /** `str(i)` (and `f"{i}"`) for an integer. */
  function IntToString(i: int): string
  {
    if i < 0 then "-" + NatToString(-i) else NatToString(i)
  }

  /** The number a string of decimal digits denotes. */
  function DigitsValue(s: string): nat
    requires forall i :: 0 <= i < |s| ==> IsDigit(s[i])
  {
    if s == [] then 0 else DigitsValue(s[..|s| - 1]) * 10 + DigitValue(s[|s| - 1])
  }

  lemma {:induction false} DigitsOfNat(n: nat)
    ensures DigitsValue(NatToString(n)) == n
  {
    var s := NatToString(n);
    if n >= 10 {
      assert s[..|s| - 1] == NatToString(n / 10);
      DigitsOfNat(n / 10);
    }
  }

  /** A non-empty run of decimal digits. */
  predicate AllDigits(s: string) {
    |s| > 0 && forall i :: 0 <= i < |s| ==> IsDigit(s[i])
  }

  /** The integer an optional sign followed by digits denotes, if it is one. */
  function SignedValue(t: string): (r: Result<int>)
  {
    if |t| > 0 && t[0] == '-' && AllDigits(t[1..]) then Success(-(DigitsValue(t[1..]) as int))
    else if |t| > 0 && t[0] == '+' && AllDigits(t[1..]) then Success(DigitsValue(t[1..]))
    else if AllDigits(t) then Success(DigitsValue(t))
    else Failure(NotAnInteger(t))
  }

  /** `int(text)` for decimal text: white space around it, an optional
      sign, then at least one digit. */
  function ParseInt(text: string): (r: Result<int>)
    ensures r.Failure? ==> r.error == NotAnInteger(text)
  {
    var v := SignedValue(Strip(text));
    if v.Success? then v else Failure(NotAnInteger(text))
  }

  /** `int(str(i)) == i`. */
  lemma ParseIntOfString(i: int)
    ensures ParseInt(IntToString(i)) == Success(i)
  {
    IntToStringPlain(i);
    StripStripped(IntToString(i));
    SignedValueOfString(i);
  }

  lemma SignedValueOfString(i: int)
    ensures SignedValue(IntToString(i)) == Success(i)
  {
    var s := IntToString(i);
    if i < 0 {
      var d := NatToString(-i);
      assert s[1..] == d;
      DigitsOfNat(-i);
    } else {
      DigitsOfNat(i);
    }
  }

  /** The decimal form holds neither white space nor a separator we split on. */
  lemma IntToStringPlain(i: int)
    ensures IntToString(i) != ""
    ensures forall k :: 0 <= k < |IntToString(i)| ==> !IsSpace(IntToString(i)[k])
    ensures ' ' !in IntToString(i) && '\n' !in IntToString(i)
    ensures IsStripped(IntToString(i))
    ensures IsDigit(IntToString(i)[0]) || IntToString(i)[0] == '-'
  {
    var s := IntToString(i);
    forall k | 0 <= k < |s|
      ensures (IsDigit(s[k]) || s[k] == '-') && !IsSpace(s[k])
    {
      if i < 0 && k > 0 {
        assert s[k] == NatToString(-i)[k - 1];
      }
    }
  }
}
