/** The Python string built-ins the high-score store relies on, modelled on
    `string` (a sequence of characters): `str.strip()`, `str.split(",")`,
    iterating over the lines of a text file, `int(...)` applied to a string and
    `"{}".format(n)` of an integer. */
module Text {
  import opened Options

  /** The blanks CircuitPython's `str.strip()` removes and its `int()` skips:
      space, tab, line feed, vertical tab, form feed and carriage return. */
  predicate IsSpace(c: char) {
    var n := c as int;
    n == 32 || 9 <= n <= 13
  }

  /** Neither starts nor ends with whitespace. */
  predicate Trimmed(s: string) {
    |s| == 0 || (!IsSpace(s[0]) && !IsSpace(s[|s| - 1]))
  }

  function TrimStart(s: string): (r: string)
    ensures |r| <= |s| && r == s[|s| - |r|..]
    ensures forall k :: 0 <= k < |s| - |r| ==> IsSpace(s[k])
    ensures |r| > 0 ==> !IsSpace(r[0])
  {
    if |s| > 0 && IsSpace(s[0]) then TrimStart(s[1..]) else s
  }

  function TrimEnd(s: string): (r: string)
    ensures |r| <= |s| && r == s[..|r|]
    ensures forall k :: |r| <= k < |s| ==> IsSpace(s[k])
    ensures |r| > 0 ==> !IsSpace(r[|r| - 1])
  {
    if |s| > 0 && IsSpace(s[|s| - 1]) then TrimEnd(s[..|s| - 1]) else s
  }

  /** `s.strip()`: the longest middle part of `s` that neither starts nor ends
      with whitespace, once only whitespace has been cut from both ends. */
  function Strip(s: string): (r: string)
    ensures Trimmed(r)
    ensures exists i, j :: 0 <= i <= j <= |s| && r == s[i..j]
              && (forall k :: 0 <= k < i ==> IsSpace(s[k]))
              && (forall k :: j <= k < |s| ==> IsSpace(s[k]))
    ensures forall c :: c in r ==> c in s
  {
    var t := TrimStart(s);
    var r := TrimEnd(t);
    var i := |s| - |t|;
    assert r == s[i..i + |r|];
    r
  }

  /** Stripping what is already trimmed changes nothing. */
  lemma StripTrimmed(s: string)
    requires Trimmed(s)
    ensures Strip(s) == s
  {
    assert TrimStart(s) == s;
  }

  /** Whitespace appended to a trimmed, non-empty text is all that `strip` removes. */
  lemma StripTrailingSpace(s: string, c: char)
    requires Trimmed(s) && |s| > 0 && IsSpace(c)
    ensures Strip(s + [c]) == s
  {
    var t := s + [c];
    assert TrimStart(t) == t;
    assert t[..|t| - 1] == s;
    assert TrimEnd(s) == s;
  }

  /** The inverse of `Split`: the pieces glued back with the separator. */
  function Join(parts: seq<string>, sep: char): string
    requires |parts| >= 1
  {
    if |parts| == 1 then parts[0] else parts[0] + [sep] + Join(parts[1..], sep)
  }

  /** A string with one separator splits into the text before it and the
      text after it. */
  lemma SplitOnce(s: string, sep: char)
    requires |Split(s, sep)| == 2
    ensures var parts := Split(s, sep);
      var k := |parts[0]|;
      && k < |s| && s[k] == sep
      && parts[0] == s[..k] && parts[1] == s[k + 1..]
  {
    var parts := Split(s, sep);
    var k := |parts[0]|;
    assert Join(parts[1..], sep) == parts[1];
    assert s == parts[0] + [sep] + parts[1];
    assert s[..k] == parts[0];
    assert s[k + 1..] == parts[1];
  }

  /** The number of occurrences of `c` in `s`. */
  function Occurrences(s: string, c: char): nat {
    if |s| == 0 then 0 else (if s[0] == c then 1 else 0) + Occurrences(s[1..], c)
  }

  /** `s.split(sep)` for a one-character separator: the pieces between the
      separators, in order, one more piece than there are separators. */
  function Split(s: string, sep: char): (parts: seq<string>)
    ensures |parts| == Occurrences(s, sep) + 1
    ensures forall i :: 0 <= i < |parts| ==> forall c :: c in parts[i] ==> c in s && c != sep
    ensures Join(parts, sep) == s
  {
    if |s| == 0 then [""]
    else
      var rest := Split(s[1..], sep);
      if s[0] == sep then
        assert s == [sep] + s[1..];
        [""] + rest
      else
        var parts := [[s[0]] + rest[0]] + rest[1..];
        assert |rest| > 1 ==> Join(rest, sep) == rest[0] + [sep] + Join(rest[1..], sep);
        assert parts[1..] == rest[1..];
        assert s == [s[0]] + s[1..];
        parts
  }

  /** A text with no separator splits into itself alone. */
  lemma {:induction false} SplitNoSeparator(s: string, sep: char)
    requires sep !in s
    ensures Split(s, sep) == [s]
  {
    if |s| > 0 {
      SplitNoSeparator(s[1..], sep);
      assert [s[0]] + s[1..] == s;
    }
  }

  /** Two separator-free pieces joined by one separator split back into those two. */
  lemma {:induction false} SplitPair(a: string, b: string, sep: char)
    requires sep !in a && sep !in b
    ensures Split(a + [sep] + b, sep) == [a, b]
  {
    var s := a + [sep] + b;
    if |a| == 0 {
      assert s == [sep] + b && s[1..] == b;
      SplitNoSeparator(b, sep);
    } else {
      assert s[1..] == a[1..] + [sep] + b;
      SplitPair(a[1..], b, sep);
      assert [a[0]] + a[1..] == a;
    }
  }

  /** The text put back together from its lines. */
  function Concat(lines: seq<string>): string {
    if |lines| == 0 then "" else lines[0] + Concat(lines[1..])
  }

  /** The length of the first line of a non-empty text: up to and including
      the first newline, or all of it when it holds none. */
  function LineLength(s: string): (k: nat)
    requires |s| > 0
    ensures 0 < k <= |s|
    ensures forall j :: 0 <= j < k - 1 ==> s[j] != '\n'
    ensures k < |s| ==> s[k - 1] == '\n'
  {
    if s[0] == '\n' || |s| == 1 then 1
    else
      var k := 1 + LineLength(s[1..]);
      assert forall j :: 0 < j < k - 1 ==> s[j] == s[1..][j - 1];
      k
  }

  /** The first line ends at the first newline. */
  lemma LineLengthAt(s: string, k: nat)
    requires 0 < k <= |s| && s[k - 1] == '\n'
    requires forall j :: 0 <= j < k - 1 ==> s[j] != '\n'
    ensures LineLength(s) == k
  {
    var m := LineLength(s);
    assert m <= k ==> s[m - 1] != '\n' || m == k;
    assert m >= k ==> s[k - 1] != '\n' || m == k;
  }

  /** The lines a text-mode file yields when iterated, each with its newline. */
  function Lines(s: string): (ls: seq<string>)
    ensures |s| > 0 ==> |ls| > 0
    decreases |s|
  {
    if |s| == 0 then []
    else
      var k := LineLength(s);
      [s[..k]] + Lines(s[k..])
  }

  /** Lines as a text file holds them: none empty, a newline only at the end
      of a line, and at the end of every line but the last. */
  predicate LineBroken(ls: seq<string>) {
    && (forall i :: 0 <= i < |ls| ==> |ls[i]| > 0)
    && (forall i :: 0 <= i < |ls| ==> forall k :: 0 <= k < |ls[i]| - 1 ==> ls[i][k] != '\n')
    && (forall i :: 0 <= i < |ls| - 1 ==> ls[i][|ls[i]| - 1] == '\n')
  }

  /** Every line is non-empty, a newline occurs only as the last character of a
      line, every line but the last ends with one, and the lines put together
      give back the text. */
  lemma LinesShape(s: string)
    ensures Concat(Lines(s)) == s && LineBroken(Lines(s))
  {
    LinesConcat(s);
    LinesBreaks(s);
  }

  lemma {:induction false} LinesConcat(s: string)
    ensures Concat(Lines(s)) == s
    decreases |s|
  {
    if |s| > 0 {
      var k := LineLength(s);
      LinesConcat(s[k..]);
      var ls := Lines(s);
      assert ls[0] == s[..k] && ls[1..] == Lines(s[k..]);
      assert s == s[..k] + s[k..];
    }
  }

  lemma {:induction false} LinesBreaks(s: string)
    ensures LineBroken(Lines(s))
    decreases |s|
  {
    if |s| > 0 {
      var k := LineLength(s);
      LinesBreaks(s[k..]);
      var rest := Lines(s[k..]);
      var ls := Lines(s);
      assert ls == [s[..k]] + rest;
      assert forall i :: 0 < i < |ls| ==> ls[i] == rest[i - 1];
      if |rest| > 0 {
        assert k < |s|;
        assert ls[0][k - 1] == '\n';
      }
    }
  }

  /** A line without a newline, ended by one, is read back as one line. */
  lemma LinesOfOneLine(l: string)
    requires '\n' !in l
    ensures Lines(l + "\n") == [l + "\n"]
  {
    var s := l + "\n";
    assert forall j :: 0 <= j < |s| - 1 ==> s[j] == l[j];
    LineLengthAt(s, |s|);
    assert s[..|s|] == s && s[|s|..] == [];
  }

  /** Text that ends at a line boundary splits into lines independently of
      what follows it. */
  lemma {:induction false} LinesAppend(a: string, b: string)
    requires |a| == 0 || a[|a| - 1] == '\n'
    ensures Lines(a + b) == Lines(a) + Lines(b)
    decreases |a|
  {
    if |a| == 0 {
      assert a + b == b;
    } else {
      var s := a + b;
      var k := LineLength(a);
      assert a[k - 1] == '\n';
      assert forall j :: 0 <= j < k ==> s[j] == a[j];
      LineLengthAt(s, k);
      assert s[..k] == a[..k];
      assert s[k..] == a[k..] + b;
      LinesAppend(a[k..], b);
    }
  }

  predicate IsDigit(c: char) {
    '0' <= c <= '9'
  }

  predicate AllDigits(s: string) {
    forall i :: 0 <= i < |s| ==> IsDigit(s[i])
  }

  function DigitChar(d: int): (c: char)
    requires 0 <= d < 10
    ensures IsDigit(c)
  {
    (48 + d) as char
  }

  /** The decimal value of a string of ASCII digits. */
  function DigitsValue(s: string): nat
    requires AllDigits(s)
  {
    if |s| == 0 then 0
    else DigitsValue(s[..|s| - 1]) * 10 + (s[|s| - 1] as int - 48)
  }

  /** The decimal digits of a natural number, without leading zeros. */
  function NatToString(n: nat): (s: string)
    ensures |s| > 0 && AllDigits(s)
  {
    if n < 10 then [DigitChar(n)] else NatToString(n / 10) + [DigitChar(n % 10)]
  }

  /** `"{}".format(n)` for an integer: its digits, after a minus sign when negative. */
  function IntToString(n: int): (s: string)
    ensures |s| > 0 && Trimmed(s) && IsDigit(s[|s| - 1])
    ensures ',' !in s && '\n' !in s
  {
    if n < 0 then "-" + NatToString(-n) else NatToString(n)
  }

  /** `int(s)` on a string: surrounding whitespace is ignored, then an optional
      sign and at least one decimal digit; anything else cannot be parsed. */
  function ParseInt(s: string): Option<int> {
    ParseTrimmed(Strip(s))
  }

  /** An optional sign followed by at least one decimal digit, and nothing else. */
  function ParseTrimmed(t: string): Option<int> {
    if |t| > 0 && (t[0] == '-' || t[0] == '+') then
      var d := t[1..];
      if |d| > 0 && AllDigits(d) then
        var v: int := DigitsValue(d);
        Some(if t[0] == '-' then -v else v)
      else None
    else if |t| > 0 && AllDigits(t) then Some(DigitsValue(t))
    else None
  }

  lemma {:induction false} DigitsOfNat(n: nat)
    ensures DigitsValue(NatToString(n)) == n
  {
    if n >= 10 {
      DigitsOfNat(n / 10);
      var s := NatToString(n);
      assert s[..|s| - 1] == NatToString(n / 10);
    }
  }

  /** Formatting an integer and parsing it back gives the integer. */
  lemma ParseFormattedInt(n: int)
    ensures ParseInt(IntToString(n)) == Some(n)
  {
    var s := IntToString(n);
    ParseOfTrimmed(s);
    if n < 0 {
      DigitsOfNat(-n);
      ParseNegative(NatToString(-n));
    } else {
      DigitsOfNat(n);
      ParseUnsigned(NatToString(n));
    }
  }

  /** What is already trimmed is parsed as it stands. */
  lemma ParseOfTrimmed(s: string)
    requires Trimmed(s)
    ensures ParseInt(s) == ParseTrimmed(s)
  {
    StripTrimmed(s);
  }

  lemma ParseNegative(d: string)
    requires |d| > 0 && AllDigits(d)
    ensures ParseTrimmed("-" + d) == Some(-(DigitsValue(d) as int))
  {
    assert ("-" + d)[1..] == d;
  }

  lemma ParseUnsigned(d: string)
    requires |d| > 0 && AllDigits(d)
    ensures ParseTrimmed(d) == Some(DigitsValue(d) as int)
  {
    assert IsDigit(d[0]);
  }
}
