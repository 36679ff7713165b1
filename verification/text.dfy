/** The small part of Python's `str` behaviour the generators and the
    verification scripts rely on: `strip()`, `split(sep)`, `split()`,
    `sep.join(...)`, `str(int)` and `int(str)`. */
module Text {
  import opened Results

  /** Python's `str.isspace()` for one character. */
  predicate IsSpace(c: char) {
    c == ' ' || ('\t' <= c <= '\r') || ('\U{1C}' <= c <= '\U{1F}')
    || c == '\U{85}' || c == '\U{A0}' || c == '\U{1680}'
    || ('\U{2000}' <= c <= '\U{200A}') || c == '\U{2028}' || c == '\U{2029}'
    || c == '\U{202F}' || c == '\U{205F}' || c == '\U{3000}'
  }

  predicate NoSpace(s: string) {
    forall i :: 0 <= i < |s| ==> !IsSpace(s[i])
  }

  /** A non-empty text with no white space at either end: what `strip()`
      leaves untouched. */
  predicate Trimmed(s: string) {
    |s| > 0 && !IsSpace(s[0]) && !IsSpace(s[|s| - 1])
  }

  predicate IsDigit(c: char) {
    '0' <= c <= '9'
  }

  predicate AllDigits(s: string) {
    forall i :: 0 <= i < |s| ==> IsDigit(s[i])
  }

  // ---------------------------------------------------------------------------
  // strip()

  /** `s.lstrip()`: drops leading white space and nothing else. */
  function StripLeft(s: string): (r: string)
    ensures |r| <= |s| && r == s[|s| - |r|..]
    ensures |r| == 0 || !IsSpace(r[0])
    ensures forall i :: 0 <= i < |s| - |r| ==> IsSpace(s[i])
  {
    if |s| > 0 && IsSpace(s[0]) then StripLeft(s[1..]) else s
  }

  /** `s.rstrip()`: drops trailing white space and nothing else. */
  function StripRight(s: string): (r: string)
    ensures |r| <= |s| && r == s[..|r|]
    ensures |r| == 0 || !IsSpace(r[|r| - 1])
    ensures forall i :: |r| <= i < |s| ==> IsSpace(s[i])
  {
    if |s| > 0 && IsSpace(s[|s| - 1]) then StripRight(s[..|s| - 1]) else s
  }

  /** `r` stands at position `i` of `s` with only white space around it. */
  predicate CoreAt(s: string, r: string, i: int) {
    && 0 <= i <= |s| - |r|
    && r == s[i..i + |r|]
    && (forall k :: 0 <= k < i ==> IsSpace(s[k]))
    && (forall k :: i + |r| <= k < |s| ==> IsSpace(s[k]))
  }

  /** `s.strip()`: the input with its leading and trailing white space
      removed. What remains is a slice of the input that is empty or
      trimmed, everything around it is white space, and a trimmed text is
      left as it is. */
  function Strip(s: string): (r: string)
    ensures |r| == 0 || Trimmed(r)
    ensures exists i :: CoreAt(s, r, i)
    ensures Trimmed(s) ==> r == s
    ensures NoSpace(s) ==> r == s
  {
    StripCore(s);
    StripRight(StripLeft(s))
  }

  lemma StripCore(s: string)
    ensures CoreAt(s, StripRight(StripLeft(s)), |s| - |StripLeft(s)|)
  {
    CoreOfParts(s, StripLeft(s), StripRight(StripLeft(s)));
  }

  /** Dropping white space from the front of `s` to get `l`, then from the
      back of `l` to get `r`, leaves `r` at position `|s| - |l|` of `s`
      with only white space around it. */
  lemma CoreOfParts(s: string, l: string, r: string)
    requires |l| <= |s| && l == s[|s| - |l|..]
    requires forall k :: 0 <= k < |s| - |l| ==> IsSpace(s[k])
    requires |r| <= |l| && r == l[..|r|]
    requires forall k :: |r| <= k < |l| ==> IsSpace(l[k])
    ensures CoreAt(s, r, |s| - |l|)
  {
    var i := |s| - |l|;
    assert r == s[i..i + |r|];
    forall k | i + |r| <= k < |s|
      ensures IsSpace(s[k])
    {
      assert s[k] == l[k - i];
    }
  }

  lemma StripTrimmed(s: string)
    requires Trimmed(s)
    ensures Strip(s) == s
  {
  }

  // ---------------------------------------------------------------------------
  // sep.join(xs) and s.split(c)

  /** `sep.join(xs)`. */
  function Join(sep: string, xs: seq<string>): string {
    if |xs| == 0 then ""
    else if |xs| == 1 then xs[0]
    else xs[0] + sep + Join(sep, xs[1..])
  }

  /** `s.split(c)` for a one-character separator: the pieces between the
      occurrences of `c`, always at least one (`"".split(c) == [""]`). */
  function SplitChar(s: string, c: char): (r: seq<string>)
    ensures |r| > 0
    ensures forall i :: 0 <= i < |r| ==> c !in r[i]
    ensures Join([c], r) == s
  {
    if |s| == 0 then [""]
    else
      var rest := SplitChar(s[1..], c);
      if s[0] == c then [""] + rest
      else [[s[0]] + rest[0]] + rest[1..]
  }

  lemma {:induction false} SplitWithoutSeparator(a: string, c: char)
    requires c !in a
    ensures SplitChar(a, c) == [a]
  {
    if |a| > 0 {
      SplitWithoutSeparator(a[1..], c);
      assert [a[0]] + a[1..] == a;
    }
  }

  lemma {:induction false} SplitAtFirstSeparator(a: string, b: string, c: char)
    requires c !in a
    ensures SplitChar(a + [c] + b, c) == [a] + SplitChar(b, c)
  {
    var s := a + [c] + b;
    if |a| == 0 {
      assert s[1..] == b;
    } else {
      assert s[1..] == a[1..] + [c] + b;
      SplitAtFirstSeparator(a[1..], b, c);
      assert [a[0]] + a[1..] == a;
    }
  }

  /** Splitting a joined list on its separator gives the list back, provided
      no item contains the separator. */
  lemma {:induction false} SplitJoin(xs: seq<string>, c: char)
    requires |xs| > 0
    requires forall i :: 0 <= i < |xs| ==> c !in xs[i]
    ensures SplitChar(Join([c], xs), c) == xs
  {
    if |xs| == 1 {
      SplitWithoutSeparator(xs[0], c);
    } else {
      SplitJoin(xs[1..], c);
      SplitAtFirstSeparator(xs[0], Join([c], xs[1..]), c);
      assert [xs[0]] + xs[1..] == xs;
    }
  }

  lemma {:induction false} JoinEnds(sep: string, xs: seq<string>)
    requires |xs| > 0 && forall i :: 0 <= i < |xs| ==> |xs[i]| > 0
    ensures var j := Join(sep, xs);
      |j| > 0 && j[0] == xs[0][0] && j[|j| - 1] == xs[|xs| - 1][|xs[|xs| - 1]| - 1]
  {
    if |xs| > 1 {
      JoinEnds(sep, xs[1..]);
    }
  }

  // ---------------------------------------------------------------------------
  // Program output: one printed line per value, read back with
  // `stdout.strip().split('\n')`.

  /** The text a C loop prints when it writes each line followed by `\n`. */
  function PrintLines(lines: seq<string>): string {
    if |lines| == 0 then "" else lines[0] + "\n" + PrintLines(lines[1..])
  }

  /** `stdout.strip().split('\n')`. */
  function OutputLines(stdout: string): (r: seq<string>)
    ensures |r| > 0
  {
    SplitChar(Strip(stdout), '\n')
  }

  lemma {:induction false} PrintLinesIsJoin(lines: seq<string>)
    requires |lines| > 0
    ensures PrintLines(lines) == Join("\n", lines) + "\n"
  {
    if |lines| > 1 {
      PrintLinesIsJoin(lines[1..]);
    }
  }

  /** Reading printed lines back recovers them, as long as each line is
      non-empty, has no white space at its ends and no line break inside. */
  lemma OutputLinesRoundTrip(lines: seq<string>)
    requires |lines| > 0
    requires forall i :: 0 <= i < |lines| ==> Trimmed(lines[i]) && '\n' !in lines[i]
    ensures OutputLines(PrintLines(lines)) == lines
  {
    PrintLinesIsJoin(lines);
    var j := Join("\n", lines);
    JoinEnds("\n", lines);
    var s := j + "\n";
    assert StripLeft(s) == s;
    assert s[..|s| - 1] == j;
    assert StripRight(s) == StripRight(j) == j;
    SplitJoin(lines, '\n');
  }

  /** `[parse(x) for x in lines]`: stops at the first line `parse`
      rejects. */
  function ParseEach<T>(lines: seq<string>, parse: string -> Option<T>): (r: Option<seq<T>>)
    ensures r.Some? <==> forall i :: 0 <= i < |lines| ==> parse(lines[i]).Some?
    ensures r.Some? ==> |r.value| == |lines| && forall i :: 0 <= i < |lines| ==> parse(lines[i]) == Some(r.value[i])
  {
    if |lines| == 0 then Some([])
    else
      match parse(lines[0])
      case None => None
      case Some(v) =>
        match ParseEach(lines[1..], parse)
        case None => None
        case Some(vs) => Some([v] + vs)
  }

  // ---------------------------------------------------------------------------
  // s.split() with no argument

  /** Length of the run of non-space characters that starts `s`. */
  function WordLength(s: string): (k: nat)
    requires |s| > 0 && !IsSpace(s[0])
    ensures 1 <= k <= |s|
    ensures NoSpace(s[..k])
    ensures k == |s| || IsSpace(s[k])
  {
    if |s| == 1 || IsSpace(s[1]) then 1 else 1 + WordLength(s[1..])
  }

  /** `s.split()`: the maximal runs of non-space characters, in order. */
  function Words(s: string): (r: seq<string>)
    ensures forall i :: 0 <= i < |r| ==> |r[i]| > 0 && NoSpace(r[i])
    ensures |r| == 0 <==> forall i :: 0 <= i < |s| ==> IsSpace(s[i])
    decreases |s|
  {
    if |s| == 0 then []
    else if IsSpace(s[0]) then Words(s[1..])
    else
      var k := WordLength(s);
      [s[..k]] + Words(s[k..])
  }

  lemma {:induction false} WordLengthOfWord(a: string, rest: string)
    requires |a| > 0 && NoSpace(a)
    requires |rest| == 0 || IsSpace(rest[0])
    ensures WordLength(a + rest) == |a|
  {
    if |a| > 1 {
      assert (a + rest)[1..] == a[1..] + rest;
      WordLengthOfWord(a[1..], rest);
    }
  }

  /** Two space-free tokens written with one blank between them split back
      into exactly those two tokens. */
  lemma WordsOfPair(a: string, b: string)
    requires |a| > 0 && NoSpace(a) && |b| > 0 && NoSpace(b)
    ensures Words(a + " " + b) == [a, b]
  {
    var s := a + (" " + b);
    assert s == a + " " + b;
    WordLengthOfWord(a, " " + b);
    assert s[..|a|] == a;
    assert s[|a|..] == " " + b;
    WordsAfterBlank(b);
    WordsOfWord(b);
  }

  /** `split()` cuts at every white-space character: the words of
      `a + [c] + b` are the words of `a` followed by the words of `b`.
      With `WordsOfWord` this fixes `Words` on every input. */
  lemma WordsSplitAtBlank(a: string, c: char, b: string)
    requires IsSpace(c)
    ensures Words(a + [c] + b) == Words(a) + Words(b)
  {
    var tail := [c] + b;
    assert a + [c] + b == a + tail;
    WordsBeforeBlank(a, tail);
    assert tail[1..] == b;
  }

  /** Text that starts with a blank adds its own words after those of `a`. */
  lemma {:induction false} WordsBeforeBlank(a: string, tail: string)
    requires |tail| > 0 && IsSpace(tail[0])
    ensures Words(a + tail) == Words(a) + Words(tail)
    decreases |a|
  {
    if |a| == 0 {
      assert a + tail == tail;
    } else if IsSpace(a[0]) {
      WordsBeforeBlank(a[1..], tail);
      SkipBlank(a, tail);
    } else {
      var k := WordLength(a);
      WordLengthPrefix(a, tail);
      WordsAfterWord(a, tail);
      WordsBeforeBlank(a[k..], tail);
      WordsOfLeadingWord(a);
      Reassociate([a[..k]], Words(a[k..]), Words(tail));
    }
  }

  /** A leading blank of `a` is skipped whatever follows. */
  lemma SkipBlank(a: string, tail: string)
    requires |a| > 0 && IsSpace(a[0])
    ensures Words(a + tail) == Words(a[1..] + tail)
    ensures Words(a) == Words(a[1..])
  {
    assert (a + tail)[1..] == a[1..] + tail;
  }

  lemma WordsOfLeadingWord(a: string)
    requires |a| > 0 && !IsSpace(a[0])
    ensures Words(a) == [a[..WordLength(a)]] + Words(a[WordLength(a)..])
  {
  }

  lemma Reassociate(x: seq<string>, y: seq<string>, z: seq<string>)
    ensures x + (y + z) == (x + y) + z
  {
  }

  /** When the word starting `a` ends inside `a`, `tail` only matters after
      it. */
  lemma WordsAfterWord(a: string, tail: string)
    requires |a| > 0 && !IsSpace(a[0])
    requires WordLength(a + tail) == WordLength(a)
    ensures Words(a + tail) == [a[..WordLength(a)]] + Words(a[WordLength(a)..] + tail)
  {
    var k := WordLength(a);
    assert (a + tail)[..k] == a[..k];
    assert (a + tail)[k..] == a[k..] + tail;
  }

  /** A word that starts `a` is not lengthened by text that starts with a
      blank. */
  lemma {:induction false} WordLengthPrefix(a: string, rest: string)
    requires |a| > 0 && !IsSpace(a[0])
    requires |rest| == 0 || IsSpace(rest[0])
    ensures WordLength(a + rest) == WordLength(a)
  {
    if |a| > 1 && !IsSpace(a[1]) {
      assert (a + rest)[1..] == a[1..] + rest;
      WordLengthPrefix(a[1..], rest);
    }
  }

  lemma WordsAfterBlank(b: string)
    ensures Words(" " + b) == Words(b)
  {
    assert (" " + b)[1..] == b;
  }

  lemma WordsOfWord(b: string)
    requires |b| > 0 && NoSpace(b)
    ensures Words(b) == [b]
  {
    WordLengthOfWord(b, "");
    assert b + "" == b;
    assert b[..|b|] == b && b[|b|..] == "";
  }

  // ---------------------------------------------------------------------------
  // str(n) and int(s)

  function DigitChar(d: nat): (c: char)
    requires d < 10
    ensures IsDigit(c)
  {
    (d + '0' as int) as char
  }

  function DigitValue(c: char): (d: nat)
    requires IsDigit(c)
    ensures d < 10 && DigitChar(d) == c
  {
    (c - '0') as nat
  }

  /** Decimal digits of `n`, most significant first, no leading zeros. */
  function NatStr(n: nat): (s: string)
    ensures |s| > 0 && AllDigits(s)
    ensures (s[0] == '0') == (n == 0)
    ensures n == 0 ==> s == "0"
  {
    if n < 10 then [DigitChar(n)] else NatStr(n / 10) + [DigitChar(n % 10)]
  }

  /** `str(n)` for a Python (or numpy) integer: a minus sign exactly for a
      negative number, then decimal digits without a leading zero (C would
      read `010` as octal). */
  function IntStr(n: int): (s: string)
    ensures |s| > 0
    ensures forall i :: 0 <= i < |s| ==> IsDigit(s[i]) || s[i] == '-'
    ensures (s[0] == '-') == (n < 0)
    ensures var digits := if n < 0 then s[1..] else s;
      |digits| > 0 && AllDigits(digits) && (digits[0] == '0') == (n == 0)
  {
    if n < 0 then "-" + NatStr(-n) else NatStr(n)
  }

  /** Value of a string of decimal digits. */
  function DigitsValue(s: string): nat
    requires AllDigits(s)
  {
    if |s| == 0 then 0 else DigitsValue(s[..|s| - 1]) * 10 + DigitValue(s[|s| - 1])
  }

  /** An optional sign followed by at least one decimal digit. */
  predicate SignedDigits(t: string) {
    || (|t| > 1 && (t[0] == '-' || t[0] == '+') && AllDigits(t[1..]))
    || (|t| > 0 && AllDigits(t))
  }

  /** `int(s)`: optional surrounding white space, an optional sign and at
      least one decimal digit; anything else is a `ValueError` (`None`).
      Only a text with a minus sign reads as a negative number. */
  function ParseInt(s: string): (r: Option<int>)
    ensures r.Some? <==> SignedDigits(Strip(s))
    ensures r.Some? && r.value < 0 ==> Strip(s)[0] == '-'
    ensures r.Some? && AllDigits(Strip(s)) ==> r.value == DigitsValue(Strip(s))
  {
    ParseSigned(Strip(s))
  }

  /** `int(t)` for a text without surrounding white space. */
  function ParseSigned(t: string): Option<int> {
    if |t| > 1 && (t[0] == '-' || t[0] == '+') && AllDigits(t[1..]) then
      Some(if t[0] == '-' then -(DigitsValue(t[1..]) as int) else DigitsValue(t[1..]))
    else if |t| > 0 && AllDigits(t) then Some(DigitsValue(t))
    else None
  }

  lemma {:induction false} NatStrRoundTrip(n: nat)
    ensures DigitsValue(NatStr(n)) == n
  {
    if n >= 10 {
      NatStrRoundTrip(n / 10);
      var s := NatStr(n);
      assert s[..|s| - 1] == NatStr(n / 10);
    }
  }

  lemma IntStrTrimmed(n: int)
    ensures Trimmed(IntStr(n))
  {
    var s := IntStr(n);
    SignOrDigitIsNoSpace(s[0]);
    SignOrDigitIsNoSpace(s[|s| - 1]);
  }

  /** `str(n)` holds no character other than a sign and digits. */
  lemma IntStrHasNo(n: int, c: char)
    requires c != '-' && !IsDigit(c)
    ensures c !in IntStr(n)
  {
  }

  lemma IntStrNoSpace(n: int)
    ensures NoSpace(IntStr(n))
  {
    var s := IntStr(n);
    forall i | 0 <= i < |s|
      ensures !IsSpace(s[i])
    {
      SignOrDigitIsNoSpace(s[i]);
    }
  }

  /** `str(n)` is a line `strip().split('\n')` and `int(...)` read back
      as `n`. */
  lemma IntStrPrintable(n: int)
    ensures Trimmed(IntStr(n)) && '\n' !in IntStr(n)
    ensures ParseInt(IntStr(n)) == Some(n)
  {
    IntStrTrimmed(n);
    IntStrHasNo(n, '\n');
    IntStrRoundTrip(n);
  }

  lemma NoSpaceHasNoNewline(s: string)
    requires NoSpace(s)
    ensures '\n' !in s
  {
    assert IsSpace('\n');
  }

  lemma SignOrDigitIsNoSpace(c: char)
    requires IsDigit(c) || c == '-'
    ensures !IsSpace(c)
  {
  }

  lemma ParseSignedOfNatStr(m: nat)
    ensures ParseSigned(NatStr(m)) == Some(m)
  {
    NatStrRoundTrip(m);
    var t := NatStr(m);
    assert IsDigit(t[0]);
  }

  lemma ParseSignedOfNegative(m: nat)
    requires m > 0
    ensures ParseSigned("-" + NatStr(m)) == Some(-(m as int))
  {
    NatStrRoundTrip(m);
    var t := "-" + NatStr(m);
    assert t[1..] == NatStr(m);
  }

  /** `int(str(n)) == n`. */
  lemma IntStrRoundTrip(n: int)
    ensures ParseInt(IntStr(n)) == Some(n)
  {
    IntStrTrimmed(n);
    StripTrimmed(IntStr(n));
    if n < 0 {
      ParseSignedOfNegative(-n);
    } else {
      ParseSignedOfNatStr(n);
    }
  }
}
