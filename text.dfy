/** String helpers shared by the model: decimal rendering of integers, the
    whitespace set of Python's `str.strip`, substring search and first-split. */
module Text {

  import opened Wrappers

  predicate IsDigit(c: char) {
    '0' <= c <= '9'
  }

  predicate AllDigits(s: string) {
    forall i :: 0 <= i < |s| ==> IsDigit(s[i])
  }

  function DigitChar(d: nat): (c: char)
    requires d < 10
    ensures IsDigit(c)
  {
    (('0' as int) + d) as char
  }

  function DigitValue(c: char): (d: nat)
    requires IsDigit(c)
    ensures d < 10
  {
    (c as int) - ('0' as int)
  }

  /** Decimal digits of `n`, most significant first, without leading zeros
      (Python's `str(n)` for a non-negative int). */
  function NatToString(n: nat): (s: string)
    ensures |s| >= 1 && AllDigits(s)
    ensures |s| > 1 ==> s[0] != '0'
    decreases n
  {
    if n < 10 then [DigitChar(n)] else NatToString(n / 10) + [DigitChar(n % 10)]
  }

  /** The value of a string of decimal digits. */
  function ParseDigits(s: string): nat
    requires AllDigits(s)
    decreases |s|
  {
    if s == [] then 0 else ParseDigits(s[..|s| - 1]) * 10 + DigitValue(s[|s| - 1])
  }

  lemma {:induction false} ParseNatToString(n: nat)
    ensures ParseDigits(NatToString(n)) == n
    decreases n
  {
    var s := NatToString(n);
    if n >= 10 {
      ParseNatToString(n / 10);
      assert s[..|s| - 1] == NatToString(n / 10);
    }
  }

  lemma NatToStringInjective(a: nat, b: nat)
    ensures NatToString(a) == NatToString(b) ==> a == b
  {
    if NatToString(a) == NatToString(b) {
      ParseNatToString(a);
      ParseNatToString(b);
    }
  }

  /** Python's `str(i)` for an int of either sign. */
  function IntToString(i: int): (s: string)
    ensures |s| >= 1
    ensures i < 0 <==> s[0] == '-'
  {
    if i < 0 then "-" + NatToString(-i) else NatToString(i)
  }

  lemma IntToStringInjective(a: int, b: int)
    ensures IntToString(a) == IntToString(b) ==> a == b
  {
    if IntToString(a) == IntToString(b) {
      if a < 0 {
        assert IntToString(a)[1..] == NatToString(-a);
        assert IntToString(b)[1..] == NatToString(-b);
        NatToStringInjective(-a, -b);
      } else {
        NatToStringInjective(a, b);
      }
    }
  }

  /** The characters Python's `str.strip()` removes (`str.isspace()`). */
  predicate IsSpace(c: char) {
    var n := c as int;
    9 <= n <= 13 || 28 <= n <= 32 || n == 0x85 || n == 0xA0 || n == 0x1680
    || 0x2000 <= n <= 0x200A || n == 0x2028 || n == 0x2029 || n == 0x202F
    || n == 0x205F || n == 0x3000
  }

  /** Line boundaries recognised by Python's `str.splitlines()`. */
  predicate IsLineBreak(c: char) {
    10 <= c as int <= 13 || 28 <= c as int <= 30 || c as int == 0x85
    || c as int == 0x2028 || c as int == 0x2029
  }

  function TrimLeft(s: string): (r: string)
    ensures |r| <= |s| && r == s[|s| - |r|..]
    ensures |r| > 0 ==> !IsSpace(r[0])
    ensures forall i :: 0 <= i < |s| - |r| ==> IsSpace(s[i])
    decreases |s|
  {
    if |s| > 0 && IsSpace(s[0]) then TrimLeft(s[1..]) else s
  }

  function TrimRight(s: string): (r: string)
    ensures |r| <= |s| && r == s[..|r|]
    ensures |r| > 0 ==> !IsSpace(r[|r| - 1])
    ensures forall i :: |r| <= i < |s| ==> IsSpace(s[i])
    decreases |s|
  {
    if |s| > 0 && IsSpace(s[|s| - 1]) then TrimRight(s[..|s| - 1]) else s
  }

  /** Python's `str.strip()` with no argument. */
  function Strip(s: string): string {
    TrimRight(TrimLeft(s))
  }

  lemma StripUnchanged(s: string)
    requires |s| > 0 ==> !IsSpace(s[0]) && !IsSpace(s[|s| - 1])
    ensures Strip(s) == s
  {
  }

  /** `sub` occurs in `s` starting at index `i`. */
  predicate OccursAt(s: string, sub: string, i: int) {
    0 <= i && i + |sub| <= |s| && s[i..i + |sub|] == sub
  }

  /** Python's `sub in s`. */
  predicate Contains(s: string, sub: string) {
    exists i | 0 <= i <= |s| :: OccursAt(s, sub, i)
  }

  /** Python's `s.count(c)` for a single character. */
  function CountChar(s: string, c: char): nat
    decreases |s|
  {
    if s == [] then 0 else CountChar(s[..|s| - 1], c) + (if s[|s| - 1] == c then 1 else 0)
  }

  /** Index of the first `c` in `s`, if any. */
  function FindChar(s: string, c: char): (r: Option<nat>)
    ensures r.Some? ==> r.value < |s| && s[r.value] == c && forall j :: 0 <= j < r.value ==> s[j] != c
    ensures r.None? ==> forall j :: 0 <= j < |s| ==> s[j] != c
    decreases |s|
  {
    if s == [] then None
    else if s[0] == c then Some(0)
    else match FindChar(s[1..], c)
      case None => None
      case Some(k) => Some(k + 1)
  }

  /** Python's `s.split(c, 1)` when it yields two parts; None when `c` does not occur. */
  function SplitFirst(s: string, c: char): (r: Option<(string, string)>)
    ensures r.None? <==> c !in s
    ensures r.Some? ==> s == r.value.0 + [c] + r.value.1 && c !in r.value.0
  {
    match FindChar(s, c)
    case None => None
    case Some(i) => Some((s[..i], s[i + 1..]))
  }


  /** A string that `sub` cannot straddle: splitting `s` at a character that
      `sub` lacks leaves every occurrence of `sub` inside one of the parts. */
  lemma OccurrenceAvoidsSeparator(a: string, c: char, b: string, sub: string)
    requires c !in sub
    ensures Contains(a + [c] + b, sub) ==> Contains(a, sub) || Contains(b, sub)
  {
    var s := a + [c] + b;
    if Contains(s, sub) {
      var i :| 0 <= i <= |s| && OccursAt(s, sub, i);
      if i <= |a| < i + |sub| {
        StraddleHoldsSeparator(a, c, b, sub, i);
      }
      if i + |sub| <= |a| {
        assert s[i..i + |sub|] == a[i..i + |sub|];
        assert OccursAt(a, sub, i);
      } else if i > |a| {
        var k := i - |a| - 1;
        assert s[i..i + |sub|] == b[k..k + |sub|];
        assert OccursAt(b, sub, k);
      }
    }
  }

  lemma StraddleHoldsSeparator(a: string, c: char, b: string, sub: string, i: int)
    requires OccursAt(a + [c] + b, sub, i) && i <= |a| < i + |sub|
    ensures c in sub
  {
    assert sub[|a| - i] == (a + [c] + b)[|a|];
  }

  /** No occurrence is possible when the first character of `sub` is absent. */
  lemma AbsentFirstChar(s: string, sub: string)
    requires |sub| > 0 && sub[0] !in s
    ensures !Contains(s, sub)
  {
    if Contains(s, sub) {
    }
  }

  lemma ContainsAtStart(s: string, sub: string)
    requires |sub| <= |s| && s[..|sub|] == sub
    ensures Contains(s, sub)
  {
    assert OccursAt(s, sub, 0);
  }

  lemma CountCharAppend(a: string, b: string, c: char)
    ensures CountChar(a + b, c) == CountChar(a, c) + CountChar(b, c)
    decreases |b|
  {
    if b == [] {
      assert a + b == a;
    } else {
      assert (a + b)[..|a + b| - 1] == a + b[..|b| - 1];
      CountCharAppend(a, b[..|b| - 1], c);
    }
  }

  /** The concatenation of a list of lines. */
  function Concat(lines: seq<string>): string
    decreases |lines|
  {
    if lines == [] then "" else lines[0] + Concat(lines[1..])
  }

  /** Index of the first line boundary in `s`, if any. */
  function FindLineBreak(s: string): (r: Option<nat>)
    ensures r.Some? ==>
      (r.value < |s| && IsLineBreak(s[r.value]) && forall j :: 0 <= j < r.value ==> !IsLineBreak(s[j]))
    ensures r.None? ==> forall j :: 0 <= j < |s| ==> !IsLineBreak(s[j])
    decreases |s|
  {
    if s == [] then None
    else if IsLineBreak(s[0]) then Some(0)
    else match FindLineBreak(s[1..])
      case None => None
      case Some(k) => Some(k + 1)
  }

  /** Python's `s.splitlines(True)`: lines with their terminators kept;
      "\r\n" ends a single line. */
  function SplitLines(s: string): seq<string>
    decreases |s|
  {
    if s == [] then []
    else match FindLineBreak(s)
      case None => [s]
      case Some(i) =>
        var end := if s[i] == '\r' && i + 1 < |s| && s[i + 1] == '\n' then i + 2 else i + 1;
        [s[..end]] + SplitLines(s[end..])
  }

  /** A line as a writer emits it: text without line boundaries, then "\n". */
  predicate IsTerminatedLine(l: string) {
    |l| > 0 && l[|l| - 1] == '\n' && forall j :: 0 <= j < |l| - 1 ==> !IsLineBreak(l[j])
  }

  /** Splitting the concatenation of terminated lines gives the lines back. */
  lemma {:induction false} SplitConcat(lines: seq<string>)
    requires forall k | 0 <= k < |lines| :: IsTerminatedLine(lines[k])
    ensures SplitLines(Concat(lines)) == lines
    decreases |lines|
  {
    if lines != [] {
      SplitTerminatedHead(lines[0], Concat(lines[1..]));
      SplitConcat(lines[1..]);
      assert lines == [lines[0]] + lines[1..];
    }
  }

  /** A terminated line at the front of a text is split off whole. */
  lemma SplitTerminatedHead(l: string, rest: string)
    requires IsTerminatedLine(l)
    ensures SplitLines(l + rest) == [l] + SplitLines(rest)
  {
    var s := l + rest;
    assert s[..|l|] == l;
    assert FindLineBreak(s) == Some(|l| - 1) by {
      assert IsLineBreak(s[|l| - 1]);
      assert forall j :: 0 <= j < |l| - 1 ==> s[j] == l[j];
    }
    assert s[|l|..] == rest;
  }
}
