/** The few JavaScript string operations the core relies on: `trim`,
    `includes`, `substring`, `Array.prototype.join`, the decimal rendering of
    a number in a template literal, and the line terminators that stop the
    regular-expression `.` and anchor `^`/`$` in multiline mode. Strings are
    sequences of characters. */
module JsStrings {

  function Min(a: int, b: int): int {
    if a <= b then a else b
  }

  /** `t` occurs in `s` starting at index `k`. */
  predicate OccursAt(t: string, s: string, k: int) {
    0 <= k && k + |t| <= |s| && s[k..k + |t|] == t
  }

  lemma OccursInConcat(t: string, a: string, b: string, c: string, k: int)
    requires OccursAt(t, b, k)
    ensures OccursAt(t, a + b + c, |a| + k)
  {
    assert (a + b + c)[|a| + k..|a| + k + |t|] == b[k..k + |t|];
  }

  // ---------------------------------------------------------------- substring

  /** `s.substring(0, n)`: the first `n` characters, or all of `s` when it is
      shorter. */
  function Substring0(s: string, n: nat): (t: string)
    ensures |t| == Min(|s|, n)
    ensures t <= s
  {
    if |s| <= n then s else s[..n]
  }

  // --------------------------------------------------------------- whitespace

  /** The characters `String.prototype.trim` removes: WhiteSpace and
      LineTerminator of ECMA-262 (sections 12.2 and 12.3), that is TAB, VT, FF,
      ZWNBSP, every Unicode space separator, LF, CR, LS and PS. */
  predicate IsWhitespace(c: char) {
    || c == '\t' || c == '\n' || c == '\U{000B}' || c == '\U{000C}' || c == '\r'
    || c == ' ' || c == '\U{00A0}' || c == '\U{1680}'
    || ('\U{2000}' <= c <= '\U{200A}')
    || c == '\U{2028}' || c == '\U{2029}' || c == '\U{202F}' || c == '\U{205F}'
    || c == '\U{3000}' || c == '\U{FEFF}'
  }

  /** The LineTerminator characters of ECMA-262: `.` does not match them, and
      in multiline mode `^` holds just after and `$` just before one. */
  predicate IsLineTerminator(c: char) {
    c == '\n' || c == '\r' || c == '\U{2028}' || c == '\U{2029}'
  }

  /** Every character of `s` is whitespace (vacuously so for ""). */
  predicate IsBlank(s: string) {
    forall i | 0 <= i < |s| :: IsWhitespace(s[i])
  }

  /** `s.trimStart()`: drops exactly the leading whitespace. */
  function TrimStart(s: string): (t: string)
    ensures |t| <= |s| && t == s[|s| - |t|..]
    ensures forall i | 0 <= i < |s| - |t| :: IsWhitespace(s[i])
    ensures t != [] ==> !IsWhitespace(t[0])
  {
    if s != [] && IsWhitespace(s[0]) then TrimStart(s[1..]) else s
  }

  /** `s.trimEnd()`: drops exactly the trailing whitespace. */
  function TrimEnd(s: string): (t: string)
    ensures |t| <= |s| && t == s[..|t|]
    ensures forall i | |t| <= i < |s| :: IsWhitespace(s[i])
    ensures t != [] ==> !IsWhitespace(t[|t| - 1])
  {
    if s != [] && IsWhitespace(s[|s| - 1]) then TrimEnd(s[..|s| - 1]) else s
  }

  /** `s.trim()`. */
  function Trim(s: string): string {
    TrimEnd(TrimStart(s))
  }

  /** The test `!text || text.trim().length === 0` holds exactly of the blank
      strings. */
  lemma TrimEmptyIffBlank(s: string)
    ensures |Trim(s)| == 0 <==> IsBlank(s)
  {
  }

  // ----------------------------------------------------------------- includes

  /** `s.includes(t)`. */
  function Includes(s: string, t: string): (b: bool)
    ensures b <==> exists k :: OccursAt(t, s, k)
    decreases |s|
  {
    if |s| < |t| then false
    else if t <= s then
      assert OccursAt(t, s, 0);
      true
    else
      var b := Includes(s[1..], t);
      IncludesShift(s, t, b);
      b
  }

  /** An occurrence in `s` is one at index 0 or one in `s[1..]`. */
  lemma IncludesShift(s: string, t: string, b: bool)
    requires |s| >= |t| && !(t <= s)
    requires b <==> exists k :: OccursAt(t, s[1..], k)
    ensures b <==> exists k :: OccursAt(t, s, k)
  {
    if b {
      var k :| OccursAt(t, s[1..], k);
      assert s[k + 1..k + 1 + |t|] == s[1..][k..k + |t|];
      assert OccursAt(t, s, k + 1);
    } else {
      forall k | OccursAt(t, s, k) ensures false {
        if k != 0 {
          assert s[1..][k - 1..k - 1 + |t|] == s[k..k + |t|];
          assert OccursAt(t, s[1..], k - 1);
        }
      }
    }
  }

  // --------------------------------------------------------------------- join

  /** `xs.join(sep)`. */
  function Join(xs: seq<string>, sep: string): string {
    if |xs| == 0 then ""
    else if |xs| == 1 then xs[0]
    else xs[0] + sep + Join(xs[1..], sep)
  }

  /** Where the `i`-th element starts inside `Join(xs, sep)`. */
  function JoinOffset(xs: seq<string>, sep: string, i: nat): nat
    requires i <= |xs|
  {
    if i == 0 then 0 else |xs[0]| + |sep| + JoinOffset(xs[1..], sep, i - 1)
  }

  /** The elements appear in the joined string in their own order, each
      followed by a separator except the last: element `i` sits at
      `JoinOffset(xs, sep, i)`, and element `i + 1` starts right after element
      `i` and one separator. */
  lemma {:induction false} JoinAt(xs: seq<string>, sep: string, i: nat)
    requires i < |xs|
    ensures OccursAt(xs[i], Join(xs, sep), JoinOffset(xs, sep, i))
    ensures i + 1 < |xs| ==> OccursAt(sep, Join(xs, sep), JoinOffset(xs, sep, i) + |xs[i]|)
    ensures i + 1 < |xs| ==> JoinOffset(xs, sep, i + 1) == JoinOffset(xs, sep, i) + |xs[i]| + |sep|
  {
    if |xs| == 1 {
    } else if i == 0 {
      var j := Join(xs, sep);
      assert j == xs[0] + sep + Join(xs[1..], sep);
      assert j[..|xs[0]|] == xs[0];
      assert j[|xs[0]|..|xs[0]| + |sep|] == sep;
      assert JoinOffset(xs[1..], sep, 0) == 0;
    } else {
      JoinAt(xs[1..], sep, i - 1);
      OccursInConcat(xs[i], xs[0] + sep, Join(xs[1..], sep), "", JoinOffset(xs[1..], sep, i - 1));
      assert xs[0] + sep + Join(xs[1..], sep) + "" == Join(xs, sep);
      if i + 1 < |xs| {
        OccursInConcat(sep, xs[0] + sep, Join(xs[1..], sep), "", JoinOffset(xs[1..], sep, i - 1) + |xs[i]|);
      }
    }
  }

  /** The last element ends the joined string. */
  lemma {:induction false} JoinEnd(xs: seq<string>, sep: string)
    requires |xs| > 0
    ensures JoinOffset(xs, sep, |xs| - 1) + |xs[|xs| - 1]| == |Join(xs, sep)|
  {
    if |xs| > 1 {
      JoinEnd(xs[1..], sep);
      assert xs[1..][|xs| - 2] == xs[|xs| - 1];
    }
  }

  /** `JoinAt` for a joined string framed by a fixed text on each side. */
  lemma FramedJoinAt(head: string, xs: seq<string>, sep: string, tail: string, i: nat)
    requires i < |xs|
    ensures OccursAt(xs[i], head + Join(xs, sep) + tail, |head| + JoinOffset(xs, sep, i))
    ensures i + 1 < |xs| ==>
      OccursAt(sep, head + Join(xs, sep) + tail, |head| + JoinOffset(xs, sep, i) + |xs[i]|)
    ensures i + 1 < |xs| ==> JoinOffset(xs, sep, i + 1) == JoinOffset(xs, sep, i) + |xs[i]| + |sep|
  {
    JoinAt(xs, sep, i);
    OccursInConcat(xs[i], head, Join(xs, sep), tail, JoinOffset(xs, sep, i));
    if i + 1 < |xs| {
      OccursInConcat(sep, head, Join(xs, sep), tail, JoinOffset(xs, sep, i) + |xs[i]|);
    }
  }

  /** Joining one more element appends one separator and that element. */
  lemma {:induction false} JoinSnoc(xs: seq<string>, x: string, sep: string)
    requires |xs| > 0
    ensures Join(xs + [x], sep) == Join(xs, sep) + sep + x
  {
    if |xs| == 1 {
    } else {
      assert (xs + [x])[1..] == xs[1..] + [x];
      JoinSnoc(xs[1..], x, sep);
    }
  }

  // ------------------------------------------------------------------ numbers

  predicate IsDigit(c: char) {
    '0' <= c <= '9'
  }

  function DigitChar(d: nat): (c: char)
    requires d < 10
    ensures IsDigit(c)
  {
    ('0' as int + d) as char
  }

  function DigitValue(c: char): (d: nat)
    requires IsDigit(c)
    ensures d < 10
  {
    c as int - '0' as int
  }

  /** The decimal text a template literal produces for a non-negative integer:
      at least one digit, no leading zero except for 0 itself. */
  function DecimalString(n: nat): (s: string)
    ensures |s| >= 1 && forall i | 0 <= i < |s| :: IsDigit(s[i])
    ensures s[0] == '0' <==> n == 0
  {
    if n < 10 then [DigitChar(n)] else DecimalString(n / 10) + [DigitChar(n % 10)]
  }

  /** The number a string of decimal digits denotes. */
  function DecimalValue(s: string): nat
    requires forall i | 0 <= i < |s| :: IsDigit(s[i])
  {
    if s == [] then 0 else 10 * DecimalValue(s[..|s| - 1]) + DigitValue(s[|s| - 1])
  }

  /** Reading back the decimal text gives the number, so distinct numbers get
      distinct texts. */
  lemma {:induction false} DecimalRoundTrip(n: nat)
    ensures DecimalValue(DecimalString(n)) == n
  {
    if n >= 10 {
      var s := DecimalString(n);
      assert s[..|s| - 1] == DecimalString(n / 10);
      DecimalRoundTrip(n / 10);
    }
  }
}
