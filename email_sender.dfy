/** The markdown-to-HTML rewrite of `EmailSender.sendSummary`: four global
    regular-expression replacements applied in a fixed order (bold, paragraph
    breaks, line breaks, list items). Each pass is a left-to-right scan that,
    like `String.prototype.replace` with the `g` flag, resumes right after a
    match and one character further on after a failed attempt. */
module EmailSender {
  import opened Wrappers
  import opened JsStrings

  /** The characters the passes write in their tags: `<`, `/`, `>` and
      lower-case letters. */
  predicate IsMarkup(c: char) {
    c == '<' || c == '/' || c == '>' || 'a' <= c <= 'z'
  }

  /** Every character of `r` comes from `s` or from the markup. */
  predicate CharsFrom(r: string, s: string) {
    forall i | 0 <= i < |r| :: r[i] in s || IsMarkup(r[i])
  }

  /** The only line terminators are newlines. */
  predicate OnlyNewlines(s: string) {
    forall i | 0 <= i < |s| :: IsLineTerminator(s[i]) ==> s[i] == '\n'
  }

  /** No line terminator at all: `^` and `$` of the multiline mode then hold
      only at the two ends of the text. */
  predicate NoLineTerminator(s: string) {
    forall i | 0 <= i < |s| :: !IsLineTerminator(s[i])
  }

  /** No two consecutive stars, hence no opening `**`. */
  predicate NoDoubleStar(s: string) {
    forall i | 0 <= i < |s| - 1 :: !(s[i] == '*' && s[i + 1] == '*')
  }

  predicate StarFree(s: string) {
    forall i | 0 <= i < |s| :: s[i] != '*'
  }

  /** Dropping the first character of `a + b` drops that of `a`. */
  lemma TailOfAppend(a: string, b: string)
    requires a != []
    ensures (a + b)[0] == a[0] && (a + b)[1..] == a[1..] + b
  {
  }

  lemma AppendAssoc(x: string, y: string, z: string)
    ensures x + (y + z) == (x + y) + z
  {
  }

  /** What comes from a suffix of `s` comes from `s`. */
  lemma CharsFromSuffix(r: string, s: string, k: nat)
    requires k <= |s| && CharsFrom(r, s[k..])
    ensures CharsFrom(r, s)
  {
    forall i | 0 <= i < |r| && r[i] in s[k..] ensures r[i] in s {
      var j :| 0 <= j < |s[k..]| && s[k..][j] == r[i];
      assert s[k + j] == r[i];
    }
  }

  // ------------------------------------------- /\*\*(.+?)\*\*/g -> <strong>

  /** In the text `t` that follows an opening `**`, a closing `**` at index
      `m` completes a match of `(.+?)`: at least one character before it, and
      none of them a line terminator, which `.` does not match. */
  predicate ClosesAt(t: string, m: int) {
    1 <= m && m + 2 <= |t| && t[m] == '*' && t[m + 1] == '*'
    && forall k | 0 <= k < m :: !IsLineTerminator(t[k])
  }

  /** The first closing at or after index `n`, the characters before `n - 1`
      being known not to be line terminators. */
  function CloseFrom(t: string, n: nat): (r: Option<nat>)
    requires n >= 1
    requires forall k | 0 <= k < n - 1 && k < |t| :: !IsLineTerminator(t[k])
    ensures r.Some? ==> n <= r.value && ClosesAt(t, r.value) && forall m | n <= m < r.value :: !ClosesAt(t, m)
    ensures r.None? ==> forall m | n <= m :: !ClosesAt(t, m)
    decreases |t| + 1 - n
  {
    if n > |t| then None
    else if IsLineTerminator(t[n - 1]) then None
    else if n + 2 <= |t| && t[n] == '*' && t[n + 1] == '*' then Some(n)
    else CloseFrom(t, n + 1)
  }

  /** The closing the lazy `(.+?)` settles on: the nearest one. There is none
      exactly when no index closes a match. */
  function FindClose(t: string): (r: Option<nat>)
    ensures r.Some? ==> ClosesAt(t, r.value) && forall m | 0 <= m < r.value :: !ClosesAt(t, m)
    ensures r.None? <==> forall m :: !ClosesAt(t, m)
  {
    CloseFrom(t, 1)
  }

  /** The bold pass. */
  function Bold(s: string): string
    decreases |s|
  {
    if |s| >= 2 && s[0] == '*' && s[1] == '*' && FindClose(s[2..]).Some? then
      var m := FindClose(s[2..]).value;
      "<strong>" + s[2..m + 2] + "</strong>" + Bold(s[m + 4..])
    else if s == [] then []
    else [s[0]] + Bold(s[1..])
  }

  /** The bold pass writes only the summary's own characters and markup. */
  lemma {:induction false} BoldChars(s: string)
    ensures CharsFrom(Bold(s), s)
    decreases |s|
  {
    if |s| >= 2 && s[0] == '*' && s[1] == '*' && FindClose(s[2..]).Some? {
      var m := FindClose(s[2..]).value;
      BoldChars(s[m + 4..]);
      BoldCharsAfterMatch(s, m);
    } else if s != [] {
      BoldChars(s[1..]);
      CharsFromSuffix(Bold(s[1..]), s, 1);
    }
  }

  /** The step of `BoldChars` where a match starts the text: the stars go,
      the text between them stays, the tags are markup. */
  lemma BoldCharsAfterMatch(s: string, m: nat)
    requires |s| >= 2 && s[0] == '*' && s[1] == '*' && FindClose(s[2..]) == Some(m)
    requires CharsFrom(Bold(s[m + 4..]), s[m + 4..])
    ensures CharsFrom(Bold(s), s)
  {
    var rest := Bold(s[m + 4..]);
    CharsFromSuffix(rest, s, m + 4);
    var x := s[2..m + 2];
    var r := "<strong>" + x + "</strong>" + rest;
    assert Bold(s) == r;
    forall i | 0 <= i < |r| ensures r[i] in s || IsMarkup(r[i]) {
      if i < 8 {
        assert r[i] == "<strong>"[i];
      } else if i < 8 + |x| {
        assert r[i] == s[i - 6];
      } else if i < 17 + |x| {
        assert r[i] == "</strong>"[i - 8 - |x|];
      } else {
        assert r[i] == rest[i - 17 - |x|];
      }
    }
  }

  /** `**x**` with `x` a non-empty run of characters that are neither stars
      nor line terminators becomes `<strong>x</strong>`, and the scan goes on
      right after the closing stars. */
  lemma BoldWrapsPair(x: string, rest: string)
    requires |x| >= 1 && StarFree(x) && NoLineTerminator(x)
    ensures Bold("**" + x + "**" + rest) == "<strong>" + x + "</strong>" + Bold(rest)
  {
    var s := "**" + x + "**" + rest;
    var t := s[2..];
    assert t == x + "**" + rest;
    assert t[|x|] == '*' && t[|x| + 1] == '*';
    assert ClosesAt(t, |x|);
    var r := FindClose(t);
    assert r.Some? && r.value == |x|;
    assert s[2..|x| + 2] == x && s[|x| + 4..] == rest;
  }

  /** The match is lazy: of two closings on the same line, the first is used,
      and the second pair of stars is left for the rest of the scan. */
  lemma BoldIsLazy(x: string, y: string)
    requires |x| >= 1 && StarFree(x) && NoLineTerminator(x)
    ensures Bold("**" + x + "**" + y + "**") == "<strong>" + x + "</strong>" + Bold(y + "**")
  {
    assert "**" + x + "**" + y + "**" == "**" + x + "**" + (y + "**");
    BoldWrapsPair(x, y + "**");
  }

  /** Where no match starts, the bold pass copies one character and scans
      on. */
  lemma BoldPlainStep(s: string)
    requires s != [] && !(|s| >= 2 && s[0] == '*' && s[1] == '*' && FindClose(s[2..]).Some?)
    ensures Bold(s) == [s[0]] + Bold(s[1..])
  {
  }

  /** Text with no opening `**` is left as it is. */
  lemma {:induction false} BoldWithoutOpener(s: string)
    requires NoDoubleStar(s)
    ensures Bold(s) == s
    decreases |s|
  {
    if s != [] {
      BoldPlainStep(s);
      BoldWithoutOpener(s[1..]);
    }
  }

  /** A prefix without stars is copied and the scan resumes after it. */
  lemma {:induction false} BoldSkipsStarFree(u: string, v: string)
    requires StarFree(u)
    ensures Bold(u + v) == u + Bold(v)
    decreases |u|
  {
    if u == [] {
      assert u + v == v;
    } else {
      var s := u + v;
      TailOfAppend(u, v);
      BoldPlainStep(s);
      BoldSkipsStarFree(u[1..], v);
      AppendAssoc([u[0]], u[1..], Bold(v));
      assert [u[0]] + u[1..] == u;
    }
  }

  /** An opening `**` that nothing closes is copied as it is, and the scan
      goes on after it. */
  lemma BoldUnclosedOpener(t: string)
    requires forall m :: !ClosesAt(t, m)
    requires t != [] ==> t[0] != '*'
    ensures Bold("**" + t) == "**" + Bold(t)
  {
    var s := "**" + t;
    assert s[2..] == t;
    BoldPlainStep(s);
    var s1 := s[1..];
    assert s1 == "*" + t;
    assert |s1| >= 2 ==> s1[1] == t[0];
    BoldPlainStep(s1);
    assert s1[1..] == t;
    assert Bold(s) == [s[0]] + ([s1[0]] + Bold(t));
    assert [s[0]] + ([s1[0]] + Bold(t)) == "**" + Bold(t);
  }

  /** Text without stars followed by a lone `**` is left as it is. */
  lemma BoldStarFreeThenOpener(line: string)
    requires StarFree(line)
    ensures Bold(line + "**") == line + "**"
  {
    BoldSkipsStarFree(line, "**");
    BoldUnclosedOpener("");
    assert "**" + "" == "**";
  }

  /** No closing can come at or after a line terminator that only
      characters other than stars precede. */
  lemma NoCloseAfterLineBreak(t: string, k: nat)
    requires k < |t| && IsLineTerminator(t[k])
    requires forall i | 0 <= i < k :: t[i] != '*'
    ensures forall m :: !ClosesAt(t, m)
  {
  }

  /** The bold pass runs before line breaks become `<br>`, so a pair of `**`
      with a line break between them is left as it is: `.` does not match the
      line break. */
  lemma BoldStopsAtLineBreak(a: string, b: string)
    requires StarFree(a) && NoLineTerminator(a) && StarFree(b) && NoLineTerminator(b)
    ensures Bold("**" + (a + "\n" + b) + "**") == "**" + (a + "\n" + b) + "**"
  {
    var line := a + "\n" + b;
    var t := line + "**";
    BrokenLineFacts(a, b);
    BoldUnclosedOpener(t);
    BoldStarFreeThenOpener(line);
    AppendAssoc("**", line, "**");
  }

  /** What the bold pass sees after an opener on a broken line: no closing,
      no star first, no star before the final pair. */
  lemma BrokenLineFacts(a: string, b: string)
    requires StarFree(a) && NoLineTerminator(a) && StarFree(b) && NoLineTerminator(b)
    ensures var t := a + "\n" + b + "**";
      (forall m :: !ClosesAt(t, m)) && t[0] != '*' && StarFree(a + "\n" + b)
  {
    var line := a + "\n" + b;
    var t := line + "**";
    assert t[|a|] == '\n';
    assert forall i | 0 <= i < |a| :: t[i] == a[i];
    NoCloseAfterLineBreak(t, |a|);
    assert t[0] != '*' by {
      if |a| > 0 {
        assert t[0] == a[0];
      }
    }
    forall i | 0 <= i < |line| ensures line[i] != '*' {
      if i > |a| {
        assert line[i] == b[i - |a| - 1];
      }
    }
  }

  // ------------------------------------------------- /\n\n/g -> </p><p>

  /** The paragraph pass: leftmost, non-overlapping pairs of newlines. */
  function Paragraphs(s: string): string
    decreases |s|
  {
    if |s| >= 2 && s[0] == '\n' && s[1] == '\n' then "</p><p>" + Paragraphs(s[2..])
    else if s == [] then []
    else [s[0]] + Paragraphs(s[1..])
  }

  /** No newline directly follows another. */
  predicate NoBlankLine(s: string) {
    forall i | 0 <= i < |s| - 1 :: !(s[i] == '\n' && s[i + 1] == '\n')
  }

  /** No pair of newlines is left after the paragraph pass, and a first
      character other than a newline is kept in place. */
  lemma {:induction false} ParagraphsLeaveNoBlankLine(s: string)
    ensures NoBlankLine(Paragraphs(s))
    ensures |s| > 0 && s[0] != '\n' ==> |Paragraphs(s)| > 0 && Paragraphs(s)[0] == s[0]
    decreases |s|
  {
    var r := Paragraphs(s);
    if |s| >= 2 && s[0] == '\n' && s[1] == '\n' {
      ParagraphsLeaveNoBlankLine(s[2..]);
      var rest := Paragraphs(s[2..]);
      forall i | 0 <= i < |r| - 1 ensures !(r[i] == '\n' && r[i + 1] == '\n') {
        if i >= 7 {
          assert r[i] == rest[i - 7] && r[i + 1] == rest[i - 7 + 1];
          assert !(rest[i - 7] == '\n' && rest[i - 7 + 1] == '\n');
        } else {
          assert r[i] == "</p><p>"[i];
        }
      }
    } else if s != [] {
      ParagraphsLeaveNoBlankLine(s[1..]);
      var rest := Paragraphs(s[1..]);
      forall i | 0 <= i < |r| - 1 ensures !(r[i] == '\n' && r[i + 1] == '\n') {
        if i >= 1 {
          assert r[i] == rest[i - 1] && r[i + 1] == rest[i - 1 + 1];
          assert !(rest[i - 1] == '\n' && rest[i - 1 + 1] == '\n');
        } else {
          assert r[1] == rest[0];
        }
      }
    }
  }

  /** The paragraph pass writes only its input's characters and markup. */
  lemma {:induction false} ParagraphsChars(s: string)
    ensures CharsFrom(Paragraphs(s), s)
    decreases |s|
  {
    if |s| >= 2 && s[0] == '\n' && s[1] == '\n' {
      ParagraphsChars(s[2..]);
      CharsFromSuffix(Paragraphs(s[2..]), s, 2);
    } else if s != [] {
      ParagraphsChars(s[1..]);
      CharsFromSuffix(Paragraphs(s[1..]), s, 1);
    }
  }

  /** A pair of newlines at the start becomes a paragraph break. */
  lemma ParagraphsPairStep(s: string)
    requires |s| >= 2 && s[0] == '\n' && s[1] == '\n'
    ensures Paragraphs(s) == "</p><p>" + Paragraphs(s[2..])
  {
  }

  /** Anywhere else one character is copied and the scan goes on. */
  lemma ParagraphsPlainStep(s: string)
    requires s != [] && !(|s| >= 2 && s[0] == '\n' && s[1] == '\n')
    ensures Paragraphs(s) == [s[0]] + Paragraphs(s[1..])
  {
  }

  /** Paragraphs work piecewise when the second piece does not start with a
      newline, since no pair of newlines can then straddle the seam. */
  lemma {:induction false} ParagraphsAppend(a: string, b: string)
    requires b == [] || b[0] != '\n'
    ensures Paragraphs(a + b) == Paragraphs(a) + Paragraphs(b)
    decreases |a|
  {
    if a == [] {
      assert a + b == b;
    } else if |a| >= 2 && a[0] == '\n' && a[1] == '\n' {
      ParagraphsAppend(a[2..], b);
      ParagraphsAppendAfterPair(a, b);
    } else {
      ParagraphsAppend(a[1..], b);
      ParagraphsAppendAfterChar(a, b);
    }
  }

  /** The step of `ParagraphsAppend` where `a` opens with a pair of
      newlines. */
  lemma ParagraphsAppendAfterPair(a: string, b: string)
    requires |a| >= 2 && a[0] == '\n' && a[1] == '\n'
    requires Paragraphs(a[2..] + b) == Paragraphs(a[2..]) + Paragraphs(b)
    ensures Paragraphs(a + b) == Paragraphs(a) + Paragraphs(b)
  {
    var ab := a + b;
    assert ab[0] == a[0] && ab[1] == a[1] && ab[2..] == a[2..] + b;
    ParagraphsPairStep(ab);
    ParagraphsPairStep(a);
    AppendAssoc("</p><p>", Paragraphs(a[2..]), Paragraphs(b));
  }

  /** The step of `ParagraphsAppend` where `a` does not open with a pair of
      newlines, and neither does `a + b` since `b` does not start with one. */
  lemma ParagraphsAppendAfterChar(a: string, b: string)
    requires b == [] || b[0] != '\n'
    requires a != [] && !(|a| >= 2 && a[0] == '\n' && a[1] == '\n')
    requires Paragraphs(a[1..] + b) == Paragraphs(a[1..]) + Paragraphs(b)
    ensures Paragraphs(a + b) == Paragraphs(a) + Paragraphs(b)
  {
    var ab := a + b;
    TailOfAppend(a, b);
    assert |ab| >= 2 ==> ab[1] == if |a| >= 2 then a[1] else b[0];
    ParagraphsPlainStep(ab);
    ParagraphsPlainStep(a);
    AppendAssoc([a[0]], Paragraphs(a[1..]), Paragraphs(b));
  }

  /** Text in which no newline follows another is left as it is. */
  lemma {:induction false} ParagraphsWithoutBlankLine(s: string)
    requires NoBlankLine(s)
    ensures Paragraphs(s) == s
    decreases |s|
  {
    if s != [] {
      ParagraphsWithoutBlankLine(s[1..]);
    }
  }

  // --------------------------------------------------- /\n/g -> <br>

  /** The line-break pass. */
  function LineBreaks(s: string): string
    decreases |s|
  {
    if s == [] then []
    else (if s[0] == '\n' then "<br>" else [s[0]]) + LineBreaks(s[1..])
  }

  /** No newline is left after the line-break pass. */
  lemma {:induction false} LineBreaksLeaveNoNewline(s: string)
    ensures forall i | 0 <= i < |LineBreaks(s)| :: LineBreaks(s)[i] != '\n'
    decreases |s|
  {
    if s != [] {
      LineBreaksLeaveNoNewline(s[1..]);
      var head := if s[0] == '\n' then "<br>" else [s[0]];
      var r := LineBreaks(s);
      assert forall i | |head| <= i < |r| :: r[i] == LineBreaks(s[1..])[i - |head|];
    }
  }

  /** The line-break pass writes only its input's characters and markup. */
  lemma {:induction false} LineBreaksChars(s: string)
    ensures CharsFrom(LineBreaks(s), s)
    decreases |s|
  {
    if s != [] {
      LineBreaksChars(s[1..]);
      CharsFromSuffix(LineBreaks(s[1..]), s, 1);
    }
  }

  /** The line-break pass works character by character: it distributes over
      concatenation. */
  lemma {:induction false} LineBreaksAppend(a: string, b: string)
    ensures LineBreaks(a + b) == LineBreaks(a) + LineBreaks(b)
    decreases |a|
  {
    if a == [] {
      assert a + b == b;
    } else {
      assert (a + b)[0] == a[0] && (a + b)[1..] == a[1..] + b;
      LineBreaksAppend(a[1..], b);
    }
  }

  /** Text without a newline is left as it is. */
  lemma {:induction false} LineBreaksWithoutNewline(s: string)
    requires forall i | 0 <= i < |s| :: s[i] != '\n'
    ensures LineBreaks(s) == s
    decreases |s|
  {
    if s != [] {
      LineBreaksWithoutNewline(s[1..]);
    }
  }

  /** Pairs of newlines are taken first, leftmost first, so three newlines
      give a paragraph break followed by a line break. */
  lemma ThreeNewlines()
    ensures LineBreaks(Paragraphs("\n\n\n")) == "</p><p>" + "<br>"
  {
    var nl := "\n";
    var open := "</p><p>";
    var s := "\n\n\n";
    assert s[2..] == nl && nl[1..] == [];
    assert Paragraphs(nl) == nl;
    assert Paragraphs(s) == open + nl;
    LineBreaksAppend(open, nl);
    LineBreaksWithoutNewline(open);
    assert LineBreaks(nl) == "<br>";
  }

  // ------------------------------------------- /^- (.+)$/gm -> <li>

  /** The length of the first line of `t`: the characters before the first
      line terminator, or all of them. */
  function LineLength(t: string): (n: nat)
    ensures n <= |t|
    ensures forall k | 0 <= k < n :: !IsLineTerminator(t[k])
    ensures n < |t| ==> IsLineTerminator(t[n])
  {
    if t == [] || IsLineTerminator(t[0]) then 0 else 1 + LineLength(t[1..])
  }

  /** The list pass. `atLineStart` says whether `^` holds where `s` begins:
      at the start of the whole text or just after a line terminator. A line
      that starts with `- ` and has at least one more character is wrapped
      in `<li>` without its dash and space; the greedy `(.+)` takes the rest
      of the line, where `$` then holds. */
  function ListItems(s: string, atLineStart: bool): string
    decreases |s|
  {
    if atLineStart && |s| >= 3 && s[0] == '-' && s[1] == ' ' && !IsLineTerminator(s[2]) then
      var n := 2 + LineLength(s[2..]);
      "<li>" + s[2..n] + "</li>" + ListItems(s[n..], false)
    else if s == [] then []
    else [s[0]] + ListItems(s[1..], IsLineTerminator(s[0]))
  }

  /** The list pass writes only its input's characters and markup. */
  lemma {:induction false} ListItemsChars(s: string, atLineStart: bool)
    ensures CharsFrom(ListItems(s, atLineStart), s)
    decreases |s|
  {
    if atLineStart && |s| >= 3 && s[0] == '-' && s[1] == ' ' && !IsLineTerminator(s[2]) {
      var n := 2 + LineLength(s[2..]);
      var rest := ListItems(s[n..], false);
      ListItemsChars(s[n..], false);
      CharsFromSuffix(rest, s, n);
      var r := ListItems(s, atLineStart);
      forall i | 0 <= i < |r| ensures r[i] in s || IsMarkup(r[i]) {
        if 4 <= i < n + 2 {
          assert r[i] == s[i - 2];
        } else if i >= n + 7 {
          assert r[i] == rest[i - n - 7];
        }
      }
    } else if s != [] {
      ListItemsChars(s[1..], IsLineTerminator(s[0]));
      CharsFromSuffix(ListItems(s[1..], IsLineTerminator(s[0])), s, 1);
    }
  }

  /** On text without line terminators the list rule can fire only at the
      very start, and then wraps all of the text after `- `. */
  lemma {:induction false} ListItemsOnOneLine(s: string, atLineStart: bool)
    requires NoLineTerminator(s)
    ensures ListItems(s, atLineStart)
         == if atLineStart && |s| >= 3 && s[0] == '-' && s[1] == ' ' then "<li>" + s[2..] + "</li>" else s
    decreases |s|
  {
    if atLineStart && |s| >= 3 && s[0] == '-' && s[1] == ' ' {
      var n := 2 + LineLength(s[2..]);
      assert n == |s|;
      assert ListItems(s[n..], false) == [];
    } else if s != [] {
      ListItemsOnOneLine(s[1..], false);
    }
  }

  // ---------------------------------------------------------- the chain

  /** `summaryHtml`: the four passes in their order. */
  function SummaryHtml(s: string): string {
    ListItems(LineBreaks(Paragraphs(Bold(s))), true)
  }

  /** Whatever the summary, the HTML holds no newline: the list pass adds
      none to what the line-break pass left. */
  lemma NoNewlineInHtml(s: string)
    ensures forall i | 0 <= i < |SummaryHtml(s)| :: SummaryHtml(s)[i] != '\n'
  {
    var u := LineBreaks(Paragraphs(Bold(s)));
    var r := SummaryHtml(s);
    LineBreaksLeaveNoNewline(Paragraphs(Bold(s)));
    ListItemsChars(u, true);
    forall i | 0 <= i < |r| ensures r[i] != '\n' {
      if r[i] in u {
        var j :| 0 <= j < |u| && u[j] == r[i];
      }
    }
  }

  /** Markup holds no line terminator, so a pass whose output comes from its
      input and markup keeps the input's line terminators to newlines. */
  lemma OnlyNewlinesCarry(r: string, s: string)
    requires CharsFrom(r, s) && OnlyNewlines(s)
    ensures OnlyNewlines(r)
  {
    forall i | 0 <= i < |r| && IsLineTerminator(r[i]) ensures r[i] == '\n' {
      if r[i] in s {
        var j :| 0 <= j < |s| && s[j] == r[i];
      }
    }
  }

  /** The markup the passes add holds no line terminator, so the only line
      terminators in the text the list pass sees come from the summary, and
      the newlines among them are gone by then. */
  lemma LineTerminatorsBeforeListPass(s: string)
    requires OnlyNewlines(s)
    ensures NoLineTerminator(LineBreaks(Paragraphs(Bold(s))))
  {
    var b := Bold(s);
    var p := Paragraphs(b);
    BoldChars(s);
    ParagraphsChars(b);
    LineBreaksChars(p);
    OnlyNewlinesCarry(b, s);
    OnlyNewlinesCarry(p, b);
    OnlyNewlinesCarry(LineBreaks(p), p);
    LineBreaksLeaveNoNewline(p);
  }

  /** For a summary whose only line terminators are newlines, the list rule
      fires at most once, at the very start: when the text after the first
      three passes starts with `- ` and more, all of it after the dash and
      space becomes one list item. */
  lemma ListRuleOnlyAtStart(s: string)
    requires OnlyNewlines(s)
    ensures var u := LineBreaks(Paragraphs(Bold(s)));
      SummaryHtml(s) == if |u| >= 3 && u[0] == '-' && u[1] == ' ' then "<li>" + u[2..] + "</li>" else u
  {
    LineTerminatorsBeforeListPass(s);
    ListItemsOnOneLine(LineBreaks(Paragraphs(Bold(s))), true);
  }

  /** A one-line summary with no `**` and not starting with `- ` reaches the
      HTML unchanged. */
  lemma PlainLineUnchanged(s: string)
    requires NoDoubleStar(s) && NoLineTerminator(s)
    requires !(|s| >= 3 && s[0] == '-' && s[1] == ' ')
    ensures SummaryHtml(s) == s
  {
    BoldWithoutOpener(s);
    ParagraphsWithoutBlankLine(s);
    LineBreaksWithoutNewline(s);
    ListItemsOnOneLine(s, true);
  }

  /** A one-line summary `- x` becomes the list item `<li>x</li>`. */
  lemma ListLine(x: string)
    requires |x| >= 1 && NoDoubleStar(x) && NoLineTerminator(x)
    ensures SummaryHtml("- " + x) == "<li>" + x + "</li>"
  {
    var s := "- " + x;
    assert forall i | 2 <= i < |s| :: s[i] == x[i - 2];
    BoldWithoutOpener(s);
    ParagraphsWithoutBlankLine(s);
    LineBreaksWithoutNewline(s);
    ListItemsOnOneLine(s, true);
    assert s[2..] == x;
  }

  /** `- <strong>x</strong>` holds a line terminator only where `x` does. */
  lemma OneLineMarkup(b: string, x: string)
    requires NoLineTerminator(x) && b == "- " + "<strong>" + x + "</strong>"
    ensures NoLineTerminator(b)
  {
    forall i | 0 <= i < |b| ensures !IsLineTerminator(b[i]) {
      if 10 <= i < 10 + |x| {
        assert b[i] == x[i - 10];
      }
    }
  }

  /** The bold pass on a list line `- **x**`. */
  lemma BoldOnListLine(x: string)
    requires |x| >= 1 && StarFree(x) && NoLineTerminator(x)
    ensures Bold("- " + "**" + x + "**") == "- " + ("<strong>" + x + "</strong>")
  {
    var s := "- " + "**" + x + "**";
    assert s == "- " + ("**" + x + "**" + "");
    BoldWrapsPair(x, "");
    BoldSkipsStarFree("- ", "**" + x + "**" + "");
  }

  /** Bold inside a list line: the bold pass runs first and the list pass
      then wraps its result. */
  lemma BoldListLine(x: string)
    requires |x| >= 1 && StarFree(x) && NoLineTerminator(x)
    ensures SummaryHtml("- " + "**" + x + "**") == "<li>" + ("<strong>" + x + "</strong>") + "</li>"
  {
    var strong := "<strong>" + x + "</strong>";
    var b := "- " + strong;
    BoldOnListLine(x);
    OneLineMarkup(b, x);
    ParagraphsWithoutBlankLine(b);
    LineBreaksWithoutNewline(b);
    ListItemsOnOneLine(b, true);
    assert b[2..] == strong;
  }

  // ------------------------------------------------ bullets after line one

  /** Two lines: no newline inside either. */
  lemma NewlineOnlyAtSeam(x: string, z: string)
    requires NoLineTerminator(x) && NoLineTerminator(z)
    ensures var s := x + "\n" + z;
      NoBlankLine(s) && forall i | 0 <= i < |s| && i != |x| :: s[i] != '\n'
  {
    var s := x + "\n" + z;
    forall i | 0 <= i < |s| && i != |x| ensures s[i] != '\n' {
      if i < |x| {
        assert s[i] == x[i];
      } else {
        assert s[i] == z[i - |x| - 1];
      }
    }
  }

  /** The two newline passes on two lines: the newline between them becomes
      `<br>` and nothing else changes. */
  lemma LineBreakAtSeam(x: string, z: string)
    requires NoLineTerminator(x) && NoLineTerminator(z)
    ensures LineBreaks(Paragraphs(x + "\n" + z)) == x + "<br>" + z
  {
    NewlineOnlyAtSeam(x, z);
    ParagraphsWithoutBlankLine(x + "\n" + z);
    LineBreaksAppend(x + "\n", z);
    LineBreaksAppend(x, "\n");
    LineBreaksWithoutNewline(x);
    LineBreaksWithoutNewline(z);
    assert "\n"[1..] == [];
  }

  /** Two lines without stars go through the bold pass unchanged. */
  lemma BoldTwoPlainLines(x: string, z: string)
    requires StarFree(x) && StarFree(z)
    ensures Bold(x + "\n" + z) == x + "\n" + z
  {
    var s := x + "\n" + z;
    forall i | 0 <= i < |s| ensures s[i] != '*' {
      if i < |x| {
        assert s[i] == x[i];
      } else if i > |x| {
        assert s[i] == z[i - |x| - 1];
      }
    }
    BoldWithoutOpener(s);
  }

  /** As written, a bullet on the second line is not turned into a list item:
      by the time the list pass runs, its newline has become `<br>`, so `^`
      no longer holds before the dash. */
  lemma BulletAfterFirstLineNotListed(x: string, y: string)
    requires StarFree(x) && NoLineTerminator(x) && StarFree(y) && NoLineTerminator(y)
    requires x != [] && x[0] != '-'
    ensures SummaryHtml(x + "\n" + ("- " + y)) == x + "<br>" + ("- " + y)
  {
    var z := "- " + y;
    assert forall i | 2 <= i < |z| :: z[i] == y[i - 2];
    BoldTwoPlainLines(x, z);
    LineBreakAtSeam(x, z);
    BrokenLineJoined(x, z);
    ListItemsOnOneLine(x + "<br>" + z, true);
  }

  /** Two lines joined by `<br>` form a single line that starts as the first. */
  lemma BrokenLineJoined(x: string, z: string)
    requires x != [] && NoLineTerminator(x) && NoLineTerminator(z)
    ensures var u := x + "<br>" + z; NoLineTerminator(u) && u[0] == x[0]
  {
    var u := x + "<br>" + z;
    forall i | 0 <= i < |u| ensures !IsLineTerminator(u[i]) {
      if i < |x| {
        assert u[i] == x[i];
      } else if i >= |x| + 4 {
        assert u[i] == z[i - |x| - 4];
      }
    }
  }

  /** The markdown-to-HTML rewrite with the list pass moved before the two
      newline passes, while `^` and `$` can still see the line breaks. */
  function SummaryHtmlListsFirst(s: string): string {
    LineBreaks(Paragraphs(ListItems(Bold(s), true)))
  }

  /** Up to the first line terminator, the list pass copies a line that does
      not open a list item, and is then no longer at a line start. */
  lemma {:induction false} ListItemsCopiesLine(u: string, v: string, atLineStart: bool)
    requires u != [] && NoLineTerminator(u) && (atLineStart ==> u[0] != '-')
    ensures ListItems(u + v, atLineStart) == u + ListItems(v, false)
    decreases |u|
  {
    var s := u + v;
    TailOfAppend(u, v);
    if |u| > 1 {
      ListItemsCopiesLine(u[1..], v, false);
    } else {
      assert u[1..] == [];
    }
    AppendAssoc([u[0]], u[1..], ListItems(v, false));
    assert [u[0]] + u[1..] == u;
  }

  /** With the list pass first, a bullet on the second line becomes a list
      item, and the line break before it a `<br>`. */
  lemma BulletAfterFirstLineListed(x: string, y: string)
    requires StarFree(x) && NoLineTerminator(x) && StarFree(y) && NoLineTerminator(y)
    requires x != [] && x[0] != '-' && y != []
    ensures SummaryHtmlListsFirst(x + "\n" + ("- " + y)) == x + "<br>" + ("<li>" + y + "</li>")
  {
    var z := "- " + y;
    assert forall i | 2 <= i < |z| :: z[i] == y[i - 2];
    BoldTwoPlainLines(x, z);
    ListItemsSecondLine(x, y);
    var w := "<li>" + y + "</li>";
    assert forall i | 4 <= i < 4 + |y| :: w[i] == y[i - 4];
    LineBreakAtSeam(x, w);
  }

  /** The list pass, still seeing the newline, wraps a bullet on line two. */
  lemma ListItemsSecondLine(x: string, y: string)
    requires NoLineTerminator(x) && NoLineTerminator(y)
    requires x != [] && x[0] != '-' && y != []
    ensures ListItems(x + "\n" + ("- " + y), true) == x + "\n" + ("<li>" + y + "</li>")
  {
    var z := "- " + y;
    assert forall i | 2 <= i < |z| :: z[i] == y[i - 2];
    AppendAssoc(x, "\n", z);
    ListItemsCopiesLine(x, "\n" + z, true);
    assert ("\n" + z)[1..] == z;
    ListItemsOnOneLine(z, true);
    assert z[2..] == y;
    var w := "<li>" + y + "</li>";
    assert ListItems("\n" + z, false) == "\n" + w;
    AppendAssoc(x, "\n", w);
  }
}
