/** The string operations the journal and the activity log rest on: Python's `strip`, `splitlines`, and
    what stripping and joining do to the lines of a text. */
module Text {

  /** Where `splitlines` ends a line. */
  predicate IsBreak(c: char) {
    c in ['\n', '\r', '\U{0b}', '\U{0c}', '\U{1c}', '\U{1d}', '\U{1e}', '\U{85}', '\U{2028}', '\U{2029}']
  }

  /** What `strip` removes at either end; line breaks are among it. */
  predicate IsSpace(c: char) {
    IsBreak(c) || c in ['\t', '\U{1f}', ' ', '\U{a0}', '\U{1680}', '\U{202f}', '\U{205f}', '\U{3000}'] || '\U{2000}' <= c <= '\U{200a}'
  }

  /** Both by code point: the line boundaries that Python documents for `str.splitlines`, and its white space. */
  lemma CodePoints(c: char)
    ensures var n := c as int;
            && (IsBreak(c) <==> 10 <= n <= 13 || 28 <= n <= 30 || n == 133 || n == 8232 || n == 8233)
            && (IsSpace(c) <==> 9 <= n <= 13 || 28 <= n <= 32 || n == 133 || n == 160 || n == 5760 || 8192 <= n <= 8202
                                || n == 8232 || n == 8233 || n == 8239 || n == 8287 || n == 12288)
  {
  }

  // ---------------------------------------------------------------- strip

  function LStrip(s: string): string {
    if s != "" && IsSpace(s[0]) then LStrip(s[1..]) else s
  }

  function RStrip(s: string): string {
    if s != "" && IsSpace(s[|s| - 1]) then RStrip(s[..|s| - 1]) else s
  }

  function Strip(s: string): string {
    RStrip(LStrip(s))
  }

  predicate Blank(s: string) {
    forall i | 0 <= i < |s| :: IsSpace(s[i])
  }

  /** Neither end is white space; what stripping leaves alone. */
  predicate Trim(s: string) {
    s == "" || (!IsSpace(s[0]) && !IsSpace(s[|s| - 1]))
  }

  lemma BlankJoined(a: string, b: string)
    requires Blank(a) && Blank(b)
    ensures Blank(a + b)
  {
    hide IsSpace;
  }

  lemma {:induction false} LStripShape(s: string) returns (k: nat)
    ensures k <= |s| && LStrip(s) == s[k..] && Blank(s[..k])
    ensures k == |s| || !IsSpace(s[k])
  {
    hide IsSpace;
    if s != "" && IsSpace(s[0]) {
      k := LStripShape(s[1..]);
      assert s[1..][k..] == s[k + 1..];
      assert s[..k + 1] == [s[0]] + s[1..][..k];
      BlankJoined([s[0]], s[1..][..k]);
      k := k + 1;
    } else {
      k := 0;
    }
  }

  lemma {:induction false} RStripShape(s: string) returns (k: nat)
    ensures k <= |s| && RStrip(s) == s[..k] && Blank(s[k..])
    ensures k == 0 || !IsSpace(s[k - 1])
  {
    hide IsSpace;
    if s != "" && IsSpace(s[|s| - 1]) {
      var t, c := s[..|s| - 1], s[|s| - 1];
      k := RStripShape(t);
      assert t[..k] == s[..k];
      assert s[k..] == t[k..] + [c];
      BlankJoined(t[k..], [c]);
      hide Blank;
    } else {
      k := |s|;
    }
  }

  /** Stripping cuts a blank prefix and a blank suffix, and nothing else. */
  lemma StripShape(s: string) returns (a: nat, b: nat)
    ensures a <= b <= |s| && Strip(s) == s[a..b] && Blank(s[..a]) && Blank(s[b..])
    ensures Trim(Strip(s))
  {
    hide IsSpace, LStrip, RStrip, Blank;
    a := LStripShape(s);
    var k := RStripShape(s[a..]);
    b := a + k;
    assert s[a..][..k] == s[a..b] && s[a..][k..] == s[b..];
  }

  lemma StripOfTrim(s: string)
    requires Trim(s)
    ensures Strip(s) == s
  {
  }

  lemma StripTwice(s: string)
    ensures Strip(Strip(s)) == Strip(s)
  {
    var a, b := StripShape(s);
    StripOfTrim(Strip(s));
  }

  lemma {:induction false} StripDropsLast(s: string, c: char)
    requires IsSpace(c)
    ensures Strip(s + [c]) == Strip(s)
  {
    if s == "" {
      assert Strip([c]) == "" by { assert [c][1..] == ""; }
    } else if IsSpace(s[0]) {
      StripDropsLast(s[1..], c);
      assert (s + [c])[1..] == s[1..] + [c];
    } else {
      assert (s + [c])[..|s|] == s;
    }
  }

  // ---------------------------------------------------------------- splitlines

  function FirstBreak(s: string): (k: nat)
    ensures k <= |s|
    ensures k < |s| ==> IsBreak(s[k])
    ensures forall i | 0 <= i < k :: !IsBreak(s[i])
  {
    if s == "" || IsBreak(s[0]) then 0 else 1 + FirstBreak(s[1..])
  }

  /** A carriage return and a line feed after it end one line together. */
  function BreakLength(s: string, k: nat): (n: nat)
    requires k < |s|
    ensures 1 <= n <= 2 && k + n <= |s|
  {
    if s[k] == '\r' && k + 1 < |s| && s[k + 1] == '\n' then 2 else 1
  }

  /** What follows the line that ends at `k`. */
  function Rest(s: string, k: nat): (r: string)
    requires k <= |s|
    ensures s != "" ==> |r| < |s|
  {
    if k < |s| then s[k + BreakLength(s, k)..] else ""
  }

  lemma RestIs(s: string, k: nat)
    requires k < |s|
    ensures Rest(s, k) == s[k + BreakLength(s, k)..]
  {
    hide BreakLength;
  }

  function SplitLines(s: string): seq<string>
    decreases |s|
  {
    if s == "" then [] else [s[..FirstBreak(s)]] + SplitLines(Rest(s, FirstBreak(s)))
  }

  /** What a line contributes: itself, stripped, unless it is blank. */
  function Entry(line: string): seq<string> {
    if Strip(line) == "" then [] else [Strip(line)]
  }

  /** The stripped lines that are not blank: what every reader of a stored text goes through. */
  function Contents(lines: seq<string>): seq<string> {
    if lines == [] then [] else Entry(lines[0]) + Contents(lines[1..])
  }

  function Lines(s: string): seq<string> {
    Contents(SplitLines(s))
  }

  lemma LinesOfNothing()
    ensures Lines("") == []
  {
  }

  lemma LineFeedBreaks()
    ensures IsBreak('\n')
  {
  }

  lemma FirstBreakIs(s: string, k: nat)
    requires k <= |s| && (k < |s| ==> IsBreak(s[k])) && forall i | 0 <= i < k :: !IsBreak(s[i])
    ensures FirstBreak(s) == k
  {
  }

  lemma ContentsOfOne(line: string, rest: seq<string>)
    ensures Contents([line] + rest) == Entry(line) + Contents(rest)
  {
    assert ([line] + rest)[1..] == rest;
  }

  lemma SplitLinesUnfolds(s: string)
    requires s != ""
    ensures SplitLines(s) == [s[..FirstBreak(s)]] + SplitLines(Rest(s, FirstBreak(s)))
  {
    hide FirstBreak, Rest;
  }

  lemma LinesUnfold(s: string)
    requires s != ""
    ensures Lines(s) == Entry(s[..FirstBreak(s)]) + Lines(Rest(s, FirstBreak(s)))
  {
    hide Entry, Contents, FirstBreak, SplitLines, Rest;
    SplitLinesUnfolds(s);
    ContentsOfOne(s[..FirstBreak(s)], SplitLines(Rest(s, FirstBreak(s))));
  }

  /** The first line of a text and the rest of it. */
  lemma LinesSplit(s: string)
    requires FirstBreak(s) < |s|
    ensures var k := FirstBreak(s); Lines(s) == Entry(s[..k]) + Lines(s[k + BreakLength(s, k)..])
  {
    hide Entry, Lines, FirstBreak, BreakLength, Rest, IsBreak;
    LinesUnfold(s);
    RestIs(s, FirstBreak(s));
  }

  lemma LinesOfOne(s: string)
    requires FirstBreak(s) == |s|
    ensures Lines(s) == Entry(s)
  {
    if s == "" {
      LinesOfNothing();
    } else {
      hide Entry, Lines, FirstBreak;
      LinesUnfold(s);
      LinesOfNothing();
      assert s[..|s|] == s;
    }
  }

  lemma LinesDropBreak(s: string)
    requires s != "" && IsBreak(s[0])
    ensures Lines(s) == Lines(s[1..])
  {
    LinesSplit(s);
    assert s[..0] == "";
    if BreakLength(s, 0) == 2 {
      LinesSplit(s[1..]);
      assert s[1..][..0] == "";
      assert s[1..][1..] == s[2..];
    }
  }

  lemma LinesDropFirst(s: string)
    requires s != "" && IsSpace(s[0])
    ensures Lines(s) == Lines(s[1..])
  {
    hide Lines, IsBreak, IsSpace;
    if IsBreak(s[0]) {
      LinesDropBreak(s);
    } else {
      var t, k := s[1..], FirstBreak(s);
      assert FirstBreak(t) == k - 1;
      if k == |s| {
        LinesOfOne(s);
        LinesOfOne(t);
      } else {
        LinesSplit(s);
        LinesSplit(t);
        assert s[..k][1..] == t[..k - 1];
        assert BreakLength(s, k) == BreakLength(t, k - 1);
        assert s[k + BreakLength(s, k)..] == t[k - 1 + BreakLength(t, k - 1)..];
      }
    }
  }

  predicate SplitsCrLf(a: string, suffix: string) {
    a != "" && a[|a| - 1] == '\r' && suffix != "" && suffix[0] == '\n'
  }

  /** Unless a carriage return and its line feed fall on either side of the seam, a first line of `a`
      is the first line of the longer text too. */
  lemma LinesStep(a: string, suffix: string) returns (head: seq<string>, rest: string)
    requires FirstBreak(a) < |a| && (FirstBreak(a) < |a| - 1 || !SplitsCrLf(a, suffix))
    ensures |rest| < |a| && (rest != "" ==> rest[|rest| - 1] == a[|a| - 1])
    ensures Lines(a) == head + Lines(rest)
    ensures Lines(a + suffix) == head + Lines(rest + suffix)
  {
    hide Lines, Entry, IsBreak, IsSpace, FirstBreak;
    var t, k := a + suffix, FirstBreak(a);
    FirstBreakIs(t, k);
    LinesSplit(a);
    LinesSplit(t);
    assert t[..k] == a[..k];
    var n := BreakLength(a, k);
    assert BreakLength(t, k) == n;
    head, rest := Entry(a[..k]), a[k + n..];
    assert t[k + n..] == rest + suffix;
  }

  lemma LinesBeforeSeam(a: string)
    requires FirstBreak(a) == |a| - 1
    ensures Lines(a) == Entry(a[..|a| - 1])
  {
    hide Lines, Entry, IsBreak, FirstBreak;
    LinesSplit(a);
    LinesOfNothing();
    assert a[|a|..] == "";
  }

  /** A text taken apart at one character of it. */
  lemma Seam(a: string, c: char, b: string)
    ensures var t := a + ([c] + b);
            && |t| == |a| + 1 + |b| && t[|a|] == c && (forall i | 0 <= i < |a| :: t[i] == a[i])
            && t[..|a|] == a && t[|a| + 1..] == b
  {
  }

  lemma LinesAcrossSeam(a: string, b: string, t: string)
    requires FirstBreak(a) == |a| - 1 && a[|a| - 1] == '\r' && t == a + ("\n" + b)
    ensures Lines(t) == Entry(a[..|a| - 1]) + Lines(b)
  {
    hide Lines, Entry, FirstBreak, IsBreak;
    var k := |a| - 1;
    Seam(a, '\n', b);
    assert t[k] == a[k] && t[k + 1] == '\n';
    FirstBreakIs(t, k);
    LinesSplit(t);
    assert BreakLength(t, k) == 2;
    hide BreakLength;
    assert t[..k] == a[..k] by { assert t[..|a|][..k] == t[..k]; }
  }

  /** At such a seam the line feed adds no line. */
  lemma LinesAtSeam(a: string, b: string)
    requires FirstBreak(a) == |a| - 1 && SplitsCrLf(a, "\n" + b)
    ensures Lines(a + ("\n" + b)) == Lines(a) + Lines(b)
  {
    hide Lines, Entry, FirstBreak;
    LinesBeforeSeam(a);
    LinesAcrossSeam(a, b, a + ("\n" + b));
  }

  lemma {:induction false} LinesDropLast(s: string, c: char)
    requires IsSpace(c)
    ensures Lines(s + [c]) == Lines(s)
    decreases |s|
  {
    hide Lines, FirstBreak, IsBreak, IsSpace;
    var k := FirstBreak(s);
    if k == |s| {
      LinesDropOnly(s, c);
    } else if k == |s| - 1 && SplitsCrLf(s, [c]) {
      LinesOfNothing();
      assert [c] == "\n" + "";
      LinesAtSeam(s, "");
    } else {
      var head, rest := LinesStep(s, [c]);
      LinesDropLast(rest, c);
      assert Lines(s + [c]) == head + Lines(rest + [c]);
    }
  }

  lemma EntryDropsLast(s: string, c: char)
    requires IsSpace(c)
    ensures Entry(s + [c]) == Entry(s)
  {
    StripDropsLast(s, c);
  }

  lemma LinesDropOnly(s: string, c: char)
    requires IsSpace(c) && FirstBreak(s) == |s|
    ensures Lines(s + [c]) == Lines(s)
  {
    hide Lines, Entry, IsSpace, IsBreak, FirstBreak;
    LinesOfNothing();
    var t := s + [c];
    LinesOfOne(s);
    if IsBreak(c) {
      FirstBreakIs(t, |s|);
      LinesSplit(t);
      assert t[..|s|] == s && t[|s| + 1..] == "";
    } else {
      FirstBreakIs(t, |s| + 1);
      LinesOfOne(t);
      EntryDropsLast(s, c);
    }
  }

  /** Stripping a text loses none of its lines. */
  lemma StripKeepsLines(s: string)
    ensures Lines(Strip(s)) == Lines(s)
  {
    LStripKeepsLines(s);
    RStripKeepsLines(LStrip(s));
  }

  lemma {:induction false} LStripKeepsLines(s: string)
    ensures Lines(LStrip(s)) == Lines(s)
  {
    if s != "" && IsSpace(s[0]) {
      LinesDropFirst(s);
      LStripKeepsLines(s[1..]);
    }
  }

  lemma {:induction false} RStripKeepsLines(s: string)
    ensures Lines(RStrip(s)) == Lines(s)
  {
    if s != "" && IsSpace(s[|s| - 1]) {
      var t := s[..|s| - 1];
      assert s == t + [s[|s| - 1]];
      LinesDropLast(t, s[|s| - 1]);
      RStripKeepsLines(t);
    }
  }

  /** Joining two texts with a line feed gives exactly the lines of the one and then of the other. */
  lemma {:induction false} JoinKeepsLines(a: string, b: string)
    ensures Lines(a + ("\n" + b)) == Lines(a) + Lines(b)
    decreases |a|
  {
    hide Lines, FirstBreak, IsBreak, IsSpace;
    var k := FirstBreak(a);
    if k == |a| {
      JoinToOne(a, b);
    } else if k == |a| - 1 && SplitsCrLf(a, "\n" + b) {
      LinesAtSeam(a, b);
    } else {
      var head, rest := LinesStep(a, "\n" + b);
      JoinKeepsLines(rest, b);
    }
  }

  lemma JoinToOne(a: string, b: string)
    requires FirstBreak(a) == |a|
    ensures Lines(a + ("\n" + b)) == Lines(a) + Lines(b)
  {
    hide Lines, Entry, FirstBreak;
    LinesOfOne(a);
    LinesAfterLine(a, b, a + ("\n" + b));
  }

  lemma LinesAfterLine(a: string, b: string, t: string)
    requires FirstBreak(a) == |a| && t == a + ("\n" + b)
    ensures Lines(t) == Entry(a) + Lines(b)
  {
    LineFeedBreaks();
    hide Lines, Entry, FirstBreak, IsBreak;
    Seam(a, '\n', b);
    FirstBreakIs(t, |a|);
    LinesSplit(t);
    assert BreakLength(t, |a|) == 1;
  }

  /** What a break leaves of `b` when it may take a line feed along. */
  lemma AfterBreak(a: string, c: char, b: string, t: string)
    requires IsBreak(c) && t == a + ([c] + b)
    ensures |a| < |t| && Lines(t[|a| + BreakLength(t, |a|)..]) == Lines(b)
  {
    LineFeedBreaks();
    hide Lines, IsBreak;
    Seam(a, c, b);
    if BreakLength(t, |a|) == 2 {
      assert t[|a| + 1] == b[0];
      LinesDropBreak(b);
      assert t[|a| + 2..] == b[1..];
    }
  }

  /** Any line boundary ends a first line, a carriage return and line feed together being one. */
  lemma AnyBreakJoins(a: string, c: char, b: string, t: string)
    requires FirstBreak(a) == |a| && IsBreak(c) && t == a + ([c] + b)
    ensures Lines(t) == Lines(a) + Lines(b)
  {
    hide Lines, Entry, FirstBreak, IsBreak, BreakLength;
    Seam(a, c, b);
    FirstBreakIs(t, |a|);
    LinesSplit(t);
    LinesOfOne(a);
    AfterBreak(a, c, b, t);
  }

  lemma TextWithLinesIsNotBlank(s: string)
    ensures Strip(s) == "" ==> Lines(s) == []
  {
    StripKeepsLines(s);
  }

  lemma BlankIfStripped(s: string)
    requires Strip(s) == ""
    ensures Blank(s)
  {
    hide IsSpace, Strip, Blank;
    var a, b := StripShape(s);
    BlankJoined(s[..a], s[b..]);
    assert s == s[..a] + s[b..];
  }

  lemma StripKeepsInk(s: string, i: nat)
    requires i < |s| && !IsSpace(s[i])
    ensures Strip(s) != ""
  {
    hide IsSpace, Strip;
    if Strip(s) == "" {
      BlankIfStripped(s);
    }
  }

  /** A text has no line that is not blank exactly if it is blank. */
  lemma NoLinesMeansBlank(s: string)
    ensures Lines(s) == [] <==> Strip(s) == ""
  {
    TextWithLinesIsNotBlank(s);
    var t := Strip(s);
    if t != "" {
      var a, b := StripShape(s);
      StripKeepsLines(s);
      BreaksAreSpaces(t[0]);
      assert t[..FirstBreak(t)][0] == t[0];
      StripKeepsInk(t[..FirstBreak(t)], 0);
      hide Strip, Lines, FirstBreak, IsSpace, IsBreak;
      LinesUnfold(t);
      EntryOfInk(t[..FirstBreak(t)]);
    }
  }

  lemma BreaksAreSpaces(c: char)
    ensures IsBreak(c) ==> IsSpace(c)
  {
  }

  lemma EntryOfInk(line: string)
    requires Strip(line) != ""
    ensures |Entry(line)| == 1
  {
  }

  lemma {:induction false} BlanksAfter(s: string, blanks: string)
    requires Blank(blanks)
    ensures Strip(s + blanks) == Strip(s)
    decreases |blanks|
  {
    hide Strip, IsSpace;
    if blanks == "" {
      assert s + blanks == s;
    } else {
      var init, last := blanks[..|blanks| - 1], blanks[|blanks| - 1];
      BlanksAfter(s, init);
      StripDropsLast(s + init, last);
      assert s + blanks == (s + init) + [last];
    }
  }

  lemma {:induction false} BlanksBefore(s: string, blanks: string)
    requires Blank(blanks)
    ensures LStrip(blanks + s) == LStrip(s)
    decreases |blanks|
  {
    hide IsSpace;
    if blanks == "" {
      assert blanks + s == s;
    } else {
      BlanksBefore(s, blanks[1..]);
      assert (blanks + s)[0] == blanks[0] && (blanks + s)[1..] == blanks[1..] + s;
    }
  }

  /** White space around a text is lost in stripping. */
  lemma StripDropsBlanks(s: string, blanks: string)
    requires Blank(blanks)
    ensures Strip(s + blanks) == Strip(s) && Strip(blanks + s) == Strip(s)
  {
    BlanksAfter(s, blanks);
    BlanksBefore(s, blanks);
    hide LStrip, RStrip, Blank;
  }
}
