/** What reading the activity log gives back of what was written to it. */
module ActivityRoundTrip {
  import opened Text
  import opened ActivityLog

  /** What an ISO timestamp looks like to the reader. */
  predicate Stamp(reader: Reader, timestamp: string) {
    && timestamp != "" && reader.isDigit(timestamp[0]) && 'T' in timestamp
    && forall i | 0 <= i < |timestamp| :: !IsSpace(timestamp[i])
  }

  predicate Known(kind: string) {
    kind in KINDS
  }

  predicate Terminated(log: string) {
    log == "" || log[|log| - 1] == '\n'
  }

  /** What the first line of a written text is read as. */
  function MessagesFor(reader: Reader, timestamp: string, kind: string, line: string): seq<Message> {
    if KindIndex(kind) < 6 then Shown(reader, timestamp, kind, line)
    else Shown(reader, timestamp, "info", BULLET + (" " + line))
  }

  // ---------------------------------------------------------------- one line

  lemma {:induction false} FirstSpaceIs(s: string, rest: string)
    requires ' ' !in s
    ensures FirstSpace(s + (" " + rest)) == |s|
  {
    if s == "" {
      assert s + (" " + rest) == " " + rest;
    } else {
      FirstSpaceIs(s[1..], rest);
      assert (s + (" " + rest))[1..] == s[1..] + (" " + rest);
    }
  }

  lemma TimestampSplitsOff(reader: Reader, timestamp: string, rest: string)
    requires Stamp(reader, timestamp)
    ensures SplitTimestamp(reader, timestamp + (" " + rest)) == (timestamp, rest)
  {
    var s := timestamp + (" " + rest);
    assert ' ' !in timestamp by { assert IsSpace(' '); }
    FirstSpaceIs(timestamp, rest);
    assert s[..|timestamp|] == timestamp && s[|timestamp| + 1..] == rest && s[0] == timestamp[0];
  }

  lemma MarkersDiffer(i: nat, j: nat)
    requires i <= 6 && j < 6 && i != j
    ensures EmojiFor(i) != "" && EMOJIS[j] != "" && EmojiFor(i)[0] != EMOJIS[j][0]
  {
  }

  lemma {:induction false} MarkerIsRecognised(i: nat, line: string, j: nat)
    requires i <= 6 && j <= i && Trim(line)
    ensures SplitKind(EmojiFor(i) + (" " + line), j) == if i < 6 then (KINDS[i], line) else ("info", EmojiFor(i) + (" " + line))
    decreases i - j
  {
    var body := EmojiFor(i) + (" " + line);
    if j < i {
      MarkersDiffer(i, j);
      hide EmojiFor;
      assert body[0] == EmojiFor(i)[0];
      assert (EMOJIS[j] + " ")[0] != body[0];
      MarkerIsRecognised(i, line, j + 1);
    } else if i < 6 {
      hide Strip;
      StripOfTrim(line);
      assert body == (EMOJIS[i] + " ") + line;
      assert body[|EMOJIS[i]| + 1..] == line;
    }
  }

  lemma WrittenLineIsRead(reader: Reader, timestamp: string, kind: string, line: string)
    requires Stamp(reader, timestamp) && Trim(line)
    ensures ReadLine(reader, timestamp + (" " + (EmojiFor(KindIndex(kind)) + (" " + line)))) == MessagesFor(reader, timestamp, kind, line)
  {
    var i := KindIndex(kind);
    TimestampSplitsOff(reader, timestamp, EmojiFor(i) + (" " + line));
    MarkerIsRecognised(i, line, 0);
  }

  // ---------------------------------------------------------------- one entry

  lemma {:induction false} RStripAfter(p: string, h: string)
    requires h != "" && !IsSpace(h[0])
    ensures RStrip(p + h) == p + RStrip(h)
    decreases |h|
  {
    hide IsSpace;
    var s := p + h;
    assert s[|s| - 1] == h[|h| - 1];
    if IsSpace(h[|h| - 1]) {
      assert s[..|s| - 1] == p + h[..|h| - 1];
      RStripAfter(p, h[..|h| - 1]);
    }
  }

  lemma PrefixedEntry(p: string, h: string)
    requires p != "" && !IsSpace(p[0]) && h != "" && !IsSpace(h[0])
    ensures Text.Entry(h) == [Strip(h)] && Text.Entry(p + h) == [p + Strip(h)]
  {
    RStripAfter(p, h);
    RStripAfter("", h);
    var k := RStripShape(h);
    assert k < |h| ==> IsSpace(h[k..][0]);
  }

  /** A prefix without line breaks goes in front of the first line of a text; its other lines stay. */
  lemma PrefixedLines(p: string, text: string)
    requires p != "" && !IsSpace(p[0]) && Trim(text) && text != "" && forall i | 0 <= i < |p| :: !IsBreak(p[i])
    ensures Lines(text) != [] && Lines(p + text) == [p + Lines(text)[0]] + Lines(text)[1..]
  {
    hide Lines, Strip, Text.Entry, FirstBreak;
    var k, s := FirstBreak(text), p + text;
    FirstBreakIs(s, |p| + k);
    assert !IsBreak(text[0]);
    hide IsSpace, IsBreak;
    var head := text[..k];
    assert head != "" && head[0] == text[0];
    PrefixedEntry(p, head);
    assert s[..|p| + k] == p + head;
    if k == |text| {
      assert head == text;
      LinesOfOne(text);
      LinesOfOne(s);
    } else {
      LinesSplit(text);
      LinesSplit(s);
      var n := BreakLength(text, k);
      assert BreakLength(s, |p| + k) == n;
      assert s[|p| + k + n..] == text[k + n..];
    }
  }

  /** Text that is not blank has lines, and stripping keeps them. */
  lemma LinesOfWritten(reader: Reader, timestamp: string, kind: string, text: string)
    requires Stamp(reader, timestamp) && Strip(text) != ""
    ensures Lines(text) != []
    ensures Lines(LineFor(timestamp, kind, text))
            == [timestamp + (" " + (EmojiFor(KindIndex(kind)) + (" " + Lines(text)[0])))] + Lines(text)[1..]
  {
    hide Lines;
    var emoji := EmojiFor(KindIndex(kind));
    var t := Strip(text);
    var p := timestamp + (" " + (emoji + " "));
    var a, b := StripShape(text);
    StripKeepsLines(text);
    PrefixHasNoBreaks(reader, timestamp, KindIndex(kind));
    PrefixedLines(p, t);
    hide Strip;
    assert p + t == LineFor(timestamp, kind, text);
    var first := Lines(text)[0];
    assert p + first == timestamp + (" " + (emoji + (" " + first)));
  }

  lemma PrefixHasNoBreaks(reader: Reader, timestamp: string, i: nat)
    requires Stamp(reader, timestamp) && i <= 6
    ensures var p := timestamp + (" " + (EmojiFor(i) + " "));
            p != "" && !IsSpace(p[0]) && forall j | 0 <= j < |p| :: !IsBreak(p[j])
  {
    var p := timestamp + (" " + (EmojiFor(i) + " "));
    assert p[0] == timestamp[0];
    assert forall j | 0 <= j < |EmojiFor(i)| :: !IsBreak(EmojiFor(i)[j]);
    assert !IsBreak(' ');
    hide EmojiFor, IsBreak;
    forall j | 0 <= j < |p|
      ensures !IsBreak(p[j])
    {
      if j < |timestamp| {
        assert p[j] == timestamp[j] && !IsSpace(timestamp[j]);
      } else {
        assert p[j] == (" " + (EmojiFor(i) + " "))[j - |timestamp|];
      }
    }
  }

  lemma Regrouped(a: seq<Message>, b: seq<Message>, c: seq<Message>)
    ensures a + (b + c) == (a + b) + c
  {
  }

  lemma {:induction false} ReadAppends(reader: Reader, a: seq<string>, b: seq<string>)
    ensures ReadLines(reader, a + b) == ReadLines(reader, a) + ReadLines(reader, b)
  {
    if a == [] {
      assert a + b == b;
    } else {
      var rest := a[1..];
      assert a == [a[0]] + rest && a + b == [a[0]] + (rest + b);
      ReadAppends(reader, rest, b);
      ReadOne(reader, a[0], rest);
      ReadOne(reader, a[0], rest + b);
      Regrouped(ReadLine(reader, a[0]), ReadLines(reader, rest), ReadLines(reader, b));
      hide ReadLine, ReadLines;
    }
  }

  lemma ReadOne(reader: Reader, line: string, rest: seq<string>)
    ensures ReadLines(reader, [line] + rest) == ReadLine(reader, line) + ReadLines(reader, rest)
  {
    hide ReadLine;
    assert ([line] + rest)[1..] == rest;
  }

  /** A terminated log takes another text without touching what it held. */
  lemma LogTakesText(log: string, text: string)
    requires Terminated(log)
    ensures Lines(log + text) == Lines(log) + Lines(text)
  {
    hide Lines;
    if log == "" {
      LinesOfNothing();
      assert log + text == text;
    } else {
      var l := log[..|log| - 1];
      assert log == l + ['\n'] && log + text == l + ("\n" + text);
      LineFeedBreaks();
      LinesDropLast(l, '\n');
      JoinKeepsLines(l, text);
    }
  }

  /** Appending any text that is not blank: everything before reads as it did, the first line of the text
      comes back under its timestamp and kind, and each further line is read as a line of its own. */
  lemma AppendedReads(reader: Reader, log: string, timestamp: string, kind: string, text: string)
    requires Terminated(log) && Stamp(reader, timestamp) && Strip(text) != ""
    ensures Terminated(Appended(log, timestamp, kind, text)) && Lines(text) != []
    ensures Messages(reader, Appended(log, timestamp, kind, text))
            == Messages(reader, log) + (MessagesFor(reader, timestamp, kind, Lines(text)[0]) + ReadLines(reader, Lines(text)[1..]))
  {
    hide Lines, Strip, ReadLine, MessagesFor, LineFor, Stamp, FormatActivityLogLine;
    var line := LineFor(timestamp, kind, text);
    LogTakesText(log, line + "\n");
    LinesOfWritten(reader, timestamp, kind, text);
    LineFeedBreaks();
    LinesDropLast(line, '\n');
    assert line + "\n" == line + ['\n'];
    ReadAppends(reader, Lines(log), Lines(line));
    var first, others := Lines(text)[0], Lines(text)[1..];
    LinesAreTrim(text);
    WrittenLineIsRead(reader, timestamp, kind, first);
    var written := timestamp + (" " + (EmojiFor(KindIndex(kind)) + (" " + first)));
    assert ([written] + others)[1..] == others;
  }

  /** Every line is stripped and not blank. */
  lemma {:induction false} ContentsAreTrim(lines: seq<string>)
    ensures forall i | 0 <= i < |Contents(lines)| :: Trim(Contents(lines)[i]) && Contents(lines)[i] != ""
  {
    if lines != [] {
      ContentsAreTrim(lines[1..]);
      var a, b := StripShape(lines[0]);
      hide Strip, Trim;
    }
  }

  lemma LinesAreTrim(text: string)
    ensures forall i | 0 <= i < |Lines(text)| :: Trim(Lines(text)[i]) && Lines(text)[i] != ""
  {
    ContentsAreTrim(SplitLines(text));
  }

  lemma LinesOfSingle(text: string)
    requires FirstBreak(Strip(text)) == |Strip(text)| && Strip(text) != ""
    ensures Lines(text) == [Strip(text)]
  {
    hide Lines, Strip;
    StripKeepsLines(text);
    LinesOfOne(Strip(text));
    StripTwice(text);
  }

  /** A single-line message comes back exactly as written, stripped, if and only if its kind is one of
      the six and it is not in braces, unless the agent-output reader happens to give it back. */
  lemma MessageRoundTrip(reader: Reader, log: string, timestamp: string, kind: string, text: string)
    requires Terminated(log) && Stamp(reader, timestamp) && Strip(text) != "" && FirstBreak(Strip(text)) == |Strip(text)|
    ensures Messages(reader, Appended(log, timestamp, kind, text)) == Messages(reader, log) + [Message(timestamp, kind, Strip(text))]
            <==> Known(kind) && (Wrapped(Strip(text)) ==> reader.stream(Strip(text)) == [(kind, Strip(text))])
  {
    hide Lines, Strip, Appended, Stamp, FirstBreak, ReadLine, Messages;
    var t := Strip(text);
    AppendedReads(reader, log, timestamp, kind, text);
    LinesOfSingle(text);
    assert [t][1..] == [] && ReadLines(reader, []) == [];
    var got := MessagesFor(reader, timestamp, kind, t);
    assert got + [] == got;
    SameTail(Messages(reader, log), got, [Message(timestamp, kind, t)]);
    KnownIndex(kind);
    if !Known(kind) {
      var bulleted := BULLET + (" " + t);
      assert bulleted[0] == BULLET[0];
      assert got == [Message(timestamp, "info", bulleted)];
      assert "info" == KINDS[0];
    } else if Wrapped(t) {
      ExpandedIsOne(timestamp, reader.stream(t), kind, t);
    }
  }

  lemma KnownIndex(kind: string)
    ensures Known(kind) <==> KindIndex(kind) < 6
  {
    assert KINDS[0] == "info" && KINDS[1] == "system" && KINDS[2] == "thought" && KINDS[3] == "tool" && KINDS[4] == "error" && KINDS[5] == "success";
  }

  lemma SameTail(a: seq<Message>, b: seq<Message>, c: seq<Message>)
    ensures a + b == a + c <==> b == c
  {
    if a + b == a + c {
      assert (a + b)[|a|..] == b && (a + c)[|a|..] == c;
    }
  }

  lemma ExpandedIsOne(timestamp: string, parsed: seq<(string, string)>, kind: string, text: string)
    ensures Expanded(timestamp, parsed) == [Message(timestamp, kind, text)] <==> parsed == [(kind, text)]
  {
    if |parsed| == 1 {
      assert parsed == [parsed[0]];
      assert Expanded(timestamp, parsed) == [Message(timestamp, parsed[0].0, parsed[0].1)];
    }
  }

  // ---------------------------------------------------------------- the whole log

  datatype Entry = Entry(timestamp: string, kind: string, text: string)

  function Written(entries: seq<Entry>): string {
    if entries == [] then ""
    else
      var last := entries[|entries| - 1];
      Appended(Written(entries[..|entries| - 1]), last.timestamp, last.kind, last.text)
  }

  /** Single-line text of one of the six kinds, not in braces. */
  predicate Plain(reader: Reader, e: Entry) {
    var t := Strip(e.text);
    Stamp(reader, e.timestamp) && Known(e.kind) && t != "" && FirstBreak(t) == |t| && !Wrapped(t)
  }

  /** A log of plain messages reads back as exactly those messages, in order. */
  lemma {:induction false} LogRoundTrip(reader: Reader, entries: seq<Entry>)
    requires forall i | 0 <= i < |entries| :: Plain(reader, entries[i])
    ensures Terminated(Written(entries))
    ensures |Messages(reader, Written(entries))| == |entries|
    ensures forall i | 0 <= i < |entries| ::
              Messages(reader, Written(entries))[i] == Message(entries[i].timestamp, entries[i].kind, Strip(entries[i].text))
    decreases |entries|
  {
    hide Lines, Strip, Appended, Stamp, FirstBreak, Messages, Wrapped, Known;
    if entries == [] {
      EmptyLog(reader);
    } else {
      var init, last := entries[..|entries| - 1], entries[|entries| - 1];
      assert forall i | 0 <= i < |init| :: Plain(reader, init[i]) by { assert forall i | 0 <= i < |init| :: init[i] == entries[i]; }
      LogRoundTrip(reader, init);
      assert Plain(reader, last);
      AppendedReads(reader, Written(init), last.timestamp, last.kind, last.text);
      MessageRoundTrip(reader, Written(init), last.timestamp, last.kind, last.text);
    }
  }

  lemma EmptyLog(reader: Reader)
    ensures Messages(reader, "") == []
  {
    LinesOfNothing();
  }
}
