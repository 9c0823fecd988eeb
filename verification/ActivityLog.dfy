/** The per-job activity log: writing messages as lines and reading the lines back as messages. The log
    file is a string; decoding one line of agent output (`{…}`) is a parameter. */
module ActivityLog {
  import opened Text

  datatype Message = Message(timestamp: string, kind: string, text: string)
  /** What the reader takes from elsewhere: which characters are digits (Python knows more of them than
      the ten of ASCII), and what a line of agent output expands to. */
  datatype Reader = Reader(isDigit: char -> bool, stream: string -> seq<(string, string)>)

  const KINDS := ["info", "system", "thought", "tool", "error", "success"]
  const EMOJIS := ["📡", "⚙️", "💭", "🔧", "❌", "✅"]
  const BULLET := "•"

  // ---------------------------------------------------------------- writing

  function KindIndex(kind: string): (i: nat)
    ensures i <= 6
    ensures i < 6 ==> KINDS[i] == kind
  {
    if kind == "info" then 0 else if kind == "system" then 1 else if kind == "thought" then 2
    else if kind == "tool" then 3 else if kind == "error" then 4 else if kind == "success" then 5 else 6
  }

  function EmojiFor(i: nat): string
    requires i <= 6
  {
    if i < 6 then EMOJIS[i] else BULLET
  }

  function FormatActivityLogLine(kind: string, text: string): string {
    EmojiFor(KindIndex(kind)) + (" " + Strip(text))
  }

  function LineFor(timestamp: string, kind: string, text: string): string {
    timestamp + (" " + FormatActivityLogLine(kind, text))
  }

  /** Blank messages are not written. */
  function Appended(log: string, timestamp: string, kind: string, text: string): string {
    if Strip(text) == "" then log else log + (LineFor(timestamp, kind, text) + "\n")
  }

  // ---------------------------------------------------------------- reading

  function FirstSpace(s: string): (k: nat)
    ensures k <= |s|
  {
    if s == "" || s[0] == ' ' then 0 else 1 + FirstSpace(s[1..])
  }

  /** The timestamp, when the line starts like one, and what follows it. */
  function SplitTimestamp(reader: Reader, body: string): (string, string) {
    var k := FirstSpace(body);
    if body != "" && reader.isDigit(body[0]) && k < |body| && 'T' in body[..k] then (body[..k], body[k + 1..]) else ("", body)
  }

  /** The kind of the marker the body starts with, trying the markers from the `i`th on. */
  function SplitKind(body: string, i: nat): (string, string)
    requires i <= 6
    decreases 6 - i
  {
    if i == 6 then ("info", body)
    else if EMOJIS[i] + " " <= body then (KINDS[i], Strip(body[|EMOJIS[i]| + 1..]))
    else SplitKind(body, i + 1)
  }

  predicate Wrapped(body: string) {
    body != "" && body[0] == '{' && body[|body| - 1] == '}'
  }

  function Expanded(timestamp: string, parsed: seq<(string, string)>): seq<Message> {
    seq(|parsed|, i requires 0 <= i < |parsed| => Message(timestamp, parsed[i].0, parsed[i].1))
  }

  function Shown(reader: Reader, timestamp: string, kind: string, body: string): seq<Message> {
    if Wrapped(body) then Expanded(timestamp, reader.stream(body)) else [Message(timestamp, kind, body)]
  }

  function ReadLine(reader: Reader, line: string): seq<Message> {
    var (timestamp, body) := SplitTimestamp(reader, line);
    var (kind, text) := SplitKind(body, 0);
    Shown(reader, timestamp, kind, text)
  }

  function ReadLines(reader: Reader, lines: seq<string>): seq<Message> {
    if lines == [] then [] else ReadLine(reader, lines[0]) + ReadLines(reader, lines[1..])
  }

  /** What reading a log gives: its stripped non-blank lines, one after the other. */
  function Messages(reader: Reader, log: string): seq<Message> {
    ReadLines(reader, Lines(log))
  }

  method SplitLogLine(reader: Reader, line: string) returns (timestamp: string, kind: string, body: string)
    ensures (timestamp, body) == (SplitTimestamp(reader, Strip(line)).0, SplitKind(SplitTimestamp(reader, Strip(line)).1, 0).1)
    ensures kind == SplitKind(SplitTimestamp(reader, Strip(line)).1, 0).0
  {
    hide Strip;
    timestamp, body := "", Strip(line);
    if body != "" && reader.isDigit(body[0]) {
      var k := FirstSpace(body);
      if k < |body| && 'T' in body[..k] {
        timestamp, body := body[..k], body[k + 1..];
      }
    }
    for i := 0 to 6
      invariant SplitKind(body, i) == SplitKind(body, 0)
    {
      var prefix := EMOJIS[i] + " ";
      if prefix <= body {
        return timestamp, KINDS[i], Strip(body[|prefix|..]);
      }
    }
    kind := "info";
  }

  method ParseActivityMessages(reader: Reader, log: string) returns (messages: seq<Message>)
    ensures messages == Messages(reader, log)
  {
    hide Strip, SplitLines, SplitKind, SplitTimestamp, ReadLines, Contents, Shown;
    var lines := SplitLines(log);
    messages := [];
    assert lines[0..] == lines && [] + Messages(reader, log) == Messages(reader, log);
    for i := 0 to |lines|
      invariant messages + ReadLines(reader, Contents(lines[i..])) == Messages(reader, log)
    {
      ReadStep(reader, lines, i);
      if Strip(lines[i]) != "" {
        var timestamp, kind, body := SplitLogLine(reader, lines[i]);
        StripTwice(lines[i]);
        ghost var before, rest := messages, ReadLines(reader, Contents(lines[i + 1..]));
        var shown := [];
        if body != "" && body[0] == '{' && body[|body| - 1] == '}' {
          var parsed := reader.stream(body);
          for j := 0 to |parsed|
            invariant shown == Expanded(timestamp, parsed[..j])
          {
            shown := shown + [Message(timestamp, parsed[j].0, parsed[j].1)];
          }
          assert parsed[..|parsed|] == parsed;
        } else {
          shown := [Message(timestamp, kind, body)];
        }
        assert shown == ReadLine(reader, Strip(lines[i])) by { ShownIs(reader, timestamp, kind, body, shown); }
        messages := messages + shown;
        assert before + (shown + rest) == messages + rest;
      }
    }
    assert lines[|lines|..] == [];
    NothingRead(reader);
    assert messages + [] == messages;
  }

  lemma ShownIs(reader: Reader, timestamp: string, kind: string, body: string, shown: seq<Message>)
    requires shown == if Wrapped(body) then Expanded(timestamp, reader.stream(body)) else [Message(timestamp, kind, body)]
    ensures shown == Shown(reader, timestamp, kind, body)
  {
  }

  lemma NothingRead(reader: Reader)
    ensures ReadLines(reader, Contents([])) == []
  {
  }

  lemma ReadStep(reader: Reader, lines: seq<string>, i: nat)
    requires i < |lines|
    ensures ReadLines(reader, Contents(lines[i..]))
            == (if Strip(lines[i]) == "" then [] else ReadLine(reader, Strip(lines[i]))) + ReadLines(reader, Contents(lines[i + 1..]))
    ensures Strip(lines[i]) == "" ==> ReadLines(reader, Contents(lines[i..])) == ReadLines(reader, Contents(lines[i + 1..]))
  {
    hide Contents, Strip, ReadLine;
    assert lines[i..] == [lines[i]] + lines[i + 1..];
    ContentsOfOne(lines[i], lines[i + 1..]);
    var rest := Contents(lines[i + 1..]);
    if Strip(lines[i]) == "" {
      assert [] + rest == rest;
    } else {
      assert ([Strip(lines[i])] + rest)[1..] == rest;
    }
  }

  // ---------------------------------------------------------------- what is split off

  /** A line begins with a timestamp if its first word begins with a digit, has a T in it, and a blank follows. */
  predicate Stamped(reader: Reader, body: string, timestamp: string, rest: string) {
    && body == timestamp + (" " + rest) && ' ' !in timestamp && 'T' in timestamp
    && timestamp != "" && reader.isDigit(timestamp[0])
  }

  lemma {:induction false} FirstSpaceIs(s: string, k: nat)
    requires k <= |s| && (k < |s| ==> s[k] == ' ') && forall i | 0 <= i < k :: s[i] != ' '
    ensures FirstSpace(s) == k
    decreases |s|
  {
    if k > 0 {
      FirstSpaceIs(s[1..], k - 1);
    }
  }

  lemma {:induction false} BeforeFirstSpace(s: string)
    ensures var k := FirstSpace(s); (k < |s| ==> s[k] == ' ') && forall i | 0 <= i < k :: s[i] != ' '
    decreases |s|
  {
    if s != "" && s[0] != ' ' {
      BeforeFirstSpace(s[1..]);
    }
  }

  /** A timestamp is split off exactly if the line begins with one, and it is the first word. */
  lemma TimestampSplitOff(reader: Reader, body: string)
    ensures forall timestamp, rest | Stamped(reader, body, timestamp, rest) :: SplitTimestamp(reader, body) == (timestamp, rest)
    ensures (forall timestamp, rest :: !Stamped(reader, body, timestamp, rest)) ==> SplitTimestamp(reader, body) == ("", body)
  {
    forall timestamp, rest | Stamped(reader, body, timestamp, rest)
      ensures SplitTimestamp(reader, body) == (timestamp, rest)
    {
      FirstSpaceIs(body, |timestamp|);
      assert body[..|timestamp|] == timestamp && body[|timestamp| + 1..] == rest;
    }
    if SplitTimestamp(reader, body) != ("", body) {
      var k := FirstSpace(body);
      BeforeFirstSpace(body);
      assert body == body[..k] + (" " + body[k + 1..]);
      assert Stamped(reader, body, body[..k], body[k + 1..]);
    }
  }

  predicate Marked(body: string, i: nat)
    requires i < 6
  {
    EMOJIS[i] + " " <= body
  }

  /** The kind is that of the first marker the body begins with, and what follows it is stripped; without a marker the
      body is left alone and is information. */
  lemma {:induction false} KindSplitOff(body: string, from: nat)
    requires from <= 6
    ensures forall i | from <= i < 6 && Marked(body, i) && (forall j | from <= j < i :: !Marked(body, j)) ::
              SplitKind(body, from) == (KINDS[i], Strip(body[|EMOJIS[i]| + 1..]))
    ensures (forall i | from <= i < 6 :: !Marked(body, i)) ==> SplitKind(body, from) == ("info", body)
    decreases 6 - from
  {
    hide Strip;
    if from < 6 && !Marked(body, from) {
      KindSplitOff(body, from + 1);
    }
  }
}
