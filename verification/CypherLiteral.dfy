/** The literal printer of the backup tool, and a parser that reads its output back. */
module CypherLiteral {
  import opened Wrappers

  /** A dictionary is its items in the order they are printed. */
  datatype Value = Null | Bool(b: bool) | Int(n: int) | Str(s: string) | List(items: seq<Value>) | Dict(entries: seq<Item>)
  datatype Item = Item(key: string, value: Value)

  // ---------------------------------------------------------------- printing

  /** `s.replace(c, to)` for a single character. */
  function Replace(s: string, c: char, to: string): string {
    if s == "" then "" else (if s[0] == c then to else [s[0]]) + Replace(s[1..], c, to)
  }

  function Escape(s: string): string {
    Replace(Replace(s, '\\', "\\\\"), '\'', "\\'")
  }

  function Digit(d: nat): char
    requires d < 10
  {
    "0123456789"[d]
  }

  function Digits(n: nat): string {
    if n < 10 then [Digit(n)] else Digits(n / 10) + [Digit(n % 10)]
  }

  function Decimal(n: int): string {
    if n < 0 then "-" + Digits(-n) else Digits(n)
  }

  function Print(v: Value): string {
    match v
    case Null => "null"
    case Bool(b) => if b then "true" else "false"
    case Int(n) => Decimal(n)
    case Str(s) => "'" + (Escape(s) + "'")
    case List(items) => "[" + (PrintItems(items) + "]")
    case Dict(entries) => "{" + (PrintEntries(entries) + "}")
  }

  function PrintItems(items: seq<Value>): string {
    if items == [] then "" else if |items| == 1 then Print(items[0]) else Print(items[0]) + (", " + PrintItems(items[1..]))
  }

  function PrintEntry(e: Item): string {
    e.key + (": " + Print(e.value))
  }

  function PrintEntries(entries: seq<Item>): string {
    if entries == [] then ""
    else if |entries| == 1 then PrintEntry(entries[0])
    else PrintEntry(entries[0]) + (", " + PrintEntries(entries[1..]))
  }

  // ---------------------------------------------------------------- parsing

  predicate IsDigit(c: char) { '0' <= c <= '9' }

  predicate IsLetter(c: char) { 'a' <= c <= 'z' || 'A' <= c <= 'Z' || c == '_' }

  function DigitSpan(s: string): (k: nat)
    ensures k <= |s|
  {
    if s != "" && IsDigit(s[0]) then 1 + DigitSpan(s[1..]) else 0
  }

  function KeySpan(s: string): (k: nat)
    ensures k <= |s|
  {
    if s != "" && (IsLetter(s[0]) || IsDigit(s[0])) then 1 + KeySpan(s[1..]) else 0
  }

  function ValueOf(digits: string): nat {
    if digits == "" then 0
    else ValueOf(digits[..|digits| - 1]) * 10 + if IsDigit(digits[|digits| - 1]) then (digits[|digits| - 1] - '0') as nat else 0
  }

  function ParseString(s: string): (r: Option<(string, string)>)
    ensures r.Some? ==> |r.value.1| < |s|
  {
    if s == "" then None
    else if s[0] == '\'' then Some(("", s[1..]))
    else if s[0] == '\\' then
      if |s| < 2 then None
      else
        var r := ParseString(s[2..]);
        if r.None? then None else Some(([s[1]] + r.value.0, r.value.1))
    else
      var r := ParseString(s[1..]);
      if r.None? then None else Some(([s[0]] + r.value.0, r.value.1))
  }

  function ParseWord(s: string, word: string, v: Value): (r: Option<(Value, string)>)
    requires word != ""
    ensures r.Some? ==> |r.value.1| < |s|
  {
    if word <= s then Some((v, s[|word|..])) else None
  }

  function ParseNumber(s: string): (r: Option<(int, string)>)
    ensures r.Some? ==> |r.value.1| < |s|
  {
    var k := DigitSpan(s);
    if k == 0 then None else Some((ValueOf(s[..k]), s[k..]))
  }

  function Parse(s: string): (r: Option<(Value, string)>)
    ensures r.Some? ==> |r.value.1| < |s|
    decreases |s|, 0
  {
    if s == "" then None
    else if s[0] == 'n' then ParseWord(s, "null", Null)
    else if s[0] == 't' then ParseWord(s, "true", Bool(true))
    else if s[0] == 'f' then ParseWord(s, "false", Bool(false))
    else if s[0] == '\'' then
      var r := ParseString(s[1..]);
      if r.None? then None else Some((Str(r.value.0), r.value.1))
    else if s[0] == '[' then
      if "]" <= s[1..] then Some((List([]), s[2..]))
      else
        var r := ParseItems(s[1..]);
        if r.None? then None else Some((List(r.value.0), r.value.1))
    else if s[0] == '{' then
      if "}" <= s[1..] then Some((Dict([]), s[2..]))
      else
        var r := ParseEntries(s[1..]);
        if r.None? then None else Some((Dict(r.value.0), r.value.1))
    else if s[0] == '-' then
      var r := ParseNumber(s[1..]);
      if r.None? then None else Some((Int(-r.value.0), r.value.1))
    else
      var r := ParseNumber(s);
      if r.None? then None else Some((Int(r.value.0), r.value.1))
  }

  function ParseItems(s: string): (r: Option<(seq<Value>, string)>)
    ensures r.Some? ==> |r.value.1| < |s|
    decreases |s|, 1
  {
    var first := Parse(s);
    if first.None? then None
    else
      var (v, tail) := first.value;
      if "]" <= tail then Some(([v], tail[1..]))
      else if ", " <= tail then
        var r := ParseItems(tail[2..]);
        if r.None? then None else Some(([v] + r.value.0, r.value.1))
      else None
  }

  function ParseEntries(s: string): (r: Option<(seq<Item>, string)>)
    ensures r.Some? ==> |r.value.1| < |s|
    decreases |s|, 1
  {
    var k := KeySpan(s);
    if k == 0 || !(": " <= s[k..]) then None
    else
      var first := Parse(s[k + 2..]);
      if first.None? then None
      else
        var (v, tail) := first.value;
        var e := Item(s[..k], v);
        if "}" <= tail then Some(([e], tail[1..]))
        else if ", " <= tail then
          var r := ParseEntries(tail[2..]);
          if r.None? then None else Some(([e] + r.value.0, r.value.1))
        else None
  }

  // ---------------------------------------------------------------- strings

  function EscapeChar(c: char): string {
    if c == '\\' then "\\\\" else if c == '\'' then "\\'" else [c]
  }

  lemma {:induction false} ReplaceAppends(a: string, b: string, c: char, to: string)
    ensures Replace(a + b, c, to) == Replace(a, c, to) + Replace(b, c, to)
  {
    if a == "" {
      assert a + b == b;
    } else {
      ReplaceAppends(a[1..], b, c, to);
      assert (a + b)[0] == a[0] && (a + b)[1..] == a[1..] + b;
      var head, x, y := if a[0] == c then to else [a[0]], Replace(a[1..], c, to), Replace(b, c, to);
      hide Replace;
      assert head + (x + y) == (head + x) + y;
    }
  }

  /** The two passes escape each character on its own: the second does not touch what the first put in. */
  lemma EscapeOne(c: char, rest: string)
    ensures Escape([c] + rest) == EscapeChar(c) + Escape(rest)
  {
    var first := if c == '\\' then "\\\\" else [c];
    assert ([c] + rest)[1..] == rest;
    ReplaceAppends(first, Replace(rest, '\\', "\\\\"), '\'', "\\'");
    assert Replace(first, '\'', "\\'") == EscapeChar(c) by {
      if c == '\\' {
        assert "\\\\"[1..] == "\\" && "\\"[1..] == "";
        assert Replace("\\", '\'', "\\'") == "\\";
      } else {
        assert [c][1..] == "";
      }
    }
  }

  /** Quotes and backslashes inside a string never end its literal early. */
  lemma {:induction false} StringRoundTrip(t: string, rest: string)
    ensures ParseString(Escape(t) + ("'" + rest)) == Some((t, rest))
  {
    var tail := "'" + rest;
    if t == "" {
      assert Escape(t) + tail == tail;
    } else {
      var c, more := t[0], t[1..];
      assert t == [c] + more;
      StringRoundTrip(more, rest);
      EscapeOne(c, more);
      hide Escape;
      var s := Escape(t) + tail;
      assert s == EscapeChar(c) + (Escape(more) + tail);
      if |EscapeChar(c)| == 2 {
        assert s[2..] == Escape(more) + tail;
      } else {
        assert s[1..] == Escape(more) + tail;
      }
    }
  }

  // ---------------------------------------------------------------- numbers

  predicate AllDigits(s: string) {
    forall i | 0 <= i < |s| :: IsDigit(s[i])
  }

  predicate StartsWithDigit(s: string) {
    s != "" && IsDigit(s[0])
  }

  lemma {:induction false} DigitsRoundTrip(n: nat)
    ensures AllDigits(Digits(n)) && Digits(n) != "" && ValueOf(Digits(n)) == n
  {
    DigitFacts(n % 10);
    if n >= 10 {
      DigitsRoundTrip(n / 10);
      var d := Digits(n / 10);
      assert (d + [Digit(n % 10)])[..|d|] == d;
    } else {
      assert [Digit(n)][..0] == "";
    }
  }

  lemma DigitFacts(d: nat)
    requires d < 10
    ensures IsDigit(Digit(d)) && (Digit(d) - '0') as nat == d
  {
  }

  lemma {:induction false} DigitSpanIs(d: string, rest: string)
    requires AllDigits(d) && !StartsWithDigit(rest)
    ensures DigitSpan(d + rest) == |d|
  {
    if d == "" {
      assert d + rest == rest;
    } else {
      DigitSpanIs(d[1..], rest);
      assert (d + rest)[1..] == d[1..] + rest;
    }
  }

  lemma NumberRoundTrip(n: nat, rest: string)
    requires !StartsWithDigit(rest)
    ensures ParseNumber(Digits(n) + rest) == Some((n, rest))
  {
    DigitsRoundTrip(n);
    DigitSpanIs(Digits(n), rest);
    var s, k := Digits(n) + rest, |Digits(n)|;
    assert s[..k] == Digits(n) && s[k..] == rest;
  }

  // ---------------------------------------------------------------- keys

  /** What can stand as a map key without quotes. */
  predicate Identifier(key: string) {
    key != "" && forall i | 0 <= i < |key| :: IsLetter(key[i]) || IsDigit(key[i])
  }

  predicate Printable(v: Value) {
    match v
    case List(items) => forall i | 0 <= i < |items| :: Printable(items[i])
    case Dict(entries) => forall i | 0 <= i < |entries| :: Identifier(entries[i].key) && Printable(entries[i].value)
    case _ => true
  }

  lemma {:induction false} KeySpanIs(key: string, rest: string)
    requires forall i | 0 <= i < |key| :: IsLetter(key[i]) || IsDigit(key[i])
    ensures KeySpan(key + (": " + rest)) == |key|
  {
    var tail := ": " + rest;
    if key == "" {
      assert key + tail == tail;
    } else {
      KeySpanIs(key[1..], rest);
      assert (key + tail)[1..] == key[1..] + tail;
    }
  }

  // ---------------------------------------------------------------- round trip

  /** The first character tells what follows, and is never a closing bracket. */
  lemma FirstChar(v: Value)
    ensures Print(v) != ""
    ensures match v
            case Null => Print(v)[0] == 'n'
            case Bool(b) => Print(v)[0] == if b then 't' else 'f'
            case Int(n) => if n < 0 then Print(v)[0] == '-' else IsDigit(Print(v)[0])
            case Str(_) => Print(v)[0] == '\''
            case List(_) => Print(v)[0] == '['
            case Dict(_) => Print(v)[0] == '{'
  {
    if v.Int? && v.n >= 0 {
      DigitsRoundTrip(v.n);
    }
  }

  /** The parser consumes exactly the printed text and returns the value printed. */
  lemma {:induction false} RoundTrip(v: Value, rest: string)
    requires Printable(v) && !StartsWithDigit(rest)
    ensures Parse(Print(v) + rest) == Some((v, rest))
    decreases v, 0
  {
    hide Escape, Digits;
    var s := Print(v) + rest;
    FirstChar(v);
    match v {
      case Null => assert s[4..] == rest;
      case Bool(b) => assert s[|Print(v)|..] == rest;
      case Int(n) =>
        if n < 0 {
          assert s[1..] == Digits(-n) + rest;
          NumberRoundTrip(-n, rest);
        } else {
          NumberRoundTrip(n, rest);
        }
      case Str(t) =>
        assert s[1..] == Escape(t) + ("'" + rest);
        StringRoundTrip(t, rest);
      case List(items) => ListRoundTrip(items, rest);
      case Dict(entries) => DictRoundTrip(entries, rest);
    }
  }

  lemma ListRoundTrip(items: seq<Value>, rest: string)
    requires Printable(List(items)) && !StartsWithDigit(rest)
    ensures Parse(Print(List(items)) + rest) == Some((List(items), rest))
    decreases items, 1
  {
    hide PrintItems, ParseItems;
    var s := Print(List(items)) + rest;
    var inner := PrintItems(items) + ("]" + rest);
    assert s[0] == '[' && s[1..] == inner;
    if items == [] {
      NoItems();
      assert inner == "]" + rest && s[2..] == rest;
    } else {
      FirstOfItems(items);
      assert inner[0] == PrintItems(items)[0];
      ItemsRoundTrip(items, rest);
    }
  }

  lemma NoItems()
    ensures PrintItems([]) == ""
  {
  }

  lemma FirstOfItems(items: seq<Value>)
    requires items != []
    ensures PrintItems(items) != "" && PrintItems(items)[0] != ']'
  {
    FirstChar(items[0]);
    assert PrintItems(items)[0] == Print(items[0])[0];
  }

  lemma LastItem(s: string, v: Value, rest: string)
    requires Parse(s) == Some((v, "]" + rest))
    ensures ParseItems(s) == Some(([v], rest))
  {
    hide Parse;
    assert ("]" + rest)[1..] == rest;
  }

  lemma Separator(more: string)
    ensures ", " <= ", " + more && (", " + more)[2..] == more
    ensures !("]" <= ", " + more) && !("}" <= ", " + more)
  {
    assert (", " + more)[0] == ',';
  }

  lemma MoreItems(s: string, v: Value, more: string, items: seq<Value>, rest: string)
    requires Parse(s) == Some((v, ", " + more)) && ParseItems(more) == Some((items, rest))
    ensures ParseItems(s) == Some(([v] + items, rest))
  {
    hide Parse;
    Separator(more);
  }

  lemma {:induction false} ItemsRoundTrip(items: seq<Value>, rest: string)
    requires items != [] && forall i | 0 <= i < |items| :: Printable(items[i])
    ensures ParseItems(PrintItems(items) + ("]" + rest)) == Some((items, rest))
    decreases items, 0
  {
    hide Parse, ParseItems, Print;
    var close := "]" + rest;
    var s := PrintItems(items) + close;
    if |items| == 1 {
      RoundTrip(items[0], close);
      LastItem(s, items[0], rest);
      assert [items[0]] == items;
    } else {
      var more := PrintItems(items[1..]) + close;
      assert s == Print(items[0]) + (", " + more);
      RoundTrip(items[0], ", " + more);
      ItemsRoundTrip(items[1..], rest);
      MoreItems(s, items[0], more, items[1..], rest);
      assert [items[0]] + items[1..] == items;
    }
  }

  lemma DictRoundTrip(entries: seq<Item>, rest: string)
    requires Printable(Dict(entries)) && !StartsWithDigit(rest)
    ensures Parse(Print(Dict(entries)) + rest) == Some((Dict(entries), rest))
    decreases entries, 1
  {
    hide PrintEntries, ParseEntries;
    var s := Print(Dict(entries)) + rest;
    var inner := PrintEntries(entries) + ("}" + rest);
    assert s[0] == '{' && s[1..] == inner;
    if entries == [] {
      NoEntries();
      assert inner == "}" + rest && s[2..] == rest;
    } else {
      FirstOfEntries(entries);
      assert inner[0] == entries[0].key[0];
      EntriesRoundTrip(entries, rest);
    }
  }

  lemma NoEntries()
    ensures PrintEntries([]) == ""
  {
  }

  lemma FirstOfEntries(entries: seq<Item>)
    requires entries != [] && entries[0].key != ""
    ensures PrintEntries(entries) != "" && PrintEntries(entries)[0] == entries[0].key[0]
  {
    assert PrintEntry(entries[0])[0] == entries[0].key[0];
  }

  /** Printed entries, with the separators regrouped the way the parser meets them. */
  lemma EntriesRegrouped(entries: seq<Item>, close: string)
    requires entries != []
    ensures var e := entries[0];
            var tail := if |entries| == 1 then close else ", " + (PrintEntries(entries[1..]) + close);
            PrintEntries(entries) + close == e.key + (": " + (Print(e.value) + tail))
  {
    hide Print, PrintEntries, PrintEntry;
    var e := entries[0];
    EntryUnfolds(e);
    EntriesUnfold(entries);
    if |entries| == 1 {
      Regroup(e.key, ": ", Print(e.value), close);
    } else {
      Regroup(PrintEntry(e), ", ", PrintEntries(entries[1..]), close);
      Regroup(e.key, ": ", Print(e.value), ", " + (PrintEntries(entries[1..]) + close));
    }
  }

  lemma Regroup(a: string, b: string, c: string, d: string)
    ensures (a + (b + c)) + d == a + (b + (c + d))
  {
  }

  lemma EntryUnfolds(e: Item)
    ensures PrintEntry(e) == e.key + (": " + Print(e.value))
  {
    hide Print;
  }

  lemma EntriesUnfold(entries: seq<Item>)
    requires entries != []
    ensures PrintEntries(entries)
            == if |entries| == 1 then PrintEntry(entries[0]) else PrintEntry(entries[0]) + (", " + PrintEntries(entries[1..]))
  {
    hide PrintEntry, Print;
  }

  lemma LastEntry(key: string, text: string, v: Value, rest: string)
    requires Identifier(key) && Parse(text) == Some((v, "}" + rest))
    ensures ParseEntries(key + (": " + text)) == Some(([Item(key, v)], rest))
  {
    hide Parse;
    KeySpanIs(key, text);
    KeySplit(key, text);
    hide KeySpan;
    assert ("}" + rest)[1..] == rest;
  }

  lemma MoreEntries(key: string, text: string, v: Value, more: string, entries: seq<Item>, rest: string)
    requires Identifier(key) && Parse(text) == Some((v, ", " + more)) && ParseEntries(more) == Some((entries, rest))
    ensures ParseEntries(key + (": " + text)) == Some(([Item(key, v)] + entries, rest))
  {
    hide Parse;
    KeySpanIs(key, text);
    KeySplit(key, text);
    hide KeySpan;
    Separator(more);
  }

  lemma KeySplit(key: string, text: string)
    ensures (key + (": " + text))[..|key|] == key
    ensures (key + (": " + text))[|key|..] == ": " + text
    ensures (key + (": " + text))[|key| + 2..] == text
  {
  }

  lemma {:induction false} EntriesRoundTrip(entries: seq<Item>, rest: string)
    requires entries != [] && forall i | 0 <= i < |entries| :: Identifier(entries[i].key) && Printable(entries[i].value)
    ensures ParseEntries(PrintEntries(entries) + ("}" + rest)) == Some((entries, rest))
    decreases entries, 0
  {
    hide Parse, ParseEntries, Print, PrintEntries;
    var close := "}" + rest;
    EntriesRegrouped(entries, close);
    var e, s := entries[0], PrintEntries(entries) + close;
    if |entries| == 1 {
      RoundTrip(e.value, close);
      LastEntry(e.key, Print(e.value) + close, e.value, rest);
      assert [e] == entries;
    } else {
      var more := PrintEntries(entries[1..]) + close;
      var tail := ", " + more;
      RoundTrip(e.value, tail);
      EntriesRoundTrip(entries[1..], rest);
      MoreEntries(e.key, Print(e.value) + tail, e.value, more, entries[1..], rest);
      assert [e] + entries[1..] == entries;
    }
  }

  /** Different values never print alike, and no printed value is a proper beginning of another that
      goes on with anything but a digit. */
  lemma UniquelyDecodable(v: Value, w: Value, restV: string, restW: string)
    requires Printable(v) && Printable(w) && !StartsWithDigit(restV) && !StartsWithDigit(restW)
    requires Print(v) + restV == Print(w) + restW
    ensures v == w && restV == restW
  {
    RoundTrip(v, restV);
    RoundTrip(w, restW);
  }

  /** Keys are printed raw, so one that is not an identifier can read as several entries. */
  lemma RawKeysAreAmbiguous(a: string, b: string)
    ensures var one, two := Dict([Item(a + (": null, " + b), Null)]), Dict([Item(a, Null), Item(b, Null)]);
            Print(one) == Print(two) && one != two && !Printable(one)
  {
    var one, two := [Item(a + (": null, " + b), Null)], [Item(a, Null), Item(b, Null)];
    RawKeyPrintsAlike(a, b);
    RawKeyIsNoIdentifier(a, b);
    assert |one| != |two|;
    hide PrintEntries, Identifier;
    assert Print(Dict(one)) == Print(Dict(two));
    assert !Identifier(one[0].key);
  }

  lemma RawKeyIsNoIdentifier(a: string, b: string)
    ensures !Identifier(a + (": null, " + b))
  {
    var key := a + (": null, " + b);
    assert key[|a|] == ':' && !IsLetter(key[|a|]) && !IsDigit(key[|a|]);
  }

  lemma RawKeyPrintsAlike(a: string, b: string)
    ensures PrintEntries([Item(a + (": null, " + b), Null)]) == PrintEntries([Item(a, Null), Item(b, Null)])
  {
    hide PrintEntries, PrintEntry;
    var x, y, z := Item(a, Null), Item(b, Null), Item(a + (": null, " + b), Null);
    assert [x, y][1..] == [y];
    EntriesUnfold([z]);
    EntriesUnfold([y]);
    EntriesUnfold([x, y]);
    EntryUnfolds(x);
    EntryUnfolds(y);
    EntryUnfolds(z);
    assert (a + (": null, " + b)) + (": " + "null") == (a + (": " + "null")) + (", " + (b + (": " + "null")));
  }
}
