/**
 The Server-Sent Events parser of src/realtime.rs (section 9.2.6 of the WHATWG HTML
 standard), and the printer it inverts.
 */
module EventStream {
  import opened Common

  datatype Event = Event(kind: string, data: string, id: string, retry: Option<nat>)

  // ----- lines -----

  /** The first position of `c`, or the length. */
  function IndexOf(s: string, c: char): (k: nat)
    ensures k <= |s| && (k < |s| ==> s[k] == c)
    ensures forall i :: 0 <= i < k ==> s[i] != c
  {
    if s == [] || s[0] == c then 0 else 1 + IndexOf(s[1..], c)
  }

  function ReplaceCrLf(s: string): string {
    if |s| < 2 then s
    else if s[0] == '\r' && s[1] == '\n' then ['\n'] + ReplaceCrLf(s[2..])
    else [s[0]] + ReplaceCrLf(s[1..])
  }

  function ReplaceCr(s: string): string {
    if s == [] then [] else [if s[0] == '\r' then '\n' else s[0]] + ReplaceCr(s[1..])
  }

  /** The pieces between line feeds, without an empty piece at the end. */
  function Lines(s: string): seq<string> {
    if s == [] then []
    else
      var k := IndexOf(s, '\n');
      if k == |s| then [s] else [s[..k]] + Lines(s[k + 1..])
  }

  // ----- fields -----

  datatype Field = Field(name: string, value: string)

  function SplitField(line: string): Field {
    var k := IndexOf(line, ':');
    if k == |line| then Field(line, "")
    else
      var v := line[k + 1..];
      Field(line[..k], if v != [] && v[0] == ' ' then v[1..] else v)
  }

  predicate IsDigit(c: char) { '0' <= c <= '9' }

  function Digit(c: char): nat
    requires IsDigit(c)
  {
    c as int - '0' as int
  }

  function DigitsValue(s: string): nat
    requires forall i :: 0 <= i < |s| ==> IsDigit(s[i])
  {
    if s == [] then 0 else DigitsValue(s[..|s| - 1]) * 10 + Digit(s[|s| - 1])
  }

  function ParseDigits(digits: string): Option<nat> {
    if digits == [] || (exists i :: 0 <= i < |digits| && !IsDigit(digits[i])) then None
    else if DigitsValue(digits) > U64_MAX then None
    else Some(DigitsValue(digits))
  }

  /** Parsing an unsigned 64-bit number: an optional plus sign, then digits, without overflow. */
  function ParseU64(s: string): Option<nat> {
    ParseDigits(if |s| > 0 && s[0] == '+' then s[1..] else s)
  }

  // ----- the parser -----

  function Join(lines: seq<string>): string {
    if lines == [] then [] else if |lines| == 1 then lines[0] else lines[0] + ['\n'] + Join(lines[1..])
  }

  datatype Parser = Parser(events: seq<Event>, data: seq<string>, kind: string, lastId: string, retry: Option<nat>)

  const START := Parser([], [], "", "", None)

  /** What one line does to the accumulators. */
  function Line(p: Parser, line: string): Parser {
    if line == [] then
      Parser(
        if p.data == [] then p.events
        else p.events + [Event(if p.kind == [] then "message" else p.kind, Join(p.data), p.lastId, p.retry)],
        [], "", p.lastId, None)
    else if line[0] == ':' then p
    else
      var f := SplitField(line);
      if f.name == "data" then p.(data := p.data + [f.value])
      else if f.name == "event" then p.(kind := f.value)
      else if f.name == "id" then (if '\0' in f.value then p else p.(lastId := f.value))
      else if f.name == "retry" then p.(retry := ParseU64(f.value))
      else p
  }

  function Feed(p: Parser, lines: seq<string>): Parser
    decreases |lines|
  {
    if lines == [] then p else Feed(Line(p, lines[0]), lines[1..])
  }

  function Parse(input: string): seq<Event> {
    Feed(START, Lines(ReplaceCr(ReplaceCrLf(input))) + [""]).events
  }

  /** The loop of `parse_event_stream`. */
  method ParseEventStream(input: string) returns (events: seq<Event>)
    ensures events == Parse(input)
  {
    var lines := Lines(ReplaceCr(ReplaceCrLf(input))) + [""];
    events := [];
    var data: seq<string>, kind: string, lastId: string, retry: Option<nat> := [], "", "", None;
    for i := 0 to |lines|
      invariant Feed(Parser(events, data, kind, lastId, retry), lines[i..]) == Feed(START, lines)
    {
      var line := lines[i];
      assert lines[i..][0] == line && lines[i..][1..] == lines[i + 1..];
      if line == [] {
        if data != [] {
          events := events + [Event(if kind == [] then "message" else kind, Join(data), lastId, retry)];
        }
        data, kind, retry := [], "", None;
        continue;
      }
      if line[0] == ':' {
        continue;
      }
      var f := SplitField(line);
      if f.name == "data" {
        data := data + [f.value];
      } else if f.name == "event" {
        kind := f.value;
      } else if f.name == "id" && '\0' !in f.value {
        lastId := f.value;
      } else if f.name == "retry" {
        retry := ParseU64(f.value);
      }
    }
  }

  // ----- the printer -----

  function Decimal(n: nat): string {
    if n < 10 then ["0123456789"[n]] else Decimal(n / 10) + ["0123456789"[n % 10]]
  }

  /** All pieces between line feeds, empty ones included. */
  function Split(s: string): seq<string> {
    var k := IndexOf(s, '\n');
    if k == |s| then [s] else [s[..k]] + Split(s[k + 1..])
  }

  function FieldLine(name: string, value: string): string { name + ": " + value }

  function DataLines(parts: seq<string>): seq<string> {
    if parts == [] then [] else [FieldLine("data", parts[0])] + DataLines(parts[1..])
  }

  function EventLines(e: Event): seq<string> {
    [FieldLine("id", e.id), FieldLine("event", e.kind)] + DataLines(Split(e.data)) +
    (if e.retry.Some? then [FieldLine("retry", Decimal(e.retry.value))] else []) + [""]
  }

  function AllLines(es: seq<Event>): seq<string> {
    if es == [] then [] else EventLines(es[0]) + AllLines(es[1..])
  }

  function Unlines(lines: seq<string>): string {
    if lines == [] then [] else lines[0] + "\n" + Unlines(lines[1..])
  }

  function Print(es: seq<Event>): string { Unlines(AllLines(es)) }

  /** What a stream of events can carry. */
  ghost predicate Printable(e: Event) {
    && '\r' !in e.data
    && e.kind != [] && '\r' !in e.kind && '\n' !in e.kind
    && '\r' !in e.id && '\n' !in e.id && '\0' !in e.id
    && (e.retry.Some? ==> e.retry.value <= U64_MAX)
  }

  ghost predicate AllPrintable(es: seq<Event>) {
    es == [] || (Printable(es[0]) && AllPrintable(es[1..]))
  }

  // ----- fields and numbers round-trip -----

  lemma {:induction false} IndexOfAfter(s: string, c: char, rest: string)
    requires c !in s
    ensures IndexOf(s + [c] + rest, c) == |s|
  {
    if s == [] {
      assert (s + [c] + rest)[0] == c;
    } else {
      assert (s + [c] + rest)[1..] == s[1..] + [c] + rest;
      IndexOfAfter(s[1..], c, rest);
    }
  }

  lemma FieldLineSplits(name: string, value: string)
    requires name != [] && ':' !in name
    ensures FieldLine(name, value) != [] && FieldLine(name, value)[0] != ':'
    ensures SplitField(FieldLine(name, value)) == Field(name, value)
  {
    var line := FieldLine(name, value);
    assert line == name + [':'] + ([' '] + value);
    IndexOfAfter(name, ':', [' '] + value);
    assert line[|name| + 1..] == [' '] + value;
    assert line[..|name|] == name;
  }

  lemma {:induction false} DecimalRoundTrip(n: nat)
    ensures Decimal(n) != [] && forall i :: 0 <= i < |Decimal(n)| ==> IsDigit(Decimal(n)[i])
    ensures DigitsValue(Decimal(n)) == n
  {
    if n >= 10 {
      DecimalRoundTrip(n / 10);
      assert Decimal(n)[..|Decimal(n)| - 1] == Decimal(n / 10);
    } else {
      assert Decimal(n)[..0] == [];
    }
  }

  lemma JoinCons(first: string, rest: seq<string>)
    requires rest != []
    ensures Join([first] + rest) == first + ['\n'] + Join(rest)
  {
    assert ([first] + rest)[1..] == rest;
  }

  lemma CutAt(s: string, k: nat)
    requires k < |s|
    ensures s == s[..k] + [s[k]] + s[k + 1..]
  {
  }

  lemma {:induction false} SplitJoin(s: string)
    ensures Split(s) != [] && Join(Split(s)) == s
  {
    var k := IndexOf(s, '\n');
    if k < |s| {
      SplitJoin(s[k + 1..]);
      JoinCons(s[..k], Split(s[k + 1..]));
      CutAt(s, k);
    }
  }

  lemma {:induction false} SplitIsPlain(s: string)
    requires '\r' !in s
    ensures Plain(Split(s))
  {
    var k := IndexOf(s, '\n');
    if k < |s| {
      SplitIsPlain(s[k + 1..]);
      PlainConcat([s[..k]], Split(s[k + 1..]));
    }
  }

  // ----- feeding printed lines -----

  lemma {:induction false} FeedConcat(p: Parser, a: seq<string>, b: seq<string>)
    ensures Feed(p, a + b) == Feed(Feed(p, a), b)
    decreases |a|
  {
    if a == [] {
      assert a + b == b;
    } else {
      assert (a + b)[1..] == a[1..] + b;
      FeedConcat(Line(p, a[0]), a[1..], b);
    }
  }

  lemma FeedOne(p: Parser, line: string)
    ensures Feed(p, [line]) == Line(p, line)
  {
    assert [line][1..] == [];
  }

  lemma DataLine(p: Parser, part: string)
    ensures Line(p, FieldLine("data", part)) == p.(data := p.data + [part])
  {
    FieldLineSplits("data", part);
  }

  lemma {:induction false} FeedData(p: Parser, parts: seq<string>)
    ensures Feed(p, DataLines(parts)) == p.(data := p.data + parts)
    decreases |parts|
  {
    if parts == [] {
      assert p.data + parts == p.data;
    } else {
      DataLine(p, parts[0]);
      FeedData(p.(data := p.data + [parts[0]]), parts[1..]);
      FeedConcat(p, [FieldLine("data", parts[0])], DataLines(parts[1..]));
      FeedOne(p, FieldLine("data", parts[0]));
      assert p.data + [parts[0]] + parts[1..] == p.data + parts;
    }
  }

  lemma FeedHead(p: Parser, e: Event)
    requires '\0' !in e.id
    ensures Feed(p, [FieldLine("id", e.id)] + [FieldLine("event", e.kind)]) == p.(lastId := e.id, kind := e.kind)
  {
    FieldLineSplits("id", e.id);
    FieldLineSplits("event", e.kind);
    FeedConcat(p, [FieldLine("id", e.id)], [FieldLine("event", e.kind)]);
    FeedOne(p, FieldLine("id", e.id));
    FeedOne(p.(lastId := e.id), FieldLine("event", e.kind));
  }

  lemma FeedRetry(p: Parser, n: nat)
    requires n <= U64_MAX
    ensures Feed(p, [FieldLine("retry", Decimal(n))]) == p.(retry := Some(n))
  {
    DecimalRoundTrip(n);
    FieldLineSplits("retry", Decimal(n));
    assert IsDigit(Decimal(n)[0]);
    assert ParseU64(Decimal(n)) == Some(n);
    FeedOne(p, FieldLine("retry", Decimal(n)));
  }

  /** From between two events, the lines of one event add exactly that event. */
  lemma FeedEvent(events: seq<Event>, lastId: string, e: Event)
    requires Printable(e)
    ensures Feed(Parser(events, [], "", lastId, None), EventLines(e)) == Parser(events + [e], [], "", e.id, None)
  {
    var p0 := Parser(events, [], "", lastId, None);
    var head := [FieldLine("id", e.id)] + [FieldLine("event", e.kind)];
    var parts := Split(e.data);
    var retry := if e.retry.Some? then [FieldLine("retry", Decimal(e.retry.value))] else [];
    assert EventLines(e) == head + DataLines(parts) + retry + [""];
    FeedHead(p0, e);
    var p1 := p0.(lastId := e.id, kind := e.kind);
    SplitJoin(e.data);
    FeedData(p1, parts);
    assert [] + parts == parts;
    var p2 := p1.(data := parts);
    if e.retry.Some? {
      FeedRetry(p2, e.retry.value);
    }
    var p3 := p2.(retry := e.retry);
    FeedOne(p3, "");
    FeedConcat(p0, head, DataLines(parts));
    FeedConcat(p0, head + DataLines(parts), retry);
    FeedConcat(p0, head + DataLines(parts) + retry, [""]);
  }

  lemma FeedEventThen(events: seq<Event>, lastId: string, e: Event, more: seq<string>)
    requires Printable(e)
    ensures Feed(Parser(events, [], "", lastId, None), EventLines(e) + more) ==
            Feed(Parser(events + [e], [], "", e.id, None), more)
  {
    FeedEvent(events, lastId, e);
    FeedConcat(Parser(events, [], "", lastId, None), EventLines(e), more);
  }

  lemma FeedFirst(events: seq<Event>, lastId: string, es: seq<Event>)
    requires es != [] && Printable(es[0])
    ensures Feed(Parser(events, [], "", lastId, None), AllLines(es)) ==
            Feed(Parser(events + [es[0]], [], "", es[0].id, None), AllLines(es[1..]))
  {
    FeedEventThen(events, lastId, es[0], AllLines(es[1..]));
  }

  lemma TakeFirst(events: seq<Event>, es: seq<Event>)
    requires es != []
    ensures (events + [es[0]]) + es[1..] == events + es
  {
  }

  lemma {:induction false} FeedAll(events: seq<Event>, lastId: string, es: seq<Event>)
    requires AllPrintable(es)
    ensures var p := Feed(Parser(events, [], "", lastId, None), AllLines(es));
      p.events == events + es && p.data == []
    decreases |es|
  {
    if es == [] {
      assert events + es == events;
    } else {
      FeedFirst(events, lastId, es);
      FeedAll(events + [es[0]], es[0].id, es[1..]);
      TakeFirst(events, es);
    }
  }

  // ----- printed lines are the lines of the printed text -----

  lemma {:induction false} LinesOfUnlines(lines: seq<string>)
    requires forall i :: 0 <= i < |lines| ==> '\n' !in lines[i]
    ensures Lines(Unlines(lines)) == lines
  {
    if lines != [] {
      var first, rest := lines[0], Unlines(lines[1..]);
      IndexOfAfter(first, '\n', rest);
      assert first + "\n" + rest == first + ['\n'] + rest;
      assert (first + ['\n'] + rest)[|first| + 1..] == rest && (first + ['\n'] + rest)[..|first|] == first;
      LinesOfUnlines(lines[1..]);
    }
  }

  ghost predicate Plain(lines: seq<string>) {
    forall i :: 0 <= i < |lines| ==> '\n' !in lines[i] && '\r' !in lines[i]
  }

  lemma PlainConcat(a: seq<string>, b: seq<string>)
    requires Plain(a) && Plain(b)
    ensures Plain(a + b)
  {
  }

  lemma FieldLinePlain(name: string, value: string)
    requires Plain([name]) && Plain([value])
    ensures Plain([FieldLine(name, value)])
  {
    assert [name][0] == name && [value][0] == value;
  }

  lemma {:induction false} DataLinesPlain(parts: seq<string>)
    requires Plain(parts)
    ensures Plain(DataLines(parts))
  {
    if parts != [] {
      DataLinesPlain(parts[1..]);
      FieldLinePlain("data", parts[0]);
      PlainConcat([FieldLine("data", parts[0])], DataLines(parts[1..]));
    }
  }

  lemma EventLinesPlain(e: Event)
    requires Printable(e)
    ensures Plain(EventLines(e))
  {
    SplitIsPlain(e.data);
    DataLinesPlain(Split(e.data));
    FieldLinePlain("id", e.id);
    FieldLinePlain("event", e.kind);
    var head := [FieldLine("id", e.id)] + [FieldLine("event", e.kind)];
    PlainConcat([FieldLine("id", e.id)], [FieldLine("event", e.kind)]);
    PlainConcat(head, DataLines(Split(e.data)));
    var retry := if e.retry.Some? then [FieldLine("retry", Decimal(e.retry.value))] else [];
    if e.retry.Some? {
      DecimalRoundTrip(e.retry.value);
      FieldLinePlain("retry", Decimal(e.retry.value));
    }
    PlainConcat(head + DataLines(Split(e.data)), retry);
    PlainConcat(head + DataLines(Split(e.data)) + retry, [""]);
    assert EventLines(e) == head + DataLines(Split(e.data)) + retry + [""];
  }

  lemma {:induction false} AllLinesPlain(es: seq<Event>)
    requires AllPrintable(es)
    ensures Plain(AllLines(es))
  {
    if es != [] {
      EventLinesPlain(es[0]);
      AllLinesPlain(es[1..]);
      PlainConcat(EventLines(es[0]), AllLines(es[1..]));
    }
  }

  lemma {:induction false} UnlinesHasNoCr(lines: seq<string>)
    requires Plain(lines)
    ensures '\r' !in Unlines(lines)
  {
    if lines != [] {
      UnlinesHasNoCr(lines[1..]);
    }
  }

  // ----- line endings -----

  /** Every line feed replaced by `ending`. */
  function Reline(s: string, ending: string): string {
    if s == [] then [] else (if s[0] == '\n' then ending else [s[0]]) + Reline(s[1..], ending)
  }

  lemma {:induction false} PlainStays(s: string)
    requires '\r' !in s
    ensures ReplaceCrLf(s) == s && ReplaceCr(s) == s
  {
    if s != [] {
      PlainStays(s[1..]);
      assert [s[0]] + s[1..] == s;
    }
  }

  lemma {:induction false} CrLfNormalizes(s: string)
    requires '\r' !in s
    ensures ReplaceCrLf(Reline(s, "\r\n")) == s
    ensures s != [] ==> Reline(s, "\r\n") != [] && (Reline(s, "\r\n")[0] == '\r' || Reline(s, "\r\n")[0] == s[0])
  {
    if s != [] {
      CrLfNormalizes(s[1..]);
      var t := Reline(s[1..], "\r\n");
      if s[0] == '\n' {
        assert ("\r\n" + t)[2..] == t;
      } else {
        assert ([s[0]] + t)[1..] == t;
      }
      assert [s[0]] + s[1..] == s;
    }
  }

  lemma {:induction false} CrNormalizes(s: string)
    requires '\r' !in s
    ensures ReplaceCr(ReplaceCrLf(Reline(s, "\r"))) == s
    ensures '\n' !in Reline(s, "\r") && |Reline(s, "\r")| == |s|
  {
    if s != [] {
      CrNormalizes(s[1..]);
      var t := Reline(s[1..], "\r");
      var c := if s[0] == '\n' then '\r' else s[0];
      assert Reline(s, "\r") == [c] + t && ([c] + t)[1..] == t;
      assert ReplaceCrLf([c] + t) == [c] + ReplaceCrLf(t);
      assert ([c] + ReplaceCrLf(t))[1..] == ReplaceCrLf(t);
      assert [s[0]] + s[1..] == s;
    }
  }

  // ----- the theorems -----

  /** Parsing a printed stream returns exactly the events printed. */
  lemma PrintParse(es: seq<Event>)
    requires AllPrintable(es)
    ensures Parse(Print(es)) == es
  {
    var lines := AllLines(es);
    AllLinesPlain(es);
    UnlinesHasNoCr(lines);
    PlainStays(Print(es));
    LinesOfUnlines(lines);
    FeedConcat(START, lines, [""]);
    FeedAll([], "", es);
    FeedOne(Feed(START, lines), "");
    assert [] + es == es;
  }

  /** A stream without carriage returns reads the same with CRLF or CR line endings. */
  lemma LineEndingsDoNotMatter(s: string)
    requires '\r' !in s
    ensures Parse(Reline(s, "\r\n")) == Parse(s) && Parse(Reline(s, "\r")) == Parse(s)
  {
    PlainStays(s);
    CrLfNormalizes(s);
    CrNormalizes(s);
  }

  /** Both together: a list of events survives printing with any of the three line endings. */
  lemma PrintParseAnyEnding(es: seq<Event>, ending: string)
    requires AllPrintable(es)
    requires ending == "\n" || ending == "\r\n" || ending == "\r"
    ensures Parse(Reline(Print(es), ending)) == es
  {
    PrintParse(es);
    AllLinesPlain(es);
    UnlinesHasNoCr(AllLines(es));
    if ending == "\n" {
      RelineSame(Print(es));
    } else {
      LineEndingsDoNotMatter(Print(es));
    }
  }

  lemma {:induction false} RelineSame(s: string)
    ensures Reline(s, "\n") == s
  {
    if s != [] {
      RelineSame(s[1..]);
    }
  }

  // ----- streams that were not printed -----

  /** Parsing a text of plain lines is feeding the lines, and one empty line at the end. */
  lemma ParseOfLines(lines: seq<string>)
    requires Plain(lines)
    ensures Parse(Unlines(lines)) == Feed(START, lines + [""]).events
  {
    UnlinesHasNoCr(lines);
    PlainStays(Unlines(lines));
    LinesOfUnlines(lines);
  }

  ghost predicate KnownField(name: string) { name == "data" || name == "event" || name == "id" || name == "retry" }

  /** A comment, a field of another name, with or without a value, or an identity with a NUL. */
  ghost predicate Ignorable(line: string, name: string, value: string) {
    || line == [':'] + value
    || (name != [] && ':' !in name && !KnownField(name) && (line == name || line == FieldLine(name, value)))
    || (line == FieldLine("id", value) && '\0' in value)
  }

  lemma {:induction false} NoColon(s: string)
    requires ':' !in s
    ensures IndexOf(s, ':') == |s| && SplitField(s) == Field(s, "")
  {
  }

  lemma IgnorableDoesNothing(p: Parser, line: string, name: string, value: string)
    requires Ignorable(line, name, value)
    ensures Line(p, line) == p
  {
    if line == [':'] + value {
      assert line[0] == ':';
    } else if line == FieldLine("id", value) && '\0' in value {
      FieldLineSplits("id", value);
    } else if line == name {
      NoColon(name);
    } else {
      FieldLineSplits(name, value);
    }
  }

  lemma FeedIgnoring(p: Parser, a: seq<string>, line: string, b: seq<string>)
    requires Line(Feed(p, a), line) == Feed(p, a)
    ensures Feed(p, a + ([line] + b)) == Feed(p, a + b)
  {
    FeedConcat(p, a, [line] + b);
    FeedConcat(p, a, b);
    FeedConcat(Feed(p, a), [line], b);
    FeedOne(Feed(p, a), line);
  }

  /** Such a line may stand anywhere in a stream. */
  lemma IgnorableAnywhere(a: seq<string>, b: seq<string>, line: string, name: string, value: string)
    requires Plain(a) && Plain(b) && Plain([line]) && Ignorable(line, name, value)
    ensures Parse(Unlines(a + [line] + b)) == Parse(Unlines(a + b))
  {
    assert Plain(a + [line] + b) by {
      PlainConcat(a, [line]);
      PlainConcat(a + [line], b);
    }
    PlainConcat(a, b);
    ParseOfLines(a + [line] + b);
    ParseOfLines(a + b);
    IgnorableDoesNothing(Feed(START, a), line, name, value);
    FeedIgnoring(START, a, line, b + [""]);
    Regroup(a, line, b, "");
  }

  lemma Regroup(a: seq<string>, line: string, b: seq<string>, last: string)
    ensures a + [line] + b + [last] == a + ([line] + (b + [last])) && a + b + [last] == a + (b + [last])
  {
  }

  /** The space after the colon may be left out before a value that does not begin with one, and so may the colon before none. */
  lemma SpaceIsOptional(p: Parser, name: string, value: string)
    requires name != [] && ':' !in name && (value == [] || value[0] != ' ')
    ensures Line(p, name + [':'] + value) == Line(p, FieldLine(name, value))
    ensures Line(p, name) == Line(p, FieldLine(name, ""))
  {
    FieldLineSplits(name, value);
    FieldLineSplits(name, "");
    NoColon(name);
    var line := name + [':'] + value;
    IndexOfAfter(name, ':', value);
    assert line[|name| + 1..] == value && line[..|name|] == name;
  }

  /** Lines of data alone, even without an empty line behind them, are an event of type "message". */
  lemma UntypedIsMessage(data: string)
    requires '\r' !in data
    ensures Parse(Unlines(DataLines(Split(data)))) == [Event("message", data, "", None)]
  {
    var lines := DataLines(Split(data));
    SplitIsPlain(data);
    DataLinesPlain(Split(data));
    ParseOfLines(lines);
    SplitJoin(data);
    FeedData(START, Split(data));
    assert [] + Split(data) == Split(data);
    FeedConcat(START, lines, [""]);
    FeedOne(START.(data := Split(data)), "");
    assert START.events + [Event("message", data, "", None)] == [Event("message", data, "", None)];
  }

  /** One more empty line at the end of a stream makes no difference. */
  lemma LastLineIsOptional(lines: seq<string>)
    requires Plain(lines)
    ensures Parse(Unlines(lines + [""])) == Parse(Unlines(lines))
  {
    var p := Feed(START, lines);
    PlainConcat(lines, [""]);
    ParseOfLines(lines + [""]);
    ParseOfLines(lines);
    FeedConcat(START, lines + [""], [""]);
    FeedConcat(START, lines, [""]);
    FeedOne(p, "");
    FeedOne(Line(p, ""), "");
  }

  /** Without data nothing is dispatched; the type and the retry time are forgotten and the identity is kept. */
  lemma NoDataNoEvent(p: Parser, kind: string, id: string, n: nat)
    requires p.data == [] && '\0' !in id && n <= U64_MAX
    ensures Feed(p, [FieldLine("id", id)] + [FieldLine("event", kind)] + [FieldLine("retry", Decimal(n))] + [""]) ==
            Parser(p.events, [], "", id, None)
  {
    var head := [FieldLine("id", id)] + [FieldLine("event", kind)];
    var e := Event(kind, "", id, None);
    FeedHead(p, e);
    var q := p.(lastId := id, kind := kind);
    FeedRetry(q, n);
    FeedConcat(p, head, [FieldLine("retry", Decimal(n))]);
    FeedConcat(p, head + [FieldLine("retry", Decimal(n))], [""]);
    FeedOne(q.(retry := Some(n)), "");
  }

  lemma RetryLine(p: Parser, value: string)
    ensures Line(p, FieldLine("retry", value)) == p.(retry := ParseU64(value))
  {
    FieldLineSplits("retry", value);
  }

  /** A retry time that is no number, or too large, is forgotten; a plus sign is allowed. */
  lemma RetryIsANumber(p: Parser, value: string, n: nat, i: nat)
    ensures 0 < i < |value| && !IsDigit(value[i]) ==> Line(p, FieldLine("retry", value)) == p.(retry := None)
    ensures n > U64_MAX ==> Line(p, FieldLine("retry", Decimal(n))) == p.(retry := None)
    ensures n <= U64_MAX ==> Line(p, FieldLine("retry", ['+'] + Decimal(n))) == p.(retry := Some(n))
    ensures Line(p, FieldLine("retry", "")) == p.(retry := None)
  {
    RetryLine(p, value);
    RetryLine(p, Decimal(n));
    RetryLine(p, ['+'] + Decimal(n));
    RetryLine(p, "");
    Numbers(n);
    if 0 < i < |value| && !IsDigit(value[i]) {
      NotANumber(value, i);
    }
  }

  lemma Numbers(n: nat)
    ensures ParseU64(Decimal(n)) == ParseU64(['+'] + Decimal(n)) == (if n > U64_MAX then None else Some(n))
    ensures ParseU64("") == None
  {
    DecimalRoundTrip(n);
    assert IsDigit(Decimal(n)[0]);
    assert (['+'] + Decimal(n))[1..] == Decimal(n);
  }

  lemma NotANumber(value: string, i: nat)
    requires 0 < i < |value| && !IsDigit(value[i])
    ensures ParseU64(value) == None
  {
    if value[0] == '+' {
      assert !IsDigit(value[1..][i - 1]);
    }
  }
}
