/**
 Message reassembly of src/realtime.rs: `read_message` joins data frames, answers
 pings and skips pongs until a message or a close frame is complete.
 */
module Messages {
  import opened Common
  import opened Frames

  /** Text is kept as its bytes; `reason` are the bytes behind the close code. */
  datatype Message = TextMessage(bytes: seq<byte>) | BinaryMessage(bytes: seq<byte>) | Closed(code: nat, reason: seq<byte>)

  type Utf8 = seq<byte> -> bool

  function CloseMessage(payload: seq<byte>): Message {
    Closed(if |payload| >= 2 then FromBigEndian(payload[..2]) else 1005, if |payload| >= 2 then payload[2..] else [])
  }

  /** The end of `read_message`, once the last fragment has been joined. */
  function Finish(utf8: Utf8, opcode: Option<Opcode>, payload: seq<byte>): Result<Message, Error> {
    match opcode
    case Some(Text) => if utf8(payload) then Ok(TextMessage(payload)) else Err(InvalidTextFrame)
    case Some(Binary) => Ok(BinaryMessage(payload))
    case _ => Err(MissingMessageOpcode)
  }

  /** The results of successive calls until the frames run out, and every pong sent on the way. */
  datatype Session = Session(results: seq<Result<Message, Error>>, pongs: seq<seq<byte>>)

  // ----- well-formed streams -----

  /** A message and how its payload is cut into fragments, at least one. */
  datatype Fragmented = Fragmented(text: bool, first: seq<byte>, more: seq<seq<byte>>) {
    function Kind(): Opcode { if text then Text else Binary }
  }

  function Join(parts: seq<seq<byte>>): seq<byte> {
    if parts == [] then [] else parts[0] + Join(parts[1..])
  }

  function ContinuationFrames(parts: seq<seq<byte>>): seq<Frame> {
    if parts == [] then [] else [Frame(|parts| == 1, Continuation, parts[0])] + ContinuationFrames(parts[1..])
  }

  /** Section 5.4 of RFC 6455: the opcode on the first frame, FIN on the last, continuations after the first. */
  function FragmentFrames(m: Fragmented): seq<Frame> {
    [Frame(m.more == [], m.Kind(), m.first)] + ContinuationFrames(m.more)
  }

  function AllFragments(ms: seq<Fragmented>): seq<Frame> {
    if ms == [] then [] else FragmentFrames(ms[0]) + AllFragments(ms[1..])
  }

  /** What the receiver is meant to see of a payload in one piece. */
  function Delivered(utf8: Utf8, text: bool, payload: seq<byte>): Result<Message, Error> {
    if !text then Ok(BinaryMessage(payload))
    else if utf8(payload) then Ok(TextMessage(payload))
    else Err(InvalidTextFrame)
  }

  function Whole(utf8: Utf8, m: Fragmented): Result<Message, Error> {
    Delivered(utf8, m.text, m.first + Join(m.more))
  }

  function Wholes(utf8: Utf8, ms: seq<Fragmented>): seq<Result<Message, Error>> {
    if ms == [] then [] else [Whole(utf8, ms[0])] + Wholes(utf8, ms[1..])
  }

  function DataFrames(frames: seq<Frame>): seq<Frame> {
    if frames == [] then []
    else (if frames[0].opcode in {Ping, Pong} then [] else [frames[0]]) + DataFrames(frames[1..])
  }

  function PingPayloads(frames: seq<Frame>): seq<seq<byte>> {
    if frames == [] then []
    else (if frames[0].opcode == Ping then [frames[0].payload] else []) + PingPayloads(frames[1..])
  }

  lemma ConsInjective<T>(x: T, xs: seq<T>, y: T, ys: seq<T>)
    requires [x] + xs == [y] + ys
    ensures x == y && xs == ys
  {
    assert ([x] + xs)[0] == x && ([x] + xs)[1..] == xs;
    assert ([y] + ys)[0] == y && ([y] + ys)[1..] == ys;
  }

  /** The error that ends a stream is never one of a single call or message. */
  lemma {:induction false} StreamErrorsAreNotTextErrors(all: seq<byte>)
    ensures ParseStream(all).error != InvalidTextFrame && ParseStream(all).error != Io
    decreases |all|
  {
    if Decide(all).Got? {
      DecideIsPrefixStable(all, []);
      StreamErrorsAreNotTextErrors(Decide(all).rest);
    }
  }

  // ----- calls, failing ones included -----

  /**
   What a call meets: a frame, with whether a pong to it can be written (which matters for
   pings only), or a read that fails.
   */
  datatype Item = Arrived(frame: Frame, answerable: bool) | Failure

  datatype Effect = Continue(opcode: Option<Opcode>, payload: seq<byte>, pongs: seq<seq<byte>>) | Return(result: Result<Message, Error>)

  /** One turn of the loop of `read_message`; a failing read or write ends the call. */
  function React(utf8: Utf8, item: Item, opcode: Option<Opcode>, payload: seq<byte>): Effect {
    match item
    case Failure => Return(Err(Io))
    case Arrived(f, answerable) =>
      match f.opcode
      case Ping => if answerable then Continue(opcode, payload, [f.payload]) else Return(Err(Io))
      case Pong => Continue(opcode, payload, [])
      case Close => Return(Ok(CloseMessage(f.payload)))
      case Continuation =>
        if opcode.None? then Return(Err(UnexpectedContinuation))
        else if f.fin then Return(Finish(utf8, opcode, payload + f.payload))
        else Continue(opcode, payload + f.payload, [])
      case _ =>
        if f.fin then Return(Finish(utf8, Some(f.opcode), payload + f.payload))
        else Continue(Some(f.opcode), payload + f.payload, [])
  }

  /** `more` tells whether the call returned before the items ran out. */
  datatype Call = Call(result: Result<Message, Error>, rest: seq<Item>, pongs: seq<seq<byte>>, more: bool)

  /** One `read_message` over the items still to come. */
  function ReadItems(utf8: Utf8, items: seq<Item>, error: Error, opcode: Option<Opcode>, payload: seq<byte>): (c: Call)
    ensures c.more ==> |c.rest| < |items|
  {
    if items == [] then Call(Err(error), [], [], false)
    else
      match React(utf8, items[0], opcode, payload)
      case Return(result) => Call(result, items[1..], [], true)
      case Continue(o, p, pongs) =>
        var c := ReadItems(utf8, items[1..], error, o, p);
        c.(pongs := pongs + c.pongs)
  }

  /** Successive calls until the items run out; each starts with nothing joined. */
  ghost function CallAll(utf8: Utf8, items: seq<Item>, error: Error): Session
    decreases |items|
  {
    var c := ReadItems(utf8, items, error, None, []);
    if !c.more then Session([c.result], c.pongs)
    else
      var later := CallAll(utf8, c.rest, error);
      Session([c.result] + later.results, c.pongs + later.pongs)
  }

  /** The same, one item at a time. */
  ghost function Flat(utf8: Utf8, items: seq<Item>, error: Error, opcode: Option<Opcode>, payload: seq<byte>): Session
    decreases |items|
  {
    if items == [] then Session([Err(error)], [])
    else
      match React(utf8, items[0], opcode, payload)
      case Return(result) =>
        var later := Flat(utf8, items[1..], error, None, []);
        later.(results := [result] + later.results)
      case Continue(o, p, pongs) =>
        var later := Flat(utf8, items[1..], error, o, p);
        later.(pongs := pongs + later.pongs)
  }

  lemma {:induction false} FlatIsCalls(utf8: Utf8, items: seq<Item>, error: Error, opcode: Option<Opcode>, payload: seq<byte>)
    ensures var c := ReadItems(utf8, items, error, opcode, payload);
      Flat(utf8, items, error, opcode, payload) ==
      if !c.more then Session([c.result], c.pongs)
      else var later := CallAll(utf8, c.rest, error); Session([c.result] + later.results, c.pongs + later.pongs)
    decreases |items|
  {
    if items != [] {
      match React(utf8, items[0], opcode, payload)
      case Return(_) =>
        FlatIsCalls(utf8, items[1..], error, None, []);
        var later := CallAll(utf8, items[1..], error);
        assert [] + later.pongs == later.pongs;
      case Continue(o, p, pongs) =>
        FlatIsCalls(utf8, items[1..], error, o, p);
        var c := ReadItems(utf8, items[1..], error, o, p);
        if c.more {
          Associative(pongs, c.pongs, CallAll(utf8, c.rest, error).pongs);
        }
    }
  }

  function Arrivals(items: seq<Item>): seq<Frame> {
    if items == [] then []
    else if items[0].Arrived? then [items[0].frame] + Arrivals(items[1..])
    else Arrivals(items[1..])
  }

  predicate IsControl(f: Frame) { f.opcode in {Ping, Pong} }

  lemma ArrivalsCons(items: seq<Item>)
    requires items != [] && items[0].Arrived?
    ensures var f, rest := items[0].frame, Arrivals(items[1..]);
      && DataFrames(Arrivals(items)) == (if IsControl(f) then DataFrames(rest) else [f] + DataFrames(rest))
      && PingPayloads(Arrivals(items)) == (if f.opcode == Ping then [f.payload] + PingPayloads(rest) else PingPayloads(rest))
  {
    var f, rest := items[0].frame, Arrivals(items[1..]);
    assert ([f] + rest)[1..] == rest;
    assert [] + DataFrames(rest) == DataFrames(rest) && [] + PingPayloads(rest) == PingPayloads(rest);
  }

  /** The call ends here although its message, if any, does not. */
  predicate Troubled(item: Item) {
    item.Failure? || (item.frame.opcode == Ping && !item.answerable)
  }

  /** No call fails while a fragment is joined; `open` says whether one is at the start. */
  predicate NeverMid(items: seq<Item>, open: bool) {
    items == [] ||
    if Troubled(items[0]) then !open && NeverMid(items[1..], false)
    else NeverMid(items[1..], if IsControl(items[0].frame) then open else !items[0].frame.fin)
  }

  predicate AllAnswered(items: seq<Item>) {
    forall i :: 0 <= i < |items| && items[i].Arrived? && items[i].frame.opcode == Ping ==> items[i].answerable
  }

  /** The results that are not failures of a call. */
  ghost function Quiet(results: seq<Result<Message, Error>>): seq<Result<Message, Error>> {
    if results == [] then []
    else if results[0] == Err(Io) then Quiet(results[1..])
    else [results[0]] + Quiet(results[1..])
  }

  lemma QuietCons(r: Result<Message, Error>, rs: seq<Result<Message, Error>>)
    ensures Quiet([r] + rs) == if r == Err(Io) then Quiet(rs) else [r] + Quiet(rs)
  {
    assert ([r] + rs)[1..] == rs;
  }

  ghost function Expected(utf8: Utf8, ms: seq<Fragmented>, error: Error): seq<Result<Message, Error>> {
    Wholes(utf8, ms) + [Err(error)]
  }

  lemma ExpectedCons(utf8: Utf8, ms: seq<Fragmented>, error: Error)
    requires ms != []
    ensures Expected(utf8, ms, error) == [Whole(utf8, ms[0])] + Expected(utf8, ms[1..], error)
  {
    Associative([Whole(utf8, ms[0])], Wholes(utf8, ms[1..]), [Err(error)]);
  }

  lemma SameHead<T>(x: T, xs: seq<T>, ys: seq<T>)
    ensures [x] + xs == [x] + ys <==> xs == ys
  {
    if [x] + xs == [x] + ys {
      ConsInjective(x, xs, x, ys);
    }
  }

  /** A troubled call is not among the quiet results, and the next one starts with nothing joined. */
  lemma TroubledStep(utf8: Utf8, items: seq<Item>, error: Error, opcode: Option<Opcode>, payload: seq<byte>)
    requires items != [] && Troubled(items[0])
    ensures Quiet(Flat(utf8, items, error, opcode, payload).results) == Quiet(Flat(utf8, items[1..], error, None, []).results)
    ensures DataFrames(Arrivals(items)) == DataFrames(Arrivals(items[1..]))
  {
    QuietCons(Err(Io), Flat(utf8, items[1..], error, None, []).results);
    if items[0].Arrived? {
      ArrivalsCons(items);
    }
  }

  lemma ControlStep(utf8: Utf8, items: seq<Item>, error: Error, opcode: Option<Opcode>, payload: seq<byte>)
    requires items != [] && !Troubled(items[0]) && IsControl(items[0].frame)
    ensures Flat(utf8, items, error, opcode, payload).results == Flat(utf8, items[1..], error, opcode, payload).results
    ensures DataFrames(Arrivals(items)) == DataFrames(Arrivals(items[1..]))
  {
    ArrivalsCons(items);
  }

  /** After a failure in the middle of a message its next fragment is refused. */
  lemma {:induction false} RestIsRefused(utf8: Utf8, items: seq<Item>, error: Error, parts: seq<seq<byte>>, ms: seq<Fragmented>)
    requires parts != [] && DataFrames(Arrivals(items)) == ContinuationFrames(parts) + AllFragments(ms)
    ensures var rs := Quiet(Flat(utf8, items, error, None, []).results); rs != [] && rs[0] == Err(UnexpectedContinuation)
    decreases |items|
  {
    if Troubled(items[0]) {
      TroubledStep(utf8, items, error, None, []);
      RestIsRefused(utf8, items[1..], error, parts, ms);
    } else if IsControl(items[0].frame) {
      ControlStep(utf8, items, error, None, []);
      RestIsRefused(utf8, items[1..], error, parts, ms);
    } else {
      ArrivalsCons(items);
      assert items[0].frame == DataFrames(Arrivals(items))[0] == ContinuationFrames(parts)[0];
      QuietCons(Err(UnexpectedContinuation), Flat(utf8, items[1..], error, None, []).results);
    }
  }

  /** In the middle of a message: it and all that follow arrive as if nothing failed iff no call fails with a fragment joined. */
  lemma {:induction false} HarmlessWithin(utf8: Utf8, items: seq<Item>, error: Error, text: bool, acc: seq<byte>,
                                          parts: seq<seq<byte>>, ms: seq<Fragmented>)
    requires error != Io && parts != [] && DataFrames(Arrivals(items)) == ContinuationFrames(parts) + AllFragments(ms)
    ensures var kind := if text then Text else Binary;
      var expected := [Delivered(utf8, text, acc + Join(parts))] + Expected(utf8, ms, error);
      Quiet(Flat(utf8, items, error, Some(kind), acc).results) == expected <==> NeverMid(items, true)
    decreases |items|, 1
  {
    var kind := if text then Text else Binary;
    var rest := items[1..];
    if Troubled(items[0]) {
      TroubledStep(utf8, items, error, Some(kind), acc);
      RestIsRefused(utf8, rest, error, parts, ms);
    } else if IsControl(items[0].frame) {
      ControlStep(utf8, items, error, Some(kind), acc);
      HarmlessWithin(utf8, rest, error, text, acc, parts, ms);
    } else {
      ArrivalsCons(items);
      var f, tail := items[0].frame, ContinuationFrames(parts[1..]) + AllFragments(ms);
      var first := Frame(|parts| == 1, Continuation, parts[0]);
      Associative([first], ContinuationFrames(parts[1..]), AllFragments(ms));
      ConsInjective(f, DataFrames(Arrivals(rest)), first, tail);
      if |parts| == 1 {
        assert Join(parts) == parts[0] + Join([]) == parts[0];
        assert tail == AllFragments(ms);
        var whole := Finish(utf8, Some(kind), acc + parts[0]);
        QuietCons(whole, Flat(utf8, rest, error, None, []).results);
        SameHead(whole, Quiet(Flat(utf8, rest, error, None, []).results), Expected(utf8, ms, error));
        HarmlessBetween(utf8, rest, error, ms);
      } else {
        HarmlessWithin(utf8, rest, error, text, acc + parts[0], parts[1..], ms);
        Associative(acc, parts[0], Join(parts[1..]));
      }
    }
  }

  lemma {:induction false} HarmlessBetween(utf8: Utf8, items: seq<Item>, error: Error, ms: seq<Fragmented>)
    requires error != Io && DataFrames(Arrivals(items)) == AllFragments(ms)
    ensures Quiet(Flat(utf8, items, error, None, []).results) == Expected(utf8, ms, error) <==> NeverMid(items, false)
    decreases |items|, 0
  {
    if items == [] {
      assert ms == [];
      QuietCons(Err(error), []);
      assert [Err(error)] + [] == [Err(error)] == Expected(utf8, ms, error);
    } else if Troubled(items[0]) {
      TroubledStep(utf8, items, error, None, []);
      HarmlessBetween(utf8, items[1..], error, ms);
    } else if IsControl(items[0].frame) {
      ControlStep(utf8, items, error, None, []);
      HarmlessBetween(utf8, items[1..], error, ms);
    } else {
      ArrivalsCons(items);
      HarmlessFirst(utf8, items, error, ms);
    }
  }

  lemma {:induction false} HarmlessFirst(utf8: Utf8, items: seq<Item>, error: Error, ms: seq<Fragmented>)
    requires error != Io && items != [] && items[0].Arrived? && !IsControl(items[0].frame)
    requires [items[0].frame] + DataFrames(Arrivals(items[1..])) == AllFragments(ms)
    ensures Quiet(Flat(utf8, items, error, None, []).results) == Expected(utf8, ms, error) <==> NeverMid(items, false)
    decreases |items[1..]|, 2
  {
    var f, rest, m := items[0].frame, items[1..], ms[0];
    var first, tail := Frame(m.more == [], m.Kind(), m.first), ContinuationFrames(m.more) + AllFragments(ms[1..]);
    Associative([first], ContinuationFrames(m.more), AllFragments(ms[1..]));
    ConsInjective(f, DataFrames(Arrivals(rest)), first, tail);
    ExpectedCons(utf8, ms, error);
    assert [] + m.first == m.first;
    if m.more == [] {
      assert m.first + Join([]) == m.first;
      assert tail == AllFragments(ms[1..]);
      QuietCons(Whole(utf8, m), Flat(utf8, rest, error, None, []).results);
      SameHead(Whole(utf8, m), Quiet(Flat(utf8, rest, error, None, []).results), Expected(utf8, ms[1..], error));
      HarmlessBetween(utf8, rest, error, ms[1..]);
    } else {
      HarmlessWithin(utf8, rest, error, m.text, m.first, m.more, ms[1..]);
    }
  }

  /** Pings that could be answered, in order. */
  function Answerable(items: seq<Item>): seq<seq<byte>> {
    if items == [] then []
    else if items[0].Arrived? && items[0].frame.opcode == Ping && items[0].answerable then [items[0].frame.payload] + Answerable(items[1..])
    else Answerable(items[1..])
  }

  /**
   Whatever else happens, the pongs written in full are those to the pings that could be
   answered, in order, one each. What of them the peer can decode is `WireDecodes`.
   */
  lemma {:induction false} PongsAlways(utf8: Utf8, items: seq<Item>, error: Error, opcode: Option<Opcode>, payload: seq<byte>)
    ensures Flat(utf8, items, error, opcode, payload).pongs == Answerable(items)
    decreases |items|
  {
    if items != [] {
      match React(utf8, items[0], opcode, payload)
      case Return(_) => PongsAlways(utf8, items[1..], error, None, []);
      case Continue(o, p, _) =>
        PongsAlways(utf8, items[1..], error, o, p);
        assert [] + Answerable(items[1..]) == Answerable(items[1..]);
    }
  }

  lemma {:induction false} AllPongsIff(items: seq<Item>)
    ensures |Answerable(items)| <= |PingPayloads(Arrivals(items))|
    ensures Answerable(items) == PingPayloads(Arrivals(items)) <==> AllAnswered(items)
  {
    if items != [] {
      var item, rest := items[0], items[1..];
      AllPongsIff(rest);
      assert AllAnswered(items) <==> AllAnswered(rest) && !(item.Arrived? && item.frame.opcode == Ping && !item.answerable) by {
        assert items == [item] + rest;
      }
      if item.Arrived? {
        ArrivalsCons(items);
        if item.frame.opcode == Ping {
          SameHead(item.frame.payload, Answerable(rest), PingPayloads(Arrivals(rest)));
        }
      }
    }
  }

  // ----- without failures -----

  /** The frames as calls meet them when nothing fails. */
  function Undisturbed(frames: seq<Frame>): seq<Item> {
    if frames == [] then [] else [Arrived(frames[0], true)] + Undisturbed(frames[1..])
  }

  lemma {:induction false} UndisturbedArrive(frames: seq<Frame>)
    ensures Arrivals(Undisturbed(frames)) == frames && NoTrouble(Undisturbed(frames))
  {
    if frames != [] {
      var rest := Undisturbed(frames[1..]);
      UndisturbedArrive(frames[1..]);
      assert ([Arrived(frames[0], true)] + rest)[1..] == rest;
    }
  }

  predicate NoTrouble(items: seq<Item>) {
    forall i :: 0 <= i < |items| ==> !Troubled(items[i])
  }

  /** Where no call is troubled no fragment is lost and no pong is missing. */
  lemma {:induction false} NoFaultsNoTrouble(items: seq<Item>, open: bool)
    requires NoTrouble(items)
    ensures NeverMid(items, open) && AllAnswered(items)
  {
    if items != [] {
      NoFaultsNoTrouble(items[1..], if IsControl(items[0].frame) then open else !items[0].frame.fin);
      assert items == [items[0]] + items[1..];
    }
  }

  lemma {:induction false} QuietWithoutTrouble(utf8: Utf8, items: seq<Item>, error: Error, opcode: Option<Opcode>, payload: seq<byte>)
    requires NoTrouble(items) && error != Io
    ensures var rs := Flat(utf8, items, error, opcode, payload).results; Quiet(rs) == rs
    decreases |items|
  {
    if items == [] {
      var last: Result<Message, Error> := Err(error);
      QuietCons(last, []);
      assert [last] + [] == [last];
    } else {
      match React(utf8, items[0], opcode, payload)
      case Return(result) =>
        QuietWithoutTrouble(utf8, items[1..], error, None, []);
        QuietCons(result, Flat(utf8, items[1..], error, None, []).results);
      case Continue(o, p, _) => QuietWithoutTrouble(utf8, items[1..], error, o, p);
    }
  }

  /**
   However the payloads are fragmented and whatever pings and pongs are interleaved,
   successive calls return the whole messages in order, and the pongs sent are the
   ping payloads in order, one each. (The condition holds of every stream:
   `StreamErrorsAreNotTextErrors`.)
   */
  lemma FragmentationInvariance(utf8: Utf8, frames: seq<Frame>, error: Error, ms: seq<Fragmented>)
    requires DataFrames(frames) == AllFragments(ms) && error != Io
    ensures CallAll(utf8, Undisturbed(frames), error) == Session(Wholes(utf8, ms) + [Err(error)], PingPayloads(frames))
  {
    var items := Undisturbed(frames);
    UndisturbedArrive(frames);
    NoFaultsNoTrouble(items, false);
    FlatIsCalls(utf8, items, error, None, []);
    HarmlessBetween(utf8, items, error, ms);
    QuietWithoutTrouble(utf8, items, error, None, []);
    PongsAlways(utf8, items, error, None, []);
    AllPongsIff(items);
  }

  /** The number that two bytes spell, the first one high. */
  function Pair(bytes: seq<byte>): nat
    requires |bytes| >= 2
  {
    var high: nat, low: nat := bytes[0], bytes[1];
    256 * high + low
  }

  lemma TwoBytes(bytes: seq<byte>)
    requires |bytes| == 2
    ensures FromBigEndian(bytes) == Pair(bytes)
  {
    assert bytes[..1][..0] == [];
    assert FromBigEndian(bytes[..1]) == bytes[0];
  }

  /** A new data frame in the middle of a message takes over its kind and is joined to it. */
  lemma NewDataFrameJoins(utf8: Utf8, f: Frame, g: Frame, rest: seq<Item>, error: Error)
    requires f.opcode in {Text, Binary} && g.opcode in {Text, Binary} && !f.fin && g.fin
    ensures ReadItems(utf8, [Arrived(f, true), Arrived(g, true)] + rest, error, None, []) ==
            Call(Delivered(utf8, g.opcode == Text, f.payload + g.payload), rest, [], true)
  {
    var items := [Arrived(f, true), Arrived(g, true)] + rest;
    assert items[1..] == [Arrived(g, true)] + rest && items[1..][1..] == rest;
    assert [] + f.payload == f.payload;
  }

  lemma CloseSays(payload: seq<byte>)
    ensures |payload| < 2 ==> CloseMessage(payload) == Closed(1005, [])
    ensures |payload| >= 2 ==> CloseMessage(payload) == Closed(Pair(payload), payload[2..])
  {
    if |payload| >= 2 {
      TwoBytes(payload[..2]);
    }
  }

  lemma {:induction false} ReadsToClose(utf8: Utf8, controls: seq<Item>, close: Item, rest: seq<Item>, error: Error)
    requires NoTrouble(controls) && DataFrames(Arrivals(controls)) == [] && close.Arrived? && close.frame.opcode == Close
    ensures ReadItems(utf8, controls + [close] + rest, error, None, []) ==
            Call(Ok(CloseMessage(close.frame.payload)), rest, PingPayloads(Arrivals(controls)), true)
    decreases |controls|
  {
    var items := controls + [close] + rest;
    if controls == [] {
      assert items[0] == close && items[1..] == rest;
    } else {
      assert items[0] == controls[0] && items[1..] == controls[1..] + [close] + rest;
      ArrivalsCons(controls);
      ReadsToClose(utf8, controls[1..], close, rest, error);
      assert [] + PingPayloads(Arrivals(controls[1..])) == PingPayloads(Arrivals(controls[1..]));
    }
  }

  /** A close frame between messages is returned with its code and reason, after the pings before it have been answered. */
  lemma CloseIsReported(utf8: Utf8, controls: seq<Item>, close: Item, rest: seq<Item>, error: Error)
    requires NoTrouble(controls) && DataFrames(Arrivals(controls)) == [] && close.Arrived? && close.frame.opcode == Close
    ensures var p, c := close.frame.payload, ReadItems(utf8, controls + [close] + rest, error, None, []);
      && c.result == Ok(if |p| < 2 then Closed(1005, []) else Closed(Pair(p), p[2..]))
      && c.rest == rest && c.pongs == PingPayloads(Arrivals(controls)) && c.more
  {
    ReadsToClose(utf8, controls, close, rest, error);
    CloseSays(close.frame.payload);
  }

  /**
   Failing reads and writes on a well-formed stream. The messages are those of the stream
   without failures exactly if no call fails while a fragment is joined; the pongs are,
   exactly if every one could be written.
   */
  lemma FaultsAreHarmlessIff(utf8: Utf8, items: seq<Item>, error: Error, ms: seq<Fragmented>)
    requires DataFrames(Arrivals(items)) == AllFragments(ms) && error != Io
    ensures var s, reference := CallAll(utf8, items, error), CallAll(utf8, Undisturbed(Arrivals(items)), error);
      && reference == Session(Wholes(utf8, ms) + [Err(error)], PingPayloads(Arrivals(items)))
      && (Quiet(s.results) == reference.results <==> NeverMid(items, false))
      && (s.pongs == reference.pongs <==> AllAnswered(items))
      && s.pongs == Answerable(items)
  {
    FragmentationInvariance(utf8, Arrivals(items), error, ms);
    FlatIsCalls(utf8, items, error, None, []);
    HarmlessBetween(utf8, items, error, ms);
    PongsAlways(utf8, items, error, None, []);
    AllPongsIff(items);
  }

  // ----- from the socket -----

  /** What the calls meet on a connection, and the error that ends it. */
  datatype Feed = Feed(items: seq<Item>, error: Error)

  /** Repeated `read_frame`; `sends(k)` says whether the write after `k` others succeeds. */
  ghost function Items(buffer: seq<byte>, chunks: seq<Chunk>, sends: nat -> bool, k: nat): Feed
    decreases |chunks| + |buffer + Bytes(chunks)|
  {
    Shrinks(buffer, chunks);
    var o := ReadFrame(buffer, chunks);
    match o.result
    case Ok(f) =>
      var ping := f.opcode == Ping;
      var later := Items(o.buffer, o.chunks, sends, if ping then k + 1 else k);
      later.(items := [Arrived(f, !ping || sends(k))] + later.items)
    case Err(e) =>
      if e == Io then
        var later := Items(o.buffer, o.chunks, sends, k);
        later.(items := [Failure] + later.items)
      else Feed([], e)
  }

  /** A frame or a failed read makes the connection shorter, even if a read of no bytes is among the chunks. */
  lemma {:induction false} Shrinks(buffer: seq<byte>, chunks: seq<Chunk>)
    ensures var o := ReadFrame(buffer, chunks);
      o.result.Ok? || o.result == Err(Io) ==> |o.chunks| + |o.buffer + Bytes(o.chunks)| < |chunks| + |buffer + Bytes(chunks)|
    decreases |chunks|
  {
    if !Decide(buffer).Undecided? {
      DecideIsPrefixStable(buffer, []);
    } else if chunks != [] && chunks[0].Data? && chunks[0].bytes != [] {
      Shrinks(buffer + chunks[0].bytes, chunks[1..]);
    }
  }

  /** Whatever fails, the frames that arrive and the final error are those of the whole stream. */
  lemma {:induction false} ItemsAreTheStream(buffer: seq<byte>, chunks: seq<Chunk>, sends: nat -> bool, k: nat)
    requires Flowing(chunks)
    ensures var feed := Items(buffer, chunks, sends, k);
      ParseStream(buffer + Bytes(chunks)) == Stream(Arrivals(feed.items), feed.error)
    decreases |chunks| + |buffer + Bytes(chunks)|
  {
    ReadFrameTakesOne(buffer, chunks);
    Shrinks(buffer, chunks);
    var o := ReadFrame(buffer, chunks);
    if o.result.Ok? {
      var ping := o.result.value.opcode == Ping;
      var later := Items(o.buffer, o.chunks, sends, if ping then k + 1 else k);
      ItemsAreTheStream(o.buffer, o.chunks, sends, if ping then k + 1 else k);
      assert ([Arrived(o.result.value, !ping || sends(k))] + later.items)[1..] == later.items;
    } else if o.result == Err(Io) {
      var later := Items(o.buffer, o.chunks, sends, k);
      ItemsAreTheStream(o.buffer, o.chunks, sends, k);
      assert ([Failure] + later.items)[1..] == later.items;
    }
  }

  /**
   From the socket up: neither the chunk boundaries nor the fragmentation show in the
   messages, and failing reads and writes show exactly where they hit a message in its middle.
   */
  lemma MessagesHoweverSent(utf8: Utf8, chunks: seq<Chunk>, sends: nat -> bool, ms: seq<Fragmented>)
    requires Flowing(chunks) && DataFrames(ParseStream(Bytes(chunks)).frames) == AllFragments(ms)
    ensures var feed, stream := Items([], chunks, sends, 0), ParseStream(Bytes(chunks));
      var s := CallAll(utf8, feed.items, feed.error);
      && (Quiet(s.results) == Wholes(utf8, ms) + [Err(stream.error)] <==> NeverMid(feed.items, false))
      && (s.pongs == PingPayloads(stream.frames) <==> AllAnswered(feed.items))
      && s.pongs == Answerable(feed.items)
  {
    var feed := Items([], chunks, sends, 0);
    assert [] + Bytes(chunks) == Bytes(chunks);
    ItemsAreTheStream([], chunks, sends, 0);
    StreamErrorsAreNotTextErrors(Bytes(chunks));
    FaultsAreHarmlessIff(utf8, feed.items, feed.error, ms);
  }

  /** The socket delivers the first fragment of a text, times out, and then delivers the last. */
  function TimedOut(a: byte, b: byte): seq<Chunk> { [Data([1, 1, a]), Fault, Data([128, 1, b])] }

  /** The message is lost: the failure is reported, and the last fragment is refused. */
  lemma TimeoutLosesMessage(utf8: Utf8, a: byte, b: byte, sends: nat -> bool)
    ensures var feed := Items([], TimedOut(a, b), sends, 0);
      && feed.items == [Arrived(Frame(false, Text, [a]), true), Failure, Arrived(Frame(true, Continuation, [b]), true)]
      && CallAll(utf8, feed.items, feed.error) ==
         Session([Err(Io), Err(UnexpectedContinuation), Err(ConnectionClosed)], [])
  {
    var first, last := Arrived(Frame(false, Text, [a]), true), Arrived(Frame(true, Continuation, [b]), true);
    TimedOutFeed(a, b, sends);
    var items := [first, Failure, last];
    assert items[1..] == [Failure, last] && [Failure, last][1..] == [last] && [last][1..] == [];
    assert [] + [a] == [a];
    assert Flat(utf8, [], ConnectionClosed, None, []) == Session([Err(ConnectionClosed)], []);
    assert Flat(utf8, [last], ConnectionClosed, None, []) == Session([Err(UnexpectedContinuation)] + [Err(ConnectionClosed)], []);
    assert Flat(utf8, [Failure, last], ConnectionClosed, Some(Text), [a]).results ==
           [Err(Io)] + ([Err(UnexpectedContinuation)] + [Err(ConnectionClosed)]);
    FlatIsCalls(utf8, items, ConnectionClosed, None, []);
  }

  lemma TimedOutFeed(a: byte, b: byte, sends: nat -> bool)
    ensures Items([], TimedOut(a, b), sends, 0) ==
            Feed([Arrived(Frame(false, Text, [a]), true), Failure, Arrived(Frame(true, Continuation, [b]), true)], ConnectionClosed)
  {
    var first, last := Arrived(Frame(false, Text, [a]), true), Arrived(Frame(true, Continuation, [b]), true);
    var c0, c1, c2 := TimedOut(a, b), [Fault, Data([128, 1, b])], [Data([128, 1, b])];
    assert c0[1..] == c1 && c1[1..] == c2 && c2[1..] == [];
    OneChunk(c0, 1, a, Text);
    OneChunk(c2, 128, b, Continuation);
    assert ReadFrame([], c1) == Outcome(Err(Io), [], c2);
    assert Items([], [], sends, 0) == Feed([], ConnectionClosed);
    assert [last] + [] == [last] && [Failure] + [last] == [Failure, last] && [first] + [Failure, last] == [first, Failure, last];
    FeedCons([], c2, sends, 0);
    FeedCons([], c1, sends, 0);
    FeedCons([], c0, sends, 0);
  }

  /** What the next read adds to the feed. */
  lemma FeedCons(buffer: seq<byte>, chunks: seq<Chunk>, sends: nat -> bool, k: nat)
    ensures var o := ReadFrame(buffer, chunks);
      o.result == Err(Io) ==>
        var later := Items(o.buffer, o.chunks, sends, k);
        Items(buffer, chunks, sends, k) == Feed([Failure] + later.items, later.error)
    ensures var o := ReadFrame(buffer, chunks);
      o.result.Ok? && o.result.value.opcode != Ping ==>
        var later := Items(o.buffer, o.chunks, sends, k);
        Items(buffer, chunks, sends, k) == Feed([Arrived(o.result.value, true)] + later.items, later.error)
  {
  }

  /** From an empty buffer, a chunk that is one short frame is read as that frame. */
  lemma OneChunk(chunks: seq<Chunk>, head: byte, x: byte, opcode: Opcode)
    requires chunks != [] && chunks[0] == Data([head, 1, x]) && opcode in {Continuation, Text}
    requires head == opcode.AsByte() || head == 128 + opcode.AsByte()
    ensures ReadFrame([], chunks) == Outcome(Ok(Frame(head >= 128, opcode, [x])), [], chunks[1..])
  {
    var bytes: seq<byte> := [head, 1, x];
    ShortFrame(head, x, opcode);
    assert [] + bytes == bytes;
    assert Decide([]) == Undecided;
    assert ReadFrame([], chunks) == ReadFrame(bytes, chunks[1..]);
  }

  /** A frame with one payload byte. */
  lemma ShortFrame(head: byte, x: byte, opcode: Opcode)
    requires head % 16 == opcode.AsByte() && (head == opcode.AsByte() || head == 128 + opcode.AsByte()) && opcode.AsByte() < 8
    ensures Decide([head, 1, x]) == Got(Frame(head >= 128, opcode, [x]), [])
  {
    var bytes := [head, 1, x];
    assert bytes[2..3] == [x] && bytes[3..] == [];
    assert OpcodeOf(opcode.AsByte()) == Some(opcode);
    assert (head / 16) % 8 == 0;
    assert ServerFrameLength(bytes) == Ok(Some(3));
    assert PayloadLength(bytes) == Ok((1, 2));
    assert Decode(bytes, MAX_PAYLOAD) == Ok(Decoded(Frame(head >= 128, opcode, [x]), 3));
  }

  // ----- the client object -----

  function PongFrames(payloads: seq<seq<byte>>): seq<Frame> {
    seq(|payloads|, i requires 0 <= i < |payloads| => Frame(true, Pong, payloads[i]))
  }

  /** The bytes of the pongs decode to exactly the pong frames, in order. */
  lemma PongBytesDecode(payloads: seq<seq<byte>>, masks: seq<Mask>, limit: nat)
    requires |payloads| == |masks| && forall i :: 0 <= i < |payloads| ==> |payloads[i]| < SIGN_BIT && |payloads[i]| <= limit
    ensures DecodeAll(WriteAll(PongFrames(payloads), masks), limit) == PongFrames(payloads)
  {
    WrittenFramesDecode(PongFrames(payloads), masks, limit);
  }

  /** What one call wrote: its pongs in full, and perhaps a first part, `torn`, of another frame. */
  datatype Parts = Parts(pongs: seq<seq<byte>>, masks: seq<Mask>, torn: seq<byte>)

  type Written = w: Parts | |w.masks| == |w.pongs| witness Parts([], [], [])

  ghost predicate Sendable(w: Written, limit: nat) {
    forall i :: 0 <= i < |w.pongs| ==> |w.pongs[i]| < SIGN_BIT && |w.pongs[i]| <= limit
  }

  /** The bytes on the wire after successive calls. */
  ghost function Wire(calls: seq<Written>): seq<byte> {
    if calls == [] then [] else WriteAll(PongFrames(calls[0].pongs), calls[0].masks) + calls[0].torn + Wire(calls[1..])
  }

  /** The pongs written before a frame was torn. */
  ghost function UpToTear(calls: seq<Written>): seq<seq<byte>> {
    if calls == [] then []
    else if calls[0].torn != [] then calls[0].pongs
    else calls[0].pongs + UpToTear(calls[1..])
  }

  /** One more call adds what `ReadMessage` says it wrote. */
  lemma {:induction false} WireGrows(calls: seq<Written>, outgoing: seq<byte>, w: Written)
    requires Answered(Wire(calls), outgoing, w.pongs, w.masks, w.torn)
    ensures outgoing == Wire(calls + [w])
  {
    WireConcat(calls, [w]);
    var written := WriteAll(PongFrames(w.pongs), w.masks);
    var one: seq<Written> := [w];
    assert one[1..] == [] && Wire(one) == written + w.torn + [] == written + w.torn;
    Associative(Wire(calls), written, w.torn);
  }

  lemma {:induction false} WireConcat(a: seq<Written>, b: seq<Written>)
    ensures Wire(a + b) == Wire(a) + Wire(b)
  {
    if a == [] {
      assert a + b == b && Wire(a) + Wire(b) == Wire(b);
    } else {
      var head := WriteAll(PongFrames(a[0].pongs), a[0].masks) + a[0].torn;
      assert (a + b)[1..] == a[1..] + b && (a + b)[0] == a[0];
      WireConcat(a[1..], b);
      Associative(head, Wire(a[1..]), Wire(b));
    }
  }

  lemma PongFramesConcat(a: seq<seq<byte>>, b: seq<seq<byte>>)
    ensures PongFrames(a + b) == PongFrames(a) + PongFrames(b)
  {
  }

  /**
   What the peer makes of the wire: first, in order, the pongs written before any frame was
   torn, and exactly those if none was. What follows a torn frame is read as its missing end.
   */
  lemma {:induction false} WireDecodes(calls: seq<Written>, limit: nat)
    requires forall i :: 0 <= i < |calls| ==> Sendable(calls[i], limit)
    ensures PongFrames(UpToTear(calls)) <= DecodeAll(Wire(calls), limit)
    ensures (forall i :: 0 <= i < |calls| ==> calls[i].torn == []) ==> DecodeAll(Wire(calls), limit) == PongFrames(UpToTear(calls))
  {
    if calls != [] {
      var w, rest := calls[0], Wire(calls[1..]);
      var fs := PongFrames(w.pongs);
      WireDecodes(calls[1..], limit);
      Associative(WriteAll(fs, w.masks), w.torn, rest);
      DecodeBehind(fs, w.masks, w.torn + rest, limit);
      if w.torn == [] {
        assert w.torn + rest == rest;
        PongFramesConcat(w.pongs, UpToTear(calls[1..]));
      }
    }
  }

  /** If the last call tore its frame short, the peer has the pongs before it and waits for the rest. */
  lemma TornIsIncomplete(w: Written, f: Frame, mask: Mask, limit: nat)
    requires Sendable(w, limit) && w.torn < ClientFrame(f, mask) && |f.payload| < SIGN_BIT && |f.payload| <= limit
    ensures DecodeAll(WriteAll(PongFrames(w.pongs), w.masks) + w.torn, limit) == PongFrames(w.pongs)
  {
    DecodeBehind(PongFrames(w.pongs), w.masks, w.torn, limit);
    ProperPrefixFails(f, mask, w.torn, limit);
    assert PongFrames(w.pongs) + [] == PongFrames(w.pongs);
  }

  /** The pings of a parsed stream are short, so every pong to them is sendable. */
  lemma {:induction false} PingsAreShort(all: seq<byte>, i: nat)
    requires i < |ParseStream(all).frames| && ParseStream(all).frames[i].opcode == Ping
    ensures |ParseStream(all).frames[i].payload| <= 125
    decreases |all|
  {
    DecideIsPrefixStable(all, []);
    if i > 0 {
      PingsAreShort(Decide(all).rest, i - 1);
    } else {
      ControlIsShort(all);
    }
  }

  class WebSocketClient {
    /** Received and not yet decoded. */
    var readBuffer: seq<byte>
    /** What the socket will deliver. */
    var incoming: seq<Chunk>
    /** Everything written to the socket. */
    var outgoing: seq<byte>
    /** How many frames it was asked to write. */
    var writes: nat
    const utf8: Utf8
    /** Which of the writes succeed. */
    const sends: nat -> bool

    constructor (utf8: Utf8, incoming: seq<Chunk>, sends: nat -> bool)
      ensures readBuffer == [] && this.incoming == incoming && outgoing == [] && writes == 0
      ensures this.utf8 == utf8 && this.sends == sends
    {
      readBuffer, this.incoming, outgoing, writes := [], incoming, [], 0;
      this.utf8, this.sends := utf8, sends;
    }

    /** What the calls still have to meet. */
    ghost function Ahead(): Feed
      reads this
    {
      Items(readBuffer, incoming, sends, writes)
    }

    /** Writes a frame under a mask of the random source's choosing, or only a first part of it, `torn`, if that fails. */
    method WriteClientFrame(f: Frame) returns (sent: bool, ghost mask: Mask, ghost torn: seq<byte>)
      modifies this`outgoing, this`writes
      ensures sent == sends(old(writes)) && writes == old(writes) + 1 && torn <= ClientFrame(f, mask)
      ensures outgoing == old(outgoing) + if sent then ClientFrame(f, mask) else torn
    {
      var chosen: Mask := *;
      mask, torn := chosen, [];
      var length := LengthField(|f.payload|);
      var bytes: seq<byte> := [(if f.fin then 128 else 0) + f.opcode.AsByte()];
      bytes := bytes + [128 + length[0]];
      bytes := bytes + length[1..];
      bytes := bytes + chosen;
      bytes := bytes + Masked(f.payload, chosen);
      sent := sends(writes);
      writes := writes + 1;
      if !sent {
        var part: nat :| part <= |bytes|;
        bytes := bytes[..part];
        torn := bytes;
      }
      outgoing := outgoing + bytes;
    }

    /** The loop of `read_frame`. */
    method ReadOneFrame() returns (r: Result<Frame, Error>)
      modifies this`readBuffer, this`incoming
      ensures ReadFrame(old(readBuffer), old(incoming)) == Outcome(r, readBuffer, incoming)
    {
      while true
        invariant ReadFrame(readBuffer, incoming) == ReadFrame(old(readBuffer), old(incoming))
        decreases |incoming|
      {
        match ServerFrameLength(readBuffer) {
          case Err(e) => return Err(e);
          case Ok(None) =>
          case Ok(Some(expected)) =>
            if |readBuffer| >= expected {
              match Decode(readBuffer, MAX_PAYLOAD) {
                case Err(e) => return Err(BadFrame(e));
                case Ok(d) =>
                  readBuffer := readBuffer[d.consumed..];
                  return Ok(d.frame);
              }
            }
        }
        if incoming == [] {
          return Err(ConnectionClosed);
        }
        var chunk := incoming[0];
        incoming := incoming[1..];
        if chunk.Fault? {
          return Err(Io);
        }
        if chunk.bytes == [] {
          return Err(ConnectionClosed);
        }
        readBuffer := readBuffer + chunk.bytes;
      }
    }

    /** Answers a ping; `pongs` and `masks` record what was answered since `base` was written. */
    method Answer(payload: seq<byte>, ghost base: seq<byte>, ghost pongs: seq<seq<byte>>, ghost masks: seq<Mask>)
      returns (sent: bool, ghost mask: Mask, ghost torn: seq<byte>)
      requires Answered(base, outgoing, pongs, masks, [])
      modifies this`outgoing, this`writes
      ensures sent == sends(old(writes)) && writes == old(writes) + 1
      ensures sent ==> Answered(base, outgoing, pongs + [payload], masks + [mask], [])
      ensures !sent ==> Answered(base, outgoing, pongs, masks, torn) && torn <= ClientFrame(Frame(true, Pong, payload), mask)
    {
      ghost var before := outgoing;
      sent, mask, torn := WriteClientFrame(Frame(true, Pong, payload));
      if sent {
        OneMorePong(base, before, pongs, masks, payload, mask);
      } else {
        Torn(base, before, pongs, masks, torn);
      }
    }

    /** The `match` of `read_message` on the frame it has read, writing the pong if it is a ping. */
    method Handle(f: Frame, opcode: Option<Opcode>, payload: seq<byte>,
                  ghost base: seq<byte>, ghost pongs: seq<seq<byte>>, ghost masks: seq<Mask>)
      returns (effect: Effect, ghost masks': seq<Mask>, ghost torn: seq<byte>)
      requires Answered(base, outgoing, pongs, masks, [])
      modifies this`outgoing, this`writes
      ensures effect == React(utf8, Arrived(f, f.opcode != Ping || sends(old(writes))), opcode, payload)
      ensures writes == if f.opcode == Ping then old(writes) + 1 else old(writes)
      ensures Answered(base, outgoing, Sent(pongs, effect), masks', torn)
      ensures torn != [] ==> effect == Return(Err(Io))
    {
      masks', torn := masks, [];
      assert pongs + [] == pongs;
      match f.opcode {
        case Ping =>
          ghost var mask;
          var sent;
          sent, mask, torn := Answer(f.payload, base, pongs, masks);
          if !sent {
            return Return(Err(Io)), masks', torn;
          }
          return Continue(opcode, payload, [f.payload]), masks + [mask], [];
        case Pong =>
          return Continue(opcode, payload, []), masks', [];
        case Close =>
          return Return(Ok(CloseMessage(f.payload))), masks', [];
        case Continuation =>
          if opcode.None? {
            return Return(Err(UnexpectedContinuation)), masks', [];
          }
          var joined := payload + f.payload;
          if f.fin {
            return Return(Finish(utf8, opcode, joined)), masks', [];
          }
          return Continue(opcode, joined, []), masks', [];
        case _ =>
          var joined := payload + f.payload;
          if f.fin {
            return Return(Finish(utf8, Some(f.opcode), joined)), masks', [];
          }
          return Continue(Some(f.opcode), joined, []), masks', [];
      }
    }

    /** Bounds the turns a call can still take. */
    ghost function Length(): nat
      reads this
    {
      |incoming| + |readBuffer + Bytes(incoming)|
    }

    /** What will be ahead once `f`, just read, has been dealt with. */
    ghost function AheadAfter(f: Frame): Feed
      reads this
    {
      Items(readBuffer, incoming, sends, if f.opcode == Ping then writes + 1 else writes)
    }

    /** The `read_frame` at the head of the loop, seen from the call in progress. */
    method Next(opcode: Option<Opcode>, payload: seq<byte>, ghost start: Feed, ghost pongs: seq<seq<byte>>)
      returns (r: Result<Frame, Error>)
      requires Continues(utf8, start, Ahead(), opcode, payload, pongs)
      modifies this`readBuffer, this`incoming
      ensures Meets(utf8, start, Outcome(r, readBuffer, incoming), old(incoming), sends, writes, opcode, payload, pongs)
      ensures r.Ok? ==> Length() < old(Length())
    {
      ghost var b, c := readBuffer, incoming;
      Shrinks(b, c);
      assert Meets(utf8, start, ReadFrame(b, c), c, sends, writes, opcode, payload, pongs) by {
        MeetsNext(utf8, start, b, c, sends, writes, opcode, payload, pongs);
      }
      r := ReadOneFrame();
    }

    /** One turn of the loop of `read_message`: the call goes on as the specification does, or ends as it does. */
    method Turn(opcode: Option<Opcode>, payload: seq<byte>,
                ghost start: Feed, ghost base: seq<byte>, ghost pongs: seq<seq<byte>>, ghost masks: seq<Mask>)
      returns (effect: Effect, ghost masks': seq<Mask>, ghost torn: seq<byte>)
      requires Continues(utf8, start, Ahead(), opcode, payload, pongs) && Answered(base, outgoing, pongs, masks, [])
      modifies this
      ensures Flowing(old(incoming)) ==> Flowing(incoming)
      ensures Follows(utf8, start, Ahead(), Flowing(old(incoming)), effect, pongs)
      ensures Answered(base, outgoing, Sent(pongs, effect), masks', torn)
      ensures torn != [] ==> effect == Return(Err(Io))
      ensures effect.Continue? ==> Length() < old(Length())
    {
      var next := Next(opcode, payload, start, pongs);
      if next.Err? {
        return Return(Err(next.error)), masks, [];
      }
      ghost var later := AheadAfter(next.value);
      effect, masks', torn := Handle(next.value, opcode, payload, base, pongs, masks);
      assert Ahead() == later;
    }

    /**
     The loop of `read_message`, failing reads and writes included: result and pongs are
     those of `ReadItems` on what the socket delivers, and so is what is left for the next
     call unless a read of no bytes was taken for the end. Only a failed write leaves a
     torn frame behind.
     */
    method ReadMessage() returns (r: Result<Message, Error>, ghost masks: seq<Mask>, ghost torn: seq<byte>)
      modifies this
      ensures var feed := old(Ahead());
        var c := ReadItems(utf8, feed.items, feed.error, None, []);
        && r == c.result && Answered(old(outgoing), outgoing, c.pongs, masks, torn) && (torn != [] ==> r == Err(Io))
        && (Flowing(old(incoming)) ==> Flowing(incoming) && Ahead() == Feed(c.rest, feed.error))
    {
      var opcode: Option<Opcode> := None;
      var payload: seq<byte> := [];
      masks, torn := [], [];
      ghost var pongs: seq<seq<byte>> := [];
      ghost var start := Ahead();
      NothingAnswered(outgoing);
      Starts(utf8, start);
      while true
        invariant Continues(utf8, start, Ahead(), opcode, payload, pongs)
        invariant Flowing(old(incoming)) ==> Flowing(incoming)
        invariant Answered(old(outgoing), outgoing, pongs, masks, [])
        decreases Length()
      {
        var effect;
        effect, masks, torn := Turn(opcode, payload, start, old(outgoing), pongs, masks);
        if effect.Return? {
          return effect.result, masks, torn;
        }
        opcode, payload := effect.opcode, effect.payload;
        pongs := pongs + effect.pongs;
      }
    }
  }

  /** Since `base`, the pongs for `payloads` have been written, and then the part `torn` of another frame. */
  ghost predicate Answered(base: seq<byte>, outgoing: seq<byte>, payloads: seq<seq<byte>>, masks: seq<Mask>, torn: seq<byte>) {
    |masks| == |payloads| && outgoing == base + WriteAll(PongFrames(payloads), masks) + torn
  }

  lemma NothingAnswered(base: seq<byte>)
    ensures Answered(base, base, [], [], [])
  {
    assert WriteAll(PongFrames([]), []) == [];
    assert base + [] + [] == base;
  }

  lemma Torn(base: seq<byte>, outgoing: seq<byte>, payloads: seq<seq<byte>>, masks: seq<Mask>, torn: seq<byte>)
    requires Answered(base, outgoing, payloads, masks, [])
    ensures Answered(base, outgoing + torn, payloads, masks, torn)
  {
    var written := base + WriteAll(PongFrames(payloads), masks);
    assert written + [] == written;
  }

  /** The loop so far has sent `pongs` and goes on as the whole call would. */
  ghost predicate Continues(utf8: Utf8, start: Feed, ahead: Feed, opcode: Option<Opcode>, payload: seq<byte>, pongs: seq<seq<byte>>) {
    var c := ReadItems(utf8, ahead.items, start.error, opcode, payload);
    ahead.error == start.error && ReadItems(utf8, start.items, start.error, None, []) == c.(pongs := pongs + c.pongs)
  }

  /** The call returns `result` having sent `pongs`; with `live` reads, `ahead` is left. */
  ghost predicate Returns(utf8: Utf8, start: Feed, ahead: Feed, live: bool, pongs: seq<seq<byte>>, result: Result<Message, Error>) {
    var c := ReadItems(utf8, start.items, start.error, None, []);
    c.result == result && c.pongs == pongs && (live ==> ahead == Feed(c.rest, start.error))
  }

  ghost function Sent(pongs: seq<seq<byte>>, effect: Effect): seq<seq<byte>> {
    if effect.Continue? then pongs + effect.pongs else pongs
  }

  /** After `effect` the call goes on, or is over, as the whole call would be. */
  ghost predicate Follows(utf8: Utf8, start: Feed, ahead: Feed, live: bool, effect: Effect, pongs: seq<seq<byte>>) {
    match effect
    case Return(result) => Returns(utf8, start, ahead, live, pongs, result)
    case Continue(opcode, payload, _) => Continues(utf8, start, ahead, opcode, payload, Sent(pongs, effect))
  }

  lemma Starts(utf8: Utf8, start: Feed)
    ensures Continues(utf8, start, start, None, [], [])
  {
    var c := ReadItems(utf8, start.items, start.error, None, []);
    assert [] + c.pongs == c.pongs;
  }

  /** One more item, whichever way the call reacts to it. */
  lemma OneItem(utf8: Utf8, start: Feed, item: Item, later: Feed, opcode: Option<Opcode>, payload: seq<byte>, pongs: seq<seq<byte>>)
    requires Continues(utf8, start, Feed([item] + later.items, later.error), opcode, payload, pongs)
    ensures Follows(utf8, start, later, true, React(utf8, item, opcode, payload), pongs)
  {
    assert ([item] + later.items)[1..] == later.items;
    match React(utf8, item, opcode, payload)
    case Return(_) => assert pongs + [] == pongs;
    case Continue(o, p, sent) =>
      Associative(pongs, sent, ReadItems(utf8, later.items, start.error, o, p).pongs);
  }

  /** With `o` for what `read_frame` came to, the call follows the specification once it has dealt with it. */
  ghost predicate Meets(utf8: Utf8, start: Feed, o: Outcome, chunks: seq<Chunk>, sends: nat -> bool, k: nat,
                        opcode: Option<Opcode>, payload: seq<byte>, pongs: seq<seq<byte>>) {
    && (Flowing(chunks) ==> Flowing(o.chunks))
    && match o.result
      case Err(e) => Follows(utf8, start, Items(o.buffer, o.chunks, sends, k), Flowing(chunks), Return(Err(e)), pongs)
      case Ok(f) =>
        var ping := f.opcode == Ping;
        Follows(utf8, start, Items(o.buffer, o.chunks, sends, if ping then k + 1 else k), Flowing(chunks),
                React(utf8, Arrived(f, !ping || sends(k)), opcode, payload), pongs)
  }

  lemma MeetsNext(utf8: Utf8, start: Feed, buffer: seq<byte>, chunks: seq<Chunk>, sends: nat -> bool, k: nat,
                  opcode: Option<Opcode>, payload: seq<byte>, pongs: seq<seq<byte>>)
    requires Continues(utf8, start, Items(buffer, chunks, sends, k), opcode, payload, pongs)
    ensures Meets(utf8, start, ReadFrame(buffer, chunks), chunks, sends, k, opcode, payload, pongs)
  {
    StaysFlowing(buffer, chunks);
    if ReadFrame(buffer, chunks).result.Err? {
      Fails(utf8, start, buffer, chunks, sends, k, opcode, payload, pongs);
    } else {
      Takes(utf8, start, buffer, chunks, sends, k, opcode, payload, pongs, Flowing(chunks));
    }
  }

  /** A frame was read. */
  lemma Takes(utf8: Utf8, start: Feed, buffer: seq<byte>, chunks: seq<Chunk>, sends: nat -> bool, k: nat,
              opcode: Option<Opcode>, payload: seq<byte>, pongs: seq<seq<byte>>, live: bool)
    requires ReadFrame(buffer, chunks).result.Ok?
    requires Continues(utf8, start, Items(buffer, chunks, sends, k), opcode, payload, pongs)
    ensures var o := ReadFrame(buffer, chunks);
      var f := o.result.value;
      var ping := f.opcode == Ping;
      var later := Items(o.buffer, o.chunks, sends, if ping then k + 1 else k);
      Follows(utf8, start, later, live, React(utf8, Arrived(f, !ping || sends(k)), opcode, payload), pongs)
  {
    var o := ReadFrame(buffer, chunks);
    var f := o.result.value;
    var ping := f.opcode == Ping;
    var later := Items(o.buffer, o.chunks, sends, if ping then k + 1 else k);
    OneItem(utf8, start, Arrived(f, !ping || sends(k)), later, opcode, payload, pongs);
  }

  /** A read failed, or the connection is at its end. */
  lemma Fails(utf8: Utf8, start: Feed, buffer: seq<byte>, chunks: seq<Chunk>, sends: nat -> bool, k: nat,
              opcode: Option<Opcode>, payload: seq<byte>, pongs: seq<seq<byte>>)
    requires ReadFrame(buffer, chunks).result.Err?
    requires Continues(utf8, start, Items(buffer, chunks, sends, k), opcode, payload, pongs)
    ensures var o := ReadFrame(buffer, chunks);
      Follows(utf8, start, Items(o.buffer, o.chunks, sends, k), Flowing(chunks), Return(Err(o.result.error)), pongs)
  {
    var o := ReadFrame(buffer, chunks);
    if o.result == Err(Io) {
      OneItem(utf8, start, Failure, Items(o.buffer, o.chunks, sends, k), opcode, payload, pongs);
    } else {
      assert pongs + [] == pongs;
      if Flowing(chunks) {
        EndStays(buffer, chunks);
      }
    }
  }

  lemma {:induction false} StaysFlowing(buffer: seq<byte>, chunks: seq<Chunk>)
    ensures Flowing(chunks) ==> Flowing(ReadFrame(buffer, chunks).chunks)
    decreases |chunks|
  {
    if Decide(buffer).Undecided? && chunks != [] && chunks[0].Data? && chunks[0].bytes != [] {
      StaysFlowing(buffer + chunks[0].bytes, chunks[1..]);
    }
  }

  /** The end of a connection is reported again by every later call. */
  lemma {:induction false} EndStays(buffer: seq<byte>, chunks: seq<Chunk>)
    requires Flowing(chunks)
    ensures var o := ReadFrame(buffer, chunks);
      o.result.Err? && o.result != Err(Io) ==> ReadFrame(o.buffer, o.chunks).result == o.result
    decreases |chunks|
  {
    if Decide(buffer).Undecided? && chunks != [] && chunks[0].Data? {
      EndStays(buffer + chunks[0].bytes, chunks[1..]);
    }
  }

  lemma OneMorePong(base: seq<byte>, outgoing: seq<byte>, payloads: seq<seq<byte>>, masks: seq<Mask>, payload: seq<byte>, mask: Mask)
    requires Answered(base, outgoing, payloads, masks, [])
    ensures Answered(base, outgoing + ClientFrame(Frame(true, Pong, payload), mask), payloads + [payload], masks + [mask], [])
  {
    var written, last := WriteAll(PongFrames(payloads), masks), ClientFrame(Frame(true, Pong, payload), mask);
    assert PongFrames(payloads + [payload]) == PongFrames(payloads) + [Frame(true, Pong, payload)];
    WriteAllAppend(PongFrames(payloads), masks, Frame(true, Pong, payload), mask);
    assert outgoing == base + written;
    Associative(base, written, last);
    assert base + (written + last) + [] == base + (written + last);
  }

  lemma {:induction false} WriteAllAppend(fs: seq<Frame>, masks: seq<Mask>, f: Frame, mask: Mask)
    requires |fs| == |masks|
    ensures WriteAll(fs + [f], masks + [mask]) == WriteAll(fs, masks) + ClientFrame(f, mask)
  {
    if fs == [] {
      assert fs + [f] == [f] && masks + [mask] == [mask];
      assert WriteAll([f], [mask]) == ClientFrame(f, mask) + WriteAll([f][1..], [mask][1..]);
      assert [f][1..] == [] && [mask][1..] == [];
      assert ClientFrame(f, mask) + [] == [] + ClientFrame(f, mask);
    } else {
      assert (fs + [f])[1..] == fs[1..] + [f] && (masks + [mask])[1..] == masks[1..] + [mask];
      WriteAllAppend(fs[1..], masks[1..], f, mask);
      var head, mid, last := ClientFrame(fs[0], masks[0]), WriteAll(fs[1..], masks[1..]), ClientFrame(f, mask);
      assert head + (mid + last) == (head + mid) + last;
    }
  }
}
