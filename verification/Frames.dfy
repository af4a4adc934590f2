/**
 The WebSocket wire format of src/realtime.rs and src/cdp/transport.rs: client
 frames as they are written, server frames as they are measured and decoded, and the
 read buffer that grows with every socket read.

 Bytes are numbers below 256 and the bit tests of the source are written as
 arithmetic (`b & 0x7f` as `b % 128`, and so on); `BitTests` states that they agree.
 */
module Frames {
  import opened Common

  type byte = b: int | 0 <= b < 256
  type Mask = m: seq<byte> | |m| == 4 witness [0, 0, 0, 0]

  const USIZE_MAX: nat := 0xFFFF_FFFF_FFFF_FFFF
  const MAX_PAYLOAD: nat := 16 * 1024 * 1024
  const SIGN_BIT: nat := 0x8000_0000_0000_0000

  datatype Opcode = Continuation | Text | Binary | Close | Ping | Pong {
    function AsByte(): byte {
      match this
      case Continuation => 0
      case Text => 1
      case Binary => 2
      case Close => 8
      case Ping => 9
      case Pong => 10
    }
  }

  function OpcodeOf(b: byte): Option<Opcode> {
    match b
    case 0 => Some(Continuation)
    case 1 => Some(Text)
    case 2 => Some(Binary)
    case 8 => Some(Close)
    case 9 => Some(Ping)
    case 10 => Some(Pong)
    case _ => None
  }

  datatype Frame = Frame(fin: bool, opcode: Opcode, payload: seq<byte>)

  datatype FrameError = TooShort | BadOpcode | MissingLength | InvalidLength | LimitExceeded | MissingMask | Truncated

  datatype Error =
    | UnsupportedRsvBits
    | UnsupportedOpcode
    | MaskedServerFrame
    | FrameTooLarge
    | InvalidControlFrame
    | BadFrame(detail: FrameError)
    | ConnectionClosed
    | Io
    | UnexpectedContinuation
    | MissingMessageOpcode
    | InvalidTextFrame

  // ----- bytes -----

  /** The arithmetic used below is the bit arithmetic of the source. */
  lemma BitTests(b: bv8)
    ensures (b & 0x80 != 0) <==> b >= 128
    ensures b & 0x7f == b % 128
    ensures b & 0x0f == b % 16
    ensures (b & 0x70 != 0) <==> (b / 16) % 8 != 0
    ensures b < 128 ==> 0x80 | b == 128 + b
  {
  }

  function Differ(x: nat, y: nat): nat { if x == y then 0 else 1 }

  /** Exclusive or of the lowest `bits` binary digits: a digit is set where the two differ. */
  function XorDigits(a: nat, b: nat, bits: nat): nat {
    if bits == 0 then 0 else 2 * XorDigits(a / 2, b / 2, bits - 1) + Differ(a % 2, b % 2)
  }

  lemma {:induction false} XorDigitsTwice(a: nat, b: nat, bits: nat, bound: nat)
    requires a < bound && bound == PowerOfTwo(bits)
    ensures XorDigits(a, b, bits) < bound && XorDigits(XorDigits(a, b, bits), b, bits) == a
  {
    if bits > 0 {
      var half := PowerOfTwo(bits - 1);
      XorDigitsTwice(a / 2, b / 2, bits - 1, half);
      var high, low := XorDigits(a / 2, b / 2, bits - 1), Differ(a % 2, b % 2);
      HalfAndDigit(high, low);
      XorStep(2 * high + low, high, low, b, bits);
      DifferTwice(a % 2, b % 2);
    }
  }

  lemma XorStep(x: nat, high: nat, low: nat, b: nat, bits: nat)
    requires bits > 0 && x / 2 == high && x % 2 == low
    ensures XorDigits(x, b, bits) == 2 * XorDigits(high, b / 2, bits - 1) + Differ(low, b % 2)
  {
  }

  lemma DifferTwice(x: nat, y: nat)
    requires x < 2 && y < 2
    ensures Differ(Differ(x, y), y) == x
  {
  }

  lemma HalfAndDigit(high: nat, low: nat)
    requires low < 2
    ensures (2 * high + low) / 2 == high && (2 * high + low) % 2 == low
  {
  }

  function PowerOfTwo(k: nat): nat { if k == 0 then 1 else 2 * PowerOfTwo(k - 1) }

  lemma {:induction false} XorDigitsBound(a: nat, b: nat, bits: nat)
    ensures XorDigits(a, b, bits) < PowerOfTwo(bits)
  {
    if bits > 0 {
      XorDigitsBound(a / 2, b / 2, bits - 1);
    }
  }

  lemma EightBits()
    ensures PowerOfTwo(8) == 256
  {
    assert PowerOfTwo(4) == 16;
    assert PowerOfTwo(8) == 2 * PowerOfTwo(7) == 4 * PowerOfTwo(6) == 8 * PowerOfTwo(5);
  }

  function Xor(a: byte, b: byte): byte {
    EightBits();
    XorDigitsBound(a, b, 8);
    XorDigits(a, b, 8)
  }

  lemma XorTwice(a: byte, b: byte)
    ensures Xor(Xor(a, b), b) == a
  {
    EightBits();
    XorDigitsTwice(a, b, 8, 256);
  }

  function ToBigEndian(n: nat, width: nat): (bs: seq<byte>)
    ensures |bs| == width
  {
    if width == 0 then [] else ToBigEndian(n / 256, width - 1) + [n % 256]
  }

  function FromBigEndian(bs: seq<byte>): nat {
    if bs == [] then 0 else FromBigEndian(bs[..|bs| - 1]) * 256 + bs[|bs| - 1]
  }

  function Pow256(width: nat): nat { if width == 0 then 1 else 256 * Pow256(width - 1) }

  lemma {:induction false} BigEndianRoundTrip(n: nat, width: nat)
    requires n < Pow256(width)
    ensures FromBigEndian(ToBigEndian(n, width)) == n
  {
    if width > 0 {
      BigEndianRoundTrip(n / 256, width - 1);
      var bs := ToBigEndian(n, width);
      assert bs[..|bs| - 1] == ToBigEndian(n / 256, width - 1);
    }
  }

  // ----- writing client frames -----

  function Masked(payload: seq<byte>, mask: Mask): (r: seq<byte>)
    ensures |r| == |payload|
  {
    seq(|payload|, i requires 0 <= i < |payload| => Xor(payload[i], mask[i % 4]))
  }

  /** The second byte without its mask bit, and the extended length that follows it. */
  function LengthField(n: nat): (r: seq<byte>)
    ensures |r| >= 1 && r[0] < 128
  {
    if n <= 125 then [n]
    else if n <= 65535 then [126] + ToBigEndian(n, 2)
    else [127] + ToBigEndian(n, 8)
  }

  /** The bytes `write_client_frame` hands to the stream. */
  function ClientFrame(f: Frame, mask: Mask): seq<byte> {
    var length := LengthField(|f.payload|);
    [(if f.fin then 128 else 0) + f.opcode.AsByte()] + [128 + length[0]] + length[1..] + mask + Masked(f.payload, mask)
  }

  // ----- decoding -----

  datatype Decoded = Decoded(frame: Frame, consumed: nat)

  /** The payload length and where the header ends, read from a header of two bytes or more. */
  function PayloadLength(bytes: seq<byte>): Result<(nat, nat), FrameError>
    requires |bytes| >= 2
  {
    var short := bytes[1] % 128;
    if short <= 125 then Ok((short, 2))
    else if short == 126 then
      if |bytes| < 4 then Err(MissingLength) else Ok((FromBigEndian(bytes[2..4]), 4))
    else
      if |bytes| < 10 then Err(MissingLength)
      else if FromBigEndian(bytes[2..10]) >= SIGN_BIT then Err(InvalidLength)
      else Ok((FromBigEndian(bytes[2..10]), 10))
  }

  /** `WebSocketFrame::decode`, with its payload limit as a parameter. */
  function Decode(bytes: seq<byte>, limit: nat): Result<Decoded, FrameError> {
    if |bytes| < 2 then Err(TooShort)
    else
      match OpcodeOf(bytes[0] % 16)
      case None => Err(BadOpcode)
      case Some(opcode) =>
        match PayloadLength(bytes)
        case Err(e) => Err(e)
        case Ok((n, cursor)) =>
          if n > limit then Err(LimitExceeded)
          else if bytes[1] >= 128 then
            if |bytes| < cursor + 4 then Err(MissingMask)
            else if |bytes| < cursor + 4 + n then Err(Truncated)
            else
              var mask: Mask := bytes[cursor..cursor + 4];
              Ok(Decoded(Frame(bytes[0] >= 128, opcode, Masked(bytes[cursor + 4..cursor + 4 + n], mask)), cursor + 4 + n))
          else if |bytes| < cursor + n then Err(Truncated)
          else Ok(Decoded(Frame(bytes[0] >= 128, opcode, bytes[cursor..cursor + n]), cursor + n))
  }

  // ----- client frames round-trip -----

  lemma MaskTwice(payload: seq<byte>, mask: Mask)
    ensures Masked(Masked(payload, mask), mask) == payload
  {
    forall i | 0 <= i < |payload| ensures Masked(Masked(payload, mask), mask)[i] == payload[i] {
      XorTwice(payload[i], mask[i % 4]);
    }
  }

  /** The parts of an encoded frame, by position. */
  lemma ClientFrameLayout(f: Frame, mask: Mask, rest: seq<byte>)
    ensures var bytes, h := ClientFrame(f, mask) + rest, |LengthField(|f.payload|)|;
      && |ClientFrame(f, mask)| == 1 + h + 4 + |f.payload|
      && bytes[0] == (if f.fin then 128 else 0) + f.opcode.AsByte()
      && bytes[1] == 128 + LengthField(|f.payload|)[0]
      && bytes[2..1 + h] == LengthField(|f.payload|)[1..]
      && bytes[1 + h..1 + h + 4] == mask
      && bytes[1 + h + 4..1 + h + 4 + |f.payload|] == Masked(f.payload, mask)
  {
  }

  lemma PowersOf256()
    ensures Pow256(2) == 65536 && Pow256(8) == 2 * SIGN_BIT
  {
    assert Pow256(4) == 256 * Pow256(3) == 4294967296;
    assert Pow256(8) == 256 * Pow256(7) == 65536 * Pow256(6);
    assert Pow256(6) == 256 * Pow256(5) == 65536 * Pow256(4);
  }

  lemma MediumLength(bytes: seq<byte>, n: nat)
    requires 125 < n <= 65535 && |bytes| >= 4 && bytes[1] == 128 + 126 && bytes[2..4] == ToBigEndian(n, 2)
    ensures PayloadLength(bytes) == Ok((n, 4))
  {
    PowersOf256();
    BigEndianRoundTrip(n, 2);
  }

  lemma LongLength(bytes: seq<byte>, n: nat)
    requires 65535 < n < SIGN_BIT && |bytes| >= 10 && bytes[1] == 128 + 127 && bytes[2..10] == ToBigEndian(n, 8)
    ensures PayloadLength(bytes) == Ok((n, 10))
  {
    PowersOf256();
    BigEndianRoundTrip(n, 8);
  }

  lemma LengthFieldRoundTrip(bytes: seq<byte>, n: nat)
    requires n < SIGN_BIT
    requires var field := LengthField(n); |bytes| >= 1 + |field| && bytes[1] == 128 + field[0] && bytes[2..1 + |field|] == field[1..]
    ensures PayloadLength(bytes) == Ok((n, 1 + |LengthField(n)|))
  {
    if 125 < n <= 65535 {
      assert LengthField(n)[1..] == ToBigEndian(n, 2);
      MediumLength(bytes, n);
    } else if n > 65535 {
      assert LengthField(n)[1..] == ToBigEndian(n, 8);
      LongLength(bytes, n);
    }
  }

  /**
   Decoding what was written returns the same frame and consumes exactly its bytes,
   whatever the mask and whatever follows.
   */
  lemma ClientFrameRoundTrip(f: Frame, mask: Mask, rest: seq<byte>, limit: nat)
    requires |f.payload| < SIGN_BIT && |f.payload| <= limit
    ensures Decode(ClientFrame(f, mask) + rest, limit) == Ok(Decoded(f, |ClientFrame(f, mask)|))
  {
    var bytes := ClientFrame(f, mask) + rest;
    ClientFrameLayout(f, mask, rest);
    LengthFieldRoundTrip(bytes, |f.payload|);
    MaskTwice(f.payload, mask);
    assert OpcodeOf(f.opcode.AsByte()) == Some(f.opcode) && bytes[0] % 16 == f.opcode.AsByte();
  }

  /** A payload over the limit is refused before anything else is looked at. */
  lemma LimitIsEnforced(f: Frame, mask: Mask, rest: seq<byte>, limit: nat)
    requires limit < |f.payload| < SIGN_BIT
    ensures Decode(ClientFrame(f, mask) + rest, limit) == Err(LimitExceeded)
  {
    ClientFrameLayout(f, mask, rest);
    LengthFieldRoundTrip(ClientFrame(f, mask) + rest, |f.payload|);
    assert OpcodeOf(f.opcode.AsByte()) == Some(f.opcode);
  }

  /** The length field is the shortest of the three forms that can hold the length. */
  lemma LengthFieldIsMinimal(n: nat, bytes: seq<byte>)
    requires n < SIGN_BIT && |bytes| >= 2 && PayloadLength(bytes).Ok? && PayloadLength(bytes).value.0 == n
    ensures 1 + |LengthField(n)| <= PayloadLength(bytes).value.1
  {
    if n > 65535 && bytes[1] % 128 == 126 {
      TwoBytesAreSmall(bytes[2..4]);
    }
  }

  lemma TwoBytesAreSmall(bs: seq<byte>)
    requires |bs| == 2
    ensures FromBigEndian(bs) <= 65535
  {
    assert FromBigEndian(bs[..1]) == FromBigEndian(bs[..1][..0]) * 256 + bs[0];
  }

  function WriteAll(fs: seq<Frame>, masks: seq<Mask>): seq<byte>
    requires |fs| == |masks|
  {
    if fs == [] then [] else ClientFrame(fs[0], masks[0]) + WriteAll(fs[1..], masks[1..])
  }

  /** Every frame of a byte string, up to the first that cannot be decoded. */
  function DecodeAll(bytes: seq<byte>, limit: nat): seq<Frame>
    decreases |bytes|
  {
    match Decode(bytes, limit)
    case Err(_) => []
    case Ok(d) => [d.frame] + DecodeAll(bytes[d.consumed..], limit)
  }

  lemma DecodeFirst(f: Frame, mask: Mask, rest: seq<byte>, limit: nat)
    requires |f.payload| < SIGN_BIT && |f.payload| <= limit
    ensures DecodeAll(ClientFrame(f, mask) + rest, limit) == [f] + DecodeAll(rest, limit)
  {
    var head := ClientFrame(f, mask);
    ClientFrameRoundTrip(f, mask, rest, limit);
    assert (head + rest)[|head|..] == rest;
  }

  /** Written frames decode first, whatever follows them. */
  lemma {:induction false} DecodeBehind(fs: seq<Frame>, masks: seq<Mask>, rest: seq<byte>, limit: nat)
    requires |fs| == |masks| && forall i :: 0 <= i < |fs| ==> |fs[i].payload| < SIGN_BIT && |fs[i].payload| <= limit
    ensures DecodeAll(WriteAll(fs, masks) + rest, limit) == fs + DecodeAll(rest, limit)
  {
    if fs == [] {
      assert WriteAll(fs, masks) + rest == rest;
      assert [] + DecodeAll(rest, limit) == DecodeAll(rest, limit);
    } else {
      var more := WriteAll(fs[1..], masks[1..]) + rest;
      assert DecodeAll(more, limit) == fs[1..] + DecodeAll(rest, limit) by {
        DecodeBehind(fs[1..], masks[1..], rest, limit);
      }
      assert WriteAll(fs, masks) + rest == ClientFrame(fs[0], masks[0]) + more by {
        Associative(ClientFrame(fs[0], masks[0]), WriteAll(fs[1..], masks[1..]), rest);
      }
      DecodeFirst(fs[0], masks[0], more, limit);
      Rejoin(fs, DecodeAll(rest, limit));
    }
  }

  lemma Rejoin(fs: seq<Frame>, later: seq<Frame>)
    requires fs != []
    ensures [fs[0]] + (fs[1..] + later) == fs + later
  {
  }

  /** Concatenated client frames decode to the frames written, so the encoding is uniquely decodable. */
  lemma WrittenFramesDecode(fs: seq<Frame>, masks: seq<Mask>, limit: nat)
    requires |fs| == |masks|
    requires forall i :: 0 <= i < |fs| ==> |fs[i].payload| < SIGN_BIT && |fs[i].payload| <= limit
    ensures DecodeAll(WriteAll(fs, masks), limit) == fs
  {
    DecodeBehind(fs, masks, [], limit);
    assert WriteAll(fs, masks) + [] == WriteAll(fs, masks) && fs + [] == fs;
  }

  /** What has been decoded stays decoded when more bytes arrive. */
  lemma DecodedStaysDecoded(bytes: seq<byte>, more: seq<byte>, limit: nat)
    requires Decode(bytes, limit).Ok?
    ensures Decode(bytes + more, limit) == Decode(bytes, limit) && Decode(bytes, limit).value.consumed <= |bytes|
  {
    var all := bytes + more;
    LengthStays(bytes, more);
    var (n, cursor) := PayloadLength(bytes).value;
    if bytes[1] >= 128 {
      SliceStays(bytes, more, cursor, cursor + 4);
      SliceStays(bytes, more, cursor + 4, cursor + 4 + n);
    } else {
      SliceStays(bytes, more, cursor, cursor + n);
    }
  }

  lemma SliceStays(bytes: seq<byte>, more: seq<byte>, i: nat, j: nat)
    requires i <= j <= |bytes|
    ensures (bytes + more)[i..j] == bytes[i..j]
  {
  }

  lemma LengthStays(bytes: seq<byte>, more: seq<byte>)
    requires |bytes| >= 2 && PayloadLength(bytes).Ok?
    ensures PayloadLength(bytes + more) == PayloadLength(bytes)
  {
    if |bytes| >= 4 {
      SliceStays(bytes, more, 2, 4);
    }
    if |bytes| >= 10 {
      SliceStays(bytes, more, 2, 10);
    }
  }

  /** No proper prefix of a client frame decodes: the encoding is prefix-free. */
  lemma ProperPrefixFails(f: Frame, mask: Mask, part: seq<byte>, limit: nat)
    requires |f.payload| < SIGN_BIT && |f.payload| <= limit && part < ClientFrame(f, mask)
    ensures Decode(part, limit).Err?
  {
    var whole := ClientFrame(f, mask);
    var more := whole[|part|..];
    assert whole == part + more && whole + [] == whole;
    ClientFrameRoundTrip(f, mask, [], limit);
    if Decode(part, limit).Ok? {
      DecodedStaysDecoded(part, more, limit);
    }
  }

  // ----- measuring server frames -----

  function ServerFrameLength(bytes: seq<byte>): Result<Option<nat>, Error> {
    if |bytes| < 2 then Ok(None)
    else if (bytes[0] / 16) % 8 != 0 then Err(UnsupportedRsvBits)
    else
      var opcode := bytes[0] % 16;
      if opcode !in {0, 1, 2, 8, 9, 10} then Err(UnsupportedOpcode)
      else if bytes[1] >= 128 then Err(MaskedServerFrame)
      else
        var short := bytes[1] % 128;
        if (short == 126 && |bytes| < 4) || (short == 127 && |bytes| < 10) then Ok(None)
        else
          var cursor := if short == 126 then 4 else if short == 127 then 10 else 2;
          var length := if short == 126 then FromBigEndian(bytes[2..4]) else if short == 127 then FromBigEndian(bytes[2..10]) else short;
          if length > USIZE_MAX then Err(FrameTooLarge)
          else if opcode >= 8 && (bytes[0] < 128 || length > 125) then Err(InvalidControlFrame)
          else Ok(Some(cursor + length))
  }

  /** A length or an error, once decided, is unchanged by more bytes. */
  lemma LengthIsPrefixStable(bytes: seq<byte>, more: seq<byte>)
    requires ServerFrameLength(bytes) != Ok(None)
    ensures ServerFrameLength(bytes + more) == ServerFrameLength(bytes)
  {
    if |bytes| >= 4 { assert (bytes + more)[2..4] == bytes[2..4]; }
    if |bytes| >= 10 { assert (bytes + more)[2..10] == bytes[2..10]; }
  }

  /** Decoding agrees with the measured length, and does not look beyond it. */
  lemma DecodeIsPrefixStable(bytes: seq<byte>, more: seq<byte>, limit: nat)
    requires ServerFrameLength(bytes).Ok? && ServerFrameLength(bytes).value.Some? && |bytes| >= ServerFrameLength(bytes).value.value
    ensures Decode(bytes + more, limit) == Decode(bytes, limit)
    ensures Decode(bytes, limit).Ok? ==> Decode(bytes, limit).value.consumed == ServerFrameLength(bytes).value.value >= 2
  {
    var all := bytes + more;
    if |bytes| >= 4 { assert all[2..4] == bytes[2..4]; }
    if |bytes| >= 10 { assert all[2..10] == bytes[2..10]; }
    assert PayloadLength(all) == PayloadLength(bytes);
    if PayloadLength(bytes).Ok? {
      var (n, cursor) := PayloadLength(bytes).value;
      assert all[cursor..cursor + n] == bytes[cursor..cursor + n];
    }
  }

  // ----- server frames as section 5.2 of RFC 6455 writes them -----

  /** The three forms of the length field; a server may use any that can hold the length. */
  datatype Form = Short | Medium | Long

  predicate Holds(form: Form, n: nat) {
    match form case Short => n <= 125 case Medium => n <= 65535 case Long => n < SIGN_BIT
  }

  function FormField(form: Form, n: nat): (r: seq<byte>)
    requires Holds(form, n)
    ensures |r| >= 1 && r[0] < 128
  {
    match form
    case Short => [n]
    case Medium => [126] + ToBigEndian(n, 2)
    case Long => [127] + ToBigEndian(n, 8)
  }

  function Head(f: Frame): byte { (if f.fin then 128 else 0) + f.opcode.AsByte() }

  /** An unmasked frame. */
  function ServerFrame(f: Frame, form: Form): seq<byte>
    requires Holds(form, |f.payload|)
  {
    [Head(f)] + FormField(form, |f.payload|) + f.payload
  }

  lemma ServerFrameLayout(f: Frame, form: Form, rest: seq<byte>)
    requires Holds(form, |f.payload|)
    ensures var bytes, field := ServerFrame(f, form) + rest, FormField(form, |f.payload|);
      && |ServerFrame(f, form)| == 1 + |field| + |f.payload|
      && bytes[0] == Head(f) && bytes[1] == field[0] && bytes[2..1 + |field|] == field[1..]
      && bytes[1 + |field|..1 + |field| + |f.payload|] == f.payload
  {
  }

  lemma FormRoundTrip(bytes: seq<byte>, form: Form, n: nat)
    requires Holds(form, n)
    requires var field := FormField(form, n); |bytes| >= 1 + |field| && bytes[1] == field[0] && bytes[2..1 + |field|] == field[1..]
    ensures |bytes| >= 2 && PayloadLength(bytes) == Ok((n, 1 + |FormField(form, n)|))
  {
    PowersOf256();
    match form {
      case Short =>
      case Medium => BigEndianRoundTrip(n, 2);
      case Long => BigEndianRoundTrip(n, 8);
    }
  }

  lemma HeadParts(f: Frame)
    ensures Head(f) % 16 == f.opcode.AsByte() && (Head(f) / 16) % 8 == 0 && (Head(f) >= 128 <==> f.fin)
    ensures OpcodeOf(f.opcode.AsByte()) == Some(f.opcode)
  {
  }

  /** Decoding an unmasked frame returns it, whatever the form of its length and whatever follows, unless it is over the limit. */
  lemma ServerFrameRoundTrip(f: Frame, form: Form, rest: seq<byte>, limit: nat)
    requires Holds(form, |f.payload|)
    ensures Decode(ServerFrame(f, form) + rest, limit) ==
            if |f.payload| <= limit then Ok(Decoded(f, |ServerFrame(f, form)|)) else Err(LimitExceeded)
  {
    ServerFrameLayout(f, form, rest);
    FormRoundTrip(ServerFrame(f, form) + rest, form, |f.payload|);
    HeadParts(f);
  }

  predicate ControlAllowed(f: Frame) { f.opcode in {Close, Ping, Pong} ==> f.fin && |f.payload| <= 125 }

  /** Measuring it gives its length, or refuses a control frame that is fragmented or long. */
  lemma ServerFrameIsMeasured(f: Frame, form: Form, rest: seq<byte>)
    requires Holds(form, |f.payload|)
    ensures ServerFrameLength(ServerFrame(f, form) + rest) ==
            if ControlAllowed(f) then Ok(Some(|ServerFrame(f, form)|)) else Err(InvalidControlFrame)
  {
    var bytes := ServerFrame(f, form) + rest;
    ServerFrameLayout(f, form, rest);
    FormRoundTrip(bytes, form, |f.payload|);
    HeadParts(f);
  }

  /** Headers that no server may send are refused, whatever follows: reserved bits, an unknown opcode, a mask. */
  lemma BadHeadersAreRefused(bytes: seq<byte>)
    requires |bytes| >= 2
    ensures (bytes[0] / 16) % 8 != 0 ==> ServerFrameLength(bytes) == Err(UnsupportedRsvBits)
    ensures (bytes[0] / 16) % 8 == 0 && OpcodeOf(bytes[0] % 16).None? ==> ServerFrameLength(bytes) == Err(UnsupportedOpcode)
    ensures (bytes[0] / 16) % 8 == 0 && OpcodeOf(bytes[0] % 16).Some? && bytes[1] >= 128 ==>
              ServerFrameLength(bytes) == Err(MaskedServerFrame)
  {
  }

  function ServerBytes(fs: seq<Frame>, forms: seq<Form>): seq<byte>
    requires |fs| == |forms| && forall i :: 0 <= i < |fs| ==> Holds(forms[i], |fs[i].payload|)
  {
    if fs == [] then [] else ServerFrame(fs[0], forms[0]) + ServerBytes(fs[1..], forms[1..])
  }

  // ----- the read buffer -----

  /** One socket read: some bytes, or a failure such as a timeout. The end of the list is the end of the stream. */
  datatype Chunk = Data(bytes: seq<byte>) | Fault

  ghost function Bytes(chunks: seq<Chunk>): seq<byte> {
    if chunks == [] then [] else (if chunks[0].Data? then chunks[0].bytes else []) + Bytes(chunks[1..])
  }

  /** A read of no bytes means the connection is closed, so a live stream has none. */
  ghost predicate Flowing(chunks: seq<Chunk>) {
    forall i :: 0 <= i < |chunks| && chunks[i].Data? ==> chunks[i].bytes != []
  }

  datatype Next = Got(frame: Frame, rest: seq<byte>) | Failed(error: Error) | Undecided

  /** What a buffer on its own decides. */
  function Decide(buffer: seq<byte>): Next {
    match ServerFrameLength(buffer)
    case Err(e) => Failed(e)
    case Ok(None) => Undecided
    case Ok(Some(n)) =>
      if |buffer| < n then Undecided
      else match Decode(buffer, MAX_PAYLOAD)
        case Err(e) => Failed(BadFrame(e))
        case Ok(d) => Got(d.frame, buffer[d.consumed..])
  }

  lemma DecideIsPrefixStable(buffer: seq<byte>, more: seq<byte>)
    requires !Decide(buffer).Undecided?
    ensures Decide(buffer).Failed? ==> Decide(buffer + more) == Decide(buffer)
    ensures Decide(buffer).Got? ==> Decide(buffer + more) == Got(Decide(buffer).frame, Decide(buffer).rest + more)
    ensures Decide(buffer).Got? ==> |Decide(buffer).rest| < |buffer|
  {
    LengthIsPrefixStable(buffer, more);
    if ServerFrameLength(buffer).Ok? {
      DecodeIsPrefixStable(buffer, more, MAX_PAYLOAD);
      if Decode(buffer, MAX_PAYLOAD).Ok? {
        var k := Decode(buffer, MAX_PAYLOAD).value.consumed;
        assert (buffer + more)[k..] == buffer[k..] + more;
      }
    }
  }

  /** A control frame that is accepted has a short payload. */
  lemma ControlIsShort(buffer: seq<byte>)
    requires Decide(buffer).Got? && Decide(buffer).frame.opcode in {Close, Ping, Pong}
    ensures |Decide(buffer).frame.payload| <= 125
  {
    DecodeIsPrefixStable(buffer, [], MAX_PAYLOAD);
  }

  datatype Outcome = Outcome(result: Result<Frame, Error>, buffer: seq<byte>, chunks: seq<Chunk>)

  /** `read_frame`: grow the buffer until it decides, the stream ends or a read fails. */
  function ReadFrame(buffer: seq<byte>, chunks: seq<Chunk>): Outcome
    decreases |chunks|
  {
    match Decide(buffer)
    case Failed(e) => Outcome(Err(e), buffer, chunks)
    case Got(f, rest) => Outcome(Ok(f), rest, chunks)
    case Undecided =>
      if chunks == [] then Outcome(Err(ConnectionClosed), buffer, [])
      else match chunks[0]
        case Fault => Outcome(Err(Io), buffer, chunks[1..])
        case Data(bytes) =>
          if bytes == [] then Outcome(Err(ConnectionClosed), buffer, chunks[1..])
          else ReadFrame(buffer + bytes, chunks[1..])
  }

  /** The frames of a whole stream, and the error that ends them. */
  datatype Stream = Stream(frames: seq<Frame>, error: Error)

  /** Parsing all the bytes at once. */
  ghost function ParseStream(all: seq<byte>): Stream
    decreases |all|
  {
    match Decide(all)
    case Failed(e) => Stream([], e)
    case Undecided => Stream([], ConnectionClosed)
    case Got(f, rest) =>
      DecideIsPrefixStable(all, []);
      var later := ParseStream(rest);
      Stream([f] + later.frames, later.error)
  }

  /** A stream of allowed frames is parsed to exactly those frames. */
  lemma {:induction false} ServerStreamIsParsed(fs: seq<Frame>, forms: seq<Form>)
    requires |fs| == |forms| && forall i :: 0 <= i < |fs| ==> Holds(forms[i], |fs[i].payload|)
    requires forall i :: 0 <= i < |fs| ==> ControlAllowed(fs[i]) && |fs[i].payload| <= MAX_PAYLOAD
    ensures ParseStream(ServerBytes(fs, forms)) == Stream(fs, ConnectionClosed)
  {
    if fs != [] {
      var head, rest := ServerFrame(fs[0], forms[0]), ServerBytes(fs[1..], forms[1..]);
      ServerStreamIsParsed(fs[1..], forms[1..]);
      DecidesServerFrame(fs[0], forms[0], rest);
      assert [fs[0]] + fs[1..] == fs;
    }
  }

  lemma DecidesServerFrame(f: Frame, form: Form, rest: seq<byte>)
    requires Holds(form, |f.payload|) && ControlAllowed(f) && |f.payload| <= MAX_PAYLOAD
    ensures Decide(ServerFrame(f, form) + rest) == Got(f, rest)
  {
    var head := ServerFrame(f, form);
    ServerFrameIsMeasured(f, form, rest);
    ServerFrameRoundTrip(f, form, rest, MAX_PAYLOAD);
    assert (head + rest)[|head|..] == rest;
  }

  /** What one `read_frame` on `all` remaining bytes may leave behind. */
  ghost predicate TakesOne(all: seq<byte>, o: Outcome) {
    var left := o.buffer + Bytes(o.chunks);
    match o.result
    case Ok(f) => Decide(all) == Got(f, left) && |left| < |all|
    case Err(Io) => left == all
    case Err(e) => ParseStream(all) == Stream([], e) && ParseStream(left) == Stream([], e)
  }

  lemma DecidedTakesOne(buffer: seq<byte>, chunks: seq<Chunk>)
    requires !Decide(buffer).Undecided?
    ensures TakesOne(buffer + Bytes(chunks), ReadFrame(buffer, chunks))
  {
    DecideIsPrefixStable(buffer, Bytes(chunks));
  }

  /** One `read_frame` takes one frame off the stream, or reports its error, or fails and loses nothing. */
  lemma {:induction false} ReadFrameTakesOne(buffer: seq<byte>, chunks: seq<Chunk>)
    requires Flowing(chunks)
    ensures var o := ReadFrame(buffer, chunks);
      && TakesOne(buffer + Bytes(chunks), o)
      && Flowing(o.chunks) && |o.chunks| <= |chunks| && (o.result == Err(Io) ==> |o.chunks| < |chunks|)
    decreases |chunks|
  {
    if !Decide(buffer).Undecided? {
      DecidedTakesOne(buffer, chunks);
    } else if chunks == [] {
      assert buffer + Bytes(chunks) == buffer;
    } else if chunks[0].Fault? {
      assert Bytes(chunks) == Bytes(chunks[1..]);
    } else {
      ReadFrameTakesOne(buffer + chunks[0].bytes, chunks[1..]);
      assert buffer + (chunks[0].bytes + Bytes(chunks[1..])) == (buffer + chunks[0].bytes) + Bytes(chunks[1..]);
    }
  }

  /** Calling `read_frame` again and again, retrying after failed reads. */
  ghost function ReadAll(buffer: seq<byte>, chunks: seq<Chunk>): Stream
    requires Flowing(chunks)
    decreases |chunks| + |buffer + Bytes(chunks)|
  {
    ReadFrameTakesOne(buffer, chunks);
    var o := ReadFrame(buffer, chunks);
    if o.result.Ok? then
      var later := ReadAll(o.buffer, o.chunks);
      Stream([o.result.value] + later.frames, later.error)
    else if o.result == Err(Io) then ReadAll(o.buffer, o.chunks)
    else Stream([], o.result.error)
  }

  /**
   However the socket splits the bytes, and however many reads fail in between,
   the frames and the first error are those of parsing the whole stream at once.
   */
  lemma {:induction false} ChunkingIndependence(buffer: seq<byte>, chunks: seq<Chunk>)
    requires Flowing(chunks)
    ensures ReadAll(buffer, chunks) == ParseStream(buffer + Bytes(chunks))
    decreases |chunks| + |buffer + Bytes(chunks)|
  {
    ReadFrameTakesOne(buffer, chunks);
    var o := ReadFrame(buffer, chunks);
    if o.result.Ok? || o.result == Err(Io) {
      ChunkingIndependence(o.buffer, o.chunks);
    }
  }
}
