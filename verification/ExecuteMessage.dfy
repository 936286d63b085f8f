/** The relayer's execute message: built as nested cells, wrapped by the wallet, and read back from the wrapping. */
module ExecuteMessage {
  import opened Prelude
  import opened Cells

  const OP_RELAYER_EXECUTE: nat := 0x00000008
  const OP_INTERNAL_TRANSFER: nat := 0xae42e5a4
  const ACTION_SEND_MSG: nat := 0x0ec3c86d
  const SEND_MODE_IGNORE_ERRORS: nat := 2

  predicate Tail(b: Byte) {
    0x80 <= b <= 0xBF
  }

  /** Well-formed UTF-8, as in the table of section 4 of RFC 3629. */
  predicate IsUtf8(s: seq<Byte>) {
    if s == [] then true
    else if s[0] <= 0x7F then IsUtf8(s[1..])
    else if 0xC2 <= s[0] <= 0xDF then |s| >= 2 && Tail(s[1]) && IsUtf8(s[2..])
    else if 0xE0 <= s[0] <= 0xEF then
      && |s| >= 3 && Tail(s[1]) && Tail(s[2])
      && (s[0] == 0xE0 ==> s[1] >= 0xA0) && (s[0] == 0xED ==> s[1] <= 0x9F)
      && IsUtf8(s[3..])
    else if 0xF0 <= s[0] <= 0xF4 then
      && |s| >= 4 && Tail(s[1]) && Tail(s[2]) && Tail(s[3])
      && (s[0] == 0xF0 ==> s[1] >= 0x90) && (s[0] == 0xF4 ==> s[1] <= 0x8F)
      && IsUtf8(s[4..])
    else false
  }

  /** A Unicode scalar value. */
  type Scalar = c: nat | c < 0xD800 || 0xE000 <= c < 0x110000

  function EncodeScalar(c: Scalar): seq<Byte> {
    if c < 0x80 then [c]
    else if c < 0x800 then [0xC0 + c / 64, 0x80 + c % 64]
    else if c < 0x10000 then [0xE0 + c / 4096, 0x80 + c / 64 % 64, 0x80 + c % 64]
    else [0xF0 + c / 262144, 0x80 + c / 4096 % 64, 0x80 + c / 64 % 64, 0x80 + c % 64]
  }

  function Encode(cs: seq<Scalar>): seq<Byte> {
    if cs == [] then [] else EncodeScalar(cs[0]) + Encode(cs[1..])
  }

  /** One to four bytes, each in its range. */
  lemma EncodedShape(c: Scalar)
    ensures var s := EncodeScalar(c);
            || (|s| == 1 && s[0] <= 0x7F)
            || (|s| == 2 && 0xC2 <= s[0] <= 0xDF && Tail(s[1]))
            || (|s| == 3 && 0xE0 <= s[0] <= 0xEF && Tail(s[1]) && Tail(s[2])
                && (s[0] == 0xE0 ==> s[1] >= 0xA0) && (s[0] == 0xED ==> s[1] <= 0x9F))
            || (|s| == 4 && 0xF0 <= s[0] <= 0xF4 && Tail(s[1]) && Tail(s[2]) && Tail(s[3])
                && (s[0] == 0xF0 ==> s[1] >= 0x90) && (s[0] == 0xF4 ==> s[1] <= 0x8F))
  {
  }

  lemma EncodedFirst(c: Scalar, rest: seq<Byte>)
    requires IsUtf8(rest)
    ensures IsUtf8(EncodeScalar(c) + rest)
  {
    hide EncodeScalar;
    var head := EncodeScalar(c);
    EncodedShape(c);
    assert (head + rest)[|head|..] == rest;
  }

  lemma {:induction false} EncodedIsUtf8(cs: seq<Scalar>)
    ensures IsUtf8(Encode(cs))
  {
    if cs != [] {
      hide IsUtf8, EncodeScalar;
      EncodedIsUtf8(cs[1..]);
      EncodedFirst(cs[0], Encode(cs[1..]));
    }
  }

  lemma TwoBytes(b0: Byte, b1: Byte) returns (c: Scalar)
    requires 0xC2 <= b0 <= 0xDF && Tail(b1)
    ensures EncodeScalar(c) == [b0, b1]
  {
    var x: int, y: int := b0 - 0xC0, b1 - 0x80;
    c := x * 64 + y;
    assert c / 64 == x && c % 64 == y;
  }

  lemma ThreeBytes(b0: Byte, b1: Byte, b2: Byte) returns (c: Scalar)
    requires 0xE0 <= b0 <= 0xEF && Tail(b1) && Tail(b2)
    requires (b0 == 0xE0 ==> b1 >= 0xA0) && (b0 == 0xED ==> b1 <= 0x9F)
    ensures EncodeScalar(c) == [b0, b1, b2]
  {
    var x: int, y: int, z: int := b0 - 0xE0, b1 - 0x80, b2 - 0x80;
    c := x * 4096 + y * 64 + z;
    assert c / 4096 == x && c / 64 == x * 64 + y && c % 64 == z && (x * 64 + y) % 64 == y;
  }

  lemma FourBytes(b0: Byte, b1: Byte, b2: Byte, b3: Byte) returns (c: Scalar)
    requires 0xF0 <= b0 <= 0xF4 && Tail(b1) && Tail(b2) && Tail(b3)
    requires (b0 == 0xF0 ==> b1 >= 0x90) && (b0 == 0xF4 ==> b1 <= 0x8F)
    ensures EncodeScalar(c) == [b0, b1, b2, b3]
  {
    var w: int, x: int, y: int, z: int := b0 - 0xF0, b1 - 0x80, b2 - 0x80, b3 - 0x80;
    c := w * 262144 + x * 4096 + y * 64 + z;
    assert c / 262144 == w && c / 4096 == w * 64 + x && c / 64 == w * 4096 + x * 64 + y && c % 64 == z;
    assert (w * 64 + x) % 64 == x && (w * 4096 + x * 64 + y) % 64 == y;
  }

  /** The scalar at the front of a well-formed string. */
  lemma FirstScalar(s: seq<Byte>) returns (c: Scalar)
    requires IsUtf8(s) && s != []
    ensures var n := |EncodeScalar(c)|; n <= |s| && s[..n] == EncodeScalar(c) && IsUtf8(s[n..])
  {
    hide EncodeScalar;
    if s[0] <= 0x7F {
      c := OneByte(s[0]);
    } else if s[0] <= 0xDF {
      c := TwoBytes(s[0], s[1]);
    } else if s[0] <= 0xEF {
      c := ThreeBytes(s[0], s[1], s[2]);
    } else {
      c := FourBytes(s[0], s[1], s[2], s[3]);
    }
  }

  lemma OneByte(b: Byte) returns (c: Scalar)
    requires b <= 0x7F
    ensures EncodeScalar(c) == [b]
  {
    c := b;
  }

  lemma {:induction false} Decoded(s: seq<Byte>) returns (cs: seq<Scalar>)
    requires IsUtf8(s)
    ensures Encode(cs) == s
    decreases |s|
  {
    cs := [];
    if s != [] {
      hide IsUtf8;
      var c := FirstScalar(s);
      var n := |EncodeScalar(c)|;
      var rest := Decoded(s[n..]);
      cs := [c] + rest;
      assert cs[1..] == rest && s == s[..n] + s[n..];
    }
  }

  /** Well-formed UTF-8 is exactly what encoding scalar values gives. */
  lemma Utf8Exact(s: seq<Byte>)
    ensures IsUtf8(s) <==> exists cs: seq<Scalar> :: Encode(cs) == s
  {
    hide IsUtf8, Encode;
    if cs: seq<Scalar> :| Encode(cs) == s {
      EncodedIsUtf8(cs);
    }
    if IsUtf8(s) {
      var cs := Decoded(s);
    }
  }

  /** A Rust `String`, by its bytes. */
  type Text = s: seq<Byte> | IsUtf8(s) witness []

  type Hash = s: seq<Byte> | |s| == 32 witness seq(32, _ => 0)

  datatype TonAddress = TonAddress(workchain: int, hashPart: Hash)

  datatype RelayerExecuteMessage = RelayerExecuteMessage(
    messageId: Text, sourceChain: Text, sourceAddress: Text, destinationChain: Text,
    destinationAddress: TonAddress, payload: string, relayerAddress: TonAddress)

  function HexDigit(c: char): Option<nat> {
    if '0' <= c <= '9' then Some(c as int - '0' as int)
    else if 'a' <= c <= 'f' then Some(10 + c as int - 'a' as int)
    else if 'A' <= c <= 'F' then Some(10 + c as int - 'A' as int)
    else None
  }

  function HexDecode(s: string): (r: Result<seq<Byte>, BocError>)
    ensures r.Ok? <==> |s| % 2 == 0 && forall i :: 0 <= i < |s| ==> HexDigit(s[i]).Some?
    ensures r.Ok? ==> |r.value| == |s| / 2
    ensures r.Err? ==> r.error == BocParsingError
  {
    if s == [] then Ok([])
    else if |s| == 1 then Err(BocParsingError)
    else
      var hi, lo := HexDigit(s[0]), HexDigit(s[1]);
      if hi.None? || lo.None? then Err(BocParsingError)
      else
        assert forall i :: 0 <= i < |s| - 2 ==> s[2..][i] == s[i + 2];
        match HexDecode(s[2..])
        case Err(e) =>
          assert |s| % 2 == |s[2..]| % 2;
          Err(e)
        case Ok(rest) =>
          assert forall i :: 2 <= i < |s| ==> s[i] == s[2..][i - 2];
          Ok([16 * hi.value + lo.value] + rest)
  }

  /** Two digits make a byte, the higher one first. */
  lemma {:induction false} HexBytes(s: string, i: nat)
    requires HexDecode(s).Ok? && i < |HexDecode(s).value|
    ensures HexDigit(s[2 * i]).Some? && HexDigit(s[2 * i + 1]).Some?
    ensures HexDecode(s).value[i] == 16 * HexDigit(s[2 * i]).value + HexDigit(s[2 * i + 1]).value
  {
    if i > 0 {
      HexBytes(s[2..], i - 1);
      assert s[2..][2 * (i - 1)] == s[2 * i] && s[2..][2 * (i - 1) + 1] == s[2 * i + 1];
    }
  }

  /** Digits in both cases, and nothing else. */
  lemma HexDigits(c: char, d: nat)
    requires d < 16
    ensures HexDigit("0123456789abcdef"[d]) == Some(d) && HexDigit("0123456789ABCDEF"[d]) == Some(d)
    ensures HexDigit(c).Some? <==> '0' <= c <= '9' || 'a' <= c <= 'f' || 'A' <= c <= 'F'
  {
  }

  /** addr_std: 267 bits. */
  function AddressBits(a: TonAddress): (bits: seq<bool>)
    ensures |bits| == 267
  {
    [true, false, false] + BitsOf(8, a.workchain % 256) + ByteBits(a.hashPart)
  }

  /** The cell tree of the message. */
  function MessageCell(m: RelayerExecuteMessage, payload: seq<Byte>, hash: nat): Cell {
    var inner := Cell(BitsOf(256, hash),
                      [Chain(payload), Chain(m.destinationAddress.hashPart), Chain(m.destinationChain)]);
    var message := Cell([], [Chain(m.messageId), Chain(m.sourceChain), Chain(m.sourceAddress), inner]);
    Cell(BitsOf(32, OP_RELAYER_EXECUTE) + AddressBits(m.relayerAddress), [message])
  }

  lemma OpFits()
    ensures OP_RELAYER_EXECUTE < Pow2(32) && OP_INTERNAL_TRANSFER < Pow2(32) && ACTION_SEND_MSG < Pow2(32)
  {
    assert Pow2(8) == 256;
    assert Pow2(16) == 65536;
    assert Pow2(24) == 16777216;
  }

  method BuildInner(payload: Cell, destinationAddress: Cell, destinationChain: Cell, hash: nat)
    returns (r: Result<Cell, BocError>)
    requires hash < Pow2(256)
    ensures r == Ok(Cell(BitsOf(256, hash), [payload, destinationAddress, destinationChain]))
  {
    hide BitsOf, Pow2;
    var inner := new CellBuilder();
    inner.StoreReference(payload);
    inner.StoreReference(destinationAddress);
    inner.StoreReference(destinationChain);
    var ok := inner.StoreUint(256, hash);
    assert Cell(inner.bits, inner.refs) == Cell(BitsOf(256, hash), [payload, destinationAddress, destinationChain]);
    r := inner.Build();
  }

  method BuildMessage(messageId: Cell, sourceChain: Cell, sourceAddress: Cell, inner: Cell)
    returns (r: Result<Cell, BocError>)
    ensures r == Ok(Cell([], [messageId, sourceChain, sourceAddress, inner]))
  {
    var message := new CellBuilder();
    message.StoreReference(messageId);
    message.StoreReference(sourceChain);
    message.StoreReference(sourceAddress);
    message.StoreReference(inner);
    assert message.refs == [messageId, sourceChain, sourceAddress, inner];
    r := message.Build();
  }

  method BuildOuter(message: Cell, relayer: TonAddress) returns (r: Result<Cell, BocError>)
    ensures r == Ok(Cell(BitsOf(32, OP_RELAYER_EXECUTE) + AddressBits(relayer), [message]))
  {
    hide BitsOf, ByteBits, Pow2;
    var outer := new CellBuilder();
    OpFits();
    var ok := outer.StoreUint(32, OP_RELAYER_EXECUTE);
    outer.StoreReference(message);
    outer.StoreBits(AddressBits(relayer));
    assert Cell(outer.bits, outer.refs) == Cell(BitsOf(32, OP_RELAYER_EXECUTE) + AddressBits(relayer), [message]);
    r := outer.Build();
  }

  /** `bits` starts with `v` in `width` bits. */
  lemma FieldAtFront(width: nat, v: nat, rest: seq<bool>)
    requires v < Pow2(width)
    ensures var bits := BitsOf(width, v) + rest; bits[width..] == rest && ValueOf(bits[..width]) == v
  {
    ValueOfBits(width, v);
    assert (BitsOf(width, v) + rest)[..width] == BitsOf(width, v);
  }

  /** The bits of an address say which one it is. */
  ghost predicate IsAddress(bits: seq<bool>, a: TonAddress) {
    && |bits| == 267 && bits[..3] == [true, false, false]
    && ValueOf(bits[3..11]) == a.workchain % 256 && TakeBytes(bits[11..], 32) == a.hashPart
  }

  lemma AddressIsReadable(a: TonAddress)
    ensures IsAddress(AddressBits(a), a)
  {
    hide BitsOf, ByteBits, ValueOf, TakeBytes;
    var bits := AddressBits(a);
    assert Pow2(8) == 256;
    var rest := BitsOf(8, a.workchain % 256) + ByteBits(a.hashPart);
    FieldAtFront(8, a.workchain % 256, ByteBits(a.hashPart));
    TakeBytesOfBits(a.hashPart, 32);
    assert bits[3..] == rest && bits[3..11] == rest[..8] && bits[11..] == rest[8..];
  }

  /** Every field stands where it belongs: `c` is the message `m` with this payload and hash. */
  ghost predicate Holds(c: Cell, m: RelayerExecuteMessage, payload: seq<Byte>, hash: nat) {
    && |c.bits| == 299 && ValueOf(c.bits[..32]) == 8 && IsAddress(c.bits[32..], m.relayerAddress)
    && |c.refs| == 1 && c.refs[0].bits == [] && |c.refs[0].refs| == 4
    && var message := c.refs[0].refs;
       && Buffer(message[0]) == m.messageId && Buffer(message[1]) == m.sourceChain
       && Buffer(message[2]) == m.sourceAddress
       && |message[3].bits| == 256 && ValueOf(message[3].bits) == hash && |message[3].refs| == 3
       && Buffer(message[3].refs[0]) == payload && Buffer(message[3].refs[1]) == m.destinationAddress.hashPart
       && Buffer(message[3].refs[2]) == m.destinationChain
  }

  lemma MessageHoldsItsFields(m: RelayerExecuteMessage, payload: seq<Byte>, hash: nat)
    requires hash < Pow2(256)
    ensures Holds(MessageCell(m, payload, hash), m, payload, hash)
  {
    hide BitsOf, Chain, Buffer, ValueOf, Pow2, AddressBits, IsAddress;
    OpFits();
    FieldAtFront(32, OP_RELAYER_EXECUTE, AddressBits(m.relayerAddress));
    AddressIsReadable(m.relayerAddress);
    ValueOfBits(256, hash);
    ChainRoundTrip(m.messageId);
    ChainRoundTrip(m.sourceChain);
    ChainRoundTrip(m.sourceAddress);
    ChainRoundTrip(payload);
    ChainRoundTrip(m.destinationAddress.hashPart);
    ChainRoundTrip(m.destinationChain);
  }

  /** No cell of the tree exceeds 1023 bits or 4 references, whatever the lengths of the strings. */
  lemma MessageWithinLimits(m: RelayerExecuteMessage, payload: seq<Byte>, hash: nat)
    ensures WithinLimits(MessageCell(m, payload, hash))
  {
    hide BitsOf, ByteBits, Chain;
    forall bytes: seq<Byte> ensures WithinLimits(Chain(bytes)) {
      ChainWithinLimits(bytes);
    }
    var message := MessageCell(m, payload, hash).refs[0];
    assert WithinLimits(message.refs[3]);
    assert WithinLimits(message);
  }

  /** Fails exactly on a payload that is not hex; otherwise every cell respects the limits, whatever the lengths. */
  method ToCell(m: RelayerExecuteMessage, payloadHash: seq<Byte> -> nat) returns (r: Result<Cell, BocError>)
    requires forall b :: payloadHash(b) < Pow2(256)
    ensures r.Ok? <==> HexDecode(m.payload).Ok?
    ensures r.Ok? ==>
              && r.value == MessageCell(m, HexDecode(m.payload).value, payloadHash(HexDecode(m.payload).value))
              && WithinLimits(r.value)
              && Holds(r.value, m, HexDecode(m.payload).value, payloadHash(HexDecode(m.payload).value))
    ensures r.Err? ==> r.error == BocParsingError
  {
    hide BitsOf, ByteBits, Chain, Buffer, Pow2, Holds, WithinLimits, HexDecode;
    var messageId := BufferToCell(m.messageId);
    var sourceChain := BufferToCell(m.sourceChain);
    var sourceAddress := BufferToCell(m.sourceAddress);
    var destinationChain := BufferToCell(m.destinationChain);
    var destinationAddress := BufferToCell(m.destinationAddress.hashPart);
    if messageId.Err? || sourceChain.Err? || sourceAddress.Err? || destinationChain.Err? || destinationAddress.Err? {
      return Err(BocParsingError);
    }
    var payloadBytes :- HexDecode(m.payload);
    var payload := BufferToCell(payloadBytes);
    if payload.Err? {
      return Err(BocParsingError);
    }
    var inner := BuildInner(payload.value, destinationAddress.value, destinationChain.value, payloadHash(payloadBytes));
    if inner.Err? {
      return inner;
    }
    var message := BuildMessage(messageId.value, sourceChain.value, sourceAddress.value, inner.value);
    if message.Err? {
      return message;
    }
    r := BuildOuter(message.value, m.relayerAddress);
    MessageWithinLimits(m, payloadBytes, payloadHash(payloadBytes));
    MessageHoldsItsFields(m, payloadBytes, payloadHash(payloadBytes));
  }

  // ----- the wallet's wrapping -----

  /** A transfer message: some header, and the body as first reference. */
  function TransferMessage(header: seq<bool>, body: Cell): Cell {
    Cell(header, [body])
  }

  /** The action list: each cell refers to the list so far and to the message of its action. */
  function OutList(messages: seq<Cell>): Cell {
    if messages == [] then Cell([], [])
    else Cell(BitsOf(32, ACTION_SEND_MSG) + BitsOf(8, SEND_MODE_IGNORE_ERRORS),
              [OutList(messages[..|messages| - 1]), messages[|messages| - 1]])
  }

  function TransferBody(messages: seq<Cell>, queryId: nat): Cell {
    Cell(BitsOf(32, OP_INTERNAL_TRANSFER) + BitsOf(64, queryId), [OutList(messages)])
  }

  /** An action list tells its actions apart: each with its tag and mode, the list before it and its message. */
  lemma OutListFields(messages: seq<Cell>)
    ensures messages == [] ==> OutList(messages) == Cell([], [])
    ensures messages != [] ==>
              var c, n := OutList(messages), |messages| - 1;
              && |c.bits| == 40 && ValueOf(c.bits[..32]) == 0x0ec3c86d && ValueOf(c.bits[32..]) == 2
              && c.refs == [OutList(messages[..n]), messages[n]]
  {
    OpFits();
    assert Pow2(8) == 256;
    FieldAtFront(32, ACTION_SEND_MSG, BitsOf(8, SEND_MODE_IGNORE_ERRORS));
    ValueOfBits(8, SEND_MODE_IGNORE_ERRORS);
  }

  lemma TransferBodyFields(messages: seq<Cell>, queryId: nat)
    requires queryId < Pow2(64)
    ensures var c := TransferBody(messages, queryId);
            && |c.bits| == 96 && ValueOf(c.bits[..32]) == 0xae42e5a4 && ValueOf(c.bits[32..]) == queryId
            && c.refs == [OutList(messages)]
  {
    hide BitsOf, Pow2, OutList, ValueOf;
    OpFits();
    FieldAtFront(32, OP_INTERNAL_TRANSFER, BitsOf(64, queryId));
    ValueOfBits(64, queryId);
  }

  method InternalTransferBody(messages: seq<Cell>, queryId: nat) returns (r: Result<Cell, BocError>)
    requires |messages| <= 254 && queryId < Pow2(64)
    ensures r == Ok(TransferBody(messages, queryId))
    ensures |r.value.bits| == 96 && ValueOf(r.value.bits[..32]) == 0xae42e5a4
    ensures ValueOf(r.value.bits[32..]) == queryId && r.value.refs == [OutList(messages)]
  {
    hide BitsOf, Pow2, OutList, ValueOf;
    TransferBodyFields(messages, queryId);
    var b := new CellBuilder();
    OpFits();
    var opFits := b.StoreUint(32, OP_INTERNAL_TRANSFER);
    var idFits := b.StoreUint(64, queryId);
    b.StoreReference(OutList(messages));
    assert Cell(b.bits, b.refs) == TransferBody(messages, queryId);
    r := b.Build();
  }

  // ----- reading it back -----

  datatype Wrapped = Wrapped(messageId: Text, sourceChain: Text)

  function Ref(c: Cell, i: nat): Result<Cell, BocError> {
    if i < |c.refs| then Ok(c.refs[i]) else Err(BocParsingError)
  }

  function FromUtf8(bytes: seq<Byte>): Result<Text, BocError> {
    if IsUtf8(bytes) then Ok(bytes) else Err(BocParsingError)
  }

  /** The way from the wallet's body through the action list to the message. */
  function MessageIn(c: Cell): Result<Cell, BocError> {
    var list :- Ref(c, 0);
    var _ :- Ref(list, 0);
    var transfer :- Ref(list, 1);
    var body :- Ref(transfer, 0);
    Ref(body, 0)
  }

  /** The reference walk, for any cell at all. */
  function Walk(c: Cell): Result<Wrapped, BocError> {
    var message :- MessageIn(c);
    var idCell :- Ref(message, 0);
    var id :- FromUtf8(Buffer(idCell));
    var chainCell :- Ref(message, 1);
    var chain :- FromUtf8(Buffer(chainCell));
    Ok(Wrapped(id, chain))
  }

  /** The references on the walk's path exist and end at `message`. */
  ghost predicate LeadsTo(c: Cell, message: Cell) {
    && |c.refs| > 0 && |c.refs[0].refs| > 1
    && var transfer := c.refs[0].refs[1];
       |transfer.refs| > 0 && |transfer.refs[0].refs| > 0 && message == transfer.refs[0].refs[0]
  }

  /** The walk succeeds exactly if its path exists and both strings are UTF-8, and returns those strings. */
  lemma WalkExact(c: Cell)
    ensures Walk(c).Ok? <==>
              exists message :: LeadsTo(c, message) && |message.refs| > 1
                && IsUtf8(Buffer(message.refs[0])) && IsUtf8(Buffer(message.refs[1]))
    ensures forall message :: Walk(c).Ok? && LeadsTo(c, message) && |message.refs| > 1 ==>
              Walk(c).value.messageId == Buffer(message.refs[0]) && Walk(c).value.sourceChain == Buffer(message.refs[1])
    ensures Walk(c).Err? ==> Walk(c).error == BocParsingError
  {
    hide Buffer, IsUtf8;
    if MessageIn(c).Ok? {
      assert LeadsTo(c, MessageIn(c).value);
    }
  }

  method CellToString(c: Cell) returns (r: Result<Text, BocError>)
    ensures r == FromUtf8(Buffer(c))
  {
    var bytes := CellToBuffer(c);
    r := FromUtf8(bytes);
  }

  method FindMessage(cell: Cell) returns (r: Result<Cell, BocError>)
    ensures r == MessageIn(cell)
  {
    var outerParser := new CellParser(cell);
    var list :- outerParser.NextReference();
    var listParser := new CellParser(list);
    var _ :- listParser.NextReference();
    var transfer :- listParser.NextReference();
    var transferParser := new CellParser(transfer);
    var body :- transferParser.NextReference();
    var bodyParser := new CellParser(body);
    r := bodyParser.NextReference();
  }

  method FromCell(cell: Cell) returns (r: Result<Wrapped, BocError>)
    ensures r == Walk(cell)
  {
    hide Buffer, IsUtf8, FromUtf8, MessageIn;
    var message :- FindMessage(cell);
    var parser := new CellParser(message);
    var idCell :- parser.NextReference();
    var messageId :- CellToString(idCell);
    var chainCell :- parser.NextReference();
    var sourceChain :- CellToString(chainCell);
    r := Ok(Wrapped(messageId, sourceChain));
  }

  /**
   * Whatever the other fields, the payload, the header and the query id, the walk recovers message id and
   * source chain.
   */
  lemma WrappedRoundTrip(m: RelayerExecuteMessage, payload: seq<Byte>, hash: nat, header: seq<bool>,
                         earlier: seq<Cell>, queryId: nat)
    ensures var execute := TransferMessage(header, MessageCell(m, payload, hash));
            Walk(TransferBody(earlier + [execute], queryId)) == Ok(Wrapped(m.messageId, m.sourceChain))
  {
    hide BitsOf, Buffer, Chain, IsUtf8;
    var messages := earlier + [TransferMessage(header, MessageCell(m, payload, hash))];
    assert messages[..|messages| - 1] == earlier;
    ChainRoundTrip(m.messageId);
    ChainRoundTrip(m.sourceChain);
  }

  /** The whole path of one broadcast, from the message to the strings read back. */
  method SendAndRead(m: RelayerExecuteMessage, payloadHash: seq<Byte> -> nat, header: seq<bool>, queryId: nat)
    returns (r: Result<Wrapped, BocError>)
    requires forall b :: payloadHash(b) < Pow2(256)
    requires queryId < Pow2(64)
    ensures r == if HexDecode(m.payload).Ok? then Ok(Wrapped(m.messageId, m.sourceChain)) else Err(BocParsingError)
  {
    hide Walk, TransferBody, MessageCell, HexDecode, Pow2, WithinLimits, Holds, OutList, ValueOf;
    var cell :- ToCell(m, payloadHash);
    var messages := [TransferMessage(header, cell)];
    var body := InternalTransferBody(messages, queryId);
    if body.Err? {
      return Err(BocEncodingError);
    }
    r := FromCell(body.value);
    assert [] + messages == messages;
    WrappedRoundTrip(m, HexDecode(m.payload).value, payloadHash(HexDecode(m.payload).value), header, [], queryId);
  }
}
