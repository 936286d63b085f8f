/** Cells, and byte strings stored as chains of cells with 96 bytes each. */
module Cells {
  import opened Prelude

  type Byte = b: int | 0 <= b < 256

  datatype Cell = Cell(bits: seq<bool>, refs: seq<Cell>)

  const MAX_CELL_BITS := 1023
  const MAX_CELL_REFERENCES := 4
  const BYTES_PER_CELL := 96

  datatype BocError = BocEncodingError | BocParsingError

  predicate WithinLimits(c: Cell) {
    && |c.bits| <= MAX_CELL_BITS
    && |c.refs| <= MAX_CELL_REFERENCES
    && forall i :: 0 <= i < |c.refs| ==> WithinLimits(c.refs[i])
  }

  function Pow2(n: nat): (p: nat)
    ensures p > 0
  {
    if n == 0 then 1 else 2 * Pow2(n - 1)
  }

  /** `v` in `width` bits, most significant first; higher bits are dropped. */
  function BitsOf(width: nat, v: nat): (bits: seq<bool>)
    ensures |bits| == width
  {
    if width == 0 then [] else BitsOf(width - 1, v / 2) + [v % 2 == 1]
  }

  function ValueOf(bits: seq<bool>): nat {
    if bits == [] then 0 else 2 * ValueOf(bits[..|bits| - 1]) + if bits[|bits| - 1] then 1 else 0
  }

  lemma {:induction false} ValueOfBits(width: nat, v: nat)
    requires v < Pow2(width)
    ensures ValueOf(BitsOf(width, v)) == v
  {
    if width > 0 {
      ValueOfBits(width - 1, v / 2);
      assert BitsOf(width, v)[..width - 1] == BitsOf(width - 1, v / 2);
    }
  }

  lemma {:induction false} BitsOfValue(bits: seq<bool>)
    ensures ValueOf(bits) < Pow2(|bits|) && BitsOf(|bits|, ValueOf(bits)) == bits
  {
    if bits != [] {
      BitsOfValue(bits[..|bits| - 1]);
      assert bits == bits[..|bits| - 1] + [bits[|bits| - 1]];
    }
  }

  lemma ByteRange(bits: seq<bool>)
    requires |bits| == 8
    ensures ValueOf(bits) < 256
  {
    BitsOfValue(bits);
  }

  lemma HalfThenQuotient(v: nat, p: nat)
    requires p > 0
    ensures v / 2 / p == v / (2 * p)
  {
    var q, r, b := v / 2 / p, v / 2 % p, v % 2;
    assert v == (2 * p) * q + (2 * r + b) && 0 <= 2 * r + b < 2 * p;
    QuotientIs(v, 2 * p, q, 2 * r + b);
  }

  lemma QuotientIs(v: nat, d: nat, q: nat, r: nat)
    requires d > 0 && v == d * q + r && r < d
    ensures v / d == q
  {
    var q', r' := v / d, v % d;
    assert d * q' + r' == d * q + r;
    if q' < q {
      Multiples(d, q' + 1, q);
    } else if q < q' {
      Multiples(d, q + 1, q');
    }
  }

  lemma Multiples(d: nat, x: nat, y: nat)
    requires x <= y
    ensures d * x <= d * y
  {
  }

  /** The most significant bit comes first. */
  lemma {:induction false} BitAt(width: nat, v: nat, i: nat)
    requires i < width
    ensures BitsOf(width, v)[i] <==> v / Pow2(width - 1 - i) % 2 == 1
  {
    if i < width - 1 {
      BitAt(width - 1, v / 2, i);
      HalfThenQuotient(v, Pow2(width - 2 - i));
    }
  }

  class CellBuilder {
    var bits: seq<bool>
    var refs: seq<Cell>

    constructor ()
      ensures bits == [] && refs == []
    {
      bits, refs := [], [];
    }

    method StoreUint(width: nat, v: nat) returns (ok: bool)
      modifies this
      ensures ok <==> v < Pow2(width)
      ensures bits == if ok then old(bits) + BitsOf(width, v) else old(bits)
      ensures refs == old(refs)
    {
      ok := v < Pow2(width);
      if ok {
        bits := bits + BitsOf(width, v);
      }
    }

    method StoreBits(more: seq<bool>)
      modifies this
      ensures bits == old(bits) + more && refs == old(refs)
    {
      bits := bits + more;
    }

    method StoreReference(c: Cell)
      modifies this
      ensures bits == old(bits) && refs == old(refs) + [c]
    {
      refs := refs + [c];
    }

    method Build() returns (r: Result<Cell, BocError>)
      ensures r.Ok? <==> |bits| <= MAX_CELL_BITS && |refs| <= MAX_CELL_REFERENCES
      ensures r.Ok? ==> r.value == Cell(bits, refs)
      ensures r.Err? ==> r.error == BocEncodingError
    {
      if |bits| > MAX_CELL_BITS || |refs| > MAX_CELL_REFERENCES {
        return Err(BocEncodingError);
      }
      r := Ok(Cell(bits, refs));
    }
  }

  class CellParser {
    const cell: Cell
    var position: nat   // bits already read
    var nextRef: nat    // references already read

    ghost predicate Valid()
      reads this
    {
      position <= |cell.bits| && nextRef <= |cell.refs|
    }

    constructor (cell: Cell)
      ensures Valid() && this.cell == cell && position == 0 && nextRef == 0
    {
      this.cell := cell;
      position, nextRef := 0, 0;
    }

    method LoadUint(width: nat) returns (r: Result<nat, BocError>)
      requires Valid()
      modifies this
      ensures Valid() && nextRef == old(nextRef)
      ensures r.Ok? <==> old(position) + width <= |cell.bits|
      ensures r.Ok? ==> position == old(position) + width && r.value == ValueOf(cell.bits[old(position)..position])
      ensures r.Err? ==> position == old(position)
    {
      if position + width > |cell.bits| {
        return Err(BocParsingError);
      }
      position := position + width;
      r := Ok(ValueOf(cell.bits[position - width..position]));
    }

    method NextReference() returns (r: Result<Cell, BocError>)
      requires Valid()
      modifies this
      ensures Valid() && position == old(position)
      ensures r == if old(nextRef) < |cell.refs| then Ok(cell.refs[old(nextRef)]) else Err(BocParsingError)
      ensures nextRef == if r.Ok? then old(nextRef) + 1 else old(nextRef)
    {
      if nextRef >= |cell.refs| {
        return Err(BocParsingError);
      }
      nextRef := nextRef + 1;
      r := Ok(cell.refs[nextRef - 1]);
    }
  }

  // ----- writing -----

  function ByteBits(bytes: seq<Byte>): (bits: seq<bool>)
    ensures |bits| == 8 * |bytes|
  {
    if bytes == [] then [] else BitsOf(8, bytes[0]) + ByteBits(bytes[1..])
  }

  /** The chain that holds `bytes`. */
  function Chain(bytes: seq<Byte>): Cell
    decreases |bytes|
  {
    if |bytes| <= BYTES_PER_CELL then Cell(ByteBits(bytes), [])
    else Cell(ByteBits(bytes[..BYTES_PER_CELL]), [Chain(bytes[BYTES_PER_CELL..])])
  }

  lemma {:induction false} ByteBitsAppend(bytes: seq<Byte>, b: Byte)
    ensures ByteBits(bytes + [b]) == ByteBits(bytes) + BitsOf(8, b)
  {
    if bytes == [] {
      assert bytes + [b] == [b] && [b][1..] == [];
    } else {
      assert (bytes + [b])[1..] == bytes[1..] + [b];
      ByteBitsAppend(bytes[1..], b);
    }
  }

  /** The inner loop: one `store_uint(8, byte)` per byte. */
  method StoreBytes(builder: CellBuilder, bytes: seq<Byte>) returns (ok: bool)
    modifies builder
    ensures ok && builder.refs == old(builder.refs) && builder.bits == old(builder.bits) + ByteBits(bytes)
  {
    hide BitsOf;
    assert Pow2(8) == 256;
    for i := 0 to |bytes|
      invariant builder.refs == old(builder.refs) && builder.bits == old(builder.bits) + ByteBits(bytes[..i])
    {
      assert ByteBits(bytes[..i + 1]) == ByteBits(bytes[..i]) + BitsOf(8, bytes[i]) by {
        ByteBitsAppend(bytes[..i], bytes[i]);
        assert bytes[..i + 1] == bytes[..i] + [bytes[i]];
      }
      ok := builder.StoreUint(8, bytes[i]);
      if !ok {
        return;
      }
    }
    assert bytes[..|bytes|] == bytes;
    ok := true;
  }

  lemma ChainUnfold(start: nat, buffer: seq<Byte>, end: nat)
    requires start <= |buffer| && end == if start + BYTES_PER_CELL <= |buffer| then start + BYTES_PER_CELL else |buffer|
    ensures Chain(buffer[start..])
            == Cell(ByteBits(buffer[start..end]), if end < |buffer| then [Chain(buffer[end..])] else [])
  {
    var rest := buffer[start..];
    if end < |buffer| {
      assert rest[..BYTES_PER_CELL] == buffer[start..end] && rest[BYTES_PER_CELL..] == buffer[end..];
    } else {
      assert rest == buffer[start..end];
    }
  }

  method BuildCellChain(start: nat, buffer: seq<Byte>) returns (r: Result<Cell, BocError>)
    requires start <= |buffer|
    ensures r == Ok(Chain(buffer[start..]))
    decreases |buffer| - start
  {
    var builder := new CellBuilder();
    var end := if start + BYTES_PER_CELL <= |buffer| then start + BYTES_PER_CELL else |buffer|;
    var stored := StoreBytes(builder, buffer[start..end]);
    if !stored {
      return Err(BocParsingError);
    }
    if end < |buffer| {
      var next := BuildCellChain(end, buffer);
      if next.Err? {
        return next;
      }
      builder.StoreReference(next.value);
    }
    ChainUnfold(start, buffer, end);
    assert Cell(builder.bits, builder.refs) == Chain(buffer[start..]);
    r := builder.Build();
  }

  /** A chain holds 96 bytes in each cell but the last. */
  lemma ChainSplitsAt96(bytes: seq<Byte>)
    ensures var c, own := Chain(bytes), if |bytes| <= 96 then |bytes| else 96;
            && |c.bits| == 8 * own && (forall i :: 0 <= i < own ==> ValueOf(c.bits[8 * i..8 * i + 8]) == bytes[i])
            && c.refs == if |bytes| <= 96 then [] else [Chain(bytes[96..])]
  {
    var own := if |bytes| <= 96 then |bytes| else 96;
    forall i | 0 <= i < own ensures ValueOf(Chain(bytes).bits[8 * i..8 * i + 8]) == bytes[i] {
      ByteAt(bytes[..own], i);
      assert bytes[..own] == bytes || own == 96;
    }
  }

  /** Eight bits behind the first eight. */
  lemma SliceBehind(bits: seq<bool>, k: nat)
    requires k + 16 <= |bits|
    ensures bits[8..][k..k + 8] == bits[k + 8..k + 16]
  {
  }

  lemma {:induction false} ByteAt(bytes: seq<Byte>, i: nat)
    requires i < |bytes|
    ensures ValueOf(ByteBits(bytes)[8 * i..8 * i + 8]) == bytes[i]
  {
    assert Pow2(8) == 256;
    var bits := ByteBits(bytes);
    if i == 0 {
      assert bits[0..8] == BitsOf(8, bytes[0]);
      ValueOfBits(8, bytes[0]);
    } else {
      ByteAt(bytes[1..], i - 1);
      assert bits[8..] == ByteBits(bytes[1..]);
      SliceBehind(bits, 8 * (i - 1));
    }
  }

  /** The limits of a cell. */
  lemma LimitsOfCells(c: Cell)
    requires WithinLimits(c)
    ensures |c.bits| <= 1023 && |c.refs| <= 4 && forall i :: 0 <= i < |c.refs| ==> WithinLimits(c.refs[i])
  {
  }

  method BufferToCell(buffer: seq<Byte>) returns (r: Result<Cell, BocError>)
    ensures r == Ok(Chain(buffer))
    ensures WithinLimits(r.value) && Buffer(r.value) == buffer
    ensures |r.value.bits| == 8 * if |buffer| <= 96 then |buffer| else 96
    ensures if |buffer| <= 96 then r.value.refs == []
            else |r.value.refs| == 1 && Buffer(r.value.refs[0]) == buffer[96..]
  {
    ChainSplitsAt96(buffer);
    if |buffer| > 96 {
      ChainRoundTrip(buffer[96..]);
    }
    r := BuildCellChain(0, buffer);
    assert buffer[0..] == buffer;
    ChainWithinLimits(buffer);
    ChainRoundTrip(buffer);
  }

  // ----- reading -----

  /** At most `n` whole bytes from the front of `bits`. */
  function TakeBytes(bits: seq<bool>, n: nat): seq<Byte> {
    if n == 0 || |bits| < 8 then []
    else
      ByteRange(bits[..8]);
      [ValueOf(bits[..8])] + TakeBytes(bits[8..], n - 1)
  }

  /** The bytes taken are the groups of eight bits, as many as are whole and asked for. */
  lemma {:induction false} TakenBytes(bits: seq<bool>, n: nat, i: nat)
    ensures |TakeBytes(bits, n)| == if |bits| / 8 <= n then |bits| / 8 else n
    ensures i < |TakeBytes(bits, n)| ==> 8 * i + 8 <= |bits| && TakeBytes(bits, n)[i] == ValueOf(bits[8 * i..8 * i + 8])
  {
    if n > 0 && |bits| >= 8 {
      var rest := bits[8..];
      TakenBytes(rest, n - 1, if i > 0 then i - 1 else 0);
      if 0 < i < |TakeBytes(bits, n)| {
        SliceBehind(bits, 8 * (i - 1));
      }
    }
  }

  /** What the reader returns for any cell: up to 96 bytes of each cell along the first references. */
  function Buffer(c: Cell): seq<Byte> {
    TakeBytes(c.bits, BYTES_PER_CELL) + if c.refs == [] then [] else Buffer(c.refs[0])
  }

  /** The big-endian bytes of a number; zero is one zero byte. */
  function ToBytesBe(v: nat): (bytes: seq<Byte>)
    ensures bytes != [] && bytes[|bytes| - 1] == v % 256
  {
    if v < 256 then [v] else ToBytesBe(v / 256) + [v % 256]
  }

  /** The inner loop: reads bytes until one is missing or 96 are read. */
  method ReadBytes(parser: CellParser) returns (bytes: seq<Byte>)
    requires parser.Valid() && parser.position == 0
    modifies parser
    ensures bytes == TakeBytes(parser.cell.bits, BYTES_PER_CELL)
    ensures parser.Valid() && parser.nextRef == old(parser.nextRef)
  {
    hide ValueOf, ToBytesBe;
    ghost var bits := parser.cell.bits;
    bytes := [];
    assert bits[0..] == bits;
    for k := 0 to BYTES_PER_CELL
      invariant parser.Valid() && parser.nextRef == old(parser.nextRef)
      invariant bytes + TakeBytes(bits[parser.position..], BYTES_PER_CELL - k) == TakeBytes(bits, BYTES_PER_CELL)
    {
      ghost var rest := bits[parser.position..];
      var val := parser.LoadUint(8);
      if val.Err? {
        return;
      }
      assert rest[..8] == bits[parser.position - 8..parser.position] && rest[8..] == bits[parser.position..];
      ByteRange(rest[..8]);
      var digits := ToBytesBe(val.value);
      bytes := bytes + [digits[|digits| - 1]];
    }
  }

  /** The bytes of a cell itself, and behind them those of its first reference. */
  lemma BufferExact(c: Cell)
    ensures var bytes, own := Buffer(c), if |c.bits| < 768 then |c.bits| / 8 else 96;
            && own <= |bytes| && (forall i :: 0 <= i < own ==> bytes[i] == ValueOf(c.bits[8 * i..8 * i + 8]))
            && bytes[own..] == if c.refs == [] then [] else Buffer(c.refs[0])
  {
    hide TakeBytes, ValueOf;
    var own, taken := if |c.bits| < 768 then |c.bits| / 8 else 96, TakeBytes(c.bits, 96);
    TakenBytes(c.bits, 96, 0);
    forall i | 0 <= i < own ensures Buffer(c)[i] == ValueOf(c.bits[8 * i..8 * i + 8]) {
      TakenBytes(c.bits, 96, i);
    }
  }

  method CellToBuffer(cell: Cell) returns (bytes: seq<Byte>)
    ensures bytes == Buffer(cell)
    ensures var own := if |cell.bits| < 768 then |cell.bits| / 8 else 96;
            && own <= |bytes| && (forall i :: 0 <= i < own ==> bytes[i] == ValueOf(cell.bits[8 * i..8 * i + 8]))
            && bytes[own..] == if cell.refs == [] then [] else Buffer(cell.refs[0])
  {
    hide TakeBytes, ValueOf;
    BufferExact(cell);
    var current := Some(cell);
    bytes := [];
    while current.Some?
      invariant bytes + (if current.Some? then Buffer(current.value) else []) == Buffer(cell)
      decreases current.Some?, if current.Some? then current.value else cell
    {
      var parser := new CellParser(current.value);
      var own := ReadBytes(parser);
      bytes := bytes + own;
      var next := parser.NextReference();
      current := if next.Ok? then Some(next.value) else None;
    }
  }

  // ----- the two are inverse -----

  lemma {:induction false} TakeBytesOfBits(bytes: seq<Byte>, n: nat)
    requires |bytes| <= n
    ensures TakeBytes(ByteBits(bytes), n) == bytes
  {
    if bytes != [] {
      var bits := ByteBits(bytes);
      assert bits[..8] == BitsOf(8, bytes[0]) && bits[8..] == ByteBits(bytes[1..]);
      assert Pow2(8) == 256;
      ValueOfBits(8, bytes[0]);
      TakeBytesOfBits(bytes[1..], n - 1);
    }
  }

  /** Every byte string, zero bytes and the empty string included, is read back as it was written. */
  lemma {:induction false} ChainRoundTrip(bytes: seq<Byte>)
    ensures Buffer(Chain(bytes)) == bytes
    decreases |bytes|
  {
    if |bytes| <= BYTES_PER_CELL {
      TakeBytesOfBits(bytes, BYTES_PER_CELL);
    } else {
      TakeBytesOfBits(bytes[..BYTES_PER_CELL], BYTES_PER_CELL);
      ChainRoundTrip(bytes[BYTES_PER_CELL..]);
    }
  }

  lemma {:induction false} ChainWithinLimits(bytes: seq<Byte>)
    ensures WithinLimits(Chain(bytes))
    decreases |bytes|
  {
    if |bytes| > BYTES_PER_CELL {
      ChainWithinLimits(bytes[BYTES_PER_CELL..]);
    }
  }

  /** The cells the writer produces: full cells, each with one non-empty successor, then a last partial one. */
  predicate Canonical(c: Cell) {
    if c.refs == [] then |c.bits| % 8 == 0 && |c.bits| <= 8 * BYTES_PER_CELL
    else |c.bits| == 8 * BYTES_PER_CELL && |c.refs| == 1 && c.refs[0].bits != [] && Canonical(c.refs[0])
  }

  lemma {:induction false} BitsOfTaken(bits: seq<bool>, n: nat)
    requires |bits| % 8 == 0 && |bits| <= 8 * n
    ensures ByteBits(TakeBytes(bits, n)) == bits
  {
    if bits != [] {
      BitsOfValue(bits[..8]);
      BitsOfTaken(bits[8..], n - 1);
      assert TakeBytes(bits, n)[1..] == TakeBytes(bits[8..], n - 1);
    }
  }

  lemma {:induction false} ChainIsCanonical(bytes: seq<Byte>)
    ensures Canonical(Chain(bytes)) && (bytes != [] ==> Chain(bytes).bits != [])
    decreases |bytes|
  {
    if |bytes| > BYTES_PER_CELL {
      ChainIsCanonical(bytes[BYTES_PER_CELL..]);
    }
  }

  lemma {:induction false} CanonicalRoundTrip(c: Cell)
    requires Canonical(c)
    ensures Chain(Buffer(c)) == c && (c.bits != [] ==> Buffer(c) != [])
  {
    BitsOfTaken(c.bits, BYTES_PER_CELL);
    var own := TakeBytes(c.bits, BYTES_PER_CELL);
    assert 8 * |own| == |c.bits|;
    if c.refs == [] {
      assert Buffer(c) == own;
    } else {
      var next := c.refs[0];
      CanonicalRoundTrip(next);
      assert Buffer(c)[..BYTES_PER_CELL] == own && Buffer(c)[BYTES_PER_CELL..] == Buffer(next);
      assert c.refs == [next];
    }
  }

  /** Rewriting what was read gives the cell back exactly for the writer's own cells. */
  lemma RewriteExact(c: Cell)
    ensures Chain(Buffer(c)) == c <==> Canonical(c)
  {
    ChainIsCanonical(Buffer(c));
    if Canonical(c) {
      CanonicalRoundTrip(c);
    }
  }
}
