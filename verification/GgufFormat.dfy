/**
  The GGUF header as `check_gguf_integrity` reads it (src/gguf_integrity.rs), as
  functions from a file's bytes and a position to a value and the next position.
 */
module GgufFormat {
  import opened Prelude
  import Decimal

  const MAGIC: nat := 0x4655_4747
  const DEFAULT_ALIGNMENT: Alignment := 32
  const MAX_TENSORS: nat := 1_000_000
  const MAX_KV_PAIRS: nat := 1_000_000
  const MAX_STRING_BYTES: nat := 64 * 1024 * 1024
  const MAX_DIMS: nat := 8

  datatype GgufError =
    | NotGguf
    | HeaderDamaged(what: string)
    | Truncated(fileBytes: nat, requiredBytes: nat)

  /** A read either yields a value and the position after it, or fails. */
  datatype Parse<+T> = Parsed(value: T, end: nat) | Failed(error: GgufError)
  {
    predicate IsFailure() { Failed? }
    function PropagateFailure<U>(): Parse<U>
      requires Failed?
    {
      Failed(error)
    }
    function Extract(): (T, nat)
      requires Parsed?
    {
      (value, end)
    }
  }

  /** `(elements per block, bytes per block)` of a ggml tensor type, when known. */
  function TypeLayout(ggmlType: nat): (r: Option<(nat, nat)>)
    ensures r.Some? <==> (ggmlType <= 30 && ggmlType !in {4, 5}) || ggmlType in {34, 35, 39}
    ensures r.Some? ==> r.value.0 in {1, 32, 256} && r.value.1 <= 8 * r.value.0
    ensures r.Some? ==> 1 <= r.value.0 <= 256 && 1 <= r.value.1 <= 292
  {
    match ggmlType
    case 0 => Some((1, 4))
    case 1 => Some((1, 2))
    case 2 => Some((32, 18))
    case 3 => Some((32, 20))
    case 6 => Some((32, 22))
    case 7 => Some((32, 24))
    case 8 => Some((32, 34))
    case 9 => Some((32, 36))
    case 10 => Some((256, 84))
    case 11 => Some((256, 110))
    case 12 => Some((256, 144))
    case 13 => Some((256, 176))
    case 14 => Some((256, 210))
    case 15 => Some((256, 292))
    case 16 => Some((256, 66))
    case 17 => Some((256, 74))
    case 18 => Some((256, 98))
    case 19 => Some((256, 50))
    case 20 => Some((32, 18))
    case 21 => Some((256, 110))
    case 22 => Some((256, 82))
    case 23 => Some((256, 136))
    case 24 => Some((1, 1))
    case 25 => Some((1, 2))
    case 26 => Some((1, 4))
    case 27 => Some((1, 8))
    case 28 => Some((1, 8))
    case 29 => Some((256, 56))
    case 30 => Some((1, 2))
    case 34 => Some((256, 54))
    case 35 => Some((256, 66))
    case 39 => Some((32, 17))
    case _ => None
  }

  // ----- Primitive reads -----------------------------------------------------

  function Pow256(n: nat): (r: nat)
    ensures r > 0
  {
    if n == 0 then 1 else 256 * Pow256(n - 1)
  }

  /** Little-endian value of a byte string. */
  function FromLe(bytes: seq<byte>): (r: nat)
    ensures r < Pow256(|bytes|)
  {
    if bytes == [] then 0 else bytes[0] + 256 * FromLe(bytes[1..])
  }

  function FromLe32(bytes: seq<byte>): (r: u32)
    requires |bytes| == 4
    ensures r == FromLe(bytes)
  {
    assert Pow256(4) == U32_LIMIT;
    FromLe(bytes)
  }

  function FromLe64(bytes: seq<byte>): (r: u64)
    requires |bytes| == 8
    ensures r == FromLe(bytes)
  {
    assert Pow256(4) == U32_LIMIT;
    assert Pow256(8) == U64_LIMIT;
    FromLe(bytes)
  }

  function BytesAt(data: seq<byte>, pos: nat, n: nat, what: string): (r: Parse<seq<byte>>)
    ensures r.Parsed? ==> r.end == pos + n <= |data| && |r.value| == n
  {
    if pos + n <= |data|
    then Parsed(data[pos..pos + n], pos + n)
    else Failed(HeaderDamaged("ends inside " + what))
  }

  function U32At(data: seq<byte>, pos: nat, what: string): (r: Parse<u32>)
    ensures r.Parsed? ==> r.end == pos + 4 <= |data|
  {
    var (bytes, end) :- BytesAt(data, pos, 4, what);
    Parsed(FromLe32(bytes), end)
  }

  function U64At(data: seq<byte>, pos: nat, what: string): (r: Parse<u64>)
    ensures r.Parsed? ==> r.end == pos + 8 <= |data|
  {
    var (bytes, end) :- BytesAt(data, pos, 8, what);
    Parsed(FromLe64(bytes), end)
  }

  function SkipAt(data: seq<byte>, pos: nat, n: nat, what: string): (r: Parse<()>)
    ensures r.Parsed? ==> r.end == pos + n <= |data|
  {
    if pos + n <= |data|
    then Parsed((), pos + n)
    else Failed(HeaderDamaged("ends inside " + what))
  }

  function StringLenAt(data: seq<byte>, pos: nat, what: string): (r: Parse<nat>)
    ensures r.Parsed? ==> r.end == pos + 8 <= |data|
  {
    var (len, end) :- U64At(data, pos, what);
    if len > MAX_STRING_BYTES
    then Failed(HeaderDamaged("implausible string length in " + what))
    else Parsed(len, end)
  }

  function StringAt(data: seq<byte>, pos: nat, what: string): (r: Parse<seq<byte>>)
    ensures r.Parsed? ==> pos + 8 <= r.end <= |data|
  {
    var (len, end) :- StringLenAt(data, pos, what);
    BytesAt(data, end, len, what)
  }

  function SkipStringAt(data: seq<byte>, pos: nat, what: string): (r: Parse<()>)
    ensures r.Parsed? ==> pos + 8 <= r.end <= |data|
  {
    var (len, end) :- StringLenAt(data, pos, what);
    SkipAt(data, end, len, what)
  }

  /**
    `for _ in 0..count`: read an item, fold it into the state, or stop at the first
    error of either. Every counted loop of the header is one of these.
   */
  function Repeat<S, T>(read: nat -> Parse<T>, step: (S, T) -> Result<S, GgufError>,
                        pos: nat, count: nat, state: S): Parse<S>
    decreases count
  {
    if count == 0 then Parsed(state, pos)
    else
      var (item, next) :- read(pos);
      match step(state, item)
      case Ok(newState) => Repeat(read, step, next, count - 1, newState)
      case Err(error) => Failed(error)
  }

  /** One iteration of a counted loop. */
  lemma RepeatNext<S, T>(read: nat -> Parse<T>, step: (S, T) -> Result<S, GgufError>, pos: nat, count: nat, state: S)
    requires count > 0
    ensures Repeat(read, step, pos, count, state)
            == match read(pos)
               case Failed(error) => Failed(error)
               case Parsed(item, next) =>
                 match step(state, item)
                 case Ok(newState) => Repeat(read, step, next, count - 1, newState)
                 case Err(error) => Failed(error)
  {
  }

  /** Reads only move forward, and never past the end. */
  ghost predicate Advances<T>(read: nat -> Parse<T>, length: nat) {
    forall pos: nat :: read(pos).Parsed? ==> pos <= read(pos).end <= length
  }

  lemma {:induction false} RepeatAdvances<S, T>(read: nat -> Parse<T>, step: (S, T) -> Result<S, GgufError>,
                                                pos: nat, count: nat, state: S, length: nat)
    requires Advances(read, length) && pos <= length
    ensures var r := Repeat(read, step, pos, count, state); r.Parsed? ==> pos <= r.end <= length
    decreases count
  {
    if count > 0 && read(pos).Parsed? && step(state, read(pos).value).Ok? {
      RepeatAdvances(read, step, read(pos).end, count - 1, step(state, read(pos).value).value, length);
    }
  }

  // ----- Metadata values -----------------------------------------------------

  // What is being read, as the error messages name it.
  const KEY: string := "a metadata key"
  const KIND: string := "a metadata type"
  const VALUE: string := "a metadata value"
  const NAME: string := "a tensor name"
  const SHAPE: string := "a tensor shape"
  const LAYOUT: string := "a tensor type"
  const OFFSET: string := "a tensor offset"
  const MAGIC_FIELD: string := "the magic"
  const VERSION_FIELD: string := "the version"
  const TENSOR_COUNT: string := "the tensor count"
  const PAIR_COUNT: string := "the metadata count"

  /** Width of the metadata types a value of which is skipped in one read. */
  function ScalarWidth(valueType: nat): (r: Option<nat>)
    ensures r.Some? ==> 1 <= r.value <= 8
  {
    if valueType in {0, 1, 7} then Some(1)
    else if valueType in {2, 3} then Some(2)
    else if valueType in {4, 5, 6} then Some(4)
    else if valueType in {10, 11, 12} then Some(8)
    else None
  }

  /** Array headers a value at `depth` may still open. */
  function Levels(depth: nat): nat {
    if depth > 2 then 0 else 3 - depth
  }

  /** One value; its integer when it is a u32. */
  function ValueAt(data: seq<byte>, pos: nat, valueType: nat, depth: nat): (r: Parse<Option<u32>>)
    ensures r.Parsed? ==> pos < r.end <= |data|
    decreases Levels(depth), 0
  {
    if valueType == 4 then
      var (n, end) :- U32At(data, pos, VALUE);
      Parsed(Some(n), end)
    else if ScalarWidth(valueType).Some? then
      var (_, end) :- SkipAt(data, pos, ScalarWidth(valueType).value, VALUE);
      Parsed(None, end)
    else if valueType == 8 then
      var (_, end) :- SkipStringAt(data, pos, VALUE);
      Parsed(None, end)
    else if valueType == 9 then
      if depth > 2 then Failed(HeaderDamaged("array nesting too deep"))
      else
        var (elementType, afterType) :- U32At(data, pos, VALUE);
        var (count, start) :- U64At(data, afterType, VALUE);
        var (_, end) :- ArrayBodyAt(data, start, elementType, count, depth);
        Parsed(None, end)
    else Failed(HeaderDamaged("unknown metadata type " + Decimal.Print(valueType)))
  }

  function ValueReader(data: seq<byte>, valueType: nat, depth: nat): (read: nat -> Parse<Option<u32>>)
    ensures Advances(read, |data|)
    ensures forall pos: nat :: read(pos) == ValueAt(data, pos, valueType, depth)
    decreases Levels(depth), 1
  {
    (pos: nat) => ValueAt(data, pos, valueType, depth)
  }

  function Discard<T>(): (() , T) -> Result<(), GgufError> {
    (_, _) => Ok(())
  }

  /** The elements of an array found at `depth`. */
  function ArrayBodyAt(data: seq<byte>, pos: nat, elementType: nat, count: nat, depth: nat): (r: Parse<()>)
    requires depth <= 2 && pos <= |data|
    ensures r.Parsed? ==> pos <= r.end <= |data|
    decreases Levels(depth + 1), 2
  {
    match ScalarWidth(elementType)
    case Some(width) =>
      if count * width >= U64_LIMIT
      then Failed(HeaderDamaged("implausible array length"))
      else SkipAt(data, pos, count * width, VALUE)
    case None =>
      RepeatAdvances(ValueReader(data, elementType, depth + 1), Discard(), pos, count, (), |data|);
      Repeat(ValueReader(data, elementType, depth + 1), Discard(), pos, count, ())
  }

  // ----- The metadata and tensor tables --------------------------------------

  const ALIGNMENT_KEY: seq<byte> :=
    [103, 101, 110, 101, 114, 97, 108, 46, 97, 108, 105, 103, 110, 109, 101, 110, 116]  // "general.alignment"

  /** An alignment can only come from a positive u32 value (or be the default). */
  type Alignment = n: u32 | n > 0 witness 1

  datatype KeyValue = KeyValue(key: seq<byte>, value: Option<u32>)

  /** The alignment after reading one pair: only a positive u32 under the right key changes it. */
  function AlignmentAfter(alignment: Alignment, pair: KeyValue): Alignment {
    if pair.key == ALIGNMENT_KEY && pair.value.Some? && pair.value.value > 0 then pair.value.value else alignment
  }

  function NextAlignment(): (step: (Alignment, KeyValue) -> Result<Alignment, GgufError>)
    ensures forall alignment: Alignment, pair :: step(alignment, pair) == Ok(AlignmentAfter(alignment, pair))
  {
    (alignment: Alignment, pair: KeyValue) => Ok(AlignmentAfter(alignment, pair))
  }

  function PairAt(data: seq<byte>, pos: nat): (r: Parse<KeyValue>)
    ensures r.Parsed? ==> pos + 13 <= r.end <= |data|
  {
    var (key, afterKey) :- StringAt(data, pos, KEY);
    var (valueType, afterType) :- U32At(data, afterKey, KIND);
    var (value, end) :- ValueAt(data, afterType, valueType, 0);
    Parsed(KeyValue(key, value), end)
  }

  function PairReader(data: seq<byte>): (read: nat -> Parse<KeyValue>)
    ensures Advances(read, |data|)
    ensures forall pos: nat :: read(pos) == PairAt(data, pos)
  {
    (pos: nat) => PairAt(data, pos)
  }

  /** One more pair of the loop. */
  lemma AlignmentNext(data: seq<byte>, pos: nat, count: nat, alignment: Alignment)
    requires count > 0
    ensures Repeat(PairReader(data), NextAlignment(), pos, count, alignment)
            == match PairAt(data, pos)
               case Failed(error) => Failed(error)
               case Parsed(pair, next) =>
                 Repeat(PairReader(data), NextAlignment(), next, count - 1, AlignmentAfter(alignment, pair))
  {
    RepeatNext(PairReader(data), NextAlignment(), pos, count, alignment);
  }

  datatype Tensor = Tensor(elements: u64, ggmlType: u32, offset: u64)

  /** `checked_mul` of the elements so far by one more dimension. */
  function Multiplied(elements: u64, dim: u64): Result<u64, GgufError> {
    if elements * dim >= U64_LIMIT then Err(HeaderDamaged("implausible tensor size")) else Ok(elements * dim)
  }

  function NextElements(): (step: (u64, u64) -> Result<u64, GgufError>)
    ensures forall elements: u64, dim: u64 :: step(elements, dim) == Multiplied(elements, dim)
  {
    (elements: u64, dim: u64) => Multiplied(elements, dim)
  }

  function DimReader(data: seq<byte>): (read: nat -> Parse<u64>)
    ensures Advances(read, |data|)
    ensures forall pos: nat :: read(pos) == U64At(data, pos, SHAPE)
  {
    (pos: nat) => U64At(data, pos, SHAPE)
  }

  /** One more dimension of the loop. */
  lemma DimensionNext(data: seq<byte>, pos: nat, count: nat, elements: u64)
    requires count > 0
    ensures Repeat(DimReader(data), NextElements(), pos, count, elements)
            == match U64At(data, pos, SHAPE)
               case Failed(error) => Failed(error)
               case Parsed(dim, next) =>
                 match Multiplied(elements, dim)
                 case Ok(product) => Repeat(DimReader(data), NextElements(), next, count - 1, product)
                 case Err(error) => Failed(error)
  {
    RepeatNext(DimReader(data), NextElements(), pos, count, elements);
  }

  /** The rank, then the product of that many dimensions. */
  function ShapeAt(data: seq<byte>, pos: nat): (r: Parse<u64>)
    ensures r.Parsed? ==> pos + 4 <= r.end <= |data|
  {
    var (rank, afterRank) :- U32At(data, pos, SHAPE);
    if rank > MAX_DIMS then Failed(HeaderDamaged("implausible tensor rank"))
    else
      RepeatAdvances(DimReader(data), NextElements(), afterRank, rank, 1, |data|);
      Repeat(DimReader(data), NextElements(), afterRank, rank, 1)
  }

  function TensorAt(data: seq<byte>, pos: nat): (r: Parse<Tensor>)
    ensures r.Parsed? ==> pos + 24 <= r.end <= |data|
  {
    var (_, afterName) :- SkipStringAt(data, pos, NAME);
    var (elements, afterShape) :- ShapeAt(data, afterName);
    var (ggmlType, afterType) :- U32At(data, afterShape, LAYOUT);
    var (offset, end) :- U64At(data, afterType, OFFSET);
    Parsed(Tensor(elements, ggmlType, offset), end)
  }

  function TensorReader(data: seq<byte>): (read: nat -> Parse<Tensor>)
    ensures Advances(read, |data|)
    ensures forall pos: nat :: read(pos) == TensorAt(data, pos)
  {
    (pos: nat) => TensorAt(data, pos)
  }

  function Collect<T>(): (seq<T>, T) -> Result<seq<T>, GgufError> {
    (seen: seq<T>, item: T) => Ok(seen + [item])
  }

  // ----- The whole header ----------------------------------------------------

  datatype Header = Header(alignment: Alignment, tensors: seq<Tensor>)

  datatype Counts = Counts(tensors: nat, pairs: nat)

  /** Magic, version and the two counts. */
  function CountsAt(data: seq<byte>): (r: Parse<Counts>)
    ensures r.Parsed? ==> r.end == 24 <= |data|
  {
    var (magic, afterMagic) :- U32At(data, 0, MAGIC_FIELD);
    if magic != MAGIC then Failed(NotGguf)
    else
      var (version, afterVersion) :- U32At(data, afterMagic, VERSION_FIELD);
      if !(2 <= version <= 3) then Failed(HeaderDamaged("unsupported version " + Decimal.Print(version)))
      else
        var (tensorCount, afterTensors) :- U64At(data, afterVersion, TENSOR_COUNT);
        var (pairCount, end) :- U64At(data, afterTensors, PAIR_COUNT);
        if tensorCount > MAX_TENSORS || pairCount > MAX_KV_PAIRS
        then Failed(HeaderDamaged("implausible tensor or metadata count"))
        else Parsed(Counts(tensorCount, pairCount), end)
  }

  function PairsAt(data: seq<byte>, pos: nat, count: nat): (r: Parse<Alignment>)
    requires pos <= |data|
    ensures r.Parsed? ==> pos <= r.end <= |data|
  {
    RepeatAdvances(PairReader(data), NextAlignment(), pos, count, DEFAULT_ALIGNMENT, |data|);
    Repeat(PairReader(data), NextAlignment(), pos, count, DEFAULT_ALIGNMENT)
  }

  function TensorsAt(data: seq<byte>, pos: nat, count: nat): (r: Parse<seq<Tensor>>)
    requires pos <= |data|
    ensures r.Parsed? ==> pos <= r.end <= |data|
  {
    RepeatAdvances(TensorReader(data), Collect<Tensor>(), pos, count, [], |data|);
    Repeat(TensorReader(data), Collect<Tensor>(), pos, count, [])
  }

  function HeaderAt(data: seq<byte>): (r: Parse<Header>)
    ensures r.Parsed? ==> 24 <= r.end <= |data|
  {
    var (counts, afterCounts) :- CountsAt(data);
    var (alignment, afterPairs) :- PairsAt(data, afterCounts, counts.pairs);
    var (tensors, end) :- TensorsAt(data, afterPairs, counts.tensors);
    Parsed(Header(alignment, tensors), end)
  }

  // ----- The verdict, in the source's u64 arithmetic -------------------------

  function SizeOf(t: Tensor): nat {
    match TypeLayout(t.ggmlType)
    case Some(layout) => SaturatingMul(CeilDiv(t.elements, layout.0), layout.1)
    case None => 1
  }

  /** Furthest byte any tensor reaches, relative to the data section. */
  function Furthest(tensors: seq<Tensor>): nat {
    if tensors == [] then 0
    else
      var last := tensors[|tensors| - 1];
      Max(Furthest(tensors[..|tensors| - 1]), SaturatingAdd(last.offset, SizeOf(last)))
  }

  /** `div_ceil` and the unchecked multiplication, with its wrap-around written out. */
  function DataStart(tableEnd: nat, alignment: Alignment): nat {
    CeilDiv(tableEnd, alignment) * alignment % U64_LIMIT
  }

  function Required(header: Header, tableEnd: nat): nat {
    SaturatingAdd(DataStart(tableEnd, header.alignment), Furthest(header.tensors))
  }

  function Verdict(data: seq<byte>): Result<(), GgufError> {
    match HeaderAt(data)
    case Failed(error) => Err(error)
    case Parsed(header, tableEnd) =>
      var required := Required(header, tableEnd);
      if |data| < required then Err(Truncated(|data|, required)) else Ok(())
  }
}
