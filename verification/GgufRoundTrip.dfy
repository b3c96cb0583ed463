/**
  A writer of GGUF headers (after the test writer of src/gguf_integrity.rs) and the
  proof that the checker reads back exactly what was written.
 */
module GgufRoundTrip {
  import opened Prelude
  import opened GgufFormat
  import GgufVerdict

  type u16 = n: nat | n < 0x1_0000

  /** A metadata value, by the type the format gives it; floats and signed numbers are their bits. */
  datatype Meta =
    | U8(bits8: byte) | I8(bits8: byte) | Bool(bits8: byte)
    | U16(bits16: u16) | I16(bits16: u16)
    | U32(bits32: u32) | I32(bits32: u32) | F32(bits32: u32)
    | U64(bits64: u64) | I64(bits64: u64) | F64(bits64: u64)
    | Text(raw: seq<byte>)
    | Array(elementType: u32, items: seq<Meta>)

  /** The type codes of the format. */
  function TypeOf(m: Meta): u32 {
    match m
    case U8(_) => 0
    case I8(_) => 1
    case U16(_) => 2
    case I16(_) => 3
    case U32(_) => 4
    case I32(_) => 5
    case F32(_) => 6
    case Bool(_) => 7
    case Text(_) => 8
    case Array(_, _) => 9
    case U64(_) => 10
    case I64(_) => 11
    case F64(_) => 12
  }

  // ----- The writer ----------------------------------------------------------

  function ToLe(n: nat, width: nat): (bytes: seq<byte>)
    ensures |bytes| == width
  {
    if width == 0 then [] else [n % 256] + ToLe(n / 256, width - 1)
  }

  function WriteString(s: seq<byte>): seq<byte> {
    ToLe(|s|, 8) + s
  }

  /** One byte for the byte types and booleans, two, four and eight for the wider numbers. */
  function WriteValue(m: Meta): seq<byte> {
    match m
    case U8(b) => [b]
    case I8(b) => [b]
    case Bool(b) => [b]
    case U16(n) => ToLe(n, 2)
    case I16(n) => ToLe(n, 2)
    case U32(n) => ToLe(n, 4)
    case I32(n) => ToLe(n, 4)
    case F32(n) => ToLe(n, 4)
    case U64(n) => ToLe(n, 8)
    case I64(n) => ToLe(n, 8)
    case F64(n) => ToLe(n, 8)
    case Text(raw) => WriteString(raw)
    case Array(elementType, items) =>
      ToLe(elementType, 4) + ToLe(|items|, 8)
      + Flatten(seq(|items|, i requires 0 <= i < |items| => WriteValue(items[i])))
  }

  function WriteItems(items: seq<Meta>): seq<seq<byte>> {
    seq(|items|, i requires 0 <= i < |items| => WriteValue(items[i]))
  }

  /** Everything but strings and arrays. */
  predicate FixedSize(m: Meta) {
    !m.Text? && !m.Array?
  }

  /** Values the format can carry: string sizes, array lengths and nesting within the limits. */
  ghost predicate ValidMeta(m: Meta, depth: nat) {
    match m
    case Text(raw) => |raw| <= 67_108_864
    case Array(elementType, items) =>
      && depth <= 2
      && |items| < U64_LIMIT
      && (items != [] && FixedSize(items[0]) ==> |Flatten(WriteItems(items))| < U64_LIMIT)
      && forall i :: 0 <= i < |items| ==> TypeOf(items[i]) == elementType && ValidMeta(items[i], depth + 1)
    case _ => true
  }

  datatype MetaPair = MetaPair(key: seq<byte>, value: Meta)

  datatype TableEntry = TableEntry(name: seq<byte>, dims: seq<u64>, ggmlType: u32, offset: u64)

  ghost predicate ValidPair(p: MetaPair) {
    |p.key| <= 67_108_864 && ValidMeta(p.value, 0)
  }

  /** Every partial product of the dimensions stays within u64. */
  predicate ProductsFit(dims: seq<u64>) {
    dims == [] || (ProductsFit(dims[..|dims| - 1]) && Product(dims[..|dims| - 1]) * dims[|dims| - 1] < U64_LIMIT)
  }

  function Product(dims: seq<u64>): nat {
    if dims == [] then 1 else Product(dims[..|dims| - 1]) * dims[|dims| - 1]
  }

  ghost predicate ValidEntry(t: TableEntry) {
    && |t.name| <= 67_108_864
    && |t.dims| <= 8
    && ProductsFit(t.dims)
  }

  datatype File = File(version: nat, pairs: seq<MetaPair>, table: seq<TableEntry>)

  ghost predicate ValidFile(f: File) {
    && 2 <= f.version <= 3
    && |f.pairs| <= 1_000_000
    && |f.table| <= 1_000_000
    && (forall p <- f.pairs :: ValidPair(p))
    && (forall t <- f.table :: ValidEntry(t))
  }

  function WritePair(p: MetaPair): seq<byte> {
    WriteString(p.key) + ToLe(TypeOf(p.value), 4) + WriteValue(p.value)
  }

  function WritePairs(pairs: seq<MetaPair>): seq<seq<byte>> {
    seq(|pairs|, i requires 0 <= i < |pairs| => WritePair(pairs[i]))
  }

  function WriteDims(dims: seq<u64>): seq<seq<byte>> {
    seq(|dims|, i requires 0 <= i < |dims| => ToLe(dims[i], 8))
  }

  function WriteShape(dims: seq<u64>): seq<byte> {
    ToLe(|dims|, 4) + Flatten(WriteDims(dims))
  }

  function WriteEntry(t: TableEntry): seq<byte> {
    WriteString(t.name) + (WriteShape(t.dims) + (ToLe(t.ggmlType, 4) + ToLe(t.offset, 8)))
  }

  function WriteTable(table: seq<TableEntry>): seq<seq<byte>> {
    seq(|table|, i requires 0 <= i < |table| => WriteEntry(table[i]))
  }

  /** The letters GGUF. */
  const GGUF: seq<byte> := [71, 71, 85, 70]

  function WriteCounts(f: File): seq<byte> {
    GGUF + ToLe(f.version, 4) + ToLe(|f.table|, 8) + ToLe(|f.pairs|, 8)
  }

  function WriteHeader(f: File): seq<byte> {
    WriteCounts(f) + Flatten(WritePairs(f.pairs)) + Flatten(WriteTable(f.table))
  }

  // ----- What should be read back --------------------------------------------

  /** The integer a value is read as: only the u32 type is. */
  function ReadBack(m: Meta): Option<u32> {
    if m.U32? then Some(m.bits32) else None
  }

  /** The bytes of `general.alignment`, letter by letter. */
  const ALIGNMENT_NAME: seq<byte> :=
    ['g' as byte, 'e' as byte, 'n' as byte, 'e' as byte, 'r' as byte, 'a' as byte, 'l' as byte, '.' as byte,
     'a' as byte, 'l' as byte, 'i' as byte, 'g' as byte, 'n' as byte, 'm' as byte, 'e' as byte, 'n' as byte,
     't' as byte]

  /** The last positive u32 stored under `general.alignment`, else 32. */
  function LastAlignment(pairs: seq<MetaPair>): Alignment {
    if pairs == [] then 32
    else
      var last := pairs[|pairs| - 1];
      if last.key == ALIGNMENT_NAME && ReadBack(last.value).Some? && ReadBack(last.value).value > 0
      then ReadBack(last.value).value
      else LastAlignment(pairs[..|pairs| - 1])
  }

  function ReadPairBack(p: MetaPair): KeyValue {
    KeyValue(p.key, ReadBack(p.value))
  }

  ghost function Described(t: TableEntry): Tensor
    requires ValidEntry(t)
  {
    Tensor(Product(t.dims), t.ggmlType, t.offset)
  }

  ghost function DescribedAll(table: seq<TableEntry>): seq<Tensor>
    requires forall t <- table :: ValidEntry(t)
  {
    seq(|table|, i requires 0 <= i < |table| => Described(table[i]))
  }

  // ----- Proof ---------------------------------------------------------------

  lemma {:induction false} FromLeOfToLe(n: nat, width: nat)
    requires n < Pow256(width)
    ensures FromLe(ToLe(n, width)) == n
  {
    if width == 0 {
    } else {
      FromLeOfToLe(n / 256, width - 1);
      assert ToLe(n, width)[1..] == ToLe(n / 256, width - 1);
    }
  }

  lemma SitsRead(data: seq<byte>, pos: nat, part: seq<byte>, what: string)
    requires Sits(data, pos, part)
    ensures BytesAt(data, pos, |part|, what) == Parsed(part, pos + |part|)
  {
    assert data[pos..pos + |part|] == part;
  }

  lemma ReadU32(data: seq<byte>, pos: nat, n: nat, what: string)
    requires n < U32_LIMIT && Sits(data, pos, ToLe(n, 4))
    ensures U32At(data, pos, what) == Parsed(n, pos + 4)
  {
    assert Pow256(4) == U32_LIMIT;
    FromLeOfToLe(n, 4);
    SitsRead(data, pos, ToLe(n, 4), what);
  }

  lemma ReadU64(data: seq<byte>, pos: nat, n: nat, what: string)
    requires n < U64_LIMIT && Sits(data, pos, ToLe(n, 8))
    ensures U64At(data, pos, what) == Parsed(n, pos + 8)
  {
    assert Pow256(4) == U32_LIMIT;
    assert Pow256(8) == U64_LIMIT;
    FromLeOfToLe(n, 8);
    SitsRead(data, pos, ToLe(n, 8), what);
  }

  lemma ReadString(data: seq<byte>, pos: nat, s: seq<byte>, what: string)
    requires |s| <= MAX_STRING_BYTES && Sits(data, pos, WriteString(s))
    ensures StringAt(data, pos, what) == Parsed(s, pos + |WriteString(s)|)
    ensures SkipStringAt(data, pos, what) == Parsed((), pos + |WriteString(s)|)
  {
    SitsSplit(data, pos, ToLe(|s|, 8), s);
    ReadU64(data, pos, |s|, what);
    SitsRead(data, pos + 8, s, what);
  }

  /** Folding a list of items, stopping at the first error. */
  function FoldItems<S, T>(step: (S, T) -> Result<S, GgufError>, items: seq<T>, state: S): Result<S, GgufError> {
    if items == [] then Ok(state)
    else
      match FoldItems(step, items[..|items| - 1], state)
      case Ok(s) => step(s, items[|items| - 1])
      case Err(e) => Err(e)
  }

  /** Each part, wherever it stands, is read as the matching item. */
  ghost predicate PartsRead<T>(data: seq<byte>, read: nat -> Parse<T>, parts: seq<seq<byte>>, items: seq<T>) {
    && |parts| == |items|
    && forall i, pos: nat :: 0 <= i < |parts| && Sits(data, pos, parts[i]) ==>
         read(pos) == Parsed(items[i], pos + |parts[i]|)
  }

  lemma {:induction false} RepeatSnoc<S, T>(read: nat -> Parse<T>, step: (S, T) -> Result<S, GgufError>,
                                            pos: nat, count: nat, state: S, mid: nat, s: S, item: T, end: nat, t: S)
    requires Repeat(read, step, pos, count, state) == Parsed(s, mid)
    requires read(mid) == Parsed(item, end) && step(s, item) == Ok(t)
    ensures Repeat(read, step, pos, count + 1, state) == Parsed(t, end)
    decreases count
  {
    if count == 0 {
      assert Repeat(read, step, end, 0, t) == Parsed(t, end);
    } else {
      var Parsed(first, next) := read(pos);
      RepeatSnoc(read, step, next, count - 1, step(state, first).value, mid, s, item, end, t);
    }
  }

  lemma FoldItemsSnoc<S, T>(step: (S, T) -> Result<S, GgufError>, items: seq<T>, state: S)
    requires items != [] && FoldItems(step, items, state).Ok?
    ensures var before := FoldItems(step, items[..|items| - 1], state);
            before.Ok? && step(before.value, items[|items| - 1]) == FoldItems(step, items, state)
  {
  }

  lemma PartsReadInit<T>(data: seq<byte>, read: nat -> Parse<T>, parts: seq<seq<byte>>, items: seq<T>, n: nat)
    requires PartsRead(data, read, parts, items) && n <= |parts|
    ensures PartsRead(data, read, parts[..n], items[..n])
  {
  }

  /** One more part read at the end of a loop. */
  lemma ReadOneMore<S, T>(data: seq<byte>, read: nat -> Parse<T>, step: (S, T) -> Result<S, GgufError>,
                          pos: nat, parts: seq<seq<byte>>, items: seq<T>, state: S, mid: nat, end: nat)
    requires PartsRead(data, read, parts, items) && parts != [] && FoldItems(step, items, state).Ok?
    requires Sits(data, mid, parts[|parts| - 1]) && end == mid + |parts[|parts| - 1]|
    requires var before := FoldItems(step, items[..|items| - 1], state);
             before.Ok? && Repeat(read, step, pos, |items| - 1, state) == Parsed(before.value, mid)
    ensures Repeat(read, step, pos, |items|, state) == Parsed(FoldItems(step, items, state).value, end)
  {
    var n := |parts| - 1;
    FoldItemsSnoc(step, items, state);
    assert read(mid) == Parsed(items[n], end);
    RepeatSnoc(read, step, pos, n, state, mid, FoldItems(step, items[..n], state).value, items[n],
               end, FoldItems(step, items, state).value);
  }

  lemma {:induction false} ReadRepeatTo<S, T>(data: seq<byte>, read: nat -> Parse<T>,
                                              step: (S, T) -> Result<S, GgufError>, pos: nat,
                                              parts: seq<seq<byte>>, items: seq<T>, state: S, end: nat)
    requires PartsRead(data, read, parts, items)
    requires Sits(data, pos, Flatten(parts)) && end == pos + |Flatten(parts)|
    requires FoldItems(step, items, state).Ok?
    ensures Repeat(read, step, pos, |items|, state) == Parsed(FoldItems(step, items, state).value, end)
    decreases |parts|
  {
    if parts == [] {
    } else {
      var n := |parts| - 1;
      var mid := pos + |Flatten(parts[..n])|;
      SitsSplit(data, pos, Flatten(parts[..n]), parts[n]);
      PartsReadInit(data, read, parts, items, n);
      FoldItemsSnoc(step, items, state);
      ReadRepeatTo(data, read, step, pos, parts[..n], items[..n], state, mid);
      ReadOneMore(data, read, step, pos, parts, items, state, mid, end);
    }
  }

  /** A counted loop over consecutive written parts folds their items and stops at their end. */
  lemma ReadRepeat<S, T>(data: seq<byte>, read: nat -> Parse<T>, step: (S, T) -> Result<S, GgufError>,
                         pos: nat, parts: seq<seq<byte>>, items: seq<T>, state: S)
    requires PartsRead(data, read, parts, items)
    requires Sits(data, pos, Flatten(parts))
    requires FoldItems(step, items, state).Ok?
    ensures Repeat(read, step, pos, |items|, state)
            == Parsed(FoldItems(step, items, state).value, pos + |Flatten(parts)|)
  {
    ReadRepeatTo(data, read, step, pos, parts, items, state, pos + |Flatten(parts)|);
  }

  lemma {:induction false} ReadValue(data: seq<byte>, pos: nat, m: Meta, depth: nat)
    requires ValidMeta(m, depth) && Sits(data, pos, WriteValue(m))
    ensures ValueAt(data, pos, TypeOf(m), depth) == Parsed(ReadBack(m), pos + |WriteValue(m)|)
    decreases m, 3
  {
    match m
    case Text(raw) => ReadString(data, pos, raw, VALUE);
    case Array(_, _) => ReadArray(data, pos, m, depth, pos + |WriteValue(m)|);
    case U32(n) => ReadU32(data, pos, n, VALUE);
    case _ => FixedWidth(m);
  }

  /** A value of fixed size takes the width its type code is skipped by. */
  lemma FixedWidth(m: Meta)
    requires FixedSize(m)
    ensures ScalarWidth(TypeOf(m)) == Some(|WriteValue(m)|)
  {
  }

  lemma {:induction false} ReadArray(data: seq<byte>, pos: nat, m: Meta, depth: nat, end: nat)
    requires m.Array? && ValidMeta(m, depth) && Sits(data, pos, WriteValue(m)) && end == pos + |WriteValue(m)|
    ensures ValueAt(data, pos, 9, depth) == Parsed(None, end)
    decreases m, 2
  {
    ArrayParts(data, pos, m, end);
    ReadU32(data, pos, m.elementType, VALUE);
    ReadU64(data, pos + 4, |m.items|, VALUE);
    ReadArrayBody(data, pos + 12, m, depth, end);
    ArrayFromFields(data, pos, m.elementType, |m.items|, depth, end);
  }

  lemma ArrayParts(data: seq<byte>, pos: nat, m: Meta, end: nat)
    requires m.Array? && Sits(data, pos, WriteValue(m)) && end == pos + |WriteValue(m)|
    ensures Sits(data, pos, ToLe(m.elementType, 4)) && Sits(data, pos + 4, ToLe(|m.items|, 8))
    ensures Sits(data, pos + 12, Flatten(WriteItems(m.items))) && end == pos + 12 + |Flatten(WriteItems(m.items))|
  {
    SitsSplitThree(data, pos, ToLe(m.elementType, 4), ToLe(|m.items|, 8), Flatten(WriteItems(m.items)));
  }

  lemma ArrayFromFields(data: seq<byte>, pos: nat, elementType: nat, count: nat, depth: nat, end: nat)
    requires depth <= 2
    requires U32At(data, pos, VALUE) == Parsed(elementType, pos + 4)
    requires U64At(data, pos + 4, VALUE) == Parsed(count, pos + 12)
    requires ArrayBodyAt(data, pos + 12, elementType, count, depth) == Parsed((), end)
    ensures ValueAt(data, pos, 9, depth) == Parsed(None, end)
  {
  }

  lemma {:induction false} ReadArrayBody(data: seq<byte>, pos: nat, m: Meta, depth: nat, end: nat)
    requires m.Array? && ValidMeta(m, depth) && Sits(data, pos, Flatten(WriteItems(m.items)))
    requires end == pos + |Flatten(WriteItems(m.items))|
    ensures ArrayBodyAt(data, pos, m.elementType, |m.items|, depth) == Parsed((), end)
    decreases m, 1
  {
    var Array(elementType, items) := m;
    var parts := WriteItems(items);
    if ScalarWidth(elementType).Some? {
      forall i | 0 <= i < |items|
        ensures |parts[i]| == ScalarWidth(elementType).value
      {
        FixedWidth(items[i]);
      }
      FlattenLength(parts, ScalarWidth(elementType).value);
    } else {
      ReadItems(data, pos, m, depth, end);
    }
  }

  lemma {:induction false} ReadItems(data: seq<byte>, pos: nat, m: Meta, depth: nat, end: nat)
    requires m.Array? && ValidMeta(m, depth) && Sits(data, pos, Flatten(WriteItems(m.items)))
    requires end == pos + |Flatten(WriteItems(m.items))|
    ensures Repeat(ValueReader(data, m.elementType, depth + 1), Discard(), pos, |m.items|, ()) == Parsed((), end)
    decreases m, 0
  {
    var Array(elementType, items) := m;
    var parts := WriteItems(items);
    var values := seq(|items|, i requires 0 <= i < |items| => ReadBack(items[i]));
    var read := ValueReader(data, elementType, depth + 1);
    forall i, p: nat | 0 <= i < |parts| && Sits(data, p, parts[i])
      ensures read(p) == Parsed(values[i], p + |parts[i]|)
    {
      ReadValue(data, p, items[i], depth + 1);
    }
    FoldDiscard(values);
    ReadRepeat(data, read, Discard(), pos, parts, values, ());
  }

  lemma {:induction false} FlattenLength(parts: seq<seq<byte>>, width: nat)
    requires forall i :: 0 <= i < |parts| ==> |parts[i]| == width
    ensures |Flatten(parts)| == |parts| * width
  {
    if parts == [] {
    } else {
      var n := |parts| - 1;
      FlattenLength(parts[..n], width);
      assert n * width + width == (n + 1) * width;
    }
  }

  lemma {:induction false} FoldDiscard<T>(items: seq<T>)
    ensures FoldItems(Discard(), items, ()) == Ok(())
  {
    if items == [] {
    } else {
      FoldDiscard(items[..|items| - 1]);
    }
  }

  lemma SitsSplitThree(data: seq<byte>, pos: nat, a: seq<byte>, b: seq<byte>, c: seq<byte>)
    requires Sits(data, pos, a + b + c)
    ensures Sits(data, pos, a) && Sits(data, pos + |a|, b) && Sits(data, pos + |a| + |b|, c)
  {
    SitsSplit(data, pos, a + b, c);
    SitsSplit(data, pos, a, b);
  }

  lemma PairParts(data: seq<byte>, pos: nat, p: MetaPair)
    requires Sits(data, pos, WritePair(p))
    ensures Sits(data, pos, WriteString(p.key))
    ensures Sits(data, pos + |WriteString(p.key)|, ToLe(TypeOf(p.value), 4))
    ensures Sits(data, pos + |WriteString(p.key)| + 4, WriteValue(p.value))
  {
    SitsSplitThree(data, pos, WriteString(p.key), ToLe(TypeOf(p.value), 4), WriteValue(p.value));
  }

  lemma PairLength(p: MetaPair)
    ensures |WritePair(p)| == |WriteString(p.key)| + 4 + |WriteValue(p.value)|
  {
  }

  lemma ReadValueTo(data: seq<byte>, pos: nat, m: Meta, end: nat)
    requires ValidMeta(m, 0) && Sits(data, pos, WriteValue(m)) && end == pos + |WriteValue(m)|
    ensures ValueAt(data, pos, TypeOf(m), 0) == Parsed(ReadBack(m), end)
  {
    ReadValue(data, pos, m, 0);
  }

  /** The three reads of a pair. */
  ghost predicate PairReads(data: seq<byte>, pos: nat, afterKey: nat, kind: nat, key: seq<byte>, value: Option<u32>,
                            end: nat) {
    && StringAt(data, pos, KEY) == Parsed(key, afterKey)
    && U32At(data, afterKey, KIND) == Parsed(kind, afterKey + 4)
    && ValueAt(data, afterKey + 4, kind, 0) == Parsed(value, end)
  }

  lemma ReadPairFields(data: seq<byte>, pos: nat, key: seq<byte>, m: Meta, afterKey: nat, end: nat)
    requires |key| <= MAX_STRING_BYTES && ValidMeta(m, 0)
    requires Sits(data, pos, WriteString(key)) && afterKey == pos + |WriteString(key)|
    requires Sits(data, afterKey, ToLe(TypeOf(m), 4))
    requires Sits(data, afterKey + 4, WriteValue(m)) && end == afterKey + 4 + |WriteValue(m)|
    ensures PairReads(data, pos, afterKey, TypeOf(m), key, ReadBack(m), end)
  {
    ReadString(data, pos, key, KEY);
    ReadU32(data, afterKey, TypeOf(m), KIND);
    ReadValueTo(data, afterKey + 4, m, end);
  }

  lemma ReadPairParts(data: seq<byte>, pos: nat, p: MetaPair, afterKey: nat, end: nat)
    requires ValidPair(p) && Sits(data, pos, WritePair(p))
    requires afterKey == pos + |WriteString(p.key)| && end == pos + |WritePair(p)|
    ensures PairReads(data, pos, afterKey, TypeOf(p.value), p.key, ReadBack(p.value), end)
  {
    PairParts(data, pos, p);
    PairLength(p);
    ReadPairFields(data, pos, p.key, p.value, afterKey, end);
  }

  lemma ReadPair(data: seq<byte>, pos: nat, p: MetaPair)
    requires ValidPair(p) && Sits(data, pos, WritePair(p))
    ensures PairAt(data, pos) == Parsed(ReadPairBack(p), pos + |WritePair(p)|)
  {
    var afterKey, end := pos + |WriteString(p.key)|, pos + |WritePair(p)|;
    ReadPairParts(data, pos, p, afterKey, end);
    PairFromFields(data, pos, afterKey, TypeOf(p.value), p.key, ReadBack(p.value), end);
  }

  lemma PairFromFields(data: seq<byte>, pos: nat, afterKey: nat, valueType: nat, key: seq<byte>,
                       value: Option<u32>, end: nat)
    requires PairReads(data, pos, afterKey, valueType, key, value, end)
    ensures PairAt(data, pos) == Parsed(KeyValue(key, value), end)
  {
  }

  function ReadPairsBack(pairs: seq<MetaPair>): seq<KeyValue> {
    seq(|pairs|, i requires 0 <= i < |pairs| => ReadPairBack(pairs[i]))
  }

  lemma AlignmentKeyIsName()
    ensures ALIGNMENT_KEY == ALIGNMENT_NAME
  {
  }

  /** Threading the alignment through the pairs leaves the last one that counts. */
  lemma {:induction false} FoldAlignment(pairs: seq<MetaPair>)
    ensures FoldItems(NextAlignment(), ReadPairsBack(pairs), DEFAULT_ALIGNMENT) == Ok(LastAlignment(pairs))
  {
    if pairs == [] {
    } else {
      var init := pairs[..|pairs| - 1];
      AlignmentKeyIsName();
      FoldAlignment(init);
      assert ReadPairsBack(pairs)[..|pairs| - 1] == ReadPairsBack(init);
    }
  }

  lemma ReadPairs(data: seq<byte>, pos: nat, pairs: seq<MetaPair>)
    requires forall p <- pairs :: ValidPair(p)
    requires Sits(data, pos, Flatten(WritePairs(pairs)))
    ensures PairsAt(data, pos, |pairs|) == Parsed(LastAlignment(pairs), pos + |Flatten(WritePairs(pairs))|)
  {
    PairsRead(data, pairs);
    FoldAlignment(pairs);
    ReadRepeat(data, PairReader(data), NextAlignment(), pos, WritePairs(pairs), ReadPairsBack(pairs),
               DEFAULT_ALIGNMENT);
  }

  lemma PairsRead(data: seq<byte>, pairs: seq<MetaPair>)
    requires forall p <- pairs :: ValidPair(p)
    ensures PartsRead(data, PairReader(data), WritePairs(pairs), ReadPairsBack(pairs))
  {
    var parts, items, read := WritePairs(pairs), ReadPairsBack(pairs), PairReader(data);
    forall i, p: nat | 0 <= i < |parts| && Sits(data, p, parts[i])
      ensures read(p) == Parsed(items[i], p + |parts[i]|)
    {
      ReadPair(data, p, pairs[i]);
    }
  }

  lemma {:induction false} FoldDims(dims: seq<u64>)
    requires ProductsFit(dims)
    ensures Product(dims) < U64_LIMIT
    ensures FoldItems(NextElements(), dims, 1) == Ok(Product(dims))
  {
    if dims == [] {
    } else {
      FoldDims(dims[..|dims| - 1]);
    }
  }

  lemma ReadShape(data: seq<byte>, pos: nat, dims: seq<u64>)
    requires |dims| <= MAX_DIMS && ProductsFit(dims)
    requires Sits(data, pos, WriteShape(dims))
    ensures ShapeAt(data, pos) == Parsed(Product(dims), pos + |WriteShape(dims)|)
  {
    var parts := WriteDims(dims);
    SitsSplit(data, pos, ToLe(|dims|, 4), Flatten(parts));
    ReadU32(data, pos, |dims|, SHAPE);
    forall i, p: nat | 0 <= i < |parts| && Sits(data, p, parts[i])
      ensures DimReader(data)(p) == Parsed(dims[i], p + |parts[i]|)
    {
      ReadU64(data, p, dims[i], SHAPE);
    }
    FoldDims(dims);
    ReadRepeat(data, DimReader(data), NextElements(), pos + 4, parts, dims, 1);
  }

  lemma ReadEntry(data: seq<byte>, pos: nat, t: TableEntry)
    requires ValidEntry(t) && Sits(data, pos, WriteEntry(t))
    ensures TensorAt(data, pos) == Parsed(Described(t), pos + |WriteEntry(t)|)
  {
    var name, shape := WriteString(t.name), WriteShape(t.dims);
    SitsSplitFour(data, pos, name, shape, ToLe(t.ggmlType, 4), ToLe(t.offset, 8));
    ReadEntryFields(data, pos, pos + |name|, pos + |name| + |shape|, t);
  }

  lemma ReadEntryFields(data: seq<byte>, pos: nat, afterName: nat, afterShape: nat, t: TableEntry)
    requires ValidEntry(t)
    requires Sits(data, pos, WriteString(t.name)) && afterName == pos + |WriteString(t.name)|
    requires Sits(data, afterName, WriteShape(t.dims)) && afterShape == afterName + |WriteShape(t.dims)|
    requires Sits(data, afterShape, ToLe(t.ggmlType, 4)) && Sits(data, afterShape + 4, ToLe(t.offset, 8))
    ensures TensorAt(data, pos) == Parsed(Described(t), afterShape + 12)
  {
    ReadString(data, pos, t.name, NAME);
    ReadShape(data, afterName, t.dims);
    ReadU32(data, afterShape, t.ggmlType, LAYOUT);
    ReadU64(data, afterShape + 4, t.offset, OFFSET);
    TensorFromFields(data, pos, afterName, afterShape, Described(t));
  }

  lemma SitsSplitFour(data: seq<byte>, pos: nat, a: seq<byte>, b: seq<byte>, c: seq<byte>, d: seq<byte>)
    requires Sits(data, pos, a + (b + (c + d)))
    ensures Sits(data, pos, a) && Sits(data, pos + |a|, b)
    ensures Sits(data, pos + |a| + |b|, c) && Sits(data, pos + |a| + |b| + |c|, d)
  {
    SitsSplit(data, pos, a, b + (c + d));
    SitsSplit(data, pos + |a|, b, c + d);
    SitsSplit(data, pos + |a| + |b|, c, d);
  }

  lemma TensorFromFields(data: seq<byte>, pos: nat, afterName: nat, afterShape: nat, t: Tensor)
    requires SkipStringAt(data, pos, NAME) == Parsed((), afterName)
    requires ShapeAt(data, afterName) == Parsed(t.elements, afterShape)
    requires U32At(data, afterShape, LAYOUT) == Parsed(t.ggmlType, afterShape + 4)
    requires U64At(data, afterShape + 4, OFFSET) == Parsed(t.offset, afterShape + 12)
    ensures TensorAt(data, pos) == Parsed(t, afterShape + 12)
  {
  }

  lemma {:induction false} FoldCollect<T>(items: seq<T>)
    ensures FoldItems(Collect<T>(), items, []) == Ok(items)
  {
    if items == [] {
    } else {
      FoldCollect(items[..|items| - 1]);
      assert items == items[..|items| - 1] + [items[|items| - 1]];
    }
  }

  lemma ReadTable(data: seq<byte>, pos: nat, table: seq<TableEntry>)
    requires forall t <- table :: ValidEntry(t)
    requires Sits(data, pos, Flatten(WriteTable(table)))
    ensures TensorsAt(data, pos, |table|) == Parsed(DescribedAll(table), pos + |Flatten(WriteTable(table))|)
  {
    EntriesRead(data, table);
    FoldCollect(DescribedAll(table));
    ReadRepeat(data, TensorReader(data), Collect<Tensor>(), pos, WriteTable(table), DescribedAll(table), []);
  }

  lemma EntriesRead(data: seq<byte>, table: seq<TableEntry>)
    requires forall t <- table :: ValidEntry(t)
    ensures PartsRead(data, TensorReader(data), WriteTable(table), DescribedAll(table))
  {
    var parts, items, read := WriteTable(table), DescribedAll(table), TensorReader(data);
    forall i, p: nat | 0 <= i < |parts| && Sits(data, p, parts[i])
      ensures read(p) == Parsed(items[i], p + |parts[i]|)
    {
      ReadEntry(data, p, table[i]);
    }
  }

  lemma MagicIsGguf()
    ensures ToLe(MAGIC, 4) == GGUF
  {
    assert MAGIC == 71 + 256 * (71 + 256 * (85 + 256 * 70));
    assert ToLe(70, 1) == [70] && ToLe(85 + 256 * 70, 2) == [85, 70];
  }

  lemma ReadCounts(data: seq<byte>, f: File)
    requires ValidFile(f) && Sits(data, 0, WriteCounts(f))
    ensures CountsAt(data) == Parsed(Counts(|f.table|, |f.pairs|), 24)
  {
    var upToVersion := GGUF + ToLe(f.version, 4);
    var upToTable := upToVersion + ToLe(|f.table|, 8);
    SitsSplit(data, 0, upToTable, ToLe(|f.pairs|, 8));
    SitsSplit(data, 0, upToVersion, ToLe(|f.table|, 8));
    SitsSplit(data, 0, GGUF, ToLe(f.version, 4));
    MagicIsGguf();
    ReadU32(data, 0, MAGIC, MAGIC_FIELD);
    ReadU32(data, 4, f.version, VERSION_FIELD);
    ReadU64(data, 8, |f.table|, TENSOR_COUNT);
    ReadU64(data, 16, |f.pairs|, PAIR_COUNT);
  }

  /**
    Reading a written header, whatever bytes follow it, stops exactly at its end and
    recovers the alignment the last valid pair set (else 32) and every tensor's
    element count, type and offset.
   */
  lemma HeaderRoundTrip(f: File, rest: seq<byte>)
    requires ValidFile(f)
    ensures HeaderAt(WriteHeader(f) + rest)
            == Parsed(Header(LastAlignment(f.pairs), DescribedAll(f.table)), |WriteHeader(f)|)
  {
    var counts, pairs, table := WriteCounts(f), Flatten(WritePairs(f.pairs)), Flatten(WriteTable(f.table));
    HeaderSits(counts, pairs, table, rest);
    ReadHeader(WriteHeader(f) + rest, f, |counts + pairs|, |counts + pairs + table|);
  }

  lemma ReadHeader(data: seq<byte>, f: File, afterPairs: nat, end: nat)
    requires ValidFile(f) && Sits(data, 0, WriteCounts(f))
    requires Sits(data, 24, Flatten(WritePairs(f.pairs))) && afterPairs == 24 + |Flatten(WritePairs(f.pairs))|
    requires Sits(data, afterPairs, Flatten(WriteTable(f.table))) && end == afterPairs + |Flatten(WriteTable(f.table))|
    ensures HeaderAt(data) == Parsed(Header(LastAlignment(f.pairs), DescribedAll(f.table)), end)
  {
    ReadCounts(data, f);
    ReadPairsTo(data, 24, f.pairs, afterPairs);
    ReadTableTo(data, afterPairs, f.table, end);
    HeaderFromParts(data, Counts(|f.table|, |f.pairs|), 24,
                    LastAlignment(f.pairs), afterPairs, DescribedAll(f.table), end);
  }

  lemma ReadPairsTo(data: seq<byte>, pos: nat, pairs: seq<MetaPair>, end: nat)
    requires forall p <- pairs :: ValidPair(p)
    requires Sits(data, pos, Flatten(WritePairs(pairs))) && end == pos + |Flatten(WritePairs(pairs))|
    ensures PairsAt(data, pos, |pairs|) == Parsed(LastAlignment(pairs), end)
  {
    ReadPairs(data, pos, pairs);
  }

  lemma ReadTableTo(data: seq<byte>, pos: nat, table: seq<TableEntry>, end: nat)
    requires forall t <- table :: ValidEntry(t)
    requires Sits(data, pos, Flatten(WriteTable(table))) && end == pos + |Flatten(WriteTable(table))|
    ensures TensorsAt(data, pos, |table|) == Parsed(DescribedAll(table), end)
  {
    ReadTable(data, pos, table);
  }

  lemma HeaderSits(counts: seq<byte>, pairs: seq<byte>, table: seq<byte>, rest: seq<byte>)
    ensures var data := counts + pairs + table + rest;
            Sits(data, 0, counts) && Sits(data, |counts|, pairs) && Sits(data, |counts + pairs|, table)
  {
    var data := counts + pairs + table + rest;
    SitsSplit(data, 0, counts + pairs, table);
    SitsSplit(data, 0, counts, pairs);
  }

  lemma HeaderFromParts(data: seq<byte>, counts: Counts, afterCounts: nat, alignment: Alignment, afterPairs: nat,
                        tensors: seq<Tensor>, end: nat)
    requires CountsAt(data) == Parsed(counts, afterCounts)
    requires PairsAt(data, afterCounts, counts.pairs) == Parsed(alignment, afterPairs)
    requires TensorsAt(data, afterPairs, counts.tensors) == Parsed(tensors, end)
    ensures HeaderAt(data) == Parsed(Header(alignment, tensors), end)
  {
  }

  /** A written file passes exactly when enough bytes follow its header to hold every tensor. */
  lemma WrittenFileVerdict(f: File, rest: seq<byte>)
    requires ValidFile(f)
    requires |WriteHeader(f) + rest| <= GgufVerdict.MAX_FILE_LENGTH
    ensures Verdict(WriteHeader(f) + rest).Ok?
            <==> GgufVerdict.Fits(|WriteHeader(f)| + |rest|,
                   GgufVerdict.AlignedStart(|WriteHeader(f)|, LastAlignment(f.pairs)),
                   DescribedAll(f.table))
  {
    HeaderRoundTrip(f, rest);
    GgufVerdict.VerdictExact(WriteHeader(f) + rest);
  }

  /** A file of one empty tensor, of a type no table knows. */
  const EMPTY_UNKNOWN: File := File(3, [], [TableEntry([], [0], 99, 0)])

  lemma EmptyUnknownHeader()
    ensures ValidFile(EMPTY_UNKNOWN) && |WriteHeader(EMPTY_UNKNOWN)| == 56
    ensures LastAlignment(EMPTY_UNKNOWN.pairs) == 32 && DescribedAll(EMPTY_UNKNOWN.table) == [Tensor(0, 99, 0)]
  {
    var t := EMPTY_UNKNOWN.table[0];
    assert t.dims[..0] == [] && ProductsFit(t.dims) && Product(t.dims) == 0;
    assert WriteDims(t.dims)[..0] == [] && |Flatten(WriteDims(t.dims))| == 8;
    assert WriteTable(EMPTY_UNKNOWN.table)[..0] == [];
  }

  lemma EmptyUnknownRequires(layout: nat -> (nat, nat))
    requires GgufVerdict.IsLayout(layout)
    ensures Required(Header(32, [Tensor(0, 99, 0)]), 56) == 65
    ensures GgufVerdict.FitsTruly(64, GgufVerdict.AlignedStart(56, 32), [Tensor(0, 99, 0)], layout)
  {
    var t := Tensor(0, 99, 0);
    assert SizeOf(t) == 1 && [t][..0] == [] && Furthest([t]) == 1;
    assert GgufVerdict.TrueSize(t, layout) == 0;
  }

  lemma VerdictOf(data: seq<byte>, header: Header, tableEnd: nat, required: nat)
    requires HeaderAt(data) == Parsed(header, tableEnd) && Required(header, tableEnd) == required > |data|
    ensures Verdict(data) == Err(Truncated(|data|, required))
  {
  }

  /** With eight bytes of padding after its header it is complete under any layout, and rejected as one byte short. */
  lemma EmptyUnknownIsRejected(rest: seq<byte>, layout: nat -> (nat, nat))
    requires |rest| == 8 && GgufVerdict.IsLayout(layout)
    ensures GgufVerdict.GoodFile(WriteHeader(EMPTY_UNKNOWN) + rest, Header(32, [Tensor(0, 99, 0)]), 56, layout)
    ensures Verdict(WriteHeader(EMPTY_UNKNOWN) + rest) == Err(Truncated(64, 65))
  {
    var data := WriteHeader(EMPTY_UNKNOWN) + rest;
    assert |data| == 64 && HeaderAt(data) == Parsed(Header(32, [Tensor(0, 99, 0)]), 56) by {
      EmptyUnknownHeader();
      HeaderRoundTrip(EMPTY_UNKNOWN, rest);
    }
    EmptyUnknownRequires(layout);
    VerdictOf(data, Header(32, [Tensor(0, 99, 0)]), 56, 65);
  }
}
