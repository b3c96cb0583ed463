/**
  Reading is the exact inverse of writing: a file has a readable header if and only if it
  starts with a written one, so what the checker accepts is decided by the writer alone.
 */
module GgufExact {
  import opened Prelude
  import opened GgufFormat
  import opened GgufRoundTrip
  import GgufVerdict

  // ----- Numbers and strings -------------------------------------------------

  lemma {:induction false} ToLeOfFromLe(bytes: seq<byte>)
    ensures ToLe(FromLe(bytes), |bytes|) == bytes
  {
    if bytes == [] {
    } else {
      var rest := bytes[1..];
      ToLeOfFromLe(rest);
      ByteFirst(bytes[0], FromLe(rest));
      assert bytes == [bytes[0]] + rest;
    }
  }

  lemma ByteFirst(b: byte, n: nat)
    ensures (b + 256 * n) % 256 == b && (b + 256 * n) / 256 == n
  {
  }

  lemma SitsJoin(data: seq<byte>, pos: nat, a: seq<byte>, b: seq<byte>)
    requires Sits(data, pos, a) && Sits(data, pos + |a|, b)
    ensures Sits(data, pos, a + b)
  {
  }

  lemma SliceSits(data: seq<byte>, pos: nat, end: nat)
    requires pos <= end <= |data|
    ensures Sits(data, pos, data[pos..end])
  {
  }

  lemma U32Written(data: seq<byte>, pos: nat, what: string)
    requires U32At(data, pos, what).Parsed?
    ensures Sits(data, pos, ToLe(U32At(data, pos, what).value, 4))
  {
    SliceSits(data, pos, pos + 4);
    ToLeOfFromLe(data[pos..pos + 4]);
  }

  lemma U64Written(data: seq<byte>, pos: nat, what: string)
    requires U64At(data, pos, what).Parsed?
    ensures Sits(data, pos, ToLe(U64At(data, pos, what).value, 8))
  {
    SliceSits(data, pos, pos + 8);
    ToLeOfFromLe(data[pos..pos + 8]);
  }

  /** What a successful read of a string's bytes, or a skip over them, passed. */
  lemma StringWritten(data: seq<byte>, pos: nat, what: string) returns (s: seq<byte>)
    requires SkipStringAt(data, pos, what).Parsed?
    ensures |s| <= 67_108_864 && Sits(data, pos, WriteString(s))
    ensures SkipStringAt(data, pos, what) == Parsed((), pos + |WriteString(s)|)
    ensures StringAt(data, pos, what) == Parsed(s, pos + |WriteString(s)|)
  {
    var len := U64At(data, pos, what).value;
    s := data[pos + 8..pos + 8 + len];
    U64Written(data, pos, what);
    SliceSits(data, pos + 8, pos + 8 + len);
    SitsJoin(data, pos, ToLe(len, 8), s);
  }

  // ----- Counted loops -------------------------------------------------------

  /** `w` stands at `p`, and the read there gives its value and stops at its end. */
  ghost predicate Stands<T, W>(data: seq<byte>, r: Parse<T>, p: nat, w: W,
                               valid: W -> bool, write: W -> seq<byte>, value: W -> T) {
    valid(w) && Sits(data, p, write(w)) && r == Parsed(value(w), p + |write(w)|)
  }

  /** Wherever a read succeeds, it read something written. */
  ghost predicate ReadsWritten<T, W(!new)>(data: seq<byte>, read: nat -> Parse<T>,
                                           valid: W -> bool, write: W -> seq<byte>, value: W -> T) {
    forall p: nat :: read(p).Parsed? ==> exists w :: Stands(data, read(p), p, w, valid, write, value)
  }

  lemma {:induction false} FoldItemsCons<S, T>(step: (S, T) -> Result<S, GgufError>, x: T, xs: seq<T>, state: S)
    requires step(state, x).Ok?
    ensures FoldItems(step, [x] + xs, state) == FoldItems(step, xs, step(state, x).value)
  {
    var all := [x] + xs;
    if xs == [] {
      assert all[..0] == [];
      assert FoldItems(step, all[..0], state) == Ok(state);
    } else {
      FoldItemsCons(step, x, xs[..|xs| - 1], state);
      assert all[..|all| - 1] == [x] + xs[..|xs| - 1];
    }
  }

  /** A counted loop that succeeds has passed that many written things, and folded their values. */
  lemma {:induction false} RepeatWritten<S, T, W(!new)>(
    data: seq<byte>, read: nat -> Parse<T>, step: (S, T) -> Result<S, GgufError>, pos: nat, count: nat, state: S,
    valid: W -> bool, write: W -> seq<byte>, value: W -> T) returns (ws: seq<W>)
    requires ReadsWritten(data, read, valid, write, value) && pos <= |data|
    requires Repeat(read, step, pos, count, state).Parsed?
    ensures |ws| == count && forall w <- ws :: valid(w)
    ensures Sits(data, pos, Flatten(Each(write, ws)))
    ensures Repeat(read, step, pos, count, state).end == pos + |Flatten(Each(write, ws))|
    ensures FoldItems(step, Each(value, ws), state) == Ok(Repeat(read, step, pos, count, state).value)
    decreases count
  {
    if count == 0 {
      ws := [];
    } else {
      var w :| Stands(data, read(pos), pos, w, valid, write, value);
      var rest := RepeatWritten(data, read, step, read(pos).end, count - 1, step(state, value(w)).value,
                                valid, write, value);
      ws := [w] + rest;
      EachCons(write, w, rest);
      EachCons(value, w, rest);
      FlattenCons(write(w), Each(write, rest));
      SitsJoin(data, pos, write(w), Flatten(Each(write, rest)));
      FoldItemsCons(step, value(w), Each(value, rest), state);
    }
  }

  // ----- Metadata values -----------------------------------------------------

  /** Every byte string of a type's width is a value of that type. */
  lemma FixedFrom(valueType: nat, bytes: seq<byte>) returns (m: Meta)
    requires ScalarWidth(valueType) == Some(|bytes|)
    ensures FixedSize(m) && TypeOf(m) == valueType && WriteValue(m) == bytes
  {
    ToLeOfFromLe(bytes);
    var n := FromLe(bytes);
    assert Pow256(1) == 256 && Pow256(2) == 0x1_0000 && Pow256(4) == U32_LIMIT && Pow256(8) == U64_LIMIT;
    if valueType in {0, 1, 7} {
      assert bytes == [bytes[0]];
      m := if valueType == 0 then U8(bytes[0]) else if valueType == 1 then I8(bytes[0]) else Bool(bytes[0]);
    } else if valueType in {2, 3} {
      m := if valueType == 2 then U16(n) else I16(n);
    } else if valueType in {4, 5, 6} {
      m := if valueType == 4 then U32(n) else if valueType == 5 then I32(n) else F32(n);
    } else {
      m := if valueType == 10 then U64(n) else if valueType == 11 then I64(n) else F64(n);
    }
  }

  lemma FixedWritten(data: seq<byte>, pos: nat, valueType: nat, end: nat) returns (m: Meta)
    requires ScalarWidth(valueType).Some? && end == pos + ScalarWidth(valueType).value <= |data|
    ensures FixedSize(m) && TypeOf(m) == valueType && Sits(data, pos, WriteValue(m)) && end == pos + |WriteValue(m)|
  {
    SliceSits(data, pos, end);
    m := FixedFrom(valueType, data[pos..end]);
  }

  lemma FixedEnd(data: seq<byte>, pos: nat, valueType: nat, depth: nat)
    requires ScalarWidth(valueType).Some? && ValueAt(data, pos, valueType, depth).Parsed?
    ensures ValueAt(data, pos, valueType, depth).end == pos + ScalarWidth(valueType).value <= |data|
  {
  }

  /** Whatever a value read accepts is a written value of that type. */
  lemma {:induction false} ValueWritten(data: seq<byte>, pos: nat, valueType: nat, depth: nat) returns (m: Meta)
    requires ValueAt(data, pos, valueType, depth).Parsed?
    ensures ValidMeta(m, depth) && TypeOf(m) == valueType && Sits(data, pos, WriteValue(m))
    ensures ValueAt(data, pos, valueType, depth) == Parsed(ReadBack(m), pos + |WriteValue(m)|)
    decreases Levels(depth), 4
  {
    if ScalarWidth(valueType).Some? {
      FixedEnd(data, pos, valueType, depth);
      m := FixedWritten(data, pos, valueType, ValueAt(data, pos, valueType, depth).end);
    } else if valueType == 8 {
      var raw := StringWritten(data, pos, VALUE);
      m := Text(raw);
    } else {
      m := ArrayWritten(data, pos, depth);
    }
    ReadValue(data, pos, m, depth);
  }

  lemma {:induction false} ArrayWritten(data: seq<byte>, pos: nat, depth: nat) returns (m: Meta)
    requires ValueAt(data, pos, 9, depth).Parsed?
    ensures ValidMeta(m, depth) && m.Array? && Sits(data, pos, WriteValue(m))
    decreases Levels(depth), 3
  {
    var elementType, count := U32At(data, pos, VALUE).value, U64At(data, pos + 4, VALUE).value;
    U32Written(data, pos, VALUE);
    U64Written(data, pos + 4, VALUE);
    var items := ItemsWritten(data, pos + 12, elementType, count, depth);
    m := Array(elementType, items);
    SitsJoin(data, pos, ToLe(elementType, 4), ToLe(count, 8));
    SitsJoin(data, pos, ToLe(elementType, 4) + ToLe(count, 8), Flatten(WriteItems(items)));
  }

  ghost predicate ItemsOf(items: seq<Meta>, elementType: nat, depth: nat) {
    forall i :: 0 <= i < |items| ==> TypeOf(items[i]) == elementType && ValidMeta(items[i], depth)
  }

  lemma {:induction false} ItemsWritten(data: seq<byte>, pos: nat, elementType: nat, count: nat, depth: nat)
    returns (items: seq<Meta>)
    requires depth <= 2 && pos <= |data| && ArrayBodyAt(data, pos, elementType, count, depth).Parsed?
    ensures |items| == count && ItemsOf(items, elementType, depth + 1) && Sits(data, pos, Flatten(WriteItems(items)))
    ensures items != [] && FixedSize(items[0]) ==> |Flatten(WriteItems(items))| < U64_LIMIT
    decreases Levels(depth), 2
  {
    if ScalarWidth(elementType).Some? {
      items := FixedItems(data, pos, elementType, count);
    } else {
      items := LoopItems(data, pos, elementType, count, depth);
      if items != [] && FixedSize(items[0]) {
        FixedWidth(items[0]);
        assert false;
      }
    }
  }

  /** The elements skipped in one go, cut into values. */
  lemma {:induction false} FixedItems(data: seq<byte>, pos: nat, elementType: nat, count: nat)
    returns (items: seq<Meta>)
    requires ScalarWidth(elementType).Some? && count * ScalarWidth(elementType).value < U64_LIMIT
    requires pos + count * ScalarWidth(elementType).value <= |data|
    ensures |items| == count && ItemsOf(items, elementType, 0) && Sits(data, pos, Flatten(WriteItems(items)))
    ensures forall depth: nat :: ItemsOf(items, elementType, depth)
    ensures |Flatten(WriteItems(items))| == count * ScalarWidth(elementType).value
    decreases count
  {
    if count == 0 {
      items := [];
    } else {
      var width := ScalarWidth(elementType).value;
      assert count * width == (count - 1) * width + width;
      var init := FixedItems(data, pos, elementType, count - 1);
      var middle := pos + (count - 1) * width;
      var last := FixedWritten(data, middle, elementType, middle + width);
      items := init + [last];
      assert WriteItems(items)[..count - 1] == WriteItems(init);
      SitsJoin(data, pos, Flatten(WriteItems(init)), WriteValue(last));
    }
  }

  lemma {:induction false} LoopItems(data: seq<byte>, pos: nat, elementType: nat, count: nat, depth: nat)
    returns (items: seq<Meta>)
    requires depth <= 2 && pos <= |data|
    requires Repeat(ValueReader(data, elementType, depth + 1), Discard(), pos, count, ()).Parsed?
    ensures |items| == count && ItemsOf(items, elementType, depth + 1) && Sits(data, pos, Flatten(WriteItems(items)))
    decreases Levels(depth), 1
  {
    LoopReads(data, elementType, depth);
    items := RepeatWritten(data, ValueReader(data, elementType, depth + 1), Discard(), pos, count, (),
                           ItemValid(elementType, depth + 1), ItemWrite(), ItemValue());
    assert Each(ItemWrite(), items) == WriteItems(items);
    forall i | 0 <= i < |items|
      ensures TypeOf(items[i]) == elementType && ValidMeta(items[i], depth + 1)
    {
      assert ItemValid(elementType, depth + 1)(items[i]);
    }
  }

  ghost function ItemValid(elementType: nat, depth: nat): Meta -> bool {
    (m: Meta) => TypeOf(m) == elementType && ValidMeta(m, depth)
  }

  ghost function ItemWrite(): Meta -> seq<byte> {
    (m: Meta) => WriteValue(m)
  }

  ghost function ItemValue(): Meta -> Option<u32> {
    (m: Meta) => ReadBack(m)
  }

  lemma {:induction false} LoopReads(data: seq<byte>, elementType: nat, depth: nat)
    requires depth <= 2
    ensures ReadsWritten(data, ValueReader(data, elementType, depth + 1),
                         ItemValid(elementType, depth + 1), ItemWrite(), ItemValue())
    decreases Levels(depth), 0
  {
    var read := ValueReader(data, elementType, depth + 1);
    var valid, write, value := ItemValid(elementType, depth + 1), ItemWrite(), ItemValue();
    forall p: nat | read(p).Parsed?
      ensures exists m :: Stands(data, read(p), p, m, valid, write, value)
    {
      var m := ValueWritten(data, p, elementType, depth + 1);
      assert Stands(data, read(p), p, m, valid, write, value);
    }
  }

  // ----- The tables ----------------------------------------------------------

  /** The three reads of a pair. */
  lemma PairFields(data: seq<byte>, pos: nat) returns (afterKey: nat, kind: nat)
    requires PairAt(data, pos).Parsed?
    ensures SkipStringAt(data, pos, KEY).Parsed? && SkipStringAt(data, pos, KEY).end == afterKey
    ensures U32At(data, afterKey, KIND) == Parsed(kind, afterKey + 4)
    ensures ValueAt(data, afterKey + 4, kind, 0).Parsed?
  {
    afterKey := StringAt(data, pos, KEY).end;
    kind := U32At(data, afterKey, KIND).value;
  }

  lemma PairSits(data: seq<byte>, pos: nat, key: seq<byte>, m: Meta, afterKey: nat)
    requires Sits(data, pos, WriteString(key)) && afterKey == pos + |WriteString(key)|
    requires Sits(data, afterKey, ToLe(TypeOf(m), 4)) && Sits(data, afterKey + 4, WriteValue(m))
    ensures Sits(data, pos, WritePair(MetaPair(key, m)))
  {
    SitsJoin(data, pos, WriteString(key), ToLe(TypeOf(m), 4));
    SitsJoin(data, pos, WriteString(key) + ToLe(TypeOf(m), 4), WriteValue(m));
  }

  lemma PairWritten(data: seq<byte>, pos: nat) returns (p: MetaPair)
    requires PairAt(data, pos).Parsed?
    ensures ValidPair(p) && Sits(data, pos, WritePair(p))
    ensures PairAt(data, pos) == Parsed(ReadPairBack(p), pos + |WritePair(p)|)
  {
    var afterKey, kind := PairFields(data, pos);
    var key := StringWritten(data, pos, KEY);
    U32Written(data, afterKey, KIND);
    var m := ValueWritten(data, afterKey + 4, kind, 0);
    p := MetaPair(key, m);
    PairSits(data, pos, key, m, afterKey);
    ReadPair(data, pos, p);
  }

  lemma PairsWritten(data: seq<byte>, pos: nat, count: nat) returns (pairs: seq<MetaPair>)
    requires pos <= |data| && PairsAt(data, pos, count).Parsed?
    ensures |pairs| == count && forall p <- pairs :: ValidPair(p)
    ensures Sits(data, pos, Flatten(WritePairs(pairs)))
    ensures PairsAt(data, pos, count).end == pos + |Flatten(WritePairs(pairs))|
  {
    var valid := (p: MetaPair) => ValidPair(p);
    var write := (p: MetaPair) => WritePair(p);
    var value := (p: MetaPair) => ReadPairBack(p);
    forall at: nat | PairReader(data)(at).Parsed?
      ensures exists p :: Stands(data, PairReader(data)(at), at, p, valid, write, value)
    {
      var p := PairWritten(data, at);
      assert Stands(data, PairReader(data)(at), at, p, valid, write, value);
    }
    pairs := RepeatWritten(data, PairReader(data), NextAlignment(), pos, count, DEFAULT_ALIGNMENT, valid, write, value);
    assert Each(write, pairs) == WritePairs(pairs);
  }

  lemma {:induction false} FoldedDimsFit(dims: seq<u64>)
    requires FoldItems(NextElements(), dims, 1).Ok?
    ensures ProductsFit(dims) && FoldItems(NextElements(), dims, 1) == Ok(Product(dims))
  {
    if dims == [] {
    } else {
      FoldedDimsFit(dims[..|dims| - 1]);
    }
  }

  lemma DimsWritten(data: seq<byte>, pos: nat, rank: nat) returns (dims: seq<u64>)
    requires pos <= |data| && Repeat(DimReader(data), NextElements(), pos, rank, 1).Parsed?
    ensures |dims| == rank && ProductsFit(dims) && Sits(data, pos, Flatten(WriteDims(dims)))
    ensures Repeat(DimReader(data), NextElements(), pos, rank, 1).end == pos + |Flatten(WriteDims(dims))|
  {
    var valid := (dim: u64) => true;
    var write := (dim: u64) => ToLe(dim, 8);
    var value := (dim: u64) => dim;
    forall p: nat | DimReader(data)(p).Parsed?
      ensures exists dim: u64 :: Stands<u64, u64>(data, DimReader(data)(p), p, dim, valid, write, value)
    {
      U64Written(data, p, SHAPE);
      assert Stands<u64, u64>(data, DimReader(data)(p), p, U64At(data, p, SHAPE).value, valid, write, value);
    }
    dims := RepeatWritten<u64, u64, u64>(data, DimReader(data), NextElements(), pos, rank, 1, valid, write, value);
    assert Each(write, dims) == WriteDims(dims);
    assert Each(value, dims) == dims;
    FoldedDimsFit(dims);
  }

  lemma ShapeWritten(data: seq<byte>, pos: nat) returns (dims: seq<u64>)
    requires ShapeAt(data, pos).Parsed?
    ensures |dims| <= 8 && ProductsFit(dims) && Sits(data, pos, WriteShape(dims))
    ensures ShapeAt(data, pos).end == pos + |WriteShape(dims)|
  {
    var rank := U32At(data, pos, SHAPE).value;
    U32Written(data, pos, SHAPE);
    dims := DimsWritten(data, pos + 4, rank);
    SitsJoin(data, pos, ToLe(rank, 4), Flatten(WriteDims(dims)));
  }

  /** The four reads of a table entry. */
  lemma EntryFields(data: seq<byte>, pos: nat) returns (afterName: nat, afterShape: nat, kind: u32, offset: u64)
    requires TensorAt(data, pos).Parsed?
    ensures SkipStringAt(data, pos, NAME) == Parsed((), afterName)
    ensures ShapeAt(data, afterName).Parsed? && ShapeAt(data, afterName).end == afterShape
    ensures U32At(data, afterShape, LAYOUT) == Parsed(kind, afterShape + 4)
    ensures U64At(data, afterShape + 4, OFFSET) == Parsed(offset, afterShape + 12)
  {
    afterName := SkipStringAt(data, pos, NAME).end;
    afterShape := ShapeAt(data, afterName).end;
    kind, offset := U32At(data, afterShape, LAYOUT).value, U64At(data, afterShape + 4, OFFSET).value;
  }

  lemma EntrySits(data: seq<byte>, pos: nat, t: TableEntry, afterName: nat, afterShape: nat)
    requires Sits(data, pos, WriteString(t.name)) && afterName == pos + |WriteString(t.name)|
    requires Sits(data, afterName, WriteShape(t.dims)) && afterShape == afterName + |WriteShape(t.dims)|
    requires Sits(data, afterShape, ToLe(t.ggmlType, 4)) && Sits(data, afterShape + 4, ToLe(t.offset, 8))
    ensures Sits(data, pos, WriteEntry(t))
  {
    SitsJoin(data, afterShape, ToLe(t.ggmlType, 4), ToLe(t.offset, 8));
    SitsJoin(data, afterName, WriteShape(t.dims), ToLe(t.ggmlType, 4) + ToLe(t.offset, 8));
    SitsJoin(data, pos, WriteString(t.name), WriteShape(t.dims) + (ToLe(t.ggmlType, 4) + ToLe(t.offset, 8)));
  }

  lemma EntryWritten(data: seq<byte>, pos: nat) returns (t: TableEntry)
    requires TensorAt(data, pos).Parsed?
    ensures ValidEntry(t) && Sits(data, pos, WriteEntry(t))
    ensures TensorAt(data, pos) == Parsed(Described(t), pos + |WriteEntry(t)|)
  {
    var afterName, afterShape, kind, offset := EntryFields(data, pos);
    var name := StringWritten(data, pos, NAME);
    var dims := ShapeWritten(data, afterName);
    U32Written(data, afterShape, LAYOUT);
    U64Written(data, afterShape + 4, OFFSET);
    t := TableEntry(name, dims, kind, offset);
    EntrySits(data, pos, t, afterName, afterShape);
    ReadEntry(data, pos, t);
  }

  lemma TableWritten(data: seq<byte>, pos: nat, count: nat) returns (table: seq<TableEntry>)
    requires pos <= |data| && TensorsAt(data, pos, count).Parsed?
    ensures |table| == count && forall t <- table :: ValidEntry(t)
    ensures Sits(data, pos, Flatten(WriteTable(table)))
    ensures TensorsAt(data, pos, count).end == pos + |Flatten(WriteTable(table))|
  {
    var valid := (t: TableEntry) => ValidEntry(t);
    var write := (t: TableEntry) => WriteEntry(t);
    var value := (t: TableEntry) => if ValidEntry(t) then Described(t) else Tensor(0, 0, 0);
    forall p: nat | TensorReader(data)(p).Parsed?
      ensures exists t :: Stands(data, TensorReader(data)(p), p, t, valid, write, value)
    {
      var t := EntryWritten(data, p);
      assert Stands(data, TensorReader(data)(p), p, t, valid, write, value);
    }
    table := RepeatWritten(data, TensorReader(data), Collect<Tensor>(), pos, count, [], valid, write, value);
    assert Each(write, table) == WriteTable(table);
  }

  // ----- The header ----------------------------------------------------------

  lemma CountsWritten(data: seq<byte>) returns (version: nat)
    requires CountsAt(data).Parsed?
    ensures 2 <= version <= 3 && CountsAt(data).value.tensors <= 1_000_000 && CountsAt(data).value.pairs <= 1_000_000
    ensures Sits(data, 0, GGUF + ToLe(version, 4) + ToLe(CountsAt(data).value.tensors, 8)
                          + ToLe(CountsAt(data).value.pairs, 8))
  {
    version := U32At(data, 4, VERSION_FIELD).value;
    var tensors, pairs := U64At(data, 8, TENSOR_COUNT).value, U64At(data, 16, PAIR_COUNT).value;
    MagicIsGguf();
    U32Written(data, 0, MAGIC_FIELD);
    U32Written(data, 4, VERSION_FIELD);
    U64Written(data, 8, TENSOR_COUNT);
    U64Written(data, 16, PAIR_COUNT);
    SitsJoin(data, 0, GGUF, ToLe(version, 4));
    SitsJoin(data, 0, GGUF + ToLe(version, 4), ToLe(tensors, 8));
    SitsJoin(data, 0, GGUF + ToLe(version, 4) + ToLe(tensors, 8), ToLe(pairs, 8));
  }

  /** A header that is read was written. */
  lemma HeaderWritten(data: seq<byte>) returns (f: File)
    requires HeaderAt(data).Parsed?
    ensures ValidFile(f) && Sits(data, 0, WriteHeader(f))
  {
    var counts := CountsAt(data).value;
    var version := CountsWritten(data);
    var pairs := PairsWritten(data, 24, counts.pairs);
    var afterPairs := 24 + |Flatten(WritePairs(pairs))|;
    var table := TableWritten(data, afterPairs, counts.tensors);
    f := File(version, pairs, table);
    SitsJoin(data, 0, WriteCounts(f), Flatten(WritePairs(pairs)));
    SitsJoin(data, 0, WriteCounts(f) + Flatten(WritePairs(pairs)), Flatten(WriteTable(table)));
  }

  lemma SitsAtStart(data: seq<byte>, part: seq<byte>)
    ensures Sits(data, 0, part) <==> part <= data
  {
  }

  /** The header of `f` stands at the start of the file. */
  ghost predicate StartsWith(data: seq<byte>, f: File) {
    ValidFile(f) && WriteHeader(f) <= data
  }

  lemma StartIsRead(data: seq<byte>, f: File)
    requires StartsWith(data, f)
    ensures HeaderAt(data) == Parsed(Header(LastAlignment(f.pairs), DescribedAll(f.table)), |WriteHeader(f)|)
  {
    var rest := data[|WriteHeader(f)|..];
    assert data == WriteHeader(f) + rest;
    HeaderRoundTrip(f, rest);
  }

  /** A header is readable if and only if the file starts with a written one, and then it is read as that one. */
  lemma HeaderExactly(data: seq<byte>)
    ensures HeaderAt(data).Parsed? <==> exists f :: StartsWith(data, f)
    ensures forall f :: StartsWith(data, f) ==>
              HeaderAt(data) == Parsed(Header(LastAlignment(f.pairs), DescribedAll(f.table)), |WriteHeader(f)|)
  {
    forall f | StartsWith(data, f)
      ensures HeaderAt(data) == Parsed(Header(LastAlignment(f.pairs), DescribedAll(f.table)), |WriteHeader(f)|)
    {
      StartIsRead(data, f);
    }
    if HeaderAt(data).Parsed? {
      var f := HeaderWritten(data);
      SitsAtStart(data, WriteHeader(f));
      assert StartsWith(data, f);
    }
  }

  /** The file starts with the header of `f` and holds every tensor of its table. */
  ghost predicate Complete(data: seq<byte>, f: File) {
    && StartsWith(data, f)
    && GgufVerdict.Fits(|data|, GgufVerdict.AlignedStart(|WriteHeader(f)|, LastAlignment(f.pairs)),
                        DescribedAll(f.table))
  }

  /** A file passes if and only if it is a written header followed by enough bytes. */
  lemma PassesExactly(data: seq<byte>)
    requires |data| <= GgufVerdict.MAX_FILE_LENGTH
    ensures Verdict(data).Ok? <==> exists f :: Complete(data, f)
  {
    HeaderExactly(data);
    GgufVerdict.VerdictExact(data);
    if Verdict(data).Ok? {
      var f :| StartsWith(data, f);
      assert Complete(data, f);
    }
  }

  // ----- The three outcomes of a rejection -----------------------------------

  /** A read that fails, fails with damage. */
  ghost predicate FailsDamaged<T>(r: Parse<T>) {
    r.Failed? ==> r.error.HeaderDamaged?
  }

  lemma {:induction false} RepeatDamaged<S, T>(read: nat -> Parse<T>, step: (S, T) -> Result<S, GgufError>,
                                               pos: nat, count: nat, state: S)
    requires forall p: nat :: FailsDamaged(read(p))
    requires forall s, item :: step(s, item).Err? ==> step(s, item).error.HeaderDamaged?
    ensures FailsDamaged(Repeat(read, step, pos, count, state))
    decreases count
  {
    if count == 0 {
    } else {
      assert FailsDamaged(read(pos));
      if read(pos).Parsed? && step(state, read(pos).value).Ok? {
        RepeatDamaged(read, step, read(pos).end, count - 1, step(state, read(pos).value).value);
      }
    }
  }

  lemma {:induction false} ValueDamaged(data: seq<byte>, pos: nat, valueType: nat, depth: nat)
    ensures FailsDamaged(ValueAt(data, pos, valueType, depth))
    decreases Levels(depth), 1
  {
    if valueType == 9 && depth <= 2 && U32At(data, pos, VALUE).Parsed? && U64At(data, pos + 4, VALUE).Parsed? {
      ItemsDamaged(data, pos + 12, U32At(data, pos, VALUE).value, U64At(data, pos + 4, VALUE).value, depth);
    }
  }

  lemma {:induction false} ItemsDamaged(data: seq<byte>, pos: nat, elementType: nat, count: nat, depth: nat)
    requires depth <= 2 && pos <= |data|
    ensures FailsDamaged(ArrayBodyAt(data, pos, elementType, count, depth))
    decreases Levels(depth), 0
  {
    if ScalarWidth(elementType).None? {
      var read := ValueReader(data, elementType, depth + 1);
      forall p: nat
        ensures FailsDamaged(read(p))
      {
        ValueDamaged(data, p, elementType, depth + 1);
      }
      RepeatDamaged(read, Discard(), pos, count, ());
    }
  }

  lemma PairDamaged(data: seq<byte>, pos: nat)
    ensures FailsDamaged(PairAt(data, pos))
  {
    if StringAt(data, pos, KEY).Parsed? && U32At(data, StringAt(data, pos, KEY).end, KIND).Parsed? {
      var afterKey := StringAt(data, pos, KEY).end;
      var kind := U32At(data, afterKey, KIND).value;
      ValueDamaged(data, afterKey + 4, kind, 0);
      PairIsItsValue(data, pos, afterKey, kind);
    } else {
      PairEarlyDamaged(data, pos);
    }
  }

  lemma PairEarlyDamaged(data: seq<byte>, pos: nat)
    requires StringAt(data, pos, KEY).Failed? || U32At(data, StringAt(data, pos, KEY).end, KIND).Failed?
    ensures FailsDamaged(PairAt(data, pos))
  {
  }

  lemma PairIsItsValue(data: seq<byte>, pos: nat, afterKey: nat, kind: nat)
    requires StringAt(data, pos, KEY).Parsed? && StringAt(data, pos, KEY).end == afterKey
    requires U32At(data, afterKey, KIND) == Parsed(kind, afterKey + 4)
    ensures var value := ValueAt(data, afterKey + 4, kind, 0);
            value.Failed? ==> PairAt(data, pos) == Failed(value.error)
    ensures ValueAt(data, afterKey + 4, kind, 0).Parsed? ==> PairAt(data, pos).Parsed?
  {
  }

  lemma ShapeDamaged(data: seq<byte>, pos: nat)
    ensures FailsDamaged(ShapeAt(data, pos))
  {
    if U32At(data, pos, SHAPE).Parsed? {
      RepeatDamaged(DimReader(data), NextElements(), pos + 4, U32At(data, pos, SHAPE).value, 1);
    }
  }

  lemma TablesDamaged(data: seq<byte>, pos: nat, count: nat)
    requires pos <= |data|
    ensures FailsDamaged(PairsAt(data, pos, count)) && FailsDamaged(TensorsAt(data, pos, count))
  {
    forall p: nat
      ensures FailsDamaged(PairReader(data)(p))
    {
      PairDamaged(data, p);
    }
    RepeatDamaged(PairReader(data), NextAlignment(), pos, count, DEFAULT_ALIGNMENT);
    forall p: nat
      ensures FailsDamaged(TensorReader(data)(p))
    {
      if SkipStringAt(data, p, NAME).Parsed? {
        ShapeDamaged(data, SkipStringAt(data, p, NAME).end);
      }
    }
    RepeatDamaged(TensorReader(data), Collect<Tensor>(), pos, count, []);
  }

  /** A file of at least four bytes that does not start with the four letters. */
  predicate OtherMagic(data: seq<byte>) {
    |data| >= 4 && data[..4] != [71, 71, 85, 70]
  }

  lemma MagicRead(data: seq<byte>)
    requires |data| >= 4
    ensures U32At(data, 0, MAGIC_FIELD) == Parsed(MAGIC, 4) <==> data[..4] == [71, 71, 85, 70]
  {
    MagicIsGguf();
    U32Written(data, 0, MAGIC_FIELD);
    SitsAtStart(data, GGUF);
    if data[..4] == GGUF {
      ReadU32(data, 0, MAGIC, MAGIC_FIELD);
    } else {
      SitsAtStart(data, ToLe(U32At(data, 0, MAGIC_FIELD).value, 4));
    }
  }

  lemma CountsFailure(data: seq<byte>)
    ensures CountsAt(data) == Failed(NotGguf) <==> OtherMagic(data)
    ensures CountsAt(data) == Failed(NotGguf) || FailsDamaged(CountsAt(data))
  {
    if |data| >= 4 {
      MagicRead(data);
    }
  }

  lemma HeaderFailure(data: seq<byte>)
    ensures HeaderAt(data) == Failed(NotGguf) <==> OtherMagic(data)
    ensures HeaderAt(data) == Failed(NotGguf) || FailsDamaged(HeaderAt(data))
  {
    CountsFailure(data);
    if CountsAt(data).Parsed? {
      TablesDamaged(data, 24, CountsAt(data).value.pairs);
      var pairs := PairsAt(data, 24, CountsAt(data).value.pairs);
      if pairs.Parsed? {
        TablesDamaged(data, pairs.end, CountsAt(data).value.tensors);
      }
    }
  }

  /**
    Every file is one of four things: no GGUF file by its first four bytes; damaged, when
    they are right or missing but no written header stands at its start; truncated, when
    one does and a tensor ends behind the file; or good.
   */
  lemma OutcomeExactly(data: seq<byte>)
    requires |data| <= GgufVerdict.MAX_FILE_LENGTH
    ensures Verdict(data) == Err(NotGguf) <==> OtherMagic(data)
    ensures Verdict(data).Err? && Verdict(data).error.HeaderDamaged?
            <==> !OtherMagic(data) && !exists f :: StartsWith(data, f)
    ensures Verdict(data).Err? && Verdict(data).error.Truncated?
            <==> (exists f :: StartsWith(data, f)) && !exists f :: Complete(data, f)
  {
    HeaderFailure(data);
    HeaderExactly(data);
    PassesExactly(data);
  }
}
