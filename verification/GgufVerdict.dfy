/**
  What the integrity verdict means: exact containment of every tensor despite
  saturating arithmetic, and exact detection of truncation.
 */
module GgufVerdict {
  import opened Prelude
  import opened GgufFormat

  // ----- Exactness of the u64 arithmetic -------------------------------------

  const MAX_FILE_LENGTH: nat := 0x8000_0000_0000_0000

  /** Bytes the tensor occupies, without saturation. */
  function ExactSize(t: Tensor): nat {
    match TypeLayout(t.ggmlType)
    case Some(layout) => CeilDiv(t.elements, layout.0) * layout.1
    case None => 1
  }

  /** The data section starts inside the file and every tensor ends inside it. */
  ghost predicate Fits(fileLength: nat, dataStart: nat, tensors: seq<Tensor>) {
    && dataStart <= fileLength
    && forall i :: 0 <= i < |tensors| ==> dataStart + tensors[i].offset + ExactSize(tensors[i]) <= fileLength
  }

  /** The least multiple of the alignment at or after the table end, in unbounded arithmetic. */
  function AlignedStart(tableEnd: nat, alignment: Alignment): nat {
    CeilDiv(tableEnd, alignment) * alignment
  }

  /** For any real file length the round-up of the table end never overflows u64. */
  lemma RoundUpExact(tableEnd: nat, alignment: Alignment)
    requires tableEnd <= MAX_FILE_LENGTH
    ensures DataStart(tableEnd, alignment) == AlignedStart(tableEnd, alignment) < U64_LIMIT
  {
    CeilDivIsLeastMultiple(tableEnd, alignment);
    SmallMod(CeilDiv(tableEnd, alignment) * alignment);
  }

  lemma SmallMod(x: nat)
    requires x < U64_LIMIT
    ensures x % U64_LIMIT == x
  {
  }

  /** The saturated maximum bounds a capacity below the u64 maximum exactly when every exact extent does. */
  lemma {:induction false} FurthestExact(tensors: seq<Tensor>, room: nat)
    requires room < U64_LIMIT - 1
    ensures Furthest(tensors) <= room
            <==> forall i :: 0 <= i < |tensors| ==> tensors[i].offset + ExactSize(tensors[i]) <= room
  {
    if tensors == [] {
    } else {
      var init := tensors[..|tensors| - 1];
      FurthestExact(init, room);
      assert tensors == init + [tensors[|tensors| - 1]];
    }
  }

  /**
    A file passes exactly when its header parses, its data section starts inside it,
    and every tensor, measured without any saturation, lies inside it.
   */
  lemma VerdictExact(data: seq<byte>)
    requires |data| <= MAX_FILE_LENGTH
    ensures Verdict(data).Ok? <==>
            && HeaderAt(data).Parsed?
            && var Parsed(header, tableEnd) := HeaderAt(data);
               Fits(|data|, AlignedStart(tableEnd, header.alignment), header.tensors)
  {
    if HeaderAt(data).Parsed? {
      var Parsed(header, tableEnd) := HeaderAt(data);
      RequiredExact(header, tableEnd, |data|);
    }
  }

  /** The required size of a header decides containment. */
  lemma RequiredExact(header: Header, tableEnd: nat, fileLength: nat)
    requires tableEnd <= fileLength <= MAX_FILE_LENGTH
    ensures Required(header, tableEnd) <= fileLength
            <==> Fits(fileLength, AlignedStart(tableEnd, header.alignment), header.tensors)
  {
    RoundUpExact(tableEnd, header.alignment);
    SaturatedSumExact(header.tensors, AlignedStart(tableEnd, header.alignment), fileLength);
  }

  /** Comparing a length with the saturated sum decides the same as the exact containment. */
  lemma SaturatedSumExact(tensors: seq<Tensor>, dataStart: nat, fileLength: nat)
    requires fileLength <= MAX_FILE_LENGTH
    ensures SaturatingAdd(dataStart, Furthest(tensors)) <= fileLength <==> Fits(fileLength, dataStart, tensors)
  {
    if dataStart <= fileLength {
      FurthestExact(tensors, fileLength - dataStart);
      assert forall i {:trigger tensors[i]} :: 0 <= i < |tensors| ==>
        (dataStart + tensors[i].offset + ExactSize(tensors[i]) <= fileLength
         <==> tensors[i].offset + ExactSize(tensors[i]) <= fileLength - dataStart);
    }
  }

  // ----- Known tensor types --------------------------------------------------

  /** A block of elements of so many bits each, with so many bytes of scales, minima and codes beside them. */
  datatype Block = Block(elements: nat, bits: nat, beside: nat)

  /** The types by name: the number in a name is the bits of an element, the plain types carry nothing beside. */
  function BlockOf(ggmlType: nat): Option<Block> {
    match ggmlType
    // F32, F16, BF16, F64 and the integers
    case 0 => Some(Block(1, 32, 0))
    case 1 => Some(Block(1, 16, 0))
    case 30 => Some(Block(1, 16, 0))
    case 28 => Some(Block(1, 64, 0))
    case 24 => Some(Block(1, 8, 0))
    case 25 => Some(Block(1, 16, 0))
    case 26 => Some(Block(1, 32, 0))
    case 27 => Some(Block(1, 64, 0))
    // Q4_0 to Q8_1, IQ4_NL, MXFP4: blocks of 32
    case 2 => Some(Block(32, 4, 2))
    case 3 => Some(Block(32, 4, 4))
    case 6 => Some(Block(32, 5, 2))
    case 7 => Some(Block(32, 5, 4))
    case 8 => Some(Block(32, 8, 2))
    case 9 => Some(Block(32, 8, 4))
    case 20 => Some(Block(32, 4, 2))
    case 39 => Some(Block(32, 4, 1))
    // Q2_K to Q8_K
    case 10 => Some(Block(256, 2, 20))
    case 11 => Some(Block(256, 3, 14))
    case 12 => Some(Block(256, 4, 16))
    case 13 => Some(Block(256, 5, 16))
    case 14 => Some(Block(256, 6, 18))
    case 15 => Some(Block(256, 8, 36))
    // IQ1_S to IQ4_XS, TQ1_0 and TQ2_0
    case 19 => Some(Block(256, 1, 18))
    case 29 => Some(Block(256, 1, 24))
    case 16 => Some(Block(256, 2, 2))
    case 17 => Some(Block(256, 2, 10))
    case 22 => Some(Block(256, 2, 18))
    case 18 => Some(Block(256, 3, 2))
    case 21 => Some(Block(256, 3, 14))
    case 23 => Some(Block(256, 4, 8))
    case 34 => Some(Block(256, 1, 22))
    case 35 => Some(Block(256, 2, 2))
    case _ => None
  }

  /** A block takes the bytes of its elements' bits and what stands beside them; no other type is known. */
  lemma BlocksHoldTheirBits(ggmlType: nat)
    ensures TypeLayout(ggmlType)
            == match BlockOf(ggmlType)
               case Some(b) => Some((b.elements, b.elements * b.bits / 8 + b.beside))
               case None => None
  {
  }

  // ----- Unknown tensor types ------------------------------------------------

  /** What a tensor really occupies, given the layouts of the types the table does not know. */
  function TrueSize(t: Tensor, layout: nat -> (nat, nat)): nat
    requires layout(t.ggmlType).0 > 0
  {
    if TypeLayout(t.ggmlType).Some? then ExactSize(t)
    else CeilDiv(t.elements, layout(t.ggmlType).0) * layout(t.ggmlType).1
  }

  ghost predicate IsLayout(layout: nat -> (nat, nat)) {
    forall ggmlType :: layout(ggmlType).0 > 0 && layout(ggmlType).1 > 0
  }

  /** Where the tensor's bytes end, relative to the data section. */
  function TrueEnd(t: Tensor, layout: nat -> (nat, nat)): nat
    requires layout(t.ggmlType).0 > 0
  {
    t.offset + TrueSize(t, layout)
  }

  ghost predicate FitsTruly(fileLength: nat, dataStart: nat, tensors: seq<Tensor>, layout: nat -> (nat, nat))
    requires IsLayout(layout)
  {
    dataStart <= fileLength && forall t <- tensors :: dataStart + TrueEnd(t, layout) <= fileLength
  }

  /** An empty tensor of a type the table does not know; the check counts it as one byte. */
  predicate UnknownEmpty(t: Tensor) {
    TypeLayout(t.ggmlType).None? && t.elements == 0
  }

  /** The file has this header and is long enough for what its tensors really occupy. */
  ghost predicate GoodFile(data: seq<byte>, header: Header, tableEnd: nat, layout: nat -> (nat, nat))
    requires IsLayout(layout)
  {
    && |data| <= MAX_FILE_LENGTH
    && HeaderAt(data) == Parsed(header, tableEnd)
    && FitsTruly(|data|, AlignedStart(tableEnd, header.alignment), header.tensors, layout)
  }

  lemma NonemptyTakesRoom(t: Tensor, layout: nat -> (nat, nat))
    requires IsLayout(layout) && (TypeLayout(t.ggmlType).None? ==> t.elements > 0)
    ensures ExactSize(t) <= TrueSize(t, layout)
  {
    if TypeLayout(t.ggmlType).None? {
      var (block, size) := layout(t.ggmlType);
      CeilDivIsLeastMultiple(t.elements, block);
      var q := CeilDiv(t.elements, block);
      assert q >= 1;
      MulMonotone(1, q, size);
    }
  }

  lemma CountedFits(fileLength: nat, dataStart: nat, t: Tensor, layout: nat -> (nat, nat))
    requires IsLayout(layout) && dataStart + TrueEnd(t, layout) <= fileLength
    ensures dataStart + t.offset + ExactSize(t) <= fileLength
            <==> (UnknownEmpty(t) ==> dataStart + t.offset < fileLength)
  {
    if !UnknownEmpty(t) {
      NonemptyTakesRoom(t, layout);
    }
  }

  lemma GoodFits(fileLength: nat, dataStart: nat, tensors: seq<Tensor>, layout: nat -> (nat, nat))
    requires IsLayout(layout) && FitsTruly(fileLength, dataStart, tensors, layout)
    ensures Fits(fileLength, dataStart, tensors)
            <==> forall t <- tensors :: UnknownEmpty(t) ==> dataStart + t.offset < fileLength
  {
    forall i | 0 <= i < |tensors|
      ensures dataStart + tensors[i].offset + ExactSize(tensors[i]) <= fileLength
              <==> (UnknownEmpty(tensors[i]) ==> dataStart + tensors[i].offset < fileLength)
    {
      assert tensors[i] in tensors;
      CountedFits(fileLength, dataStart, tensors[i], layout);
    }
  }

  /** A good file passes exactly when no empty tensor of an unknown type starts at its very end. */
  lemma GoodFilePassesExactly(data: seq<byte>, header: Header, tableEnd: nat, layout: nat -> (nat, nat))
    requires IsLayout(layout) && GoodFile(data, header, tableEnd, layout)
    ensures var start := AlignedStart(tableEnd, header.alignment);
            Verdict(data).Ok? <==> forall t <- header.tensors :: UnknownEmpty(t) ==> start + t.offset < |data|
  {
    VerdictExact(data);
    GoodFits(|data|, AlignedStart(tableEnd, header.alignment), header.tensors, layout);
  }

  // ----- Cutting and extending a file ----------------------------------------

  predicate Damaged<T>(r: Parse<T>) {
    r.Failed? && r.error.HeaderDamaged?
  }

  /**
    A read of the first `k` bytes against the same read of the whole: equal when the
    whole read ended by `k`, damage when it ended later, and never a new success.
   */
  ghost predicate CutAgrees<T>(whole: Parse<T>, cut: Parse<T>, k: nat) {
    match whole
    case Parsed(_, end) => if end <= k then cut == whole else Damaged(cut)
    case Failed(_) => cut == whole || Damaged(cut)
  }

  lemma CutBytes(data: seq<byte>, k: nat, pos: nat, n: nat, what: string)
    requires k <= |data|
    ensures CutAgrees(BytesAt(data, pos, n, what), BytesAt(data[..k], pos, n, what), k)
  {
    if pos + n <= k {
      assert data[..k][pos..pos + n] == data[pos..pos + n];
    }
  }

  lemma CutString(data: seq<byte>, k: nat, pos: nat, what: string)
    requires k <= |data|
    ensures CutAgrees(StringLenAt(data, pos, what), StringLenAt(data[..k], pos, what), k)
    ensures CutAgrees(StringAt(data, pos, what), StringAt(data[..k], pos, what), k)
    ensures CutAgrees(SkipStringAt(data, pos, what), SkipStringAt(data[..k], pos, what), k)
  {
    CutBytes(data, k, pos, 8, what);
    var len := StringLenAt(data, pos, what);
    if len.Parsed? {
      CutBytes(data, k, len.end, len.value, what);
    }
  }

  /** The cut of a counted loop, from the cuts of its reads. */
  lemma {:induction false} CutRepeat<S, T>(whole: nat -> Parse<T>, cut: nat -> Parse<T>,
                                               step: (S, T) -> Result<S, GgufError>,
                                               pos: nat, count: nat, state: S, k: nat, length: nat)
    requires pos <= k <= length && Advances(whole, length)
    requires forall p: nat :: CutAgrees(whole(p), cut(p), k)
    ensures CutAgrees(Repeat(whole, step, pos, count, state), Repeat(cut, step, pos, count, state), k)
    decreases count
  {
    if count == 0 {
    } else {
      assert CutAgrees(whole(pos), cut(pos), k);
      if whole(pos).Parsed? && step(state, whole(pos).value).Ok? {
        var Parsed(item, next) := whole(pos);
        if next <= k {
          CutRepeat(whole, cut, step, next, count - 1, step(state, item).value, k, length);
        } else {
          RepeatAdvances(whole, step, next, count - 1, step(state, item).value, length);
        }
      }
    }
  }

  lemma {:induction false} CutValue(data: seq<byte>, k: nat, pos: nat, valueType: nat, depth: nat)
    requires k <= |data|
    ensures CutAgrees(ValueAt(data, pos, valueType, depth), ValueAt(data[..k], pos, valueType, depth), k)
    decreases Levels(depth), 1
  {
    if valueType == 9 {
      CutArray(data, k, pos, depth);
    } else if valueType == 8 {
      CutString(data, k, pos, VALUE);
    } else {
      CutBytes(data, k, pos, 4, VALUE);
    }
  }

  lemma {:induction false} CutArray(data: seq<byte>, k: nat, pos: nat, depth: nat)
    requires k <= |data|
    ensures CutAgrees(ValueAt(data, pos, 9, depth), ValueAt(data[..k], pos, 9, depth), k)
    decreases Levels(depth), 0
  {
    CutBytes(data, k, pos, 4, VALUE);
    CutBytes(data, k, pos + 4, 8, VALUE);
    if depth <= 2 && pos + 12 <= k {
      var elementType, count := U32At(data, pos, VALUE).value, U64At(data, pos + 4, VALUE).value;
      CutArrayBody(data, k, pos + 12, elementType, count, depth);
      CutArrayFields(data, k, pos, depth, elementType, count);
    } else {
      CutArrayEarly(data, k, pos, depth);
    }
  }

  /** An array cut inside its body. */
  lemma CutArrayFields(data: seq<byte>, k: nat, pos: nat, depth: nat, elementType: nat, count: nat)
    requires pos + 12 <= k <= |data| && depth <= 2
    requires U32At(data, pos, VALUE) == U32At(data[..k], pos, VALUE) == Parsed(elementType, pos + 4)
    requires U64At(data, pos + 4, VALUE) == U64At(data[..k], pos + 4, VALUE) == Parsed(count, pos + 12)
    requires CutAgrees(ArrayBodyAt(data, pos + 12, elementType, count, depth),
                       ArrayBodyAt(data[..k], pos + 12, elementType, count, depth), k)
    ensures CutAgrees(ValueAt(data, pos, 9, depth), ValueAt(data[..k], pos, 9, depth), k)
  {
    ArrayIsItsBody(data, pos, depth, elementType, count);
    ArrayIsItsBody(data[..k], pos, depth, elementType, count);
  }

  lemma ArrayIsItsBody(data: seq<byte>, pos: nat, depth: nat, elementType: nat, count: nat)
    requires pos + 12 <= |data| && depth <= 2
    requires U32At(data, pos, VALUE) == Parsed(elementType, pos + 4)
    requires U64At(data, pos + 4, VALUE) == Parsed(count, pos + 12)
    ensures ValueAt(data, pos, 9, depth)
            == match ArrayBodyAt(data, pos + 12, elementType, count, depth)
               case Parsed(_, end) => Parsed(None, end)
               case Failed(error) => Failed(error)
  {
  }

  /** An array nested too deep, or cut before its body. */
  lemma CutArrayEarly(data: seq<byte>, k: nat, pos: nat, depth: nat)
    requires k <= |data| && (depth > 2 || k < pos + 12)
    ensures CutAgrees(ValueAt(data, pos, 9, depth), ValueAt(data[..k], pos, 9, depth), k)
  {
  }

  lemma {:induction false} CutArrayBody(data: seq<byte>, k: nat, pos: nat, elementType: nat, count: nat, depth: nat)
    requires pos <= k <= |data| && depth <= 2
    ensures CutAgrees(ArrayBodyAt(data, pos, elementType, count, depth),
                      ArrayBodyAt(data[..k], pos, elementType, count, depth), k)
    decreases Levels(depth + 1), 2
  {
    if ScalarWidth(elementType).None? {
      var whole := ValueReader(data, elementType, depth + 1);
      var cut := ValueReader(data[..k], elementType, depth + 1);
      forall p: nat
        ensures CutAgrees(whole(p), cut(p), k)
      {
        CutValue(data, k, p, elementType, depth + 1);
      }
      CutRepeat(whole, cut, Discard(), pos, count, (), k, |data|);
    }
  }

  lemma CutPair(data: seq<byte>, k: nat, pos: nat)
    requires k <= |data|
    ensures CutAgrees(PairAt(data, pos), PairAt(data[..k], pos), k)
  {
    CutString(data, k, pos, KEY);
    var key := StringAt(data, pos, KEY);
    if key.Parsed? {
      CutBytes(data, k, key.end, 4, KIND);
      var valueType := U32At(data, key.end, KIND);
      if valueType.Parsed? {
        CutValue(data, k, valueType.end, valueType.value, 0);
      }
    }
  }

  lemma CutPairs(data: seq<byte>, k: nat, pos: nat, count: nat)
    requires pos <= k <= |data|
    ensures CutAgrees(PairsAt(data, pos, count), PairsAt(data[..k], pos, count), k)
  {
    forall p: nat
      ensures CutAgrees(PairReader(data)(p), PairReader(data[..k])(p), k)
    {
      CutPair(data, k, p);
    }
    CutRepeat(PairReader(data), PairReader(data[..k]), NextAlignment(), pos, count, DEFAULT_ALIGNMENT, k, |data|);
  }

  lemma CutShape(data: seq<byte>, k: nat, pos: nat)
    requires k <= |data|
    ensures CutAgrees(ShapeAt(data, pos), ShapeAt(data[..k], pos), k)
  {
    CutBytes(data, k, pos, 4, SHAPE);
    if pos + 4 <= k {
      forall p: nat
        ensures CutAgrees(DimReader(data)(p), DimReader(data[..k])(p), k)
      {
        CutBytes(data, k, p, 8, SHAPE);
      }
      var rank := U32At(data, pos, SHAPE).value;
      CutRepeat(DimReader(data), DimReader(data[..k]), NextElements(), pos + 4, rank, 1, k, |data|);
    }
  }

  lemma CutTensor(data: seq<byte>, k: nat, pos: nat)
    requires k <= |data|
    ensures CutAgrees(TensorAt(data, pos), TensorAt(data[..k], pos), k)
  {
    CutString(data, k, pos, NAME);
    var name := SkipStringAt(data, pos, NAME);
    if name.Parsed? {
      CutShape(data, k, name.end);
      var shape := ShapeAt(data, name.end);
      if shape.Parsed? {
        CutBytes(data, k, shape.end, 4, LAYOUT);
        CutBytes(data, k, shape.end + 4, 8, OFFSET);
      }
    }
  }

  lemma CutTensors(data: seq<byte>, k: nat, pos: nat, count: nat)
    requires pos <= k <= |data|
    ensures CutAgrees(TensorsAt(data, pos, count), TensorsAt(data[..k], pos, count), k)
  {
    forall p: nat
      ensures CutAgrees(TensorReader(data)(p), TensorReader(data[..k])(p), k)
    {
      CutTensor(data, k, p);
    }
    CutRepeat(TensorReader(data), TensorReader(data[..k]), Collect<Tensor>(), pos, count, [], k, |data|);
  }

  lemma CutCounts(data: seq<byte>, k: nat)
    requires k <= |data|
    ensures CutAgrees(CountsAt(data), CountsAt(data[..k]), k)
  {
    CutBytes(data, k, 0, 4, MAGIC_FIELD);
    CutBytes(data, k, 4, 4, VERSION_FIELD);
    CutBytes(data, k, 8, 8, TENSOR_COUNT);
    CutBytes(data, k, 16, 8, PAIR_COUNT);
  }

  /** Reading a cut header: the same header when the cut is past its end, damage when it is not. */
  lemma CutHeader(data: seq<byte>, k: nat)
    requires k <= |data|
    ensures CutAgrees(HeaderAt(data), HeaderAt(data[..k]), k)
  {
    CutCounts(data, k);
    var counts := CountsAt(data);
    if counts.Parsed? && counts.end <= k {
      CutPairs(data, k, counts.end, counts.value.pairs);
      var pairs := PairsAt(data, counts.end, counts.value.pairs);
      if pairs.Parsed? && pairs.end <= k {
        CutTensors(data, k, pairs.end, counts.value.tensors);
      }
    }
  }

  /**
    Truncation is detected exactly. For a file whose header parses with table end T and
    required size R, a prefix of k bytes passes iff k >= R, is reported truncated with
    (k, R) when T <= k < R, and has a damaged header when k < T.
   */
  lemma TruncationExact(data: seq<byte>, k: nat)
    requires HeaderAt(data).Parsed? && k <= |data|
    ensures var Parsed(header, tableEnd) := HeaderAt(data);
            var required := Required(header, tableEnd);
            && (k < tableEnd ==> Verdict(data[..k]).Err? && Verdict(data[..k]).error.HeaderDamaged?)
            && (tableEnd <= k < required ==> Verdict(data[..k]) == Err(Truncated(k, required)))
            && (k >= tableEnd && k >= required ==> Verdict(data[..k]) == Ok(()))
  {
    CutHeader(data, k);
  }

  /** Appending bytes to a file that passes never makes it fail, and never changes what it requires. */
  lemma ExtensionPasses(data: seq<byte>, more: seq<byte>)
    requires Verdict(data) == Ok(())
    ensures Verdict(data + more) == Ok(())
    ensures HeaderAt(data + more) == HeaderAt(data)
  {
    assert (data + more)[..|data|] == data;
    CutHeader(data + more, |data|);
  }

  // ----- Unknown tensor types, for all files with one header -----------------

  /** The empty unknown tensor starts before some tensor's end, or beyond what any file can hold. */
  ghost predicate Covered(t: Tensor, header: Header, tableEnd: nat, layout: nat -> (nat, nat))
    requires IsLayout(layout)
  {
    UnknownEmpty(t) ==>
      || AlignedStart(tableEnd, header.alignment) + t.offset > MAX_FILE_LENGTH
      || exists u <- header.tensors :: TrueEnd(u, layout) > t.offset
  }

  /** Cutting behind the table and padding to a length keeps the header. */
  lemma PaddedHeader(data: seq<byte>, header: Header, tableEnd: nat, length: nat) returns (padded: seq<byte>)
    requires HeaderAt(data) == Parsed(header, tableEnd) && tableEnd <= length
    ensures |padded| == length && HeaderAt(padded) == Parsed(header, tableEnd)
  {
    padded := data[..tableEnd] + seq(length - tableEnd, i => 0);
    assert padded[..tableEnd] == data[..tableEnd];
    CutHeader(data, tableEnd);
    CutHeader(padded, tableEnd);
  }

  lemma CoveredIsBeforeEnd(data: seq<byte>, header: Header, tableEnd: nat, layout: nat -> (nat, nat), t: Tensor)
    requires IsLayout(layout) && GoodFile(data, header, tableEnd, layout)
    requires t in header.tensors && UnknownEmpty(t) && Covered(t, header, tableEnd, layout)
    ensures AlignedStart(tableEnd, header.alignment) + t.offset < |data|
  {
    var start := AlignedStart(tableEnd, header.alignment);
    assert start + TrueEnd(t, layout) <= |data|;
    var u :| u in header.tensors && TrueEnd(u, layout) > t.offset;
    assert start + TrueEnd(u, layout) <= |data|;
  }

  lemma UncoveredIsRejected(data: seq<byte>, header: Header, tableEnd: nat, layout: nat -> (nat, nat), t: Tensor)
    returns (good: seq<byte>)
    requires IsLayout(layout) && HeaderAt(data) == Parsed(header, tableEnd)
    requires t in header.tensors && !Covered(t, header, tableEnd, layout)
    ensures GoodFile(good, header, tableEnd, layout) && Verdict(good).Err?
  {
    var start := AlignedStart(tableEnd, header.alignment);
    CeilDivIsLeastMultiple(tableEnd, header.alignment);
    good := PaddedHeader(data, header, tableEnd, start + t.offset);
    assert forall u <- header.tensors :: TrueEnd(u, layout) <= t.offset;
    GoodFilePassesExactly(good, header, tableEnd, layout);
  }

  /**
    A type the table does not know makes the check more lenient and never rejects a good
    file, exactly when every empty tensor of such a type starts before some tensor's end.
   */
  lemma UnknownTypesLenientExactly(data: seq<byte>, header: Header, tableEnd: nat, layout: nat -> (nat, nat))
    requires IsLayout(layout) && HeaderAt(data) == Parsed(header, tableEnd)
    ensures (forall file :: GoodFile(file, header, tableEnd, layout) ==> Verdict(file).Ok?)
            <==> forall t <- header.tensors :: Covered(t, header, tableEnd, layout)
  {
    if forall t <- header.tensors :: Covered(t, header, tableEnd, layout) {
      forall file | GoodFile(file, header, tableEnd, layout)
        ensures Verdict(file).Ok?
      {
        forall t <- header.tensors | UnknownEmpty(t)
          ensures AlignedStart(tableEnd, header.alignment) + t.offset < |file|
        {
          CoveredIsBeforeEnd(file, header, tableEnd, layout, t);
        }
        GoodFilePassesExactly(file, header, tableEnd, layout);
      }
    } else {
      var t :| t in header.tensors && !Covered(t, header, tableEnd, layout);
      var good := UncoveredIsRejected(data, header, tableEnd, layout, t);
      assert GoodFile(good, header, tableEnd, layout) && !Verdict(good).Ok?;
    }
  }
}
