/**
  The cursor of src/gguf_integrity.rs and the loop that checks a file, proved
  against the functions of GgufFormat.
 */
module GgufReader {
  import opened Prelude
  import opened GgufFormat
  import Decimal

  /** A method that ran from a position did exactly what the read function says. */
  ghost predicate Ran<T>(spec: Parse<T>, r: Result<T, GgufError>, pos: nat) {
    match spec
    case Parsed(value, end) => r == Ok(value) && pos == end
    case Failed(error) => r == Err(error)
  }

  /** Bytes a value of this type takes beyond the eight that pay for its own loop iteration. */
  ghost function Spare(valueType: nat): int {
    if valueType == 9 then 12 else if valueType == 8 then 8 else 0
  }

  class Reader {
    const data: seq<byte>
    var pos: nat
    /** Loop iterations performed so far, over all loops. */
    ghost var iterations: nat

    constructor (data: seq<byte>)
      ensures this.data == data && pos == 0 && iterations == 0
    {
      this.data := data;
      pos := 0;
      iterations := 0;
    }

    method Bytes(n: nat, what: string) returns (r: Result<seq<byte>, GgufError>)
      requires pos <= |data|
      modifies this`pos
      ensures old(pos) <= pos <= |data|
      ensures Ran(BytesAt(data, old(pos), n, what), r, pos)
    {
      if |data| - pos < n {
        return Err(HeaderDamaged("ends inside " + what));
      }
      r := Ok(data[pos..pos + n]);
      pos := pos + n;
    }

    method U32(what: string) returns (r: Result<u32, GgufError>)
      requires pos <= |data|
      modifies this`pos
      ensures old(pos) <= pos <= |data|
      ensures Ran(U32At(data, old(pos), what), r, pos)
    {
      var bytes := Bytes(4, what);
      r := if bytes.Ok? then Ok(FromLe32(bytes.value)) else Err(bytes.error);
    }

    method U64(what: string) returns (r: Result<u64, GgufError>)
      requires pos <= |data|
      modifies this`pos
      ensures old(pos) <= pos <= |data|
      ensures Ran(U64At(data, old(pos), what), r, pos)
    {
      var bytes := Bytes(8, what);
      r := if bytes.Ok? then Ok(FromLe64(bytes.value)) else Err(bytes.error);
    }

    /** Copies up to `n` bytes away; a short copy is an error. */
    method Skip(n: nat, what: string) returns (r: Result<(), GgufError>)
      requires pos <= |data|
      modifies this`pos
      ensures old(pos) <= pos <= |data|
      ensures Ran(SkipAt(data, old(pos), n, what), r, pos)
    {
      var copied := Min(n, |data| - pos);
      pos := pos + copied;
      r := if copied != n then Err(HeaderDamaged("ends inside " + what)) else Ok(());
    }

    method StringLen(what: string) returns (r: Result<nat, GgufError>)
      requires pos <= |data|
      modifies this`pos
      ensures old(pos) <= pos <= |data|
      ensures Ran(StringLenAt(data, old(pos), what), r, pos)
    {
      r := U64(what);
      if r.Ok? && r.value > MAX_STRING_BYTES {
        r := Err(HeaderDamaged("implausible string length in " + what));
      }
    }

    method String(what: string) returns (r: Result<seq<byte>, GgufError>)
      requires pos <= |data|
      modifies this`pos
      ensures old(pos) <= pos <= |data|
      ensures Ran(StringAt(data, old(pos), what), r, pos)
    {
      var len := StringLen(what);
      if len.Err? {
        return Err(len.error);
      }
      r := Bytes(len.value, what);
    }

    method SkipString(what: string) returns (r: Result<(), GgufError>)
      requires pos <= |data|
      modifies this`pos
      ensures old(pos) <= pos <= |data|
      ensures Ran(SkipStringAt(data, old(pos), what), r, pos)
    {
      var len := StringLen(what);
      if len.Err? {
        return Err(len.error);
      }
      r := Skip(len.value, what);
    }

    /** Skips one metadata value; the work done is paid for by the bytes it passed. */
    method Value(valueType: nat, depth: nat) returns (r: Result<Option<u32>, GgufError>)
      requires pos <= |data|
      modifies this
      ensures old(pos) <= pos <= |data|
      ensures Ran(ValueAt(data, old(pos), valueType, depth), r, pos)
      ensures old(iterations) <= iterations
      ensures r.Ok? ==> 8 * (iterations - old(iterations)) <= pos - old(pos) - Spare(valueType)
      ensures 8 * (iterations - old(iterations)) <= |data| - old(pos) + 8 * Levels(depth)
      decreases Levels(depth), 1
    {
      if valueType == 4 {
        var n := U32(VALUE);
        return if n.Ok? then Ok(Some(n.value)) else Err(n.error);
      } else if ScalarWidth(valueType).Some? {
        var skipped := Skip(ScalarWidth(valueType).value, VALUE);
        return if skipped.Ok? then Ok(None) else Err(skipped.error);
      } else if valueType == 8 {
        var skipped := SkipString(VALUE);
        return if skipped.Ok? then Ok(None) else Err(skipped.error);
      } else if valueType == 9 {
        if depth > 2 {
          return Err(HeaderDamaged("array nesting too deep"));
        }
        var elementType := U32(VALUE);
        if elementType.Err? {
          return Err(elementType.error);
        }
        var count := U64(VALUE);
        if count.Err? {
          return Err(count.error);
        }
        var body := ArrayBody(elementType.value, count.value, depth);
        return if body.Ok? then Ok(None) else Err(body.error);
      } else {
        return Err(HeaderDamaged("unknown metadata type " + Decimal.Print(valueType)));
      }
    }

    method ArrayBody(elementType: nat, count: nat, depth: nat) returns (r: Result<(), GgufError>)
      requires pos <= |data| && depth <= 2
      modifies this
      ensures old(pos) <= pos <= |data|
      ensures Ran(ArrayBodyAt(data, old(pos), elementType, count, depth), r, pos)
      ensures old(iterations) <= iterations
      ensures r.Ok? ==> 8 * (iterations - old(iterations)) <= pos - old(pos)
      ensures 8 * (iterations - old(iterations)) <= |data| - old(pos) + 8 * Levels(depth)
      decreases Levels(depth), 0
    {
      var width := ScalarWidth(elementType);
      if width.Some? {
        if count * width.value >= U64_LIMIT {
          return Err(HeaderDamaged("implausible array length"));
        }
        r := Skip(count * width.value, VALUE);
        return;
      }
      r := Elements(elementType, count, depth + 1);
    }

    /** `count` values of one type, one after the other. */
    method Elements(elementType: nat, count: nat, depth: nat) returns (r: Result<(), GgufError>)
      requires pos <= |data|
      requires ScalarWidth(elementType).None?
      modifies this
      ensures old(pos) <= pos <= |data|
      ensures Ran(Repeat(ValueReader(data, elementType, depth), Discard(), old(pos), count, ()), r, pos)
      ensures old(iterations) <= iterations
      ensures r.Ok? ==> 8 * (iterations - old(iterations)) <= pos - old(pos)
      ensures 8 * (iterations - old(iterations)) <= |data| - old(pos) + 8 * Levels(depth) + 8
      decreases Levels(depth), 2
    {
      ghost var read := ValueReader(data, elementType, depth);
      for i := 0 to count
        invariant old(pos) <= pos <= |data|
        invariant Repeat(read, Discard(), pos, count - i, ()) == Repeat(read, Discard(), old(pos), count, ())
        invariant old(iterations) <= iterations
        invariant 8 * (iterations - old(iterations)) <= pos - old(pos)
      {
        iterations := iterations + 1;
        var element := Value(elementType, depth);
        if element.Err? {
          return Err(element.error);
        }
      }
      return Ok(());
    }

    /** One key and its value. */
    method Pair() returns (r: Result<KeyValue, GgufError>)
      requires pos <= |data|
      modifies this
      ensures old(pos) <= pos <= |data|
      ensures Ran(PairAt(data, old(pos)), r, pos)
      ensures old(iterations) <= iterations
      ensures r.Ok? ==> 8 * (iterations - old(iterations)) + 12 <= pos - old(pos)
      ensures 8 * (iterations - old(iterations)) <= |data| - old(pos) + 24
    {
      var key := String(KEY);
      if key.Err? {
        return Err(key.error);
      }
      var valueType := U32(KIND);
      if valueType.Err? {
        return Err(valueType.error);
      }
      var value := Value(valueType.value, 0);
      return if value.Ok? then Ok(KeyValue(key.value, value.value)) else Err(value.error);
    }

    method Pairs(count: nat) returns (r: Result<Alignment, GgufError>)
      requires pos <= |data|
      modifies this
      ensures old(pos) <= pos <= |data|
      ensures Ran(PairsAt(data, old(pos), count), r, pos)
      ensures old(iterations) <= iterations
      ensures r.Ok? ==> 8 * (iterations - old(iterations)) <= pos - old(pos)
      ensures 8 * (iterations - old(iterations)) <= |data| - old(pos) + 32
    {
      var alignment: Alignment := DEFAULT_ALIGNMENT;
      ghost var spec := PairsAt(data, pos, count);
      for i := 0 to count
        invariant old(pos) <= pos <= |data|
        invariant Repeat(PairReader(data), NextAlignment(), pos, count - i, alignment) == spec
        invariant old(iterations) <= iterations
        invariant 8 * (iterations - old(iterations)) <= pos - old(pos)
      {
        AlignmentNext(data, pos, count - i, alignment);
        iterations := iterations + 1;
        var pair := Pair();
        if pair.Err? {
          return Err(pair.error);
        }
        if pair.value.key == ALIGNMENT_KEY && pair.value.value.Some? && pair.value.value.value > 0 {
          alignment := pair.value.value.value;
        }
      }
      return Ok(alignment);
    }

    /** A tensor's rank and the product of its dimensions. */
    method Shape() returns (r: Result<u64, GgufError>)
      requires pos <= |data|
      modifies this
      ensures old(pos) <= pos <= |data|
      ensures Ran(ShapeAt(data, old(pos)), r, pos)
      ensures old(iterations) <= iterations
      ensures 8 * (iterations - old(iterations)) <= pos - old(pos) + if r.Ok? then 0 else 8
    {
      var rank := U32(SHAPE);
      if rank.Err? {
        return Err(rank.error);
      }
      if rank.value > MAX_DIMS {
        return Err(HeaderDamaged("implausible tensor rank"));
      }
      r := Dims(rank.value);
    }

    /** The dimensions, multiplied up as they are read. */
    method Dims(rank: nat) returns (r: Result<u64, GgufError>)
      requires pos <= |data|
      modifies this
      ensures old(pos) <= pos <= |data|
      ensures Ran(Repeat(DimReader(data), NextElements(), old(pos), rank, 1), r, pos)
      ensures old(iterations) <= iterations
      ensures 8 * (iterations - old(iterations)) <= pos - old(pos) + if r.Ok? then 0 else 8
    {
      var elements: u64 := 1;
      ghost var read := DimReader(data);
      for i := 0 to rank
        invariant old(pos) <= pos <= |data|
        invariant Repeat(read, NextElements(), pos, rank - i, elements)
                  == Repeat(read, NextElements(), old(pos), rank, 1)
        invariant old(iterations) <= iterations
        invariant 8 * (iterations - old(iterations)) <= pos - old(pos)
      {
        DimensionNext(data, pos, rank - i, elements);
        iterations := iterations + 1;
        var dim := U64(SHAPE);
        if dim.Err? {
          return Err(dim.error);
        }
        if elements * dim.value >= U64_LIMIT {
          return Err(HeaderDamaged("implausible tensor size"));
        }
        elements := elements * dim.value;
      }
      return Ok(elements);
    }

    method TableEntry() returns (r: Result<Tensor, GgufError>)
      requires pos <= |data|
      modifies this
      ensures old(pos) <= pos <= |data|
      ensures Ran(TensorAt(data, old(pos)), r, pos)
      ensures old(iterations) <= iterations
      ensures 8 * (iterations - old(iterations)) <= pos - old(pos) + if r.Ok? then -8 else 8
    {
      var name := SkipString(NAME);
      if name.Err? {
        return Err(name.error);
      }
      var elements := Shape();
      if elements.Err? {
        return Err(elements.error);
      }
      var ggmlType := U32(LAYOUT);
      if ggmlType.Err? {
        return Err(ggmlType.error);
      }
      var offset := U64(OFFSET);
      return if offset.Ok? then Ok(Tensor(elements.value, ggmlType.value, offset.value)) else Err(offset.error);
    }

    /** The tensor table, of which only the furthest byte is kept. */
    method Table(count: nat) returns (r: Result<nat, GgufError>, ghost tensors: seq<Tensor>)
      requires pos <= |data|
      modifies this
      ensures old(pos) <= pos <= |data|
      ensures match TensorsAt(data, old(pos), count)
              case Parsed(table, end) => r == Ok(Furthest(table)) && pos == end && tensors == table
              case Failed(error) => r == Err(error)
      ensures old(iterations) <= iterations
      ensures r.Ok? ==> 8 * (iterations - old(iterations)) <= pos - old(pos)
      ensures 8 * (iterations - old(iterations)) <= |data| - old(pos) + 16
    {
      var furthest := 0;
      tensors := [];
      ghost var spec := TensorsAt(data, pos, count);
      for i := 0 to count
        invariant old(pos) <= pos <= |data|
        invariant Repeat(TensorReader(data), Collect<Tensor>(), pos, count - i, tensors) == spec
        invariant furthest == Furthest(tensors)
        invariant old(iterations) <= iterations
        invariant 8 * (iterations - old(iterations)) <= pos - old(pos)
      {
        iterations := iterations + 1;
        var entry := TableEntry();
        if entry.Err? {
          return Err(entry.error), tensors;
        }
        var tensor := entry.value;
        var bytes := match TypeLayout(tensor.ggmlType)
          case Some(layout) => SaturatingMul(CeilDiv(tensor.elements, layout.0), layout.1)
          case None => 1;
        furthest := Max(furthest, SaturatingAdd(tensor.offset, bytes));
        assert (tensors + [tensor])[..|tensors|] == tensors;
        tensors := tensors + [tensor];
      }
      return Ok(furthest), tensors;
    }

    method Counts() returns (r: Result<Counts, GgufError>)
      requires pos == 0
      modifies this`pos
      ensures old(pos) <= pos <= |data|
      ensures Ran(CountsAt(data), r, pos)
    {
      var magic := U32(MAGIC_FIELD);
      if magic.Err? {
        return Err(magic.error);
      }
      if magic.value != MAGIC {
        return Err(NotGguf);
      }
      var version := U32(VERSION_FIELD);
      if version.Err? {
        return Err(version.error);
      }
      if !(2 <= version.value <= 3) {
        return Err(HeaderDamaged("unsupported version " + Decimal.Print(version.value)));
      }
      var tensorCount := U64(TENSOR_COUNT);
      if tensorCount.Err? {
        return Err(tensorCount.error);
      }
      var pairCount := U64(PAIR_COUNT);
      if pairCount.Err? {
        return Err(pairCount.error);
      }
      if tensorCount.value > MAX_TENSORS || pairCount.value > MAX_KV_PAIRS {
        return Err(HeaderDamaged("implausible tensor or metadata count"));
      }
      return Ok(GgufFormat.Counts(tensorCount.value, pairCount.value));
    }
  }

  /**
    The check of one open file. The verdict is the specified one, and the loop
    iterations it took are bounded by the file's length whatever counts it declares.
   */
  method CheckGgufIntegrity(data: seq<byte>) returns (r: Result<(), GgufError>, ghost iterations: nat)
    ensures r == Verdict(data)
    ensures 8 * iterations <= |data| + 32
  {
    var reader := new Reader(data);
    iterations := 0;
    var counts := reader.Counts();
    if counts.Err? {
      return Err(counts.error), 0;
    }
    var alignment := reader.Pairs(counts.value.pairs);
    iterations := reader.iterations;
    if alignment.Err? {
      return Err(alignment.error), iterations;
    }
    var furthest;
    ghost var tensors;
    furthest, tensors := reader.Table(counts.value.tensors);
    iterations := reader.iterations;
    if furthest.Err? {
      return Err(furthest.error), iterations;
    }
    var tableEnd := reader.pos;
    var dataStart := CeilDiv(tableEnd, alignment.value) * alignment.value % U64_LIMIT;
    var required := SaturatingAdd(dataStart, furthest.value);
    if |data| < required {
      return Err(Truncated(|data|, required)), iterations;
    }
    return Ok(()), iterations;
  }
}
