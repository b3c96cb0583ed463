/** Names of split model files: `split_model_part` of src/config/models_cmd.rs. */
module ShardNames {
  import opened Prelude
  import Decimal

  datatype ShardName = ShardName(prefix: string, index: nat, total: nat)

  /** Where `separator` last occurs before `end`. */
  function LastOccurrence(s: string, separator: string, end: nat): (r: Option<nat>)
    ensures r.Some? ==> r.value < end && r.value + |separator| <= |s|
  {
    if end == 0 then None
    else if OccursAt(s, separator, end - 1) then Some(end - 1)
    else LastOccurrence(s, separator, end - 1)
  }

  /** Rust's `rsplit_once`. */
  function SplitAtLast(s: string, separator: string): Option<(string, string)> {
    match LastOccurrence(s, separator, |s| + 1)
    case Some(i) => Some((s[..i], s[i + |separator|..]))
    case None => None
  }

  function Lower(c: char): char {
    if 'A' <= c <= 'Z' then (c as int + 32) as char else c
  }

  predicate HasGgufSuffix(path: string) {
    |path| >= 5 &&
    var tail := path[|path| - 5..];
    tail[0] == '.' && Lower(tail[1]) == 'g' && Lower(tail[2]) == 'g' && Lower(tail[3]) == 'u' && Lower(tail[4]) == 'f'
  }

  /** A dot and the four letters, each in either case. */
  lemma SuffixIs(path: string)
    ensures HasGgufSuffix(path) <==>
            && |path| >= 5
            && path[|path| - 5] == '.' && path[|path| - 4] in {'g', 'G'} && path[|path| - 3] in {'g', 'G'}
            && path[|path| - 2] in {'u', 'U'} && path[|path| - 1] in {'f', 'F'}
  {
  }

  /** `prefix-index-of-total.gguf` with a 1-based index within the total. */
  function SplitModelPart(path: string): (r: Option<ShardName>)
    ensures r.Some? ==> 1 <= r.value.index <= r.value.total
  {
    if !HasGgufSuffix(path) then None
    else
      match SplitAtLast(path[..|path| - 5], "-of-")
      case None => None
      case Some((beforeTotal, total)) =>
        match SplitAtLast(beforeTotal, "-")
        case None => None
        case Some((prefix, index)) =>
          match (Decimal.Parse(index, U64_LIMIT), Decimal.Parse(total, U64_LIMIT))
          case (Some(i), Some(t)) => if i > 0 && t > 0 && i <= t then Some(ShardName(prefix, i, t)) else None
          case _ => None
  }

  // ----- Shard names are read back -------------------------------------------

  lemma {:induction false} LastOccurrenceAt(s: string, separator: string, end: nat, i: nat)
    requires i < end && OccursAt(s, separator, i)
    requires forall j: nat :: i < j < end ==> !OccursAt(s, separator, j)
    ensures LastOccurrence(s, separator, end) == Some(i)
  {
    if i < end - 1 {
      LastOccurrenceAt(s, separator, end - 1, i);
    }
  }

  /** Splitting at the last separator undoes joining with it, if no occurrence starts later. */
  lemma SplitOfJoin(left: string, separator: string, right: string)
    requires forall j: nat :: |left| < j <= |left + separator + right| ==>
              !OccursAt(left + separator + right, separator, j)
    ensures SplitAtLast(left + separator + right, separator) == Some((left, right))
  {
    var s := left + separator + right;
    assert s[|left|..|left| + |separator|] == separator;
    LastOccurrenceAt(s, separator, |s| + 1, |left|);
    assert s[..|left|] == left && s[|left| + |separator|..] == right;
  }

  /** What a parsed number can be spelled with. */
  predicate NumberText(s: string) {
    s != [] && forall i :: 0 <= i < |s| ==> Decimal.IsDigit(s[i]) || s[i] == '+'
  }

  lemma ParsedIsNumberText(s: string, limit: nat)
    requires Decimal.Parse(s, limit).Some?
    ensures NumberText(s)
  {
    if s[0] == '+' {
      assert s == [s[0]] + s[1..];
    }
  }

  lemma NoDashInNumber(left: string, index: string)
    requires NumberText(index)
    ensures SplitAtLast(left + "-" + index, "-") == Some((left, index))
  {
    var s := left + "-" + index;
    forall j: nat | |left| < j <= |s|
      ensures !OccursAt(s, "-", j)
    {
      if j < |s| {
        assert s[j] == index[j - |left| - 1];
        assert s[j..j + 1][0] == s[j];
      }
    }
    SplitOfJoin(left, "-", index);
  }

  lemma NoOfInNumber(left: string, total: string)
    requires NumberText(total)
    ensures SplitAtLast(left + "-of-" + total, "-of-") == Some((left, total))
  {
    var s := left + "-of-" + total;
    forall j: nat | |left| < j <= |s|
      ensures !OccursAt(s, "-of-", j)
    {
      if j + 4 <= |s| {
        assert s[j..j + 4][0] == s[j] && s[j..j + 4][1] == s[j + 1];
        if j < |left| + 3 {
          assert s[j] == "-of-"[j - |left|];
        } else {
          assert s[j + 1] == total[j + 1 - |left| - 4];
        }
      }
    }
    SplitOfJoin(left, "-of-", total);
  }

  lemma {:induction false} LastOccurrenceOccurs(s: string, separator: string, end: nat)
    ensures var r := LastOccurrence(s, separator, end);
            r.Some? ==> OccursAt(s, separator, r.value)
  {
    if end > 0 && !OccursAt(s, separator, end - 1) {
      LastOccurrenceOccurs(s, separator, end - 1);
    }
  }

  /** What a split gives can be joined again. */
  lemma JoinOfSplit(s: string, separator: string)
    requires SplitAtLast(s, separator).Some?
    ensures var (left, right) := SplitAtLast(s, separator).value; s == left + separator + right
  {
    LastOccurrenceOccurs(s, separator, |s| + 1);
    var i := LastOccurrence(s, separator, |s| + 1).value;
    assert s == s[..i] + s[i..i + |separator|] + s[i + |separator|..];
  }

  /** The path reads prefix, dash, index, `-of-`, total and a GGUF extension in any case. */
  ghost predicate Spells(path: string, name: ShardName, index: string, total: string, extension: string) {
    && path == name.prefix + "-" + index + "-of-" + total + extension
    && |extension| == 5 && HasGgufSuffix(extension)
    && Decimal.Parse(index, U64_LIMIT) == Some(name.index)
    && Decimal.Parse(total, U64_LIMIT) == Some(name.total)
    && 1 <= name.index <= name.total
  }

  lemma SpelledIsSplit(path: string, name: ShardName, index: string, total: string, extension: string)
    requires Spells(path, name, index, total, extension)
    ensures SplitModelPart(path) == Some(name)
  {
    var stem := name.prefix + "-" + index + "-of-" + total;
    assert path[..|path| - 5] == stem && path[|path| - 5..] == extension == extension[|extension| - 5..];
    ParsedIsNumberText(index, U64_LIMIT);
    ParsedIsNumberText(total, U64_LIMIT);
    NoOfInNumber(name.prefix + "-" + index, total);
    NoDashInNumber(name.prefix, index);
  }

  lemma ExtensionOf(path: string)
    requires HasGgufSuffix(path)
    ensures var extension := path[|path| - 5..];
            path == path[..|path| - 5] + extension && |extension| == 5 && HasGgufSuffix(extension)
  {
    var extension := path[|path| - 5..];
    assert extension == extension[|extension| - 5..];
  }

  lemma SplitIsSpelled(path: string) returns (index: string, total: string, extension: string)
    requires SplitModelPart(path).Some?
    ensures Spells(path, SplitModelPart(path).value, index, total, extension)
  {
    var stem := path[..|path| - 5];
    extension := path[|path| - 5..];
    ExtensionOf(path);
    var (beforeTotal, t) := SplitAtLast(stem, "-of-").value;
    JoinOfSplit(stem, "-of-");
    JoinOfSplit(beforeTotal, "-");
    index, total := SplitAtLast(beforeTotal, "-").value.1, t;
  }

  /** A path is split into a name exactly when it spells it. */
  lemma SplitModelPartExactly(path: string, name: ShardName)
    ensures SplitModelPart(path) == Some(name)
            <==> exists index, total, extension :: Spells(path, name, index, total, extension)
  {
    if SplitModelPart(path) == Some(name) {
      var index, total, extension := SplitIsSpelled(path);
    }
    if index, total, extension :| Spells(path, name, index, total, extension) {
      SpelledIsSplit(path, name, index, total, extension);
    }
  }

  lemma ParseNumeral(s: string, limit: nat)
    requires Decimal.IsNumeral(s) && Decimal.Value(s) < limit
    ensures Decimal.Parse(s, limit) == Some(Decimal.Value(s))
  {
    assert Decimal.IsDigit(s[0]);
  }

  lemma NumeralsAreSplit(prefix: string, index: string, total: string, extension: string)
    requires Decimal.IsNumeral(index) && Decimal.IsNumeral(total)
    requires 1 <= Decimal.Value(index) <= Decimal.Value(total) < U64_LIMIT
    requires |extension| == 5 && HasGgufSuffix(extension)
    ensures SplitModelPart(prefix + "-" + index + "-of-" + total + extension)
            == Some(ShardName(prefix, Decimal.Value(index), Decimal.Value(total)))
  {
    ParseNumeral(index, U64_LIMIT);
    ParseNumeral(total, U64_LIMIT);
    SpelledIsSplit(prefix + "-" + index + "-of-" + total + extension,
                   ShardName(prefix, Decimal.Value(index), Decimal.Value(total)), index, total, extension);
  }

  const EXTENSION: string := ".gguf"

  lemma ExtensionIsGguf()
    ensures |EXTENSION| == 5 && HasGgufSuffix(EXTENSION)
  {
    assert EXTENSION[|EXTENSION| - 5..] == EXTENSION;
    assert EXTENSION[0] == '.' && EXTENSION[1] == 'g' && EXTENSION[2] == 'g';
    assert EXTENSION[3] == 'u' && EXTENSION[4] == 'f';
    assert Lower('g') == 'g' && Lower('u') == 'u' && Lower('f') == 'f';
  }

  /** A shard's name is read back, whatever the prefix contains and however the numbers are padded. */
  lemma ShardNameRoundTrip(prefix: string, index: string, total: string)
    requires Decimal.IsNumeral(index) && Decimal.IsNumeral(total)
    requires 1 <= Decimal.Value(index) <= Decimal.Value(total) < U64_LIMIT
    ensures SplitModelPart(prefix + "-" + index + "-of-" + total + EXTENSION)
            == Some(ShardName(prefix, Decimal.Value(index), Decimal.Value(total)))
  {
    ExtensionIsGguf();
    NumeralsAreSplit(prefix, index, total, EXTENSION);
  }
}
