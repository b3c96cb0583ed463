/**
  Which quantizations a repository offers (`complete_model_options`,
  src/config/models_cmd.rs): stated over the multiset of files, so that neither the order
  of the listing nor the iteration order of a hash map can matter.
 */
module ModelOptions {
  import opened Prelude
  import opened ShardNames

  datatype Entry = Entry(path: string, size: u64)

  datatype ModelOption = ModelOption(quant: string, bytes: u64)

  /** The file-name tables: is this a model file, and which quantization does a path name. */
  datatype Naming = Naming(keep: string -> bool, quant: string -> string)

  // ----- What the options should be ------------------------------------------

  predicate IsPart(n: Naming, e: Entry, prefix: string) {
    n.keep(e.path) && SplitModelPart(e.path).Some? && SplitModelPart(e.path).value.prefix == prefix
  }

  function PartOf(e: Entry): ShardName
    requires SplitModelPart(e.path).Some?
  {
    SplitModelPart(e.path).value
  }

  predicate IsSingle(n: Naming, e: Entry) {
    n.keep(e.path) && SplitModelPart(e.path).None?
  }

  /** `e` is the one and only shard number `i` of the prefix. */
  ghost predicate OnlyShard(n: Naming, files: multiset<Entry>, prefix: string, i: nat, e: Entry) {
    && files[e] == 1
    && IsPart(n, e, prefix) && PartOf(e).index == i
    && forall f <- files :: IsPart(n, f, prefix) && PartOf(f).index == i ==> f == e
  }

  ghost predicate ShardOfSize(n: Naming, files: multiset<Entry>, prefix: string, i: nat, size: nat) {
    exists e :: OnlyShard(n, files, prefix, i, e) && e.size == size
  }

  /** All shards agree on the total, and each index from 1 to it occurs exactly once, with these sizes. */
  ghost predicate CompleteSet(n: Naming, files: multiset<Entry>, prefix: string, sizes: seq<u64>) {
    && sizes != []
    && (forall e <- files :: IsPart(n, e, prefix) ==> PartOf(e).total == |sizes|)
    && forall i :: 0 <= i < |sizes| ==> ShardOfSize(n, files, prefix, i + 1, sizes[i])
  }

  function Sum(sizes: seq<u64>): nat {
    if sizes == [] then 0 else Sum(sizes[..|sizes| - 1]) + sizes[|sizes| - 1]
  }

  /** A single file, or a complete set whose total size fits u64, offers this many bytes of a quantization. */
  ghost predicate Offers(n: Naming, files: multiset<Entry>, quant: string, bytes: nat) {
    quant != "" &&
    (|| SingleOffers(n, files, quant, bytes)
     || exists prefix :: n.quant(prefix) == quant && SetOffers(n, files, prefix, bytes))
  }

  ghost predicate SingleOffers(n: Naming, files: multiset<Entry>, quant: string, bytes: nat) {
    exists e :: e in files && IsSingle(n, e) && n.quant(e.path) == quant && e.size == bytes
  }

  ghost predicate SetOffers(n: Naming, files: multiset<Entry>, prefix: string, bytes: nat) {
    exists sizes :: CompleteSet(n, files, prefix, sizes) && Sum(sizes) == bytes && bytes < U64_LIMIT
  }

  ghost predicate Least(n: Naming, files: multiset<Entry>, quant: string, bytes: nat) {
    Offers(n, files, quant, bytes) && forall b :: Offers(n, files, quant, b) ==> bytes <= b
  }

  // ----- The order of the result ---------------------------------------------

  /** Lexicographic order of strings. */
  predicate StringLess(a: string, b: string) {
    if b == [] then false
    else if a == [] then true
    else a[0] < b[0] || (a[0] == b[0] && StringLess(a[1..], b[1..]))
  }

  predicate Before(a: ModelOption, b: ModelOption) {
    a.bytes < b.bytes || (a.bytes == b.bytes && StringLess(a.quant, b.quant))
  }

  lemma {:induction false} StringLessTotal(a: string, b: string)
    ensures StringLess(a, b) || StringLess(b, a) || a == b
    ensures !(StringLess(a, b) && StringLess(b, a))
    ensures !StringLess(a, a)
  {
    if a == [] {
    } else {
      StringLessTotal(a[1..], if b == [] then [] else b[1..]);
      if b != [] && a[0] == b[0] && a[1..] == b[1..] {
        assert a == [a[0]] + a[1..] == b;
      }
    }
  }

  lemma {:induction false} StringLessTransitive(a: string, b: string, c: string)
    requires StringLess(a, b) && StringLess(b, c)
    ensures StringLess(a, c)
  {
    if a != [] && a[0] == b[0] == c[0] {
      StringLessTransitive(a[1..], b[1..], c[1..]);
    }
  }

  lemma BeforeOrders(a: ModelOption, b: ModelOption)
    ensures Before(a, b) || Before(b, a) || a == b
    ensures !(Before(a, b) && Before(b, a)) && !Before(a, a)
  {
    StringLessTotal(a.quant, b.quant);
  }

  lemma BeforeTransitive(a: ModelOption, b: ModelOption, c: ModelOption)
    requires Before(a, b) && Before(b, c)
    ensures Before(a, c)
  {
    if a.bytes == b.bytes == c.bytes {
      StringLessTransitive(a.quant, b.quant, c.quant);
    }
  }

  /** `a` and `b` agree up to `k`, where `a` ends or has the smaller character. */
  predicate FirstDifference(a: string, b: string, k: nat) {
    && k <= |a| && k < |b| && a[..k] == b[..k]
    && (k == |a| || a[k] < b[k])
  }

  lemma FirstDifferenceCons(a: string, b: string, k: nat)
    requires a != [] && b != [] && a[0] == b[0]
    ensures FirstDifference(a, b, k + 1) <==> FirstDifference(a[1..], b[1..], k)
  {
    if k < |a| && k < |b| {
      assert a[..k + 1] == [a[0]] + a[1..][..k] && b[..k + 1] == [b[0]] + b[1..][..k];
      assert a[1..][..k] == a[..k + 1][1..] && b[1..][..k] == b[..k + 1][1..];
    }
  }

  /** The order of strings is decided where they first differ. */
  lemma {:induction false} StringLessExactly(a: string, b: string)
    ensures StringLess(a, b) <==> exists k :: FirstDifference(a, b, k)
  {
    if a == [] || b == [] {
      assert b != [] ==> FirstDifference(a, b, 0);
    } else if a[0] != b[0] {
      forall k: nat | 0 < k <= |a| && k <= |b|
        ensures a[..k] != b[..k]
      {
        assert a[..k][0] != b[..k][0];
      }
      assert a[0] < b[0] ==> FirstDifference(a, b, 0);
    } else {
      StringLessExactly(a[1..], b[1..]);
      if j: nat :| FirstDifference(a[1..], b[1..], j) {
        FirstDifferenceCons(a, b, j);
      }
      if k: nat :| FirstDifference(a, b, k) {
        assert k > 0;
        FirstDifferenceCons(a, b, k - 1);
      }
    }
  }

  /** Options are listed by size, and equal sizes by name. */
  lemma ListedBefore(options: seq<ModelOption>, i: nat, j: nat)
    requires Sorted(options) && i < j < |options|
    ensures options[i].bytes < options[j].bytes
            || (&& options[i].bytes == options[j].bytes
                && exists k :: FirstDifference(options[i].quant, options[j].quant, k))
  {
    StringLessExactly(options[i].quant, options[j].quant);
  }

  ghost predicate Sorted(options: seq<ModelOption>) {
    forall i, j :: 0 <= i < j < |options| ==> Before(options[i], options[j])
  }

  /** The result: sorted, and holding each quantization on offer once, with its least size. */
  ghost predicate IsOptionList(n: Naming, files: multiset<Entry>, options: seq<ModelOption>) {
    && Sorted(options)
    && forall o :: o in options <==> Least(n, files, o.quant, o.bytes)
  }

  // ----- Small listings ------------------------------------------------------

  /** Nothing but this is offered. */
  ghost predicate OnlyOffer(n: Naming, files: multiset<Entry>, quant: string, bytes: nat) {
    forall q, b: nat :: Offers(n, files, q, b) <==> q == quant && b == bytes
  }

  lemma ListOfOne(n: Naming, files: multiset<Entry>, quant: string, bytes: u64)
    requires OnlyOffer(n, files, quant, bytes)
    ensures IsOptionList(n, files, [ModelOption(quant, bytes)])
  {
    var options := [ModelOption(quant, bytes)];
    assert Offers(n, files, quant, bytes);
    forall o: ModelOption
      ensures o in options <==> Least(n, files, o.quant, o.bytes)
    {
      assert Offers(n, files, o.quant, o.bytes) <==> o.quant == quant && o.bytes == bytes;
    }
  }

  lemma NoSetOfSingle(n: Naming, e: Entry, prefix: string, sizes: seq<u64>)
    requires SplitModelPart(e.path).None?
    ensures !CompleteSet(n, multiset{e}, prefix, sizes)
  {
    if sizes != [] {
      assert !ShardOfSize(n, multiset{e}, prefix, 1, sizes[0]);
      assert !ShardOfSize(n, multiset{e}, prefix, 0 + 1, sizes[0]);
    }
  }

  /** One model file with a name in the table is one option of its size. */
  lemma OneFileOffered(n: Naming, e: Entry)
    requires n.keep(e.path) && SplitModelPart(e.path).None? && n.quant(e.path) != ""
    ensures IsOptionList(n, multiset{e}, [ModelOption(n.quant(e.path), e.size)])
  {
    forall q, b: nat
      ensures Offers(n, multiset{e}, q, b) <==> q == n.quant(e.path) && b == e.size
    {
      forall prefix, sizes
        ensures !CompleteSet(n, multiset{e}, prefix, sizes)
      {
        NoSetOfSingle(n, e, prefix, sizes);
      }
      assert e in multiset{e} && IsSingle(n, e);
    }
    ListOfOne(n, multiset{e}, n.quant(e.path), e.size);
  }

  ghost predicate IsHalf(n: Naming, e: Entry, prefix: string, index: nat) {
    n.keep(e.path) && SplitModelPart(e.path) == Some(ShardName(prefix, index, 2))
  }

  lemma ShardOf(n: Naming, files: multiset<Entry>, prefix: string, sizes: seq<u64>, i: nat) returns (e: Entry)
    requires CompleteSet(n, files, prefix, sizes) && i < |sizes|
    ensures OnlyShard(n, files, prefix, i + 1, e) && e.size == sizes[i] && e in files && PartOf(e).total == |sizes|
  {
    assert ShardOfSize(n, files, prefix, i + 1, sizes[i]);
    e :| OnlyShard(n, files, prefix, i + 1, e) && e.size == sizes[i];
    assert files[e] == 1;
  }

  lemma CompleteHalves(n: Naming, prefix: string, a: Entry, b: Entry, other: string, sizes: seq<u64>)
    requires IsHalf(n, a, prefix, 1) && IsHalf(n, b, prefix, 2)
    requires CompleteSet(n, multiset{a, b}, other, sizes)
    ensures other == prefix && sizes == [a.size, b.size]
  {
    var f := ShardOf(n, multiset{a, b}, other, sizes, 0);
    assert f == a && |sizes| == 2;
    var g := ShardOf(n, multiset{a, b}, other, sizes, 1);
    assert g == b;
  }

  lemma OnlyHalf(n: Naming, prefix: string, files: multiset<Entry>, e: Entry, other: Entry, index: nat, otherIndex: nat)
    requires IsHalf(n, e, prefix, index) && IsHalf(n, other, prefix, otherIndex) && index != otherIndex
    requires files[e] == 1 && forall f <- files :: f == e || f == other
    ensures ShardOfSize(n, files, prefix, index, e.size)
  {
    assert OnlyShard(n, files, prefix, index, e);
  }

  lemma TwoFiles(a: Entry, b: Entry)
    requires a != b
    ensures var files := multiset{a, b};
            files[a] == 1 && files[b] == 1 && forall f <- files :: f == a || f == b
  {
  }

  lemma HalfTotals(n: Naming, prefix: string, a: Entry, b: Entry)
    requires IsHalf(n, a, prefix, 1) && IsHalf(n, b, prefix, 2)
    ensures forall e <- multiset{a, b} :: IsPart(n, e, prefix) ==> PartOf(e).total == 2
  {
    TwoFiles(a, b);
  }

  lemma HalvesDiffer(n: Naming, prefix: string, a: Entry, b: Entry)
    requires IsHalf(n, a, prefix, 1) && IsHalf(n, b, prefix, 2)
    ensures a != b
  {
  }

  lemma CompleteOfTwo(n: Naming, files: multiset<Entry>, prefix: string, x: u64, y: u64)
    requires forall e <- files :: IsPart(n, e, prefix) ==> PartOf(e).total == 2
    requires ShardOfSize(n, files, prefix, 1, x) && ShardOfSize(n, files, prefix, 2, y)
    ensures CompleteSet(n, files, prefix, [x, y])
  {
    var sizes := [x, y];
    forall i | 0 <= i < |sizes|
      ensures ShardOfSize(n, files, prefix, i + 1, sizes[i])
    {
      assert i == 0 || i == 1;
    }
  }

  lemma HalvesComplete(n: Naming, prefix: string, a: Entry, b: Entry)
    requires IsHalf(n, a, prefix, 1) && IsHalf(n, b, prefix, 2)
    ensures CompleteSet(n, multiset{a, b}, prefix, [a.size, b.size])
  {
    HalvesDiffer(n, prefix, a, b);
    TwoFiles(a, b);
    HalfTotals(n, prefix, a, b);
    OnlyHalf(n, prefix, multiset{a, b}, a, b, 1, 2);
    OnlyHalf(n, prefix, multiset{a, b}, b, a, 2, 1);
    CompleteOfTwo(n, multiset{a, b}, prefix, a.size, b.size);
  }

  lemma SumOfTwo(a: u64, b: u64)
    ensures Sum([a, b]) == a + b
  {
    var both: seq<u64>, one: seq<u64> := [a, b], [a];
    assert both[..1] == one && one[..0] == [];
    assert Sum(one) == a;
  }

  lemma SetOffersOfHalves(n: Naming, prefix: string, a: Entry, b: Entry, other: string, bytes: nat)
    requires IsHalf(n, a, prefix, 1) && IsHalf(n, b, prefix, 2) && a.size + b.size < U64_LIMIT
    ensures SetOffers(n, multiset{a, b}, other, bytes) <==> other == prefix && bytes == a.size + b.size
  {
    SumOfTwo(a.size, b.size);
    HalvesComplete(n, prefix, a, b);
    if SetOffers(n, multiset{a, b}, other, bytes) {
      var sizes :| CompleteSet(n, multiset{a, b}, other, sizes) && Sum(sizes) == bytes;
      CompleteHalves(n, prefix, a, b, other, sizes);
    }
  }

  lemma OffersOfHalves(n: Naming, prefix: string, a: Entry, b: Entry, quant: string, bytes: nat)
    requires IsHalf(n, a, prefix, 1) && IsHalf(n, b, prefix, 2)
    requires n.quant(prefix) != "" && a.size + b.size < U64_LIMIT
    ensures Offers(n, multiset{a, b}, quant, bytes) <==> quant == n.quant(prefix) && bytes == a.size + b.size
  {
    var files := multiset{a, b};
    SetOffersOfHalves(n, prefix, a, b, prefix, bytes);
    assert !SingleOffers(n, files, quant, bytes) by {
      assert forall e <- files :: e == a || e == b;
    }
    if other: string :| n.quant(other) == quant && SetOffers(n, files, other, bytes) {
      SetOffersOfHalves(n, prefix, a, b, other, bytes);
    }
  }

  /** Two shards of two are one option of their sum. */
  lemma OneSetOffered(n: Naming, prefix: string, a: Entry, b: Entry)
    requires IsHalf(n, a, prefix, 1) && IsHalf(n, b, prefix, 2)
    requires n.quant(prefix) != "" && a.size + b.size < U64_LIMIT
    ensures IsOptionList(n, multiset{a, b}, [ModelOption(n.quant(prefix), a.size + b.size)])
  {
    forall q, bytes: nat
      ensures Offers(n, multiset{a, b}, q, bytes) <==> q == n.quant(prefix) && bytes == a.size + b.size
    {
      OffersOfHalves(n, prefix, a, b, q, bytes);
    }
    assert OnlyOffer(n, multiset{a, b}, n.quant(prefix), a.size + b.size);
    ListOfOne(n, multiset{a, b}, n.quant(prefix), a.size + b.size);
  }

  /** One shard of two is no option. */
  lemma HalfASetIsNotOffered(n: Naming, prefix: string, a: Entry)
    requires IsHalf(n, a, prefix, 1)
    ensures IsOptionList(n, multiset{a}, [])
  {
    forall other, sizes
      ensures !CompleteSet(n, multiset{a}, other, sizes)
    {
      NoHalfSet(n, prefix, a, other, sizes);
    }
    forall q, bytes: nat
      ensures !Offers(n, multiset{a}, q, bytes)
    {
    }
  }

  lemma NoHalfSet(n: Naming, prefix: string, a: Entry, other: string, sizes: seq<u64>)
    requires IsHalf(n, a, prefix, 1)
    ensures !CompleteSet(n, multiset{a}, other, sizes)
  {
    if CompleteSet(n, multiset{a}, other, sizes) {
      var f := ShardOf(n, multiset{a}, other, sizes, 0);
      var g := ShardOf(n, multiset{a}, other, sizes, 1);
      assert false;
    }
  }

  lemma MoreFiles(files: multiset<Entry>, e: Entry)
    ensures forall f :: f != e ==> (files + multiset{e})[f] == files[f]
    ensures forall f :: f != e ==> (f in files + multiset{e} <==> f in files)
  {
  }

  lemma OnlyShardIgnores(n: Naming, files: multiset<Entry>, e: Entry, prefix: string, i: nat, f: Entry)
    requires !n.keep(e.path)
    ensures OnlyShard(n, files + multiset{e}, prefix, i, f) <==> OnlyShard(n, files, prefix, i, f)
  {
    MoreFiles(files, e);
    assert forall g :: IsPart(n, g, prefix) ==> (g in files + multiset{e} <==> g in files);
  }

  lemma CompleteSetIgnores(n: Naming, files: multiset<Entry>, e: Entry, prefix: string, sizes: seq<u64>)
    requires !n.keep(e.path)
    ensures CompleteSet(n, files + multiset{e}, prefix, sizes) <==> CompleteSet(n, files, prefix, sizes)
  {
    MoreFiles(files, e);
    assert forall g :: IsPart(n, g, prefix) ==> (g in files + multiset{e} <==> g in files);
    forall i: nat, size: nat
      ensures ShardOfSize(n, files + multiset{e}, prefix, i, size) <==> ShardOfSize(n, files, prefix, i, size)
    {
      forall f
        ensures OnlyShard(n, files + multiset{e}, prefix, i, f) <==> OnlyShard(n, files, prefix, i, f)
      {
        OnlyShardIgnores(n, files, e, prefix, i, f);
      }
    }
  }

  lemma OffersIgnore(n: Naming, files: multiset<Entry>, e: Entry, quant: string, bytes: nat)
    requires !n.keep(e.path)
    ensures Offers(n, files + multiset{e}, quant, bytes) <==> Offers(n, files, quant, bytes)
  {
    MoreFiles(files, e);
    assert forall f :: IsSingle(n, f) ==> (f in files + multiset{e} <==> f in files);
    forall prefix, sizes
      ensures CompleteSet(n, files + multiset{e}, prefix, sizes) <==> CompleteSet(n, files, prefix, sizes)
    {
      CompleteSetIgnores(n, files, e, prefix, sizes);
    }
    assert forall prefix ::
      SetOffers(n, files + multiset{e}, prefix, bytes) <==> SetOffers(n, files, prefix, bytes);
  }

  /** A file that is no model file changes nothing. */
  lemma OtherFilesAreIgnored(n: Naming, files: multiset<Entry>, e: Entry, options: seq<ModelOption>)
    requires !n.keep(e.path)
    ensures IsOptionList(n, files + multiset{e}, options) <==> IsOptionList(n, files, options)
  {
    forall q, b: nat
      ensures Offers(n, files + multiset{e}, q, b) <==> Offers(n, files, q, b)
    {
      OffersIgnore(n, files, e, q, b);
    }
    forall q, b: nat
      ensures Least(n, files + multiset{e}, q, b) <==> Least(n, files, q, b)
    {
    }
  }

  /** A file or a set whose name gives no quantization is not listed. */
  lemma NamelessIsNotListed(n: Naming, files: multiset<Entry>, options: seq<ModelOption>, o: ModelOption)
    requires IsOptionList(n, files, options) && o in options
    ensures o.quant != ""
  {
    assert Least(n, files, o.quant, o.bytes);
  }

  /** Two sorted lists of the same options are the same list. */
  lemma {:induction false} SortedUnique(a: seq<ModelOption>, b: seq<ModelOption>)
    requires Sorted(a) && Sorted(b)
    requires forall o :: o in a <==> o in b
    ensures a == b
  {
    if a == [] && b == [] {
    } else {
      assert (a != [] ==> a[0] in b) && (b != [] ==> b[0] in a);
      BeforeOrders(a[0], b[0]);
      assert a[0] == b[0];
      TailOfSorted(a);
      TailOfSorted(b);
      SortedUnique(a[1..], b[1..]);
    }
  }

  lemma TailOfSorted(a: seq<ModelOption>)
    requires Sorted(a) && a != []
    ensures Sorted(a[1..])
    ensures forall o :: o in a[1..] <==> o in a && o != a[0]
  {
    assert a == [a[0]] + a[1..];
    forall i | 1 <= i < |a|
      ensures a[i] != a[0]
    {
      BeforeOrders(a[0], a[i]);
    }
  }

  /** The option list is determined by the multiset of files: any listing order gives the same one. */
  lemma OptionListUnique(n: Naming, files: multiset<Entry>, a: seq<ModelOption>, b: seq<ModelOption>)
    requires IsOptionList(n, files, a) && IsOptionList(n, files, b)
    ensures a == b
  {
    SortedUnique(a, b);
  }

  /** Each quantization is listed once. */
  lemma QuantListedOnce(n: Naming, files: multiset<Entry>, options: seq<ModelOption>, i: nat, j: nat)
    requires IsOptionList(n, files, options) && i < j < |options|
    ensures options[i].quant != options[j].quant
  {
    assert options[i] in options && options[j] in options;
    BeforeOrders(options[i], options[j]);
  }

  // ----- One split group, entry by entry -------------------------------------

  datatype Group = Group(expected: nat, shards: map<nat, u64>, valid: bool)

  /** `or_insert_with` and the update: a different total or a repeated index spoils the group. */
  function UpdateGroup(g: Option<Group>, part: ShardName, size: u64): Group {
    var group := if g.Some? then g.value else Group(part.total, map[], true);
    if group.expected != part.total then group.(valid := false)
    else group.(shards := group.shards[part.index := size], valid := group.valid && part.index !in group.shards)
  }

  function GroupOf(n: Naming, entries: seq<Entry>, prefix: string): Option<Group> {
    if entries == [] then None
    else
      var before, last := GroupOf(n, entries[..|entries| - 1], prefix), entries[|entries| - 1];
      if IsPart(n, last, prefix) then Some(UpdateGroup(before, PartOf(last), last.size)) else before
  }

  /** Two different positions hold shards that agree on the total and differ in the index. */
  ghost predicate Compatible(n: Naming, entries: seq<Entry>, prefix: string) {
    forall j, k :: 0 <= j < k < |entries| && IsPart(n, entries[j], prefix) && IsPart(n, entries[k], prefix) ==>
      PartOf(entries[j]).total == PartOf(entries[k]).total && PartOf(entries[j]).index != PartOf(entries[k]).index
  }

  ghost predicate HasPart(n: Naming, entries: seq<Entry>, prefix: string) {
    exists e <- entries :: IsPart(n, e, prefix)
  }

  ghost predicate HasShard(n: Naming, entries: seq<Entry>, prefix: string, i: nat) {
    exists e <- entries :: IsPart(n, e, prefix) && PartOf(e).index == i
  }

  lemma CompatibleSnoc(n: Naming, init: seq<Entry>, last: Entry, prefix: string)
    ensures Compatible(n, init + [last], prefix) <==>
            Compatible(n, init, prefix) && (IsPart(n, last, prefix) ==>
              forall j :: 0 <= j < |init| && IsPart(n, init[j], prefix) ==>
                PartOf(init[j]).total == PartOf(last).total && PartOf(init[j]).index != PartOf(last).index)
  {
    var all := init + [last];
    assert all[|init|] == last;
    assert forall j :: 0 <= j < |init| ==> all[j] == init[j];
  }

  /** A group exists once it has a shard, stays valid while its shards are compatible, and then records them all. */
  lemma {:induction false} GroupRecords(n: Naming, entries: seq<Entry>, prefix: string)
    ensures GroupOf(n, entries, prefix).Some? <==> HasPart(n, entries, prefix)
    ensures GroupOf(n, entries, prefix).Some? ==>
              var g := GroupOf(n, entries, prefix).value;
              && (g.valid <==> Compatible(n, entries, prefix))
              && (g.valid ==> Records(n, entries, prefix, g))
  {
    if entries == [] {
    } else {
      var init, last := entries[..|entries| - 1], entries[|entries| - 1];
      assert entries == init + [last];
      GroupRecords(n, init, prefix);
      if IsPart(n, last, prefix) {
        assert entries[|init|] == last;
        RecordsSnoc(n, init, last, prefix);
      } else {
        RecordsSkip(n, init, last, prefix, GroupOf(n, init, prefix));
      }
    }
  }

  /** Recording one entry more: what is recorded of the others stays, and the entry itself is recorded, if a shard. */
  lemma RecordsMore(n: Naming, init: seq<Entry>, last: Entry, prefix: string, g: Group, h: Group)
    requires Records(n, init, prefix, g) && h.expected == g.expected
    requires forall i <- g.shards :: i in h.shards && h.shards[i] == g.shards[i]
    requires if IsPart(n, last, prefix) then
               && PartOf(last).total == h.expected
               && h.shards == g.shards[PartOf(last).index := last.size]
             else h.shards == g.shards
    ensures Records(n, init + [last], prefix, h)
  {
    forall i <- h.shards
      ensures HasShard(n, init + [last], prefix, i)
    {
      HasShardAppend(n, init, last, prefix, i);
    }
    forall e <- init + [last] | IsPart(n, e, prefix)
      ensures PartOf(e).total == h.expected
      ensures PartOf(e).index in h.shards && h.shards[PartOf(e).index] == e.size
    {
      assert e in init || e == last;
    }
  }

  /** An entry of another kind changes nothing. */
  lemma RecordsSkip(n: Naming, init: seq<Entry>, last: Entry, prefix: string, g: Option<Group>)
    requires !IsPart(n, last, prefix)
    ensures HasPart(n, init + [last], prefix) <==> HasPart(n, init, prefix)
    ensures Compatible(n, init + [last], prefix) <==> Compatible(n, init, prefix)
    ensures g.Some? && Records(n, init, prefix, g.value) ==> Records(n, init + [last], prefix, g.value)
  {
    CompatibleSnoc(n, init, last, prefix);
    HasPartAppend(n, init, last, prefix);
    if g.Some? && Records(n, init, prefix, g.value) {
      RecordsMore(n, init, last, prefix, g.value, g.value);
    }
  }

  lemma HasPartAppend(n: Naming, init: seq<Entry>, last: Entry, prefix: string)
    ensures HasPart(n, init + [last], prefix) <==> HasPart(n, init, prefix) || IsPart(n, last, prefix)
  {
  }

  lemma HasShardAppend(n: Naming, init: seq<Entry>, last: Entry, prefix: string, i: nat)
    ensures HasShard(n, init + [last], prefix, i)
            <==> HasShard(n, init, prefix, i) || (IsPart(n, last, prefix) && PartOf(last).index == i)
  {
  }

  /** The shards recorded are exactly those listed, under the common total. */
  ghost predicate Records(n: Naming, entries: seq<Entry>, prefix: string, g: Group) {
    RecordsAll(n, entries, prefix, g) && forall i <- g.shards :: HasShard(n, entries, prefix, i)
  }

  ghost predicate RecordsAll(n: Naming, entries: seq<Entry>, prefix: string, g: Group) {
    forall e <- entries :: IsPart(n, e, prefix) ==>
      && PartOf(e).total == g.expected
      && PartOf(e).index in g.shards && g.shards[PartOf(e).index] == e.size
  }

  /** The new shard fits the valid group: same total, new index. */
  predicate Fits(g: Group, part: ShardName) {
    g.expected == part.total && part.index !in g.shards
  }

  lemma FitsIsCompatible(n: Naming, init: seq<Entry>, last: Entry, prefix: string, g: Group)
    requires IsPart(n, last, prefix) && HasPart(n, init, prefix) && Records(n, init, prefix, g)
    ensures Fits(g, PartOf(last)) <==>
            forall j :: 0 <= j < |init| && IsPart(n, init[j], prefix) ==>
              PartOf(init[j]).total == PartOf(last).total && PartOf(init[j]).index != PartOf(last).index
  {
    assert forall j :: 0 <= j < |init| ==> init[j] in init;
    var e :| e in init && IsPart(n, e, prefix);
    var k :| 0 <= k < |init| && init[k] == e;
    if PartOf(last).index in g.shards {
      var f :| f in init && IsPart(n, f, prefix) && PartOf(f).index == PartOf(last).index;
      var j :| 0 <= j < |init| && init[j] == f;
      assert IsPart(n, init[j], prefix);
    }
  }

  lemma RecordsFitting(n: Naming, init: seq<Entry>, last: Entry, prefix: string, g: Group)
    requires IsPart(n, last, prefix) && Records(n, init, prefix, g) && Fits(g, PartOf(last))
    ensures Records(n, init + [last], prefix, g.(shards := g.shards[PartOf(last).index := last.size]))
  {
    RecordsMore(n, init, last, prefix, g, g.(shards := g.shards[PartOf(last).index := last.size]));
  }

  lemma RecordsSnoc(n: Naming, init: seq<Entry>, last: Entry, prefix: string)
    requires IsPart(n, last, prefix)
    requires GroupOf(n, init, prefix).Some? <==> HasPart(n, init, prefix)
    requires GroupOf(n, init, prefix).Some? ==>
               var g := GroupOf(n, init, prefix).value;
               (g.valid <==> Compatible(n, init, prefix)) && (g.valid ==> Records(n, init, prefix, g))
    ensures var g := UpdateGroup(GroupOf(n, init, prefix), PartOf(last), last.size);
            && (g.valid <==> Compatible(n, init + [last], prefix))
            && (g.valid ==> Records(n, init + [last], prefix, g))
  {
    CompatibleSnoc(n, init, last, prefix);
    var before := GroupOf(n, init, prefix);
    if before.None? {
      assert forall j :: 0 <= j < |init| ==> init[j] in init;
      RecordsFitting(n, init, last, prefix, Group(PartOf(last).total, map[], true));
    } else if before.value.valid {
      FitsIsCompatible(n, init, last, prefix, before.value);
      if Fits(before.value, PartOf(last)) {
        RecordsFitting(n, init, last, prefix, before.value);
      }
    }
  }
}
