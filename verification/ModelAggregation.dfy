/**
  `complete_model_options` and `balanced_quant` of src/config/models_cmd.rs: the loops over
  the listing, the hash maps they fill, and the proof that they compute the option list.
 */
module ModelAggregation {
  import opened Prelude
  import opened ShardNames
  import opened ModelOptions

  // ----- From the listing to the multiset of files ---------------------------

  lemma CountOne(entries: seq<Entry>, e: Entry, k: nat)
    requires k < |entries| && entries[k] == e
    ensures multiset(entries)[e] == 1 <==> forall j :: 0 <= j < |entries| && entries[j] == e ==> j == k
  {
    var before, after := entries[..k], entries[k + 1..];
    assert entries == before + [e] + after;
    if j :| 0 <= j < |entries| && entries[j] == e && j != k {
      assert if j < k then before[j] == e else after[j - k - 1] == e;
      assert e in multiset(before) || e in multiset(after);
    } else {
      assert e !in before && e !in after;
    }
  }

  /** The indices of `1..=n`. */
  function Interval(n: nat): (s: set<nat>)
    ensures |s| == n && forall i: nat :: i in s <==> 1 <= i <= n
  {
    if n == 0 then {} else Interval(n - 1) + {n}
  }

  /** A group that will be offered: compatible shards with indices exactly 1 to the total. */
  predicate Whole(g: Group) {
    g.valid && |g.shards| == g.expected && g.shards.Keys == Interval(g.expected)
  }

  function Sizes(g: Group): (sizes: seq<u64>)
    requires g.shards.Keys == Interval(g.expected)
    ensures |sizes| == g.expected && forall i :: 0 <= i < g.expected ==> sizes[i] == g.shards[i + 1]
  {
    seq(g.expected, i requires 0 <= i < g.expected => assert i + 1 in g.shards.Keys; g.shards[i + 1])
  }

  lemma ShardIsOnly(n: Naming, entries: seq<Entry>, prefix: string, e: Entry)
    requires Compatible(n, entries, prefix) && e in entries && IsPart(n, e, prefix)
    ensures OnlyShard(n, multiset(entries), prefix, PartOf(e).index, e)
  {
    var k :| 0 <= k < |entries| && entries[k] == e;
    forall f <- multiset(entries) | IsPart(n, f, prefix) && PartOf(f).index == PartOf(e).index
      ensures f == e
    {
      assert f in entries;
      var j :| 0 <= j < |entries| && entries[j] == f;
    }
    CountOne(entries, e, k);
  }

  lemma RecordedShard(n: Naming, entries: seq<Entry>, prefix: string, g: Group, i: nat)
    requires Compatible(n, entries, prefix) && Records(n, entries, prefix, g) && i in g.shards
    ensures ShardOfSize(n, multiset(entries), prefix, i, g.shards[i])
    ensures 1 <= i <= g.expected
  {
    assert HasShard(n, entries, prefix, i);
    var e :| e in entries && IsPart(n, e, prefix) && PartOf(e).index == i;
    ShardIsOnly(n, entries, prefix, e);
  }

  lemma TotalsAgree(n: Naming, entries: seq<Entry>, prefix: string, g: Group)
    requires Records(n, entries, prefix, g)
    ensures forall e <- multiset(entries) :: IsPart(n, e, prefix) ==> PartOf(e).total == g.expected
  {
    forall e <- multiset(entries) | IsPart(n, e, prefix)
      ensures PartOf(e).total == g.expected
    {
      assert e in entries;
    }
  }

  lemma WholeShard(n: Naming, entries: seq<Entry>, prefix: string, g: Group, i: nat)
    requires Compatible(n, entries, prefix) && Records(n, entries, prefix, g)
    requires Whole(g) && i < g.expected
    ensures ShardOfSize(n, multiset(entries), prefix, i + 1, Sizes(g)[i])
  {
    assert i + 1 in g.shards.Keys;
    RecordedShard(n, entries, prefix, g, i + 1);
  }

  lemma WholeIsComplete(n: Naming, entries: seq<Entry>, prefix: string, g: Group)
    requires Compatible(n, entries, prefix) && Records(n, entries, prefix, g)
    requires g.expected > 0 && Whole(g)
    ensures CompleteSet(n, multiset(entries), prefix, Sizes(g))
  {
    var sizes := Sizes(g);
    forall i | 0 <= i < |sizes|
      ensures ShardOfSize(n, multiset(entries), prefix, i + 1, sizes[i])
    {
      WholeShard(n, entries, prefix, g, i);
    }
    TotalsAgree(n, entries, prefix, g);
  }

  lemma ExpectedIsPositive(n: Naming, entries: seq<Entry>, prefix: string, g: Group)
    requires HasPart(n, entries, prefix) && Records(n, entries, prefix, g)
    ensures g.expected > 0
  {
    var e :| e in entries && IsPart(n, e, prefix);
    assert PartOf(e).total == g.expected;
  }

  lemma CompleteIsCompatible(n: Naming, entries: seq<Entry>, prefix: string, sizes: seq<u64>)
    requires CompleteSet(n, multiset(entries), prefix, sizes)
    ensures HasPart(n, entries, prefix) && Compatible(n, entries, prefix)
  {
    var files := multiset(entries);
    assert ShardOfSize(n, files, prefix, 0 + 1, sizes[0]);
    var first :| OnlyShard(n, files, prefix, 0 + 1, first) && first.size == sizes[0];
    assert first in files && first in entries;
    forall j, k | 0 <= j < k < |entries| && IsPart(n, entries[j], prefix) && IsPart(n, entries[k], prefix)
      ensures PartOf(entries[j]).total == PartOf(entries[k]).total
      ensures PartOf(entries[j]).index != PartOf(entries[k]).index
    {
      assert entries[j] in files && entries[k] in files;
      if PartOf(entries[j]).index == PartOf(entries[k]).index {
        var i := PartOf(entries[j]).index - 1;
        assert ShardOfSize(n, files, prefix, i + 1, sizes[i]);
        var e :| OnlyShard(n, files, prefix, i + 1, e) && e.size == sizes[i];
        assert entries[j] == e == entries[k];
        CountOne(entries, e, k);
        assert false;
      }
    }
  }

  lemma CompleteSizeAt(n: Naming, entries: seq<Entry>, prefix: string, g: Group, sizes: seq<u64>, i: nat)
    requires CompleteSet(n, multiset(entries), prefix, sizes) && RecordsAll(n, entries, prefix, g)
    requires 1 <= i <= |sizes|
    ensures i in g.shards && g.shards[i] == sizes[i - 1]
  {
    assert ShardOfSize(n, multiset(entries), prefix, i - 1 + 1, sizes[i - 1]);
    var e :| OnlyShard(n, multiset(entries), prefix, i, e) && e.size == sizes[i - 1];
    assert e in multiset(entries) && e in entries;
  }

  lemma ExpectedIsComplete(n: Naming, entries: seq<Entry>, prefix: string, g: Group, sizes: seq<u64>)
    requires CompleteSet(n, multiset(entries), prefix, sizes)
    requires HasPart(n, entries, prefix) && Records(n, entries, prefix, g)
    ensures g.expected == |sizes|
  {
    var e :| e in entries && IsPart(n, e, prefix);
    assert e in multiset(entries);
    assert PartOf(e).total == g.expected;
  }

  lemma RecordedIndices(n: Naming, entries: seq<Entry>, prefix: string, g: Group)
    requires Compatible(n, entries, prefix) && Records(n, entries, prefix, g)
    ensures forall i <- g.shards :: 1 <= i <= g.expected
  {
    forall i <- g.shards
      ensures 1 <= i <= g.expected
    {
      RecordedShard(n, entries, prefix, g, i);
    }
  }

  lemma CompleteIndices(n: Naming, entries: seq<Entry>, prefix: string, g: Group, sizes: seq<u64>)
    requires CompleteSet(n, multiset(entries), prefix, sizes) && g.expected == |sizes|
    requires RecordsAll(n, entries, prefix, g)
    ensures forall i: nat :: 1 <= i <= g.expected ==> i in g.shards
  {
    forall i: nat | 1 <= i <= g.expected
      ensures i in g.shards
    {
      CompleteSizeAt(n, entries, prefix, g, sizes, i);
    }
  }

  lemma IndicesAreComplete(n: Naming, entries: seq<Entry>, prefix: string, g: Group, sizes: seq<u64>)
    requires CompleteSet(n, multiset(entries), prefix, sizes) && g.expected == |sizes|
    requires Compatible(n, entries, prefix) && Records(n, entries, prefix, g)
    ensures g.shards.Keys == Interval(g.expected)
  {
    RecordedIndices(n, entries, prefix, g);
    CompleteIndices(n, entries, prefix, g, sizes);
    assert forall i: nat :: i in g.shards.Keys <==> i in Interval(g.expected);
  }

  lemma SizeAgreesAt(n: Naming, entries: seq<Entry>, prefix: string, g: Group, sizes: seq<u64>, i: nat)
    requires CompleteSet(n, multiset(entries), prefix, sizes) && RecordsAll(n, entries, prefix, g)
    requires i < |sizes| == g.expected && g.shards.Keys == Interval(g.expected)
    ensures Sizes(g)[i] == sizes[i]
  {
    assert sizes[i] == g.shards[i + 1] by {
      CompleteSizeAt(n, entries, prefix, g, sizes, i + 1);
    }
  }

  lemma SizesAgree(n: Naming, entries: seq<Entry>, prefix: string, g: Group, sizes: seq<u64>)
    requires CompleteSet(n, multiset(entries), prefix, sizes) && RecordsAll(n, entries, prefix, g)
    requires g.expected == |sizes| && g.shards.Keys == Interval(g.expected)
    ensures Sizes(g) == sizes
  {
    var own := Sizes(g);
    forall i | 0 <= i < |sizes|
      ensures own[i] == sizes[i]
    {
      SizeAgreesAt(n, entries, prefix, g, sizes, i);
    }
  }

  lemma CompleteIsWhole(n: Naming, entries: seq<Entry>, prefix: string, g: Group, sizes: seq<u64>)
    requires CompleteSet(n, multiset(entries), prefix, sizes)
    requires g.valid && Records(n, entries, prefix, g)
    ensures Whole(g) && Sizes(g) == sizes
  {
    CompleteIsCompatible(n, entries, prefix, sizes);
    ExpectedIsComplete(n, entries, prefix, g, sizes);
    IndicesAreComplete(n, entries, prefix, g, sizes);
    assert |g.shards| == |g.shards.Keys|;
    SizesAgree(n, entries, prefix, g, sizes);
  }

  predicate GroupOffers(g: Option<Group>, bytes: nat) {
    g.Some? && Whole(g.value) && Sum(Sizes(g.value)) == bytes && bytes < U64_LIMIT
  }

  /** What the grouping loop keeps of a prefix decides whether its shards are a complete set, and of which size. */
  lemma GroupDecides(n: Naming, entries: seq<Entry>, prefix: string, bytes: nat)
    ensures SetOffers(n, multiset(entries), prefix, bytes) <==> GroupOffers(GroupOf(n, entries, prefix), bytes)
  {
    GroupRecords(n, entries, prefix);
    var g := GroupOf(n, entries, prefix);
    if GroupOffers(g, bytes) {
      ExpectedIsPositive(n, entries, prefix, g.value);
      WholeIsComplete(n, entries, prefix, g.value);
    }
    if SetOffers(n, multiset(entries), prefix, bytes) {
      var sizes :| CompleteSet(n, multiset(entries), prefix, sizes) && Sum(sizes) == bytes && bytes < U64_LIMIT;
      CompleteIsCompatible(n, entries, prefix, sizes);
      CompleteIsWhole(n, entries, prefix, g.value, sizes);
    }
  }

  // ----- The map of least sizes ----------------------------------------------

  /** `entry(quant).and_modify(min).or_insert(bytes)`, guarded by a non-empty name. */
  function Offer(options: map<string, u64>, quant: string, bytes: u64): map<string, u64> {
    if quant == "" then options
    else if quant in options then options[quant := Min(options[quant], bytes)]
    else options[quant := bytes]
  }

  /** The map holds, for each quantization, the least of the sizes it starts from and of those offered. */
  ghost predicate HoldsLeast(offers: (string, u64) -> bool, start: map<string, u64>, options: map<string, u64>) {
    && (forall q <- options :: (q in start && options[q] == start[q]) || offers(q, options[q]))
    && (forall q <- start :: q in options && options[q] <= start[q])
    && forall q, b: u64 | offers(q, b) :: q in options && options[q] <= b
  }

  /** One offer more, or none. */
  lemma OfferHoldsLeast(before: (string, u64) -> bool, after: (string, u64) -> bool, start: map<string, u64>,
                        options: map<string, u64>, offer: Option<(string, u64)>)
    requires HoldsLeast(before, start, options)
    requires forall q, b: u64 :: after(q, b) <==> before(q, b) || (q != "" && offer == Some((q, b)))
    ensures HoldsLeast(after, start, if offer.Some? then Offer(options, offer.value.0, offer.value.1) else options)
  {
  }

  // ----- The loops -----------------------------------------------------------

  ghost predicate SingleAt(n: Naming, entries: seq<Entry>, quant: string, bytes: nat) {
    exists e <- entries :: IsSingle(n, e) && n.quant(e.path) == quant && e.size == bytes
  }

  ghost predicate SetIn(n: Naming, prefixes: set<string>, groups: map<string, Group>, quant: string, bytes: nat) {
    exists prefix <- prefixes ::
      prefix in groups && n.quant(prefix) == quant && GroupOffers(Some(groups[prefix]), bytes)
  }

  ghost function SingleOffersOf(n: Naming, entries: seq<Entry>): (string, u64) -> bool {
    (q: string, b: u64) => q != "" && SingleAt(n, entries, q, b)
  }

  ghost function SetOffersOf(n: Naming, prefixes: set<string>, groups: map<string, Group>): (string, u64) -> bool {
    (q: string, b: u64) => q != "" && SetIn(n, prefixes, groups, q, b)
  }

  ghost predicate HoldsGroups(n: Naming, entries: seq<Entry>, groups: map<string, Group>) {
    forall prefix :: GroupOf(n, entries, prefix) == if prefix in groups then Some(groups[prefix]) else None
  }

  lemma SingleAtSnoc(n: Naming, init: seq<Entry>, last: Entry, quant: string, bytes: nat)
    ensures SingleAt(n, init + [last], quant, bytes)
            <==> || SingleAt(n, init, quant, bytes)
                 || (IsSingle(n, last) && n.quant(last.path) == quant && last.size == bytes)
  {
  }

  lemma HoldsSinglesSnoc(n: Naming, init: seq<Entry>, last: Entry, options: map<string, u64>)
    requires HoldsLeast(SingleOffersOf(n, init), map[], options)
    ensures HoldsLeast(SingleOffersOf(n, init + [last]), map[],
                       if IsSingle(n, last) then Offer(options, n.quant(last.path), last.size) else options)
  {
    var before, after := SingleOffersOf(n, init), SingleOffersOf(n, init + [last]);
    forall q, b: u64
      ensures after(q, b)
              <==> before(q, b) || (q != "" && IsSingle(n, last) && n.quant(last.path) == q && last.size == b)
    {
      SingleAtSnoc(n, init, last, q, b);
    }
    OfferHoldsLeast(before, after, map[], options,
                    if IsSingle(n, last) then Some((n.quant(last.path), last.size)) else None);
  }

  /** The entry of one file in the map of groups. */
  function Regroup(groups: map<string, Group>, part: ShardName, size: u64): map<string, Group> {
    groups[part.prefix := UpdateGroup(if part.prefix in groups then Some(groups[part.prefix]) else None, part, size)]
  }

  lemma HoldsGroupsSnoc(n: Naming, init: seq<Entry>, last: Entry, groups: map<string, Group>)
    requires HoldsGroups(n, init, groups)
    ensures HoldsGroups(n, init + [last],
                        if IsPart(n, last, PrefixOf(last)) then Regroup(groups, PartOf(last), last.size) else groups)
  {
    var all := init + [last];
    assert all[..|all| - 1] == init && all[|all| - 1] == last;
    forall prefix
      ensures GroupOf(n, all, prefix)
              == if IsPart(n, last, prefix) then Some(UpdateGroup(GroupOf(n, init, prefix), PartOf(last), last.size))
                 else GroupOf(n, init, prefix)
    {
    }
  }

  function PrefixOf(e: Entry): string {
    match SplitModelPart(e.path)
    case Some(part) => part.prefix
    case None => ""
  }

  /** The first loop: single files go into the map of options, shards into the groups. */
  method ScanEntries(n: Naming, entries: seq<Entry>)
    returns (options: map<string, u64>, groups: map<string, Group>)
    ensures HoldsLeast(SingleOffersOf(n, entries), map[], options) && HoldsGroups(n, entries, groups)
  {
    options, groups := map[], map[];
    for i := 0 to |entries|
      invariant HoldsLeast(SingleOffersOf(n, entries[..i]), map[], options)
      invariant HoldsGroups(n, entries[..i], groups)
    {
      var e := entries[i];
      assert entries[..i + 1] == entries[..i] + [e];
      HoldsSinglesSnoc(n, entries[..i], e, options);
      HoldsGroupsSnoc(n, entries[..i], e, groups);
      if n.keep(e.path) {
        match SplitModelPart(e.path) {
          case Some(part) =>
            groups := Regroup(groups, part, e.size);
          case None =>
            options := Offer(options, n.quant(e.path), e.size);
        }
      }
    }
    assert entries[..|entries|] == entries;
  }

  lemma {:induction false} SumGrows(sizes: seq<u64>, i: nat)
    requires i <= |sizes|
    ensures Sum(sizes[..i]) <= Sum(sizes)
  {
    if i < |sizes| {
      SumGrows(sizes[..|sizes| - 1], i);
      assert sizes[..|sizes| - 1][..i] == sizes[..i];
    } else {
      assert sizes[..i] == sizes;
    }
  }

  lemma SumSnoc(sizes: seq<u64>, i: nat)
    requires i < |sizes|
    ensures Sum(sizes[..i + 1]) == Sum(sizes[..i]) + sizes[i]
  {
    assert sizes[..i + 1][..i] == sizes[..i];
  }

  /** The total of a group's shards in index order, by checked addition; none if the group is not whole. */
  method TotalSize(g: Group) returns (r: Option<u64>)
    ensures forall bytes: nat :: (r == Some(bytes) <==> GroupOffers(Some(g), bytes))
  {
    if !Whole(g) {
      return None;
    }
    ghost var sizes := Sizes(g);
    var total: nat := 0;
    for i := 0 to g.expected
      invariant total == Sum(sizes[..i]) && total < U64_LIMIT
    {
      assert i + 1 in g.shards.Keys;
      SumSnoc(sizes, i);
      if total + g.shards[i + 1] >= U64_LIMIT {
        SumGrows(sizes, i + 1);
        return None;
      }
      total := total + g.shards[i + 1];
    }
    assert sizes[..g.expected] == sizes;
    return Some(total);
  }

  /** The second loop, over the groups in any order. */
  method AddSets(n: Naming, groups: map<string, Group>, singles: map<string, u64>) returns (options: map<string, u64>)
    ensures HoldsLeast(SetOffersOf(n, groups.Keys, groups), singles, options)
  {
    options := singles;
    var remaining := groups.Keys;
    while remaining != {}
      invariant remaining <= groups.Keys
      invariant HoldsLeast(SetOffersOf(n, groups.Keys - remaining, groups), singles, options)
      decreases |remaining|
    {
      var prefix :| prefix in remaining;
      var size := TotalSize(groups[prefix]);
      HoldsSetsOneMore(n, groups.Keys - remaining, prefix, groups, size, singles, options);
      assert groups.Keys - (remaining - {prefix}) == groups.Keys - remaining + {prefix};
      if size.Some? {
        options := Offer(options, n.quant(prefix), size.value);
      }
      remaining := remaining - {prefix};
    }
    assert groups.Keys - remaining == groups.Keys;
  }

  lemma HoldsSetsOneMore(n: Naming, done: set<string>, prefix: string, groups: map<string, Group>, size: Option<u64>,
                         singles: map<string, u64>, options: map<string, u64>)
    requires prefix in groups && HoldsLeast(SetOffersOf(n, done, groups), singles, options)
    requires forall bytes: nat :: (size == Some(bytes) <==> GroupOffers(Some(groups[prefix]), bytes))
    ensures HoldsLeast(SetOffersOf(n, done + {prefix}, groups), singles,
                       if size.Some? then Offer(options, n.quant(prefix), size.value) else options)
  {
    SetInOneMore(n, done, prefix, groups, size);
    OfferHoldsLeast(SetOffersOf(n, done, groups), SetOffersOf(n, done + {prefix}, groups), singles, options,
                    if size.Some? then Some((n.quant(prefix), size.value)) else None);
  }

  lemma SetInOneMore(n: Naming, done: set<string>, prefix: string, groups: map<string, Group>, size: Option<u64>)
    requires prefix in groups
    requires forall bytes: nat :: (size == Some(bytes) <==> GroupOffers(Some(groups[prefix]), bytes))
    ensures forall q, b: u64 :: SetIn(n, done + {prefix}, groups, q, b)
                                <==> SetIn(n, done, groups, q, b) || (n.quant(prefix) == q && size == Some(b))
  {
  }

  /** After both loops, what was offered is what the files offer. */
  lemma OfferedExactly(n: Naming, entries: seq<Entry>, groups: map<string, Group>, q: string, b: u64)
    requires HoldsGroups(n, entries, groups)
    ensures Offers(n, multiset(entries), q, b)
            <==> q != "" && (SingleAt(n, entries, q, b) || SetIn(n, groups.Keys, groups, q, b))
  {
    var files := multiset(entries);
    assert SingleOffers(n, files, q, b) <==> SingleAt(n, entries, q, b) by {
      assert forall e :: e in files <==> e in entries;
    }
    forall prefix
      ensures SetOffers(n, files, prefix, b) <==> prefix in groups && GroupOffers(Some(groups[prefix]), b)
    {
      GroupDecides(n, entries, prefix, b);
    }
  }

  // ----- Collecting and sorting ----------------------------------------------

  /** Insert into a sorted list. */
  method Insert(options: seq<ModelOption>, o: ModelOption) returns (r: seq<ModelOption>)
    requires Sorted(options) && o !in options
    ensures Sorted(r)
    ensures forall p :: p in r <==> p in options || p == o
  {
    var i := 0;
    while i < |options| && Before(options[i], o)
      invariant i <= |options|
      invariant forall j :: 0 <= j < i ==> Before(options[j], o)
    {
      i := i + 1;
    }
    r := options[..i] + [o] + options[i..];
    assert options == options[..i] + options[i..];
    InsertedSorted(options, o, i);
  }

  lemma InsertedSorted(options: seq<ModelOption>, o: ModelOption, i: nat)
    requires Sorted(options) && o !in options && i <= |options|
    requires forall j :: 0 <= j < i ==> Before(options[j], o)
    requires i < |options| ==> !Before(options[i], o)
    ensures Sorted(options[..i] + [o] + options[i..])
  {
    forall j | i <= j < |options|
      ensures Before(o, options[j])
    {
      BeforeOrders(options[i], o);
      assert options[i] in options;
      if i < j {
        BeforeTransitive(o, options[i], options[j]);
      }
    }
    var r := options[..i] + [o] + options[i..];
    forall j, k | 0 <= j < k < |r|
      ensures Before(r[j], r[k])
    {
      assert r[j] == if j < i then options[j] else if j == i then o else options[j - 1];
      assert r[k] == if k < i then options[k] else if k == i then o else options[k - 1];
    }
  }

  /** `into_iter().map(..).collect()` and `sort_by`, whatever order the map is walked in. */
  method SortOptions(options: map<string, u64>) returns (r: seq<ModelOption>)
    ensures Sorted(r)
    ensures forall o :: o in r <==> o.quant in options && options[o.quant] == o.bytes
  {
    r := [];
    var remaining := options.Keys;
    while remaining != {}
      invariant remaining <= options.Keys
      invariant Sorted(r)
      invariant forall o :: o in r <==> o.quant in options.Keys - remaining && options[o.quant] == o.bytes
      decreases |remaining|
    {
      var quant :| quant in remaining;
      r := Insert(r, ModelOption(quant, options[quant]));
      remaining := remaining - {quant};
    }
  }

  /** The options of a listing are the option list of its files. */
  method CompleteModelOptions(n: Naming, entries: seq<Entry>) returns (r: seq<ModelOption>)
    ensures IsOptionList(n, multiset(entries), r)
  {
    var singles, groups := ScanEntries(n, entries);
    var options := AddSets(n, groups, singles);
    r := SortOptions(options);
    forall o: ModelOption
      ensures o in r <==> Least(n, multiset(entries), o.quant, o.bytes)
    {
      LeastIsHeld(n, entries, groups, singles, options, o.quant, o.bytes);
    }
  }

  lemma LeastIsHeld(n: Naming, entries: seq<Entry>, groups: map<string, Group>, singles: map<string, u64>,
                    options: map<string, u64>, q: string, b: u64)
    requires HoldsLeast(SingleOffersOf(n, entries), map[], singles) && HoldsGroups(n, entries, groups)
    requires HoldsLeast(SetOffersOf(n, groups.Keys, groups), singles, options)
    ensures q in options && options[q] == b <==> Least(n, multiset(entries), q, b)
  {
    var files, single, inSet := multiset(entries), SingleOffersOf(n, entries), SetOffersOf(n, groups.Keys, groups);
    forall c: nat | Offers(n, files, q, c)
      ensures q in options && options[q] <= c
    {
      OffersFit(n, files, q, c);
      OfferedExactly(n, entries, groups, q, c);
      assert single(q, c) || inSet(q, c);
    }
    if q in options {
      OfferedExactly(n, entries, groups, q, options[q]);
    }
  }

  lemma OffersFit(n: Naming, files: multiset<Entry>, q: string, b: nat)
    requires Offers(n, files, q, b)
    ensures b < U64_LIMIT
  {
  }

  /** Listing the same files in another order gives the same options. */
  lemma OrderOfListingIsIrrelevant(n: Naming, a: seq<Entry>, b: seq<Entry>, ofA: seq<ModelOption>,
                                   ofB: seq<ModelOption>)
    requires multiset(a) == multiset(b)
    requires IsOptionList(n, multiset(a), ofA) && IsOptionList(n, multiset(b), ofB)
    ensures ofA == ofB
  {
    OptionListUnique(n, multiset(a), ofA, ofB);
  }
}
