/**
  Whole runs of the stream state of src/api/responses.rs: start, any chunks, finish.
  Every successful run is a correct transcript of the deltas it was given.
 */
module ResponseRuns {
  import opened Prelude
  import opened ChatTypes
  import opened DeltaFold
  import opened ResponseEvents
  import opened ResponseStream
  import opened ChunkFold
  import Sorting

  // ----- What the state tracks -----------------------------------------------

  /** The item stands at the index of its slot, under its id, with the text accumulated so far. */
  ghost predicate Tracks(slot: Slot, id: string, k: nat, text: string, ds: seq<Delta>, ids: map<Slot, string>) {
    && k < |Slots(ds)|
    && Slots(ds)[k] == slot
    && slot in ids && ids[slot] == id
    && text == TextOf(ds, slot)
  }

  ghost predicate TracksText(text: Option<TextItem>, ds: seq<Delta>, ids: map<Slot, string>) {
    && (text.Some? <==> TextSlot in Slots(ds))
    && (text.Some? ==> Tracks(TextSlot, text.value.id, text.value.outputIndex, text.value.text, ds, ids))
  }

  ghost predicate TracksTool(key: nat, tool: ToolItem, ds: seq<Delta>, ids: map<Slot, string>) {
    && Tracks(CallSlot(key), tool.id, tool.outputIndex, tool.arguments, ds, ids)
    && tool.callId == LastId(ds, key)
    && tool.name == LastName(ds, key)
  }

  ghost predicate TracksTools(tools: map<nat, ToolItem>, ds: seq<Delta>, ids: map<Slot, string>) {
    && (forall key :: key in tools <==> CallSlot(key) in Slots(ds))
    && forall key <- tools :: TracksTool(key, tools[key], ds, ids)
  }

  ghost predicate TracksState(st: State, ds: seq<Delta>, ids: map<Slot, string>) {
    && st.nextOutputIndex == |Slots(ds)|
    && TracksText(st.text, ds, ids)
    && TracksTools(st.tools, ds, ids)
  }

  /** The invariant of a run: what was emitted is the life so far of every item. */
  ghost predicate Consistent(st: State, ds: seq<Delta>, log: seq<Event>, ids: map<Slot, string>) {
    && Numbered(log)
    && st.nextSequenceNumber == |log|
    && TracksState(st, ds, ids)
    && Logged(log, ds, ids, {})
  }

  /** A delta of another slot does not disturb a tracked item. */
  lemma TracksElsewhere(slot: Slot, id: string, k: nat, text: string, ds: seq<Delta>, ids: map<Slot, string>,
                        d: Delta, newId: string)
    requires Tracks(slot, id, k, text, ds, ids) && SlotOf(d) != slot
    ensures Tracks(slot, id, k, text, ds + [d], ids[SlotOf(d) := newId])
  {
    assert (ds + [d])[..|ds|] == ds;
    OtherSlotUnchanged(ds, d, slot);
  }

  /** A delta appends its piece to its own slot's text, at the slot's old or new index. */
  lemma TracksHere(id: string, k: nat, text: string, ds: seq<Delta>, ids: map<Slot, string>, d: Delta)
    requires SlotOf(d) in Slots(ds) ==> Tracks(SlotOf(d), id, k, text, ds, ids)
    requires SlotOf(d) !in Slots(ds) ==> k == |Slots(ds)| && text == ""
    ensures Tracks(SlotOf(d), id, k, text + d.piece, ds + [d], ids[SlotOf(d) := id])
  {
    var slot := SlotOf(d);
    assert (ds + [d])[..|ds|] == ds;
    if slot !in Slots(ds) {
      NoPiecesYet(ds, slot);
    }
    var before := Pieces(ds, slot);
    assert text == Concat(before);
    if d.piece != "" {
      assert (before + [d.piece])[..|before|] == before;
    } else {
      assert text + d.piece == text;
    }
  }

  lemma ToolsElsewhere(tools: map<nat, ToolItem>, ds: seq<Delta>, ids: map<Slot, string>, d: Delta, newId: string)
    requires TracksTools(tools, ds, ids)
    ensures forall key <- tools :: SlotOf(d) != CallSlot(key) ==>
              TracksTool(key, tools[key], ds + [d], ids[SlotOf(d) := newId])
    ensures forall key :: CallSlot(key) in Slots(ds + [d]) <==> key in tools || SlotOf(d) == CallSlot(key)
  {
    assert (ds + [d])[..|ds|] == ds;
    forall key <- tools | SlotOf(d) != CallSlot(key)
      ensures TracksTool(key, tools[key], ds + [d], ids[SlotOf(d) := newId])
    {
      var tool := tools[key];
      TracksElsewhere(CallSlot(key), tool.id, tool.outputIndex, tool.arguments, ds, ids, d, newId);
      OtherSlotUnchanged(ds, d, CallSlot(key));
    }
  }

  /** The index and id under which a delta's item is known after the step. */
  ghost function IndexFor(st: State, d: Delta): nat {
    match SlotOf(d)
    case TextSlot => if st.text.Some? then st.text.value.outputIndex else st.nextOutputIndex
    case CallSlot(key) => if key in st.tools then st.tools[key].outputIndex else st.nextOutputIndex
  }

  ghost function IdFor(st: State, uuids: Uuids, d: Delta): string {
    match SlotOf(d)
    case TextSlot => if st.text.Some? then st.text.value.id else "msg_" + uuids(st.drawn)
    case CallSlot(key) => if key in st.tools then st.tools[key].id else "fc_" + uuids(st.drawn)
  }

  /** Text deltas are never empty. */
  ghost predicate Proper(d: Delta) {
    d.TextDelta? ==> d.piece != ""
  }

  lemma StepWrites(st: State, uuids: Uuids, ds: seq<Delta>, ids: map<Slot, string>, d: Delta)
    requires TracksState(st, ds, ids) && Proper(d)
    ensures Step(st, uuids, d).1 == StepBodies(IndexFor(st, d), IdFor(st, uuids, d), ds, d)
  {
  }

  lemma StepTracksText(st: State, uuids: Uuids, ds: seq<Delta>, ids: map<Slot, string>, d: Delta)
    requires TracksState(st, ds, ids) && d.TextDelta?
    ensures TracksState(Step(st, uuids, d).0, ds + [d], ids[SlotOf(d) := IdFor(st, uuids, d)])
  {
    assert (ds + [d])[..|ds|] == ds;
    var id := IdFor(st, uuids, d);
    TracksHere(id, IndexFor(st, d), if st.text.Some? then st.text.value.text else "", ds, ids, d);
    ToolsElsewhere(st.tools, ds, ids, d, id);
    assert "" + d.piece == d.piece;
  }

  lemma StepTracksCall(st: State, uuids: Uuids, ds: seq<Delta>, ids: map<Slot, string>, d: Delta)
    requires TracksState(st, ds, ids) && d.CallDelta?
    ensures TracksState(Step(st, uuids, d).0, ds + [d], ids[SlotOf(d) := IdFor(st, uuids, d)])
  {
    assert (ds + [d])[..|ds|] == ds;
    var id := IdFor(st, uuids, d);
    StepTracksTools(st, uuids, ds, ids, d);
    if st.text.Some? {
      TracksElsewhere(TextSlot, st.text.value.id, st.text.value.outputIndex, st.text.value.text, ds, ids, d, id);
    }
  }

  lemma StepTracksTools(st: State, uuids: Uuids, ds: seq<Delta>, ids: map<Slot, string>, d: Delta)
    requires TracksState(st, ds, ids) && d.CallDelta?
    ensures TracksTools(Step(st, uuids, d).0.tools, ds + [d], ids[SlotOf(d) := IdFor(st, uuids, d)])
  {
    var after := Step(st, uuids, d).0.tools;
    assert after == st.tools[d.key := after[d.key]];
    StepTracksTool(st, uuids, ds, ids, d);
    ToolsElsewhere(st.tools, ds, ids, d, IdFor(st, uuids, d));
  }

  lemma StepTracksTool(st: State, uuids: Uuids, ds: seq<Delta>, ids: map<Slot, string>, d: Delta)
    requires TracksState(st, ds, ids) && d.CallDelta?
    ensures TracksTool(d.key, Step(st, uuids, d).0.tools[d.key], ds + [d], ids[SlotOf(d) := IdFor(st, uuids, d)])
  {
    assert (ds + [d])[..|ds|] == ds;
    var id, slot := IdFor(st, uuids, d), SlotOf(d);
    TracksHere(id, IndexFor(st, d), if d.key in st.tools then st.tools[d.key].arguments else "", ds, ids, d);
    if slot !in Slots(ds) {
      NoPiecesYet(ds, slot);
    }
  }

  lemma BodiesOfStamp(first: nat, bodies: seq<Body>)
    ensures Bodies(Stamp(first, bodies)) == bodies
  {
  }

  lemma NumberedStamp(log: seq<Event>, bodies: seq<Body>)
    requires Numbered(log)
    ensures Numbered(log + Stamp(|log|, bodies))
  {
  }

  lemma StepConsistent(st: State, uuids: Uuids, ds: seq<Delta>, log: seq<Event>, ids: map<Slot, string>, d: Delta)
    requires Consistent(st, ds, log, ids) && Proper(d)
    ensures var (after, bodies) := Step(st, uuids, d);
            Consistent(after, ds + [d], log + Stamp(|log|, bodies), ids[SlotOf(d) := IdFor(st, uuids, d)])
  {
    var bodies := Step(st, uuids, d).1;
    StepWrites(st, uuids, ds, ids, d);
    BodiesOfStamp(|log|, bodies);
    LogStep(log, ds, ids, d, IndexFor(st, d), IdFor(st, uuids, d), Stamp(|log|, bodies));
    NumberedStamp(log, bodies);
    match d
    case TextDelta(_) => StepTracksText(st, uuids, ds, ids, d);
    case CallDelta(_, _, _, _) => StepTracksCall(st, uuids, ds, ids, d);
  }

  ghost predicate Explained(st: State, ds: seq<Delta>, log: seq<Event>) {
    exists ids :: Consistent(st, ds, log, ids)
  }

  lemma StepExplained(st: State, uuids: Uuids, ds: seq<Delta>, log: seq<Event>, d: Delta)
    requires Explained(st, ds, log) && Proper(d)
    ensures Explained(Stepper(uuids)(st, d).0, ds + [d], log + Stepper(uuids)(st, d).1)
  {
    var ids :| Consistent(st, ds, log, ids);
    StepConsistent(st, uuids, ds, log, ids, d);
  }

  ghost function Invariant(): (State, seq<Delta>, seq<Event>) -> bool {
    (st: State, ds: seq<Delta>, log: seq<Event>) => Explained(st, ds, log)
  }

  /** The invariant holds after any deltas. */
  lemma RunExplained(st: State, uuids: Uuids, log: seq<Event>, ds: seq<Delta>)
    requires Explained(st, [], log)
    requires forall d <- ds :: Proper(d)
    ensures Explained(Run(Stepper(uuids), st, ds).0, ds, log + Run(Stepper(uuids), st, ds).1)
  {
    var inv, step := Invariant(), Stepper(uuids);
    forall s, before, sofar, d | inv(s, before, sofar) && d in ds
      ensures inv(step(s, d).0, before + [d], sofar + step(s, d).1)
    {
      StepExplained(s, uuids, before, sofar, d);
    }
    RunKeeps(step, inv, st, log, ds);
    assert inv(Run(step, st, ds).0, ds, log + Run(step, st, ds).1);
  }

  /** What every step keeps, a run keeps. */
  lemma {:induction false} RunKeeps<S(!new), D(!new), E(!new)>(
    step: (S, D) -> (S, seq<E>), inv: (S, seq<D>, seq<E>) -> bool, st: S, log: seq<E>, ds: seq<D>)
    requires inv(st, [], log)
    requires forall s, before, sofar, d :: inv(s, before, sofar) && d in ds ==>
               inv(step(s, d).0, before + [d], sofar + step(s, d).1)
    ensures inv(Run(step, st, ds).0, ds, log + Run(step, st, ds).1)
    decreases |ds|
  {
    if ds == [] {
      assert log + [] == log;
    } else {
      var init, d := ds[..|ds| - 1], ds[|ds| - 1];
      RunKeeps(step, inv, st, log, init);
      var (mid, events) := Run(step, st, init);
      assert init + [d] == ds;
      assert log + (events + step(mid, d).1) == log + events + step(mid, d).1;
    }
  }

  // ----- The end of a run ----------------------------------------------------

  ghost function ClosedCalls(keys: seq<nat>): set<Slot> {
    set k <- keys :: CallSlot(k)
  }

  lemma ClosingOneTool(st: State, ds: seq<Delta>, ids: map<Slot, string>, log: seq<Event>, closed: set<Slot>, key: nat)
    requires TracksState(st, ds, ids) && Logged(log, ds, ids, closed)
    requires key in st.tools && CallSlot(key) !in closed
    ensures Logged(log + Stamp(|log|, CloseTool(st.tools[key])), ds, ids, closed + {CallSlot(key)})
  {
    var tool := st.tools[key];
    assert TracksTool(key, tool, ds, ids);
    BodiesOfStamp(|log|, CloseTool(tool));
    LogClose(log, ds, ids, closed, tool.outputIndex, Stamp(|log|, CloseTool(tool)));
  }

  lemma ClosedCallsSnoc(closed: set<Slot>, keys: seq<nat>)
    requires keys != []
    ensures var n := |keys| - 1;
            closed + ClosedCalls(keys[..n]) + {CallSlot(keys[n])} == closed + ClosedCalls(keys)
  {
    assert keys == keys[..|keys| - 1] + [keys[|keys| - 1]];
  }

  /** Closing tools one after the other, for any property that closing one of them keeps. */
  lemma {:induction false} CloseToolsKeeps(inv: (seq<Event>, set<Slot>) -> bool, items: seq<ToolItem>, keys: seq<nat>,
                                           log: seq<Event>, closed: set<Slot>)
    requires |items| == |keys| && inv(log, closed)
    requires forall i, j :: 0 <= i < j < |keys| ==> keys[i] < keys[j]
    requires forall k <- keys :: CallSlot(k) !in closed
    requires forall l, c, i :: 0 <= i < |keys| && inv(l, c) && CallSlot(keys[i]) !in c ==>
               inv(l + Stamp(|l|, CloseTool(items[i])), c + {CallSlot(keys[i])})
    ensures inv(log + Stamp(|log|, CloseTools(items)), closed + ClosedCalls(keys))
    decreases |items|
  {
    if items == [] {
      assert log + Stamp(|log|, []) == log;
      assert closed + ClosedCalls([]) == closed;
    } else {
      var n := |items| - 1;
      CloseToolsKeeps(inv, items[..n], keys[..n], log, closed);
      var before, last := CloseTools(items[..n]), CloseTool(items[n]);
      StampTwice(log, before, last);
      ClosedCallsSnoc(closed, keys);
      assert CallSlot(keys[n]) !in closed + ClosedCalls(keys[..n]);
    }
  }

  lemma ClosingTools(st: State, ds: seq<Delta>, ids: map<Slot, string>, log: seq<Event>, closed: set<Slot>)
    requires TracksState(st, ds, ids) && Logged(log, ds, ids, closed)
    requires closed <= {TextSlot}
    ensures Logged(log + Stamp(|log|, CloseTools(InKeyOrder(st.tools))), ds, ids,
                   closed + ClosedCalls(SortedKeys(st.tools.Keys)))
  {
    var keys, items := SortedKeys(st.tools.Keys), InKeyOrder(st.tools);
    var inv := (l: seq<Event>, c: set<Slot>) => Logged(l, ds, ids, c);
    forall l, c, i | 0 <= i < |keys| && inv(l, c) && CallSlot(keys[i]) !in c
      ensures inv(l + Stamp(|l|, CloseTool(items[i])), c + {CallSlot(keys[i])})
    {
      assert keys[i] in keys;
      ClosingOneTool(st, ds, ids, l, c, keys[i]);
    }
    SortedKeysIncreasing(st.tools.Keys);
    CloseToolsKeeps(inv, items, keys, log, closed);
    assert inv(log + Stamp(|log|, CloseTools(items)), closed + ClosedCalls(keys));
  }

  ghost function ClosedText(text: Option<TextItem>): set<Slot> {
    if text.Some? then {TextSlot} else {}
  }

  lemma ClosingText(st: State, ds: seq<Delta>, ids: map<Slot, string>, log: seq<Event>)
    requires TracksState(st, ds, ids) && Logged(log, ds, ids, {})
    ensures Logged(log + Stamp(|log|, CloseText(st.text)), ds, ids, ClosedText(st.text))
  {
    var early := Stamp(|log|, CloseText(st.text));
    if st.text.Some? {
      BodiesOfStamp(|log|, CloseText(st.text));
      LogClose(log, ds, ids, {}, st.text.value.outputIndex, early);
      assert {} + {TextSlot} == ClosedText(st.text);
    } else {
      assert log + early == log;
    }
  }

  lemma StampTwice(log: seq<Event>, a: seq<Body>, b: seq<Body>)
    ensures var mid := log + Stamp(|log|, a);
            mid + Stamp(|mid|, b) == log + Stamp(|log|, a + b)
  {
  }

  /** The closing events close every item. */
  lemma ClosingLogged(st: State, ds: seq<Delta>, ids: map<Slot, string>, log: seq<Event>)
    requires TracksState(st, ds, ids) && Logged(log, ds, ids, {})
    ensures Logged(log + Stamp(|log|, ClosingBodies(st)), ds, ids, set s <- Slots(ds))
  {
    ClosingText(st, ds, ids, log);
    ClosingTools(st, ds, ids, log + Stamp(|log|, CloseText(st.text)), ClosedText(st.text));
    StampTwice(log, CloseText(st.text), CloseTools(InKeyOrder(st.tools)));
    AllClosed(st, ds, ids);
  }

  lemma AllClosed(st: State, ds: seq<Delta>, ids: map<Slot, string>)
    requires TracksState(st, ds, ids)
    ensures ClosedText(st.text) + ClosedCalls(SortedKeys(st.tools.Keys)) == set s <- Slots(ds)
  {
    var all := ClosedText(st.text) + ClosedCalls(SortedKeys(st.tools.Keys));
    forall s: Slot
      ensures s in all <==> s in Slots(ds)
    {
      if s.CallSlot? {
        assert s.key in st.tools.Keys <==> s in Slots(ds);
      }
    }
  }

  // ----- Sorting by output index ---------------------------------------------

  ghost predicate StrictlySorted(items: seq<(nat, Output)>) {
    forall i, j :: 0 <= i < j < |items| ==> items[i].0 < items[j].0
  }

  lemma SortedByIndex(items: seq<(nat, Output)>)
    requires forall i, j :: 0 <= i < j < |items| ==> items[i].0 != items[j].0
    ensures StrictlySorted(SortByIndex(items))
    ensures forall p :: p in SortByIndex(items) <==> p in items
  {
    Sorting.SortSorts(IndexOf(), items);
    Sorting.SortStrict(IndexOf(), items);
  }

  /** Each index below `|target|` occurs once, with the item the target has there. */
  ghost predicate Covers(items: seq<(nat, Output)>, target: seq<Output>) {
    && (forall i, j :: 0 <= i < j < |items| ==> items[i].0 != items[j].0)
    && (forall p <- items :: p.0 < |target| && p.1 == target[p.0])
    && forall k :: 0 <= k < |target| ==> (k, target[k]) in items
  }

  lemma {:induction false} SortedIndexAtLeast(sorted: seq<(nat, Output)>, i: nat)
    requires StrictlySorted(sorted) && i < |sorted|
    ensures i <= sorted[i].0
  {
    if i == 0 {
    } else {
      SortedIndexAtLeast(sorted, i - 1);
    }
  }

  lemma {:induction false} StrictlySortedIndices(sorted: seq<(nat, Output)>, target: seq<Output>, n: nat)
    requires StrictlySorted(sorted) && n <= |target|
    requires forall k :: 0 <= k < |target| ==> (k, target[k]) in sorted
    ensures n <= |sorted| && forall k :: 0 <= k < n ==> sorted[k].0 == k
  {
    if n == 0 {
    } else {
      StrictlySortedIndices(sorted, target, n - 1);
      assert (n - 1, target[n - 1]) in sorted;
      var i :| 0 <= i < |sorted| && sorted[i] == (n - 1, target[n - 1]);
      SortedIndexAtLeast(sorted, i);
    }
  }

  /** Sorting an indexed list that covers a target yields the target. */
  lemma SortYieldsTarget(items: seq<(nat, Output)>, target: seq<Output>)
    requires Covers(items, target)
    ensures Values(SortByIndex(items)) == target
  {
    var sorted := SortByIndex(items);
    SortedByIndex(items);
    StrictlySortedIndices(sorted, target, |target|);
    if sorted != [] {
      assert sorted[|sorted| - 1] in items;
      SortedIndexAtLeast(sorted, |sorted| - 1);
    }
    forall k | 0 <= k < |target|
      ensures sorted[k].1 == target[k]
    {
      assert sorted[k] in items;
    }
  }

  lemma ToolAt(st: State, ds: seq<Delta>, ids: map<Slot, string>, i: nat)
    requires TracksState(st, ds, ids)
    requires i < |InKeyOrder(st.tools)|
    ensures TracksTool(SortedKeys(st.tools.Keys)[i], InKeyOrder(st.tools)[i], ds, ids)
  {
    var keys := SortedKeys(st.tools.Keys);
    assert keys[i] in keys;
    assert keys[i] in st.tools.Keys;
  }

  /** The slot whose finished item is the i-th of the indexed output. */
  ghost function SlotAt(st: State, i: nat): Slot
    requires i < |IndexedOutput(st)|
  {
    var n := |TextOutput(st.text)|;
    if i < n then TextSlot else CallSlot(SortedKeys(st.tools.Keys)[i - n])
  }

  lemma IndexedAt(st: State, ds: seq<Delta>, ids: map<Slot, string>, i: nat)
    requires TracksState(st, ds, ids) && (forall s <- Slots(ds) :: s in ids)
    requires i < |IndexedOutput(st)|
    ensures var (k, item) := IndexedOutput(st)[i];
            k < |Slots(ds)| && Slots(ds)[k] == SlotAt(st, i) && item == FinalOutput(ds, ids)[k]
  {
    var n := |TextOutput(st.text)|;
    if i < n {
      TextIndexedAt(st, ds, ids);
    } else {
      ToolIndexedAt(st, ds, ids, i);
    }
  }

  lemma TextIndexedAt(st: State, ds: seq<Delta>, ids: map<Slot, string>)
    requires TracksState(st, ds, ids) && (forall s <- Slots(ds) :: s in ids) && st.text.Some?
    ensures IndexedOutput(st) != []
    ensures var (k, item) := IndexedOutput(st)[0];
            k < |Slots(ds)| && Slots(ds)[k] == TextSlot && item == FinalOutput(ds, ids)[k]
  {
  }

  lemma IndexedTool(st: State, i: nat)
    requires |TextOutput(st.text)| <= i < |IndexedOutput(st)|
    ensures var j := i - |TextOutput(st.text)|;
            && j < |InKeyOrder(st.tools)|
            && IndexedOutput(st)[i] == (InKeyOrder(st.tools)[j].outputIndex, CallOutput(InKeyOrder(st.tools)[j]))
            && SlotAt(st, i) == CallSlot(SortedKeys(st.tools.Keys)[j])
  {
  }

  lemma TrackedOutput(key: nat, tool: ToolItem, ds: seq<Delta>, ids: map<Slot, string>)
    requires TracksTool(key, tool, ds, ids) && (forall s <- Slots(ds) :: s in ids)
    ensures tool.outputIndex < |Slots(ds)| && Slots(ds)[tool.outputIndex] == CallSlot(key)
    ensures CallOutput(tool) == FinalOutput(ds, ids)[tool.outputIndex]
  {
  }

  lemma ToolIndexedAt(st: State, ds: seq<Delta>, ids: map<Slot, string>, i: nat)
    requires TracksState(st, ds, ids) && (forall s <- Slots(ds) :: s in ids)
    requires |TextOutput(st.text)| <= i < |IndexedOutput(st)|
    ensures var (k, item) := IndexedOutput(st)[i];
            k < |Slots(ds)| && Slots(ds)[k] == SlotAt(st, i) && item == FinalOutput(ds, ids)[k]
  {
    var j := i - |TextOutput(st.text)|;
    IndexedTool(st, i);
    ToolAt(st, ds, ids, j);
    TrackedOutput(SortedKeys(st.tools.Keys)[j], InKeyOrder(st.tools)[j], ds, ids);
  }

  lemma KeyPosition(st: State, key: nat) returns (i: nat)
    requires key in st.tools
    ensures i < |IndexedOutput(st)| && SlotAt(st, i) == CallSlot(key)
  {
    var keys := SortedKeys(st.tools.Keys);
    assert key in keys;
    var j :| 0 <= j < |keys| && keys[j] == key;
    i := |TextOutput(st.text)| + j;
  }

  lemma IndexOfSlot(st: State, ds: seq<Delta>, ids: map<Slot, string>, slot: Slot) returns (i: nat)
    requires TracksState(st, ds, ids) && slot in Slots(ds)
    ensures i < |IndexedOutput(st)| && SlotAt(st, i) == slot
  {
    if slot.TextSlot? {
      i := 0;
    } else {
      i := KeyPosition(st, slot.key);
    }
  }

  /** Different positions of the indexed output are for different slots. */
  lemma SlotsAtDiffer(st: State, i: nat, j: nat)
    requires i < j < |IndexedOutput(st)|
    ensures SlotAt(st, i) != SlotAt(st, j)
  {
    SortedKeysIncreasing(st.tools.Keys);
  }

  lemma IndicesDiffer(st: State, ds: seq<Delta>, ids: map<Slot, string>, i: nat, j: nat)
    requires TracksState(st, ds, ids) && (forall s <- Slots(ds) :: s in ids)
    requires i < j < |IndexedOutput(st)|
    ensures IndexedOutput(st)[i].0 != IndexedOutput(st)[j].0
  {
    IndexedAt(st, ds, ids, i);
    IndexedAt(st, ds, ids, j);
    SlotsAtDiffer(st, i, j);
  }

  lemma IndexedHas(st: State, ds: seq<Delta>, ids: map<Slot, string>, k: nat)
    requires TracksState(st, ds, ids) && (forall s <- Slots(ds) :: s in ids) && k < |Slots(ds)|
    ensures (k, FinalOutput(ds, ids)[k]) in IndexedOutput(st)
  {
    var i := IndexOfSlot(st, ds, ids, Slots(ds)[k]);
    IndexedAt(st, ds, ids, i);
    var (at, item) := IndexedOutput(st)[i];
    SlotPosition(ds, k, at);
    assert IndexedOutput(st)[i] == (at, item);
  }

  lemma SlotPosition(ds: seq<Delta>, j: nat, k: nat)
    requires j < |Slots(ds)| && k < |Slots(ds)| && Slots(ds)[j] == Slots(ds)[k]
    ensures j == k
  {
    SlotsDistinct(ds);
  }

  lemma IndexedCovers(st: State, ds: seq<Delta>, ids: map<Slot, string>)
    requires TracksState(st, ds, ids) && (forall s <- Slots(ds) :: s in ids)
    ensures Covers(IndexedOutput(st), FinalOutput(ds, ids))
  {
    var items, target := IndexedOutput(st), FinalOutput(ds, ids);
    forall i, j | 0 <= i < j < |items|
      ensures items[i].0 != items[j].0
    {
      IndicesDiffer(st, ds, ids, i, j);
    }
    forall p <- items
      ensures p.0 < |target| && p.1 == target[p.0]
    {
      var i :| 0 <= i < |items| && items[i] == p;
      IndexedAt(st, ds, ids, i);
    }
    forall k | 0 <= k < |target|
      ensures (k, target[k]) in items
    {
      IndexedHas(st, ds, ids, k);
    }
  }

  // ----- Whole runs ----------------------------------------------------------

  lemma {:induction false} DeltasAreProper(chunks: seq<Chunk>)
    ensures forall d <- AllDeltas(chunks) :: Proper(d)
  {
    if chunks == [] {
    } else {
      DeltasAreProper(chunks[..|chunks| - 1]);
      ChoicesAreProper(chunks[|chunks| - 1].choices);
    }
  }

  lemma {:induction false} ChoicesAreProper(choices: seq<Choice>)
    ensures forall d <- ChoicesDeltas(choices) :: Proper(d)
  {
    if choices == [] {
    } else {
      ChoicesAreProper(choices[..|choices| - 1]);
    }
  }

  lemma MalformedState(st: State, ds: seq<Delta>, ids: map<Slot, string>)
    requires TracksState(st, ds, ids)
    ensures SomeMalformed(InKeyOrder(st.tools)) <==> exists key :: CallSlot(key) in Slots(ds) && MalformedCall(ds, key)
  {
    var keys, items := SortedKeys(st.tools.Keys), InKeyOrder(st.tools);
    if SomeMalformed(items) {
      var t :| t in items && Malformed(t);
      var i :| 0 <= i < |items| && items[i] == t;
      assert keys[i] in keys && TracksTool(keys[i], t, ds, ids);
    }
    if key :| CallSlot(key) in Slots(ds) && MalformedCall(ds, key) {
      assert key in st.tools.Keys && key in keys;
      var i :| 0 <= i < |keys| && keys[i] == key;
      assert TracksTool(key, items[i], ds, ids) && items[i] in items;
    }
  }

  lemma CompletedTranscript(log: seq<Event>, st: State, ds: seq<Delta>, ids: map<Slot, string>,
                            started: Response, completed: Response)
    requires Consistent(st, ds, log, ids)
    requires |log| >= 2 && log[0].body == Created(started) && log[1].body == InProgress(started)
    requires forall i :: 2 <= i < |log| ==> AboutItem(log[i].body)
    requires completed == started.(output := Values(SortByIndex(IndexedOutput(st))),
                                   status := CompletedStatus, usage := completed.usage)
    ensures Transcript(log + ClosingEvents(st, completed), ds, ids, started, completed.usage)
  {
    var closing, end := ClosingBodies(st), Completed(completed);
    var whole := log + Stamp(|log|, closing);
    StampTwice(log, closing, [end]);
    NumberedStamp(log, closing + [end]);
    ClosingLogged(st, ds, ids, log);
    LogEnd(whole, ds, ids, (set s <- Slots(ds)), Stamp(|whole|, [end]));
    CompletedOutput(st, ds, log, ids);
    MiddleIsAboutItems(log, st);
    assert whole + Stamp(|whole|, [end]) == log + ClosingEvents(st, completed);
  }

  lemma CompletedOutput(st: State, ds: seq<Delta>, log: seq<Event>, ids: map<Slot, string>)
    requires Consistent(st, ds, log, ids)
    ensures Values(SortByIndex(IndexedOutput(st))) == FinalOutput(ds, ids)
  {
    IndexedCovers(st, ds, ids);
    SortYieldsTarget(IndexedOutput(st), FinalOutput(ds, ids));
  }

  lemma MiddleIsAboutItems(log: seq<Event>, st: State)
    requires |log| >= 2 && forall i :: 2 <= i < |log| ==> AboutItem(log[i].body)
    ensures var whole := log + Stamp(|log|, ClosingBodies(st));
            forall i :: 2 <= i < |whole| ==> AboutItem(whole[i].body)
  {
    var closing := ClosingBodies(st);
    ClosingIsAboutItems(st);
    forall i | 0 <= i < |closing|
      ensures (log + Stamp(|log|, closing))[|log| + i].body == closing[i]
    {
    }
  }

  /** An event about no item leaves every item's life as it is. */
  lemma LogEnd(log: seq<Event>, ds: seq<Delta>, ids: map<Slot, string>, closed: set<Slot>, last: seq<Event>)
    requires Logged(log, ds, ids, closed)
    requires |last| == 1 && !AboutItem(last[0].body)
    ensures Logged(log + last, ds, ids, closed)
  {
    forall k | 0 <= k < |Slots(ds)|
      ensures About(log + last, k) == About(log, k)
    {
      assert (log + last)[..|log|] == log;
    }
  }

  lemma {:induction false} ToolsAreAboutItems(items: seq<ToolItem>)
    ensures forall b <- CloseTools(items) :: AboutItem(b)
  {
    if items == [] {
    } else {
      ToolsAreAboutItems(items[..|items| - 1]);
    }
  }

  lemma ClosingIsAboutItems(st: State)
    ensures forall i :: 0 <= i < |ClosingBodies(st)| ==> AboutItem(ClosingBodies(st)[i])
  {
    ToolsAreAboutItems(InKeyOrder(st.tools));
  }

  function FinalUsage(chunks: seq<Chunk>): ResponseUsage {
    if chunks == [] then NO_USAGE else UsageAfter(FinalUsage(chunks[..|chunks| - 1]), chunks[|chunks| - 1])
  }

  lemma {:induction false} RunIsAboutItems(st: State, uuids: Uuids, ds: seq<Delta>)
    ensures forall i :: 0 <= i < |Run(Stepper(uuids), st, ds).1| ==> AboutItem(Run(Stepper(uuids), st, ds).1[i].body)
  {
    if ds == [] {
    } else {
      RunIsAboutItems(st, uuids, ds[..|ds| - 1]);
    }
  }

  /** Chunk `i` is the last to report a usage, and this is that one, field by field. */
  ghost predicate IsLastUsage(chunks: seq<Chunk>, i: nat, usage: ResponseUsage) {
    && i < |chunks| && chunks[i].usage.Some?
    && (forall j :: i < j < |chunks| ==> chunks[j].usage.None?)
    && usage.inputTokens == chunks[i].usage.value.promptTokens
    && usage.outputTokens == chunks[i].usage.value.completionTokens
    && usage.totalTokens == chunks[i].usage.value.totalTokens
  }

  ghost predicate NoUsage(chunks: seq<Chunk>) {
    forall i :: 0 <= i < |chunks| ==> chunks[i].usage.None?
  }

  lemma LastUsageSnoc(init: seq<Chunk>, last: Chunk, i: nat, usage: ResponseUsage)
    requires IsLastUsage(init, i, usage) && last.usage.None?
    ensures IsLastUsage(init + [last], i, usage)
  {
  }

  ghost predicate UsageIs(chunks: seq<Chunk>, usage: ResponseUsage) {
    || (exists i :: IsLastUsage(chunks, i, usage))
    || (NoUsage(chunks) && usage == ResponseUsage(0, 0, 0))
  }

  lemma UsageSnoc(init: seq<Chunk>, last: Chunk, usage: ResponseUsage)
    requires UsageIs(init, usage)
    ensures UsageIs(init + [last], UsageAfter(usage, last))
  {
    if last.usage.Some? {
      assert IsLastUsage(init + [last], |init|, UsageAfter(usage, last));
    } else if i: nat :| IsLastUsage(init, i, usage) {
      LastUsageSnoc(init, last, i, usage);
    } else {
      assert NoUsage(init + [last]);
    }
  }

  /** The last usage any chunk reports, or zeros. */
  lemma {:induction false} FinalUsageIs(chunks: seq<Chunk>)
    ensures UsageIs(chunks, FinalUsage(chunks))
  {
    if chunks == [] {
    } else {
      var init, last := chunks[..|chunks| - 1], chunks[|chunks| - 1];
      FinalUsageIs(init);
      UsageSnoc(init, last, FinalUsage(init));
      assert chunks == init + [last];
    }
  }

  // ----- Generated ids -------------------------------------------------------

  /** The id of the item at index `k`: a prefix by kind and the k-th draw. */
  function GeneratedId(uuids: Uuids, slot: Slot, k: nat): string {
    (if slot.TextSlot? then "msg_" else "fc_") + uuids(k)
  }

  ghost predicate DrawnByIndex(st: State, uuids: Uuids) {
    && st.drawn == st.nextOutputIndex
    && (st.text.Some? ==> st.text.value.id == GeneratedId(uuids, TextSlot, st.text.value.outputIndex))
    && forall key <- st.tools :: st.tools[key].id == GeneratedId(uuids, CallSlot(key), st.tools[key].outputIndex)
  }

  lemma {:induction false} RunDrawsByIndex(st: State, uuids: Uuids, ds: seq<Delta>)
    requires DrawnByIndex(st, uuids)
    ensures DrawnByIndex(Run(Stepper(uuids), st, ds).0, uuids)
  {
    if ds == [] {
    } else {
      RunDrawsByIndex(st, uuids, ds[..|ds| - 1]);
      StepDrawsByIndex(Run(Stepper(uuids), st, ds[..|ds| - 1]).0, uuids, ds[|ds| - 1]);
    }
  }

  lemma StepDrawsByIndex(st: State, uuids: Uuids, d: Delta)
    requires DrawnByIndex(st, uuids)
    ensures DrawnByIndex(Step(st, uuids, d).0, uuids)
  {
  }

  ghost predicate IdsByIndex(uuids: Uuids, ds: seq<Delta>, ids: map<Slot, string>) {
    forall k :: 0 <= k < |Slots(ds)| ==> Slots(ds)[k] in ids && ids[Slots(ds)[k]] == GeneratedId(uuids, Slots(ds)[k], k)
  }

  lemma TrackedIds(st: State, uuids: Uuids, ds: seq<Delta>, ids: map<Slot, string>)
    requires TracksState(st, ds, ids) && DrawnByIndex(st, uuids)
    ensures IdsByIndex(uuids, ds, ids)
  {
    forall k | 0 <= k < |Slots(ds)|
      ensures Slots(ds)[k] in ids && ids[Slots(ds)[k]] == GeneratedId(uuids, Slots(ds)[k], k)
    {
      TrackedId(st, uuids, ds, ids, k);
    }
  }

  lemma TrackedId(st: State, uuids: Uuids, ds: seq<Delta>, ids: map<Slot, string>, k: nat)
    requires TracksState(st, ds, ids) && DrawnByIndex(st, uuids) && k < |Slots(ds)|
    ensures Slots(ds)[k] in ids && ids[Slots(ds)[k]] == GeneratedId(uuids, Slots(ds)[k], k)
  {
    match Slots(ds)[k]
    case TextSlot =>
      SlotPosition(ds, k, st.text.value.outputIndex);
    case CallSlot(key) =>
      assert TracksTool(key, st.tools[key], ds, ids);
      SlotPosition(ds, k, st.tools[key].outputIndex);
  }

  // ----- The output, read off the chunks -------------------------------------

  /** The item says what the chunks say for its slot. */
  ghost predicate Says(chunks: seq<Chunk>, slot: Slot, o: Output) {
    match slot
    case TextSlot => o.Message? && o.text == ChunksText(chunks)
    case CallSlot(key) =>
      && o.FunctionCall?
      && IsLastNonempty(ChunksIds(chunks, key), o.callId)
      && IsLastNonempty(ChunksNames(chunks, key), o.name)
      && o.arguments == ChunksArguments(chunks, key)
  }

  /** A message if there is any text, and a function call for every key the chunks have. */
  predicate InChunks(chunks: seq<Chunk>, slot: Slot) {
    match slot
    case TextSlot => ChunksText(chunks) != ""
    case CallSlot(key) => ChunksIds(chunks, key) != []
  }

  /** The output lists these slots, each once, each said by the chunks, under generated ids. */
  ghost predicate Lists(chunks: seq<Chunk>, uuids: Uuids, slots: seq<Slot>, output: seq<Output>) {
    && |output| == |slots|
    && (forall i, j :: 0 <= i < j < |slots| ==> slots[i] != slots[j])
    && (forall s :: s in slots <==> InChunks(chunks, s))
    && forall k :: 0 <= k < |slots| ==>
         Says(chunks, slots[k], output[k]) && output[k].id == GeneratedId(uuids, slots[k], k)
  }

  /** The slots of the deltas are those of the chunks. */
  lemma SlotInChunks(chunks: seq<Chunk>, slot: Slot)
    ensures slot in Slots(AllDeltas(chunks)) <==> InChunks(chunks, slot)
  {
    match slot
    case TextSlot =>
      DeltasAreProper(chunks);
      TextAppears(AllDeltas(chunks));
      ConcatNonempty(AllDeltas(chunks), TextSlot);
      TextOfChunks(chunks);
    case CallSlot(key) => CallOfChunks(chunks, key);
  }

  lemma ItemSays(chunks: seq<Chunk>, slot: Slot, id: string)
    ensures Says(chunks, slot, Item(id, slot, AllDeltas(chunks))) && Item(id, slot, AllDeltas(chunks)).id == id
  {
    match slot
    case TextSlot => TextOfChunks(chunks);
    case CallSlot(key) => CallOfChunks(chunks, key);
  }

  /** The completed output lists what the chunks say, in order of first appearance. */
  lemma OutputListsChunks(chunks: seq<Chunk>, uuids: Uuids, ids: map<Slot, string>)
    requires IdsByIndex(uuids, AllDeltas(chunks), ids)
    requires forall s <- Slots(AllDeltas(chunks)) :: s in ids
    ensures Lists(chunks, uuids, Slots(AllDeltas(chunks)), FinalOutput(AllDeltas(chunks), ids))
  {
    var ds := AllDeltas(chunks);
    var slots, output := Slots(ds), FinalOutput(ds, ids);
    SlotsDistinct(ds);
    forall s: Slot
      ensures s in slots <==> InChunks(chunks, s)
    {
      SlotInChunks(chunks, s);
    }
    forall k | 0 <= k < |slots|
      ensures Says(chunks, slots[k], output[k]) && output[k].id == GeneratedId(uuids, slots[k], k)
    {
      ItemSays(chunks, slots[k], ids[slots[k]]);
    }
  }

  /** The tool call with the key ends with this id and name, one of them white space only. */
  ghost predicate EndsBlank(chunks: seq<Chunk>, key: nat, id: string, name: string) {
    && ChunksIds(chunks, key) != []
    && IsLastNonempty(ChunksIds(chunks, key), id) && IsLastNonempty(ChunksNames(chunks, key), name)
    && (AllWhitespace(id) || AllWhitespace(name))
  }

  ghost predicate BlankCall(chunks: seq<Chunk>) {
    exists key, id, name :: EndsBlank(chunks, key, id, name)
  }

  lemma LastNonemptyUnique(values: seq<string>, a: string, b: string)
    requires IsLastNonempty(values, a) && IsLastNonempty(values, b)
    ensures a == b
  {
  }

  lemma MalformedIsBlank(chunks: seq<Chunk>, key: nat)
    requires CallSlot(key) in Slots(AllDeltas(chunks)) && MalformedCall(AllDeltas(chunks), key)
    ensures EndsBlank(chunks, key, LastId(AllDeltas(chunks), key), LastName(AllDeltas(chunks), key))
  {
    CallOfChunks(chunks, key);
    TrimmedAway(LastId(AllDeltas(chunks), key));
    TrimmedAway(LastName(AllDeltas(chunks), key));
  }

  lemma BlankIsMalformed(chunks: seq<Chunk>, key: nat, id: string, name: string)
    requires EndsBlank(chunks, key, id, name)
    ensures CallSlot(key) in Slots(AllDeltas(chunks)) && MalformedCall(AllDeltas(chunks), key)
  {
    CallOfChunks(chunks, key);
    LastNonemptyUnique(ChunksIds(chunks, key), id, LastId(AllDeltas(chunks), key));
    LastNonemptyUnique(ChunksNames(chunks, key), name, LastName(AllDeltas(chunks), key));
    TrimmedAway(id);
    TrimmedAway(name);
  }

  /** Whether a call is malformed can be read off the chunks. */
  lemma MalformedMeansBlank(chunks: seq<Chunk>)
    ensures (exists key :: CallSlot(key) in Slots(AllDeltas(chunks)) && MalformedCall(AllDeltas(chunks), key))
            <==> BlankCall(chunks)
  {
    if key :| CallSlot(key) in Slots(AllDeltas(chunks)) && MalformedCall(AllDeltas(chunks), key) {
      MalformedIsBlank(chunks, key);
    }
    if BlankCall(chunks) {
      var key, id, name :| EndsBlank(chunks, key, id, name);
      BlankIsMalformed(chunks, key, id, name);
    }
  }

  /** The whole life of the message, event by event. */
  lemma MessageLife(log: seq<Event>, chunks: seq<Chunk>, ids: map<Slot, string>, started: Response,
                    usage: ResponseUsage, k: nat)
    requires Transcript(log, AllDeltas(chunks), ids, started, usage)
    requires k < |Slots(AllDeltas(chunks))| && Slots(AllDeltas(chunks))[k] == TextSlot
    ensures var id, pieces, text := ids[TextSlot], FromChunks(chunks, NonemptyContent()), ChunksText(chunks);
            About(log, k)
            == [MessageAdded(k, id), PartAdded(k, id)]
               + seq(|pieces|, i requires 0 <= i < |pieces| => OutputTextDelta(k, id, pieces[i]))
               + [OutputTextDone(k, id, text), PartDone(k, id, text), ItemDone(k, Message(id, text))]
  {
    var ds, id := AllDeltas(chunks), ids[TextSlot];
    TextOfChunks(chunks);
    assert About(log, k) == Life(k, id, TextSlot, ds, set s <- Slots(ds));
    assert First(ds, TextSlot).TextDelta?;
    var pieces := FromChunks(chunks, NonemptyContent());
    assert DeltaBodies(k, id, TextSlot, pieces)
        == seq(|pieces|, i requires 0 <= i < |pieces| => OutputTextDelta(k, id, pieces[i]));
  }

  /** The whole life of a function call, event by event. */
  lemma CallLife(log: seq<Event>, chunks: seq<Chunk>, ids: map<Slot, string>, started: Response,
                 usage: ResponseUsage, k: nat, key: nat)
    requires Transcript(log, AllDeltas(chunks), ids, started, usage)
    requires k < |Slots(AllDeltas(chunks))| && Slots(AllDeltas(chunks))[k] == CallSlot(key)
    ensures ChunksIds(chunks, key) != [] && ChunksNames(chunks, key) != []
    ensures var id, pieces := ids[CallSlot(key)], FromChunks(chunks, NonemptyArgumentsFor(key));
            var o := Item(id, CallSlot(key), AllDeltas(chunks));
            && Says(chunks, CallSlot(key), o)
            && About(log, k)
               == [CallAdded(k, id, ChunksIds(chunks, key)[0], ChunksNames(chunks, key)[0])]
                  + seq(|pieces|, i requires 0 <= i < |pieces| => ArgumentsDelta(k, id, pieces[i]))
                  + [ArgumentsDone(k, id, o.name, ChunksArguments(chunks, key)), ItemDone(k, o)]
  {
    var ds, id := AllDeltas(chunks), ids[CallSlot(key)];
    CallOfChunks(chunks, key);
    ItemSays(chunks, CallSlot(key), id);
    assert About(log, k) == Life(k, id, CallSlot(key), ds, set s <- Slots(ds));
    var pieces := FromChunks(chunks, NonemptyArgumentsFor(key));
    assert DeltaBodies(k, id, CallSlot(key), pieces)
        == seq(|pieces|, i requires 0 <= i < |pieces| => ArgumentsDelta(k, id, pieces[i]));
  }

  const BEGUN := INITIAL.(nextSequenceNumber := 2)

  function Opened(started: Response): seq<Event> {
    Stamp(0, [Created(started), InProgress(started)])
  }

  /** The state and the events before the finish. */
  function Before(uuids: Uuids, started: Response, ds: seq<Delta>): (State, seq<Event>) {
    var (st, events) := Run(Stepper(uuids), BEGUN, ds);
    (st, Opened(started) + events)
  }

  lemma BeforeAppend(uuids: Uuids, started: Response, a: seq<Delta>, b: seq<Delta>)
    ensures var (st, log) := Before(uuids, started, a);
            var (after, events) := Run(Stepper(uuids), st, b);
            Before(uuids, started, a + b) == (after, log + events)
  {
    RunAppend(Stepper(uuids), BEGUN, a, b);
    var (st, events) := Run(Stepper(uuids), BEGUN, a);
    var more := Run(Stepper(uuids), st, b).1;
    assert Opened(started) + (events + more) == Opened(started) + events + more;
  }

  lemma BeforeConsistent(uuids: Uuids, started: Response, chunks: seq<Chunk>) returns (ids: map<Slot, string>)
    ensures var (st, log) := Before(uuids, started, AllDeltas(chunks));
            && Consistent(st, AllDeltas(chunks), log, ids)
            && |log| >= 2 && log[0].body == Created(started) && log[1].body == InProgress(started)
            && forall i :: 2 <= i < |log| ==> AboutItem(log[i].body)
    ensures IdsByIndex(uuids, AllDeltas(chunks), ids)
  {
    var ds := AllDeltas(chunks);
    assert Consistent(BEGUN, [], Opened(started), map[]);
    DeltasAreProper(chunks);
    RunExplained(BEGUN, uuids, Opened(started), ds);
    RunIsAboutItems(BEGUN, uuids, ds);
    var (st, log) := Before(uuids, started, ds);
    ids :| Consistent(st, ds, log, ids);
    RunDrawsByIndex(BEGUN, uuids, ds);
    TrackedIds(st, uuids, ds, ids);
  }

  /** What is reported as completed. */
  function CompletedBy(started: Response, st: State, usage: ResponseUsage): Response {
    started.(output := Values(SortByIndex(IndexedOutput(st))), status := CompletedStatus, usage := usage)
  }

  /** Any start, any chunks and a finish: the error condition and the transcript. */
  lemma RunTranscript(uuids: Uuids, started: Response, chunks: seq<Chunk>) returns (ids: map<Slot, string>)
    ensures var ds := AllDeltas(chunks);
            var (st, log) := Before(uuids, started, ds);
            && (SomeMalformed(InKeyOrder(st.tools))
                <==> exists key :: CallSlot(key) in Slots(ds) && MalformedCall(ds, key))
            && Transcript(log + ClosingEvents(st, CompletedBy(started, st, FinalUsage(chunks))),
                          ds, ids, started, FinalUsage(chunks))
    ensures IdsByIndex(uuids, AllDeltas(chunks), ids)
  {
    ids := BeforeConsistent(uuids, started, chunks);
    var ds := AllDeltas(chunks);
    var (st, log) := Before(uuids, started, ds);
    MalformedState(st, ds, ids);
    CompletedTranscript(log, st, ds, ids, started, CompletedBy(started, st, FinalUsage(chunks)));
  }
}
