/**
  A whole streamed response (src/api/responses.rs): the order of all its events, and the
  imperative run from the start through any chunks to the finish.
 */
module ResponseServing {
  import opened Prelude
  import opened ChatTypes
  import opened DeltaFold
  import opened ResponseEvents
  import opened ResponseStream
  import opened ChunkFold
  import opened ResponseRuns
  import ResponseBatch

  // ----- The order of all events ---------------------------------------------

  function Position(slots: seq<Slot>, s: Slot): (k: nat)
    requires s in slots
    ensures k < |slots| && slots[k] == s
  {
    if slots[0] == s then 0 else 1 + Position(slots[1..], s)
  }

  /** What one delta adds to the stream, its item standing where its slot does. */
  function Arrival(uuids: Uuids, slots: seq<Slot>, ds: seq<Delta>, d: Delta): seq<Body>
    requires SlotOf(d) in slots
  {
    var k := Position(slots, SlotOf(d));
    StepBodies(k, GeneratedId(uuids, SlotOf(d), k), ds, d)
  }

  /** All deltas, each with its events, in the order they arrived. */
  function Arrivals(uuids: Uuids, slots: seq<Slot>, ds: seq<Delta>): seq<Body>
    requires forall d <- ds :: SlotOf(d) in slots
  {
    if ds == [] then []
    else
      Arrivals(uuids, slots, ds[..|ds| - 1]) + Arrival(uuids, slots, ds[..|ds| - 1], ds[|ds| - 1])
  }

  function ClosingOf(uuids: Uuids, slots: seq<Slot>, ds: seq<Delta>, s: Slot): seq<Body>
    requires s in slots
  {
    var k := Position(slots, s);
    Closing(k, GeneratedId(uuids, s, k), s, ds)
  }

  function EachClosing(uuids: Uuids, slots: seq<Slot>, ds: seq<Delta>, closing: seq<Slot>): seq<seq<Body>>
    requires forall s <- closing :: s in slots
  {
    seq(|closing|, i requires 0 <= i < |closing| => ClosingOf(uuids, slots, ds, closing[i]))
  }

  /** The closing events of some slots, one after the other. */
  function Closings(uuids: Uuids, slots: seq<Slot>, ds: seq<Delta>, closing: seq<Slot>): seq<Body>
    requires forall s <- closing :: s in slots
  {
    Flatten(EachClosing(uuids, slots, ds, closing))
  }

  /** Created and in progress; every delta as it arrived; the text closed, then the calls by key; completed. */
  ghost function WholeStream(uuids: Uuids, started: Response, chunks: seq<Chunk>): seq<Body> {
    var ds := AllDeltas(chunks);
    var slots := Slots(ds);
    SlotsAreThoseSeen(ds);
    ResponseBatch.MessageSlotsSorted(ds);
    [Created(started), InProgress(started)]
    + Arrivals(uuids, slots, ds)
    + Closings(uuids, slots, ds, ResponseBatch.MessageSlots(ds))
    + [Completed(started.(output := OutputOf(uuids, slots, ds), status := CompletedStatus,
                          usage := FinalUsage(chunks)))]
  }

  function OutputOf(uuids: Uuids, slots: seq<Slot>, ds: seq<Delta>): seq<Output> {
    seq(|slots|, k requires 0 <= k < |slots| => Item(GeneratedId(uuids, slots[k], k), slots[k], ds))
  }

  lemma PositionIs(slots: seq<Slot>, k: nat)
    requires k < |slots| && forall i, j :: 0 <= i < j < |slots| ==> slots[i] != slots[j]
    ensures Position(slots, slots[k]) == k
  {
    var p := Position(slots, slots[k]);
    assert slots[p] == slots[k];
  }

  ghost predicate Distinct(slots: seq<Slot>) {
    forall i, j :: 0 <= i < j < |slots| ==> slots[i] != slots[j]
  }

  /** The index and id a step uses are the position of its slot and the id of that position. */
  lemma StepPosition(st: State, uuids: Uuids, ds: seq<Delta>, ids: map<Slot, string>, d: Delta, slots: seq<Slot>)
    requires TracksState(st, ds, ids) && DrawnByIndex(st, uuids)
    requires Slots(ds + [d]) <= slots && Distinct(slots)
    ensures SlotOf(d) in slots && IndexFor(st, d) == Position(slots, SlotOf(d))
    ensures IdFor(st, uuids, d) == GeneratedId(uuids, SlotOf(d), IndexFor(st, d))
  {
    assert (ds + [d])[..|ds|] == ds;
    var after, k := Slots(ds + [d]), IndexFor(st, d);
    assert k < |after| && after[k] == SlotOf(d) by {
      if d.CallDelta? && d.key in st.tools {
        assert TracksTool(d.key, st.tools[d.key], ds, ids);
      }
    }
    assert slots[k] == after[k];
    PositionIs(slots, k);
    if d.CallDelta? && d.key in st.tools {
      assert st.tools[d.key].id == GeneratedId(uuids, CallSlot(d.key), st.tools[d.key].outputIndex);
    }
  }

  lemma BodiesAppend(a: seq<Event>, b: seq<Event>)
    ensures Bodies(a + b) == Bodies(a) + Bodies(b)
  {
  }

  /** A state some run led to. */
  ghost predicate Reached(st: State, uuids: Uuids, ds: seq<Delta>) {
    DrawnByIndex(st, uuids) && exists ids :: TracksState(st, ds, ids)
  }

  lemma RunReaches(uuids: Uuids, ds: seq<Delta>)
    requires forall d <- ds :: Proper(d)
    ensures Reached(Run(Stepper(uuids), BEGUN, ds).0, uuids, ds)
  {
    var log := Stamp(0, [Created(Response("", 0, "", [], InProgressStatus, NO_USAGE)),
                         InProgress(Response("", 0, "", [], InProgressStatus, NO_USAGE))]);
    assert Consistent(BEGUN, [], log, map[]);
    RunExplained(BEGUN, uuids, log, ds);
    RunDrawsByIndex(BEGUN, uuids, ds);
    var ids :| Consistent(Run(Stepper(uuids), BEGUN, ds).0, ds, log + Run(Stepper(uuids), BEGUN, ds).1, ids);
  }

  lemma StepInOrder(st: State, uuids: Uuids, ds: seq<Delta>, d: Delta, slots: seq<Slot>)
    requires Reached(st, uuids, ds) && Proper(d)
    requires Slots(ds + [d]) <= slots && Distinct(slots)
    ensures SlotOf(d) in slots && Bodies(Stepper(uuids)(st, d).1) == Arrival(uuids, slots, ds, d)
  {
    var ids :| TracksState(st, ds, ids);
    StepPosition(st, uuids, ds, ids, d, slots);
    StepWrites(st, uuids, ds, ids, d);
    BodiesOfStamp(st.nextSequenceNumber, Step(st, uuids, d).1);
  }

  /** A run emits the events of its deltas in order of arrival. */
  lemma {:induction false} RunInOrder(uuids: Uuids, ds: seq<Delta>, slots: seq<Slot>)
    requires (forall d <- ds :: Proper(d)) && Slots(ds) <= slots && Distinct(slots)
    ensures forall d <- ds :: SlotOf(d) in slots
    ensures Bodies(Run(Stepper(uuids), BEGUN, ds).1) == Arrivals(uuids, slots, ds)
  {
    if ds == [] {
    } else {
      var init, d := ds[..|ds| - 1], ds[|ds| - 1];
      assert ds == init + [d];
      assert Slots(init) <= Slots(ds);
      RunInOrder(uuids, init, slots);
      RunReaches(uuids, init);
      var (st, events) := Run(Stepper(uuids), BEGUN, init);
      StepInOrder(st, uuids, init, d, slots);
      BodiesAppend(events, Stepper(uuids)(st, d).1);
    }
  }

  // ----- The closing events --------------------------------------------------

  lemma CloseTextInOrder(st: State, uuids: Uuids, ds: seq<Delta>, ids: map<Slot, string>)
    requires TracksState(st, ds, ids) && DrawnByIndex(st, uuids) && st.text.Some?
    ensures TextSlot in Slots(ds)
    ensures CloseText(st.text) == ClosingOf(uuids, Slots(ds), ds, TextSlot)
  {
    SlotsDistinct(ds);
    PositionIs(Slots(ds), st.text.value.outputIndex);
  }

  lemma CloseToolInOrder(st: State, uuids: Uuids, ds: seq<Delta>, ids: map<Slot, string>, key: nat)
    requires TracksState(st, ds, ids) && DrawnByIndex(st, uuids) && key in st.tools
    ensures CallSlot(key) in Slots(ds)
    ensures CloseTool(st.tools[key]) == ClosingOf(uuids, Slots(ds), ds, CallSlot(key))
  {
    SlotsDistinct(ds);
    assert TracksTool(key, st.tools[key], ds, ids);
    PositionIs(Slots(ds), st.tools[key].outputIndex);
  }

  function CallSlots(keys: seq<nat>): seq<Slot> {
    seq(|keys|, i requires 0 <= i < |keys| => CallSlot(keys[i]))
  }

  function ItemsOf(tools: map<nat, ToolItem>, keys: seq<nat>): seq<ToolItem>
    requires forall key <- keys :: key in tools
  {
    seq(|keys|, i requires 0 <= i < |keys| => tools[keys[i]])
  }

  function EachTool(items: seq<ToolItem>): seq<seq<Body>> {
    seq(|items|, i requires 0 <= i < |items| => CloseTool(items[i]))
  }

  lemma {:induction false} CloseToolsFlat(items: seq<ToolItem>)
    ensures CloseTools(items) == Flatten(EachTool(items))
  {
    if items == [] {
    } else {
      var init := items[..|items| - 1];
      CloseToolsFlat(init);
      assert EachTool(items)[..|init|] == EachTool(init);
    }
  }

  lemma CloseToolsInOrder(st: State, uuids: Uuids, ds: seq<Delta>, ids: map<Slot, string>, keys: seq<nat>)
    requires TracksState(st, ds, ids) && DrawnByIndex(st, uuids) && forall key <- keys :: key in st.tools
    ensures forall s <- CallSlots(keys) :: s in Slots(ds)
    ensures CloseTools(ItemsOf(st.tools, keys)) == Closings(uuids, Slots(ds), ds, CallSlots(keys))
  {
    forall i | 0 <= i < |keys|
      ensures CallSlot(keys[i]) in Slots(ds)
      ensures CloseTool(st.tools[keys[i]]) == ClosingOf(uuids, Slots(ds), ds, CallSlot(keys[i]))
    {
      CloseToolInOrder(st, uuids, ds, ids, keys[i]);
    }
    CloseToolsFlat(ItemsOf(st.tools, keys));
    assert EachTool(ItemsOf(st.tools, keys)) == EachClosing(uuids, Slots(ds), ds, CallSlots(keys));
  }

  lemma ClosingsCons(uuids: Uuids, slots: seq<Slot>, ds: seq<Delta>, first: Slot, rest: seq<Slot>)
    requires first in slots && forall s <- rest :: s in slots
    ensures forall s <- [first] + rest :: s in slots
    ensures Closings(uuids, slots, ds, [first] + rest)
            == ClosingOf(uuids, slots, ds, first) + Closings(uuids, slots, ds, rest)
  {
    assert EachClosing(uuids, slots, ds, [first] + rest)
        == [ClosingOf(uuids, slots, ds, first)] + EachClosing(uuids, slots, ds, rest);
    FlattenCons(ClosingOf(uuids, slots, ds, first), EachClosing(uuids, slots, ds, rest));
  }

  lemma ToolsAreKeys(st: State, ds: seq<Delta>, ids: map<Slot, string>)
    requires TracksState(st, ds, ids)
    ensures st.tools.Keys == ResponseBatch.Keys(ds)
  {
    forall key: nat
      ensures key in st.tools.Keys <==> key in ResponseBatch.Keys(ds)
    {
      assert key in st.tools <==> CallSlot(key) in Slots(ds);
      if CallSlot(key) in Slots(ds) {
        assert CallSlot(key).key == key;
      }
    }
  }

  lemma MessageSlotsAre(st: State, ds: seq<Delta>, ids: map<Slot, string>)
    requires TracksState(st, ds, ids)
    ensures ResponseBatch.MessageSlots(ds)
            == (if st.text.Some? then [TextSlot] else []) + CallSlots(SortedKeys(st.tools.Keys))
  {
    ToolsAreKeys(st, ds, ids);
  }

  lemma ClosingTextFirst(st: State, uuids: Uuids, ds: seq<Delta>, ids: map<Slot, string>, keys: seq<nat>)
    requires TracksState(st, ds, ids) && DrawnByIndex(st, uuids) && forall key <- keys :: key in st.tools
    ensures var slots := (if st.text.Some? then [TextSlot] else []) + CallSlots(keys);
            && (forall s <- slots :: s in Slots(ds))
            && CloseText(st.text) + CloseTools(ItemsOf(st.tools, keys)) == Closings(uuids, Slots(ds), ds, slots)
  {
    CloseToolsInOrder(st, uuids, ds, ids, keys);
    if st.text.Some? {
      CloseTextInOrder(st, uuids, ds, ids);
      ClosingsCons(uuids, Slots(ds), ds, TextSlot, CallSlots(keys));
    } else {
      assert [] + CallSlots(keys) == CallSlots(keys);
    }
  }

  /** The closing events are those of the slots in message order. */
  lemma ClosingInOrder(st: State, uuids: Uuids, ds: seq<Delta>)
    requires Reached(st, uuids, ds)
    ensures forall s <- ResponseBatch.MessageSlots(ds) :: s in Slots(ds)
    ensures ClosingBodies(st) == Closings(uuids, Slots(ds), ds, ResponseBatch.MessageSlots(ds))
  {
    var ids :| TracksState(st, ds, ids);
    var keys := SortedKeys(st.tools.Keys);
    MessageSlotsAre(st, ds, ids);
    ClosingTextFirst(st, uuids, ds, ids, keys);
    assert InKeyOrder(st.tools) == ItemsOf(st.tools, keys);
  }

  lemma OutputByIds(uuids: Uuids, ds: seq<Delta>, ids: map<Slot, string>)
    requires IdsByIndex(uuids, ds, ids) && forall s <- Slots(ds) :: s in ids
    ensures FinalOutput(ds, ids) == OutputOf(uuids, Slots(ds), ds)
  {
  }

  lemma CompletedInOrder(uuids: Uuids, started: Response, chunks: seq<Chunk>)
    ensures var st := Before(uuids, started, AllDeltas(chunks)).0;
            Values(SortByIndex(IndexedOutput(st))) == OutputOf(uuids, Slots(AllDeltas(chunks)), AllDeltas(chunks))
  {
    var ds := AllDeltas(chunks);
    var ids := BeforeConsistent(uuids, started, chunks);
    var (st, log) := Before(uuids, started, ds);
    CompletedOutput(st, ds, log, ids);
    OutputByIds(uuids, ds, ids);
  }

  /** All events of a run from start to finish, in their order. */
  lemma RunInWholeOrder(uuids: Uuids, started: Response, chunks: seq<Chunk>)
    ensures var (st, log) := Before(uuids, started, AllDeltas(chunks));
            Bodies(log + ClosingEvents(st, CompletedBy(started, st, FinalUsage(chunks))))
            == WholeStream(uuids, started, chunks)
  {
    var ds := AllDeltas(chunks);
    var (st, log) := Before(uuids, started, ds);
    var events := Run(Stepper(uuids), BEGUN, ds).1;
    var completed := Completed(CompletedBy(started, st, FinalUsage(chunks)));
    DeltasAreProper(chunks);
    SlotsDistinct(ds);
    RunInOrder(uuids, ds, Slots(ds));
    RunReaches(uuids, ds);
    ClosingInOrder(st, uuids, ds);
    CompletedInOrder(uuids, started, chunks);
    BodiesOfStamp(0, [Created(started), InProgress(started)]);
    BodiesAppend(Opened(started), events);
    BodiesOfStamp(st.nextSequenceNumber, ClosingBodies(st) + [completed]);
    BodiesAppend(log, ClosingEvents(st, CompletedBy(started, st, FinalUsage(chunks))));
    Regroup(Bodies(Opened(started)), Bodies(events), ClosingBodies(st), [completed]);
  }

  lemma Regroup(a: seq<Body>, b: seq<Body>, c: seq<Body>, d: seq<Body>)
    ensures (a + b) + (c + d) == a + b + c + d
  {
  }

  // ----- The imperative run --------------------------------------------------

  /** `start_events`, then `apply_chunk` for every chunk. */
  method FeedChunks(stream: ResponseStreamState, chunks: seq<Chunk>, ghost started: Response) returns (log: seq<Event>)
    requires stream.View() == INITIAL && stream.usage == NO_USAGE
    requires started == stream.ResponseValue(InProgressStatus, [])
    modifies stream
    ensures (stream.View(), log) == Before(stream.uuids, started, AllDeltas(chunks))
    ensures stream.usage == FinalUsage(chunks)
  {
    log := stream.StartEvents();
    assert log == Before(stream.uuids, started, []).1;
    for i := 0 to |chunks|
      invariant stream.usage == FinalUsage(chunks[..i])
      invariant (stream.View(), log) == Before(stream.uuids, started, AllDeltas(chunks[..i]))
    {
      assert chunks[..i + 1][..i] == chunks[..i];
      BeforeAppend(stream.uuids, started, AllDeltas(chunks[..i]), ChoicesDeltas(chunks[i].choices));
      var events := stream.ApplyChunk(chunks[i]);
      log := log + events;
    }
    assert chunks[..|chunks|] == chunks;
  }

  /**
    A whole stream: `start_events`, then `apply_chunk` for every chunk, then
    `finish_events`. It fails exactly when some tool call ends with a blank id or name,
    and otherwise the events are a correct transcript of all deltas, in order of arrival,
    and the completed output lists what the chunks say.
   */
  method StreamResponse(responseId: string, model: string, createdAt: int, uuids: Uuids, chunks: seq<Chunk>)
    returns (r: Result<seq<Event>, StreamError>, ghost ids: map<Slot, string>)
    ensures var ds := AllDeltas(chunks);
            r.Err? <==> exists key :: CallSlot(key) in Slots(ds) && MalformedCall(ds, key)
    ensures r.Err? <==> BlankCall(chunks)
    ensures r.Ok? ==>
              Transcript(r.value, AllDeltas(chunks), ids,
                         Response(responseId, createdAt, model, [], InProgressStatus, NO_USAGE), FinalUsage(chunks))
    ensures r.Ok? ==>
              && r.value != [] && r.value[|r.value| - 1].body.Completed?
              && Lists(chunks, uuids, Slots(AllDeltas(chunks)), r.value[|r.value| - 1].body.response.output)
    ensures r.Ok? ==>
              var started := Response(responseId, createdAt, model, [], InProgressStatus, NO_USAGE);
              Bodies(r.value) == WholeStream(uuids, started, chunks)
  {
    ghost var started := Response(responseId, createdAt, model, [], InProgressStatus, NO_USAGE);
    ids := RunTranscript(uuids, started, chunks);
    MalformedMeansBlank(chunks);
    OutputListsChunks(chunks, uuids, ids);
    RunInWholeOrder(uuids, started, chunks);
    var stream := new ResponseStreamState(responseId, model, createdAt, uuids);
    var log := FeedChunks(stream, chunks, started);
    var closing := stream.FinishEvents();
    r := if closing.Err? then Err(closing.error) else Ok(log + closing.value);
  }
}
