/**
  The events of a Responses API stream (src/api/responses.rs) and what a correct
  transcript of a sequence of deltas is.
 */
module ResponseEvents {
  import opened Prelude
  import opened ChatTypes
  import opened DeltaFold

  datatype Output =
    | Message(id: string, text: string)
    | FunctionCall(id: string, callId: string, name: string, arguments: string)

  datatype ResponseUsage = ResponseUsage(inputTokens: nat, outputTokens: nat, totalTokens: nat)

  datatype Status = InProgressStatus | CompletedStatus

  datatype Response = Response(id: string, createdAt: int, model: string, output: seq<Output>, status: Status,
                               usage: ResponseUsage)

  datatype Body =
    | Created(response: Response)
    | InProgress(response: Response)
    | MessageAdded(outputIndex: nat, itemId: string)
    | CallAdded(outputIndex: nat, itemId: string, callId: string, name: string)
    | PartAdded(outputIndex: nat, itemId: string)
    | OutputTextDelta(outputIndex: nat, itemId: string, delta: string)
    | ArgumentsDelta(outputIndex: nat, itemId: string, delta: string)
    | OutputTextDone(outputIndex: nat, itemId: string, text: string)
    | PartDone(outputIndex: nat, itemId: string, text: string)
    | ArgumentsDone(outputIndex: nat, itemId: string, name: string, arguments: string)
    | ItemDone(outputIndex: nat, item: Output)
    | Completed(response: Response)

  datatype Event = Event(sequenceNumber: nat, body: Body)

  predicate AboutItem(b: Body) {
    !b.Created? && !b.InProgress? && !b.Completed?
  }

  /** The events about output index `k`, in order. */
  function About(log: seq<Event>, k: nat): seq<Body> {
    if log == [] then []
    else
      var before, last := About(log[..|log| - 1], k), log[|log| - 1].body;
      if AboutItem(last) && last.outputIndex == k then before + [last] else before
  }

  ghost predicate Numbered(log: seq<Event>) {
    forall i :: 0 <= i < |log| ==> log[i].sequenceNumber == i
  }

  // ----- The life of one item ------------------------------------------------

  /** The finished item a slot accumulates to. */
  function Item(id: string, slot: Slot, ds: seq<Delta>): Output {
    match slot
    case TextSlot => Message(id, TextOf(ds, slot))
    case CallSlot(key) => FunctionCall(id, LastId(ds, key), LastName(ds, key), TextOf(ds, slot))
  }

  /** How an item is announced; `first` is its first delta. */
  function Opening(k: nat, id: string, first: Delta): seq<Body> {
    match first
    case TextDelta(_) => [MessageAdded(k, id), PartAdded(k, id)]
    case CallDelta(_, callId, name, _) => [CallAdded(k, id, callId, name)]
  }

  function DeltaBody(k: nat, id: string, slot: Slot, piece: string): Body {
    match slot
    case TextSlot => OutputTextDelta(k, id, piece)
    case CallSlot(_) => ArgumentsDelta(k, id, piece)
  }

  function DeltaBodies(k: nat, id: string, slot: Slot, pieces: seq<string>): seq<Body> {
    seq(|pieces|, i requires 0 <= i < |pieces| => DeltaBody(k, id, slot, pieces[i]))
  }

  /** Announced, then one delta event per nonempty piece. */
  function Open(k: nat, id: string, slot: Slot, ds: seq<Delta>): seq<Body>
    requires slot in Slots(ds)
  {
    Opening(k, id, First(ds, slot)) + DeltaBodies(k, id, slot, Pieces(ds, slot))
  }

  function Closing(k: nat, id: string, slot: Slot, ds: seq<Delta>): seq<Body> {
    var text := TextOf(ds, slot);
    match slot
    case TextSlot => [OutputTextDone(k, id, text), PartDone(k, id, text), ItemDone(k, Item(id, slot, ds))]
    case CallSlot(key) => [ArgumentsDone(k, id, LastName(ds, key), text), ItemDone(k, Item(id, slot, ds))]
  }

  // ----- Logs and transcripts ------------------------------------------------

  /** Every slot has an id, and its events are its life so far: closed for the slots in `closed`. */
  ghost predicate Logged(log: seq<Event>, ds: seq<Delta>, ids: map<Slot, string>, closed: set<Slot>) {
    && (forall s <- Slots(ds) :: s in ids)
    && (forall k {:trigger About(log, k)} :: 0 <= k < |Slots(ds)| ==>
         About(log, k) == Life(k, ids[Slots(ds)[k]], Slots(ds)[k], ds, closed))
    && forall i :: 0 <= i < |log| && AboutItem(log[i].body) ==> log[i].body.outputIndex < |Slots(ds)|
  }

  ghost function Life(k: nat, id: string, slot: Slot, ds: seq<Delta>, closed: set<Slot>): seq<Body>
    requires slot in Slots(ds)
  {
    Open(k, id, slot, ds) + if slot in closed then Closing(k, id, slot, ds) else []
  }

  /** The items in order of first appearance, each at its own index. */
  function FinalOutput(ds: seq<Delta>, ids: map<Slot, string>): seq<Output>
    requires forall s <- Slots(ds) :: s in ids
  {
    var slots := Slots(ds);
    seq(|slots|, k requires 0 <= k < |slots| => Item(ids[slots[k]], slots[k], ds))
  }

  /**
    A complete stream: numbered from 0 without gaps, created and in progress first,
    completed last and carrying item k at position k, and between them the whole life
    of every item and nothing else.
   */
  ghost predicate Transcript(log: seq<Event>, ds: seq<Delta>, ids: map<Slot, string>, started: Response,
                             usage: ResponseUsage) {
    && Numbered(log)
    && |log| >= 3
    && log[0].body == Created(started)
    && log[1].body == InProgress(started)
    && (forall i :: 2 <= i < |log| - 1 ==> AboutItem(log[i].body))
    && Logged(log, ds, ids, set s <- Slots(ds))
    && log[|log| - 1].body
       == Completed(started.(output := FinalOutput(ds, ids), status := CompletedStatus, usage := usage))
  }

  // ----- How the log grows ---------------------------------------------------

  lemma {:induction false} AboutAppend(log: seq<Event>, more: seq<Event>, k: nat)
    ensures About(log + more, k) == About(log, k) + About(more, k)
    decreases |more|
  {
    if more == [] {
      assert log + more == log;
    } else {
      var n := |more| - 1;
      AboutAppend(log, more[..n], k);
      assert (log + more)[..|log| + n] == log + more[..n];
    }
  }

  function Bodies(events: seq<Event>): seq<Body> {
    seq(|events|, i requires 0 <= i < |events| => events[i].body)
  }

  ghost predicate AllAbout(events: seq<Event>, k: nat) {
    forall i :: 0 <= i < |events| ==> AboutItem(events[i].body) && events[i].body.outputIndex == k
  }

  lemma AllAboutBodies(events: seq<Event>, k: nat)
    requires forall i :: 0 <= i < |Bodies(events)| ==>
              AboutItem(Bodies(events)[i]) && Bodies(events)[i].outputIndex == k
    ensures AllAbout(events, k)
  {
    assert forall i :: 0 <= i < |events| ==> events[i].body == Bodies(events)[i];
  }

  /** Events all about one index are what that index sees of them, and no other index sees any. */
  lemma {:induction false} AboutOneIndex(events: seq<Event>, k: nat, j: nat)
    requires AllAbout(events, k)
    ensures About(events, j) == if j == k then Bodies(events) else []
  {
    if events == [] {
    } else {
      var init := events[..|events| - 1];
      AboutOneIndex(init, k, j);
      assert Bodies(events) == Bodies(init) + [events[|events| - 1].body];
    }
  }

  lemma AppendOneIndex(log: seq<Event>, events: seq<Event>, k: nat, j: nat)
    requires AllAbout(events, k)
    ensures About(log + events, j) == About(log, j) + if j == k then Bodies(events) else []
  {
    AboutAppend(log, events, j);
    AboutOneIndex(events, k, j);
  }

  lemma OtherSlotUnchanged(ds: seq<Delta>, d: Delta, slot: Slot)
    requires SlotOf(d) != slot
    ensures Pieces(ds + [d], slot) == Pieces(ds, slot)
    ensures slot in Slots(ds + [d]) <==> slot in Slots(ds)
    ensures slot in Slots(ds) ==> First(ds + [d], slot) == First(ds, slot)
    ensures slot.CallSlot? ==>
              && LastId(ds + [d], slot.key) == LastId(ds, slot.key)
              && LastName(ds + [d], slot.key) == LastName(ds, slot.key)
  {
    assert (ds + [d])[..|ds|] == ds;
  }

  /** The events one delta must add: an opening when its slot is new, then its piece unless empty. */
  function StepBodies(k: nat, id: string, ds: seq<Delta>, d: Delta): seq<Body> {
    var slot := SlotOf(d);
    (if slot in Slots(ds) then [] else Opening(k, id, d))
    + if d.piece == "" then [] else [DeltaBody(k, id, slot, d.piece)]
  }

  lemma OpenAfterStep(k: nat, id: string, ds: seq<Delta>, d: Delta)
    ensures var slot := SlotOf(d);
            && slot in Slots(ds + [d])
            && Open(k, id, slot, ds + [d])
               == (if slot in Slots(ds) then Open(k, id, slot, ds) else []) + StepBodies(k, id, ds, d)
  {
    var slot := SlotOf(d);
    assert (ds + [d])[..|ds|] == ds;
    if slot !in Slots(ds) {
      NoPiecesYet(ds, slot);
    }
  }

  lemma {:induction false} NoPiecesYet(ds: seq<Delta>, slot: Slot)
    requires slot !in Slots(ds)
    ensures Pieces(ds, slot) == []
    ensures slot.CallSlot? ==> LastId(ds, slot.key) == "" && LastName(ds, slot.key) == ""
  {
    if ds == [] {
    } else {
      NoPiecesYet(ds[..|ds| - 1], slot);
    }
  }

  /** One delta's events keep the log the log of the deltas. */
  lemma LogStep(log: seq<Event>, ds: seq<Delta>, ids: map<Slot, string>, d: Delta, k: nat, id: string,
                events: seq<Event>)
    requires Logged(log, ds, ids, {})
    requires SlotOf(d) in Slots(ds) ==> k < |Slots(ds)| && Slots(ds)[k] == SlotOf(d) && ids[SlotOf(d)] == id
    requires SlotOf(d) !in Slots(ds) ==> k == |Slots(ds)|
    requires Bodies(events) == StepBodies(k, id, ds, d)
    ensures Logged(log + events, ds + [d], ids[SlotOf(d) := id], {})
  {
    var after, ids' := ds + [d], ids[SlotOf(d) := id];
    assert after[..|ds|] == ds;
    AllAboutBodies(events, k);
    forall j | 0 <= j < |Slots(after)|
      ensures About(log + events, j) == Life(j, ids'[Slots(after)[j]], Slots(after)[j], after, {})
    {
      if j == k {
        StepAtIndex(log, ds, ids, d, k, id, events);
      } else {
        AppendOneIndex(log, events, k, j);
        StepElsewhere(ds, d, k, j, ids[Slots(ds)[j]]);
        assert Slots(after)[j] == Slots(ds)[j];
      }
    }
  }

  lemma StepAtIndex(log: seq<Event>, ds: seq<Delta>, ids: map<Slot, string>, d: Delta, k: nat, id: string,
                    events: seq<Event>)
    requires Logged(log, ds, ids, {})
    requires SlotOf(d) in Slots(ds) ==> k < |Slots(ds)| && Slots(ds)[k] == SlotOf(d) && ids[SlotOf(d)] == id
    requires SlotOf(d) !in Slots(ds) ==> k == |Slots(ds)|
    requires AllAbout(events, k) && Bodies(events) == StepBodies(k, id, ds, d)
    ensures SlotOf(d) in Slots(ds + [d])
    ensures About(log + events, k) == Open(k, id, SlotOf(d), ds + [d])
  {
    AppendOneIndex(log, events, k, k);
    OpenAfterStep(k, id, ds, d);
    if SlotOf(d) !in Slots(ds) {
      NothingAbout(log, k);
    }
  }

  lemma StepElsewhere(ds: seq<Delta>, d: Delta, k: nat, j: nat, id: string)
    requires j < |Slots(ds)| && j != k
    requires SlotOf(d) in Slots(ds) ==> k < |Slots(ds)| && Slots(ds)[k] == SlotOf(d)
    ensures Slots(ds)[j] != SlotOf(d)
    ensures Slots(ds)[j] in Slots(ds + [d])
    ensures Open(j, id, Slots(ds)[j], ds + [d]) == Open(j, id, Slots(ds)[j], ds)
  {
    SlotsDistinct(ds);
    OtherSlotUnchanged(ds, d, Slots(ds)[j]);
  }

  lemma {:induction false} NothingAbout(log: seq<Event>, k: nat)
    requires forall i :: 0 <= i < |log| && AboutItem(log[i].body) ==> log[i].body.outputIndex < k
    ensures About(log, k) == []
  {
    if log == [] {
    } else {
      NothingAbout(log[..|log| - 1], k);
    }
  }

  /** Closing one more slot. */
  lemma LogClose(log: seq<Event>, ds: seq<Delta>, ids: map<Slot, string>, closed: set<Slot>, k: nat, events: seq<Event>)
    requires Logged(log, ds, ids, closed)
    requires k < |Slots(ds)| && Slots(ds)[k] !in closed
    requires Bodies(events) == Closing(k, ids[Slots(ds)[k]], Slots(ds)[k], ds)
    ensures Logged(log + events, ds, ids, closed + {Slots(ds)[k]})
  {
    var slots := Slots(ds);
    AllAboutBodies(events, k);
    forall j | 0 <= j < |slots|
      ensures About(log + events, j) == Life(j, ids[slots[j]], slots[j], ds, closed + {slots[k]})
    {
      CloseAtIndex(log, ds, ids, closed, k, j, events);
    }
  }

  lemma CloseAtIndex(log: seq<Event>, ds: seq<Delta>, ids: map<Slot, string>, closed: set<Slot>, k: nat,
                     j: nat, events: seq<Event>)
    requires Logged(log, ds, ids, closed) && AllAbout(events, k)
    requires k < |Slots(ds)| && Slots(ds)[k] !in closed && j < |Slots(ds)|
    requires Bodies(events) == Closing(k, ids[Slots(ds)[k]], Slots(ds)[k], ds)
    ensures About(log + events, j) == Life(j, ids[Slots(ds)[j]], Slots(ds)[j], ds, closed + {Slots(ds)[k]})
  {
    SlotsDistinct(ds);
    AppendOneIndex(log, events, k, j);
  }
}
