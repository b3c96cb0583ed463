/**
  The reference meaning of a stream of deltas: which output items appear, in which
  order they first appear, and what each one accumulates to. Nothing here depends on
  how src/api/responses.rs tracks its state.
 */
module DeltaFold {
  import opened Prelude
  import opened ChatTypes

  /** One nonempty piece of text, or one fragment of the tool call with key `key`. */
  datatype Delta = TextDelta(piece: string) | CallDelta(key: nat, id: string, name: string, piece: string)

  /** What a delta belongs to. */
  datatype Slot = TextSlot | CallSlot(key: nat)

  function SlotOf(d: Delta): Slot {
    match d
    case TextDelta(_) => TextSlot
    case CallDelta(key, _, _, _) => CallSlot(key)
  }

  function CallDeltas(calls: seq<ToolCall>): seq<Delta> {
    seq(|calls|, i requires 0 <= i < |calls| =>
      CallDelta(if calls[i].index.Some? then calls[i].index.value else i,
                calls[i].id, calls[i].name, calls[i].arguments))
  }

  /** The deltas of one choice: its text if any, then its tool calls. Only choice 0 counts. */
  function ChoiceDeltas(c: Choice): seq<Delta> {
    if c.index != 0 then []
    else (if c.content.Some? && c.content.value != "" then [TextDelta(c.content.value)] else [])
         + (if c.toolCalls.Some? then CallDeltas(c.toolCalls.value) else [])
  }

  function ChoicesDeltas(choices: seq<Choice>): seq<Delta> {
    if choices == [] then [] else ChoicesDeltas(choices[..|choices| - 1]) + ChoiceDeltas(choices[|choices| - 1])
  }

  function AllDeltas(chunks: seq<Chunk>): seq<Delta> {
    if chunks == [] then [] else AllDeltas(chunks[..|chunks| - 1]) + ChoicesDeltas(chunks[|chunks| - 1].choices)
  }

  /** The slots in order of first appearance. */
  function Slots(ds: seq<Delta>): seq<Slot> {
    if ds == [] then []
    else
      var before, slot := Slots(ds[..|ds| - 1]), SlotOf(ds[|ds| - 1]);
      if slot in before then before else before + [slot]
  }

  /** The nonempty pieces of a slot, in order. */
  function Pieces(ds: seq<Delta>, slot: Slot): seq<string> {
    if ds == [] then []
    else
      var before, last := Pieces(ds[..|ds| - 1], slot), ds[|ds| - 1];
      if SlotOf(last) == slot && last.piece != "" then before + [last.piece] else before
  }

  function Concat(pieces: seq<string>): string {
    if pieces == [] then "" else Concat(pieces[..|pieces| - 1]) + pieces[|pieces| - 1]
  }

  function TextOf(ds: seq<Delta>, slot: Slot): string {
    Concat(Pieces(ds, slot))
  }

  /** The last nonempty call id given for a key. */
  function LastId(ds: seq<Delta>, key: nat): string {
    if ds == [] then ""
    else
      var last := ds[|ds| - 1];
      if SlotOf(last) == CallSlot(key) && last.id != "" then last.id else LastId(ds[..|ds| - 1], key)
  }

  /** The last nonempty function name given for a key. */
  function LastName(ds: seq<Delta>, key: nat): string {
    if ds == [] then ""
    else
      var last := ds[|ds| - 1];
      if SlotOf(last) == CallSlot(key) && last.name != "" then last.name else LastName(ds[..|ds| - 1], key)
  }

  /** The first delta of a slot. */
  function First(ds: seq<Delta>, slot: Slot): (d: Delta)
    requires slot in Slots(ds)
    ensures SlotOf(d) == slot
  {
    if slot in Slots(ds[..|ds| - 1]) then First(ds[..|ds| - 1], slot) else ds[|ds| - 1]
  }

  predicate MalformedCall(ds: seq<Delta>, key: nat) {
    Blank(LastId(ds, key)) || Blank(LastName(ds, key))
  }

  lemma {:induction false} ConcatNonempty(ds: seq<Delta>, slot: Slot)
    ensures (Pieces(ds, slot) != [] <==> TextOf(ds, slot) != "")
  {
    if ds == [] {
    } else {
      var init, d := ds[..|ds| - 1], ds[|ds| - 1];
      ConcatNonempty(init, slot);
      if SlotOf(d) == slot && d.piece != "" {
        assert Pieces(ds, slot)[..|Pieces(init, slot)|] == Pieces(init, slot);
      }
    }
  }

  lemma {:induction false} TextAppears(ds: seq<Delta>)
    requires forall d <- ds :: d.TextDelta? ==> d.piece != ""
    ensures TextSlot in Slots(ds) <==> Pieces(ds, TextSlot) != []
  {
    if ds == [] {
    } else {
      TextAppears(ds[..|ds| - 1]);
    }
  }

  // ----- Order of appearance against order of a message ----------------------

  /** Text comes first in a message, then the tool calls by key. */
  function Rank(slot: Slot): nat {
    match slot
    case TextSlot => 0
    case CallSlot(key) => key + 1
  }

  /**
    Text arrives before any tool call and new tool keys appear in increasing order: a slot
    not seen before ranks above everything that arrived before it.
   */
  ghost predicate InMessageOrder(ds: seq<Delta>) {
    ds != [] ==>
      var init, last := ds[..|ds| - 1], SlotOf(ds[|ds| - 1]);
      && InMessageOrder(init)
      && (last in Slots(init) || forall d <- init :: Rank(SlotOf(d)) < Rank(last))
  }

  ghost predicate Increasing(slots: seq<Slot>) {
    forall i, j :: 0 <= i < j < |slots| ==> Rank(slots[i]) < Rank(slots[j])
  }

  lemma {:induction false} SlotsAreThoseSeen(ds: seq<Delta>)
    ensures forall d <- ds :: SlotOf(d) in Slots(ds)
    ensures forall s <- Slots(ds) :: exists i :: 0 <= i < |ds| && SlotOf(ds[i]) == s
  {
    if ds == [] {
    } else {
      SlotsAreThoseSeen(ds[..|ds| - 1]);
      assert ds == ds[..|ds| - 1] + [ds[|ds| - 1]];
    }
  }

  lemma {:induction false} SlotsDistinct(ds: seq<Delta>)
    ensures forall i, j :: 0 <= i < j < |Slots(ds)| ==> Slots(ds)[i] != Slots(ds)[j]
  {
    if ds == [] {
    } else {
      SlotsDistinct(ds[..|ds| - 1]);
    }
  }

  lemma IncreasingSnoc(slots: seq<Slot>, slot: Slot)
    ensures Increasing(slots + [slot]) <==> Increasing(slots) && forall s <- slots :: Rank(s) < Rank(slot)
  {
    var all := slots + [slot];
    assert all[|slots|] == slot;
    assert forall i :: 0 <= i < |slots| ==> all[i] == slots[i];
  }

  /** The order of first appearance is the message order exactly when the deltas arrive in it. */
  lemma {:induction false} SlotsIncreasing(ds: seq<Delta>)
    ensures Increasing(Slots(ds)) <==> InMessageOrder(ds)
  {
    if ds == [] {
    } else {
      var init, last := ds[..|ds| - 1], SlotOf(ds[|ds| - 1]);
      SlotsIncreasing(init);
      SlotsAreThoseSeen(init);
      IncreasingSnoc(Slots(init), last);
      assert (forall s <- Slots(init) :: Rank(s) < Rank(last)) <==> (forall d <- init :: Rank(SlotOf(d)) < Rank(last));
    }
  }
}
