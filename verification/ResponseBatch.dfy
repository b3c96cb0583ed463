/**
  The non-streaming path of the Responses API (`to_response_output`,
  src/api/responses.rs) and its agreement with the streaming one.
 */
module ResponseBatch {
  import opened Prelude
  import opened ChatTypes
  import opened DeltaFold
  import opened ResponseEvents
  import opened ResponseStream

  // ----- The conversion ------------------------------------------------------

  function PartsText(parts: seq<ContentPart>): string {
    if parts == [] then ""
    else PartsText(parts[..|parts| - 1]) + match parts[|parts| - 1] case TextPart(text) => text case ImagePart(_) => ""
  }

  function MessageText(content: Option<Content>): string {
    match content
    case Some(Text(text)) => text
    case Some(Parts(parts)) => PartsText(parts)
    case None => ""
  }

  /** The texts of the text parts, one after the other; images give nothing. */
  lemma {:induction false} PartsTextIs(parts: seq<ContentPart>)
    ensures PartsText(parts)
            == Flatten(seq(|parts|, i requires 0 <= i < |parts| => if parts[i].TextPart? then parts[i].text else ""))
  {
    if parts == [] {
    } else {
      var init := parts[..|parts| - 1];
      PartsTextIs(init);
      var texts := seq(|parts|, i requires 0 <= i < |parts| => if parts[i].TextPart? then parts[i].text else "");
      assert texts[..|init|]
          == seq(|init|, i requires 0 <= i < |init| => if init[i].TextPart? then init[i].text else "");
    }
  }

  predicate MalformedToolCallIn(call: ToolCall) {
    call.kind != "function" || Blank(call.id) || Blank(call.name)
  }

  function CallsOf(message: ChatMessage): seq<ToolCall> {
    if message.toolCalls.Some? then message.toolCalls.value else []
  }

  /** An output with its generated id erased. */
  function Anonymous(o: Output): Output {
    o.(id := "")
  }

  function AnonymousAll(outputs: seq<Output>): seq<Output> {
    seq(|outputs|, i requires 0 <= i < |outputs| => Anonymous(outputs[i]))
  }

  function CallsOutput(calls: seq<ToolCall>): seq<Output> {
    seq(|calls|, i requires 0 <= i < |calls| => FunctionCall("", calls[i].id, calls[i].name, calls[i].arguments))
  }

  /** The message's output up to ids: its text unless empty, then its calls in order. */
  function MessageOutput(message: ChatMessage): seq<Output> {
    (if MessageText(message.content) != "" then [Message("", MessageText(message.content))] else [])
    + CallsOutput(CallsOf(message))
  }

  predicate IsCallItem(o: Output, call: ToolCall, uuid: string) {
    o == FunctionCall("fc_" + uuid, call.id, call.name, call.arguments)
  }

  /** The output with its ids: the text, if any, under the first draw, each call under the draw of its position. */
  ghost predicate Converted(message: ChatMessage, uuids: Uuids, output: seq<Output>) {
    var text, calls := MessageText(message.content), CallsOf(message);
    var first := if text == "" then 0 else 1;
    && |output| == first + |calls|
    && (text != "" ==> output[0] == Message("msg_" + uuids(0), text))
    && forall j :: 0 <= j < |calls| ==> IsCallItem(output[first + j], calls[j], uuids(first + j))
  }

  /** What is malformed: another kind, or an id or a name of white space only. */
  lemma MalformedMeansBlank(call: ToolCall)
    ensures MalformedToolCallIn(call) <==> call.kind != "function" || AllWhitespace(call.id) || AllWhitespace(call.name)
  {
    TrimmedAway(call.id);
    TrimmedAway(call.name);
  }

  /** Whole text, joined parts, or nothing. */
  lemma MessageTextIs(content: Option<Content>)
    ensures content.None? ==> MessageText(content) == ""
    ensures content.Some? && content.value.Text? ==> MessageText(content) == content.value.text
    ensures content.Some? && content.value.Parts? ==>
              var parts := content.value.parts;
              MessageText(content)
              == Flatten(seq(|parts|, i requires 0 <= i < |parts| => if parts[i].TextPart? then parts[i].text else ""))
  {
    if content.Some? && content.value.Parts? {
      PartsTextIs(content.value.parts);
    }
  }

  method ToResponseOutput(message: ChatMessage, uuids: Uuids) returns (r: Result<seq<Output>, StreamError>)
    ensures r.Err? <==> exists call <- CallsOf(message) :: MalformedToolCallIn(call)
    ensures r.Ok? ==> AnonymousAll(r.value) == MessageOutput(message)
    ensures r.Ok? ==> Converted(message, uuids, r.value)
  {
    var output := [];
    var drawn := 0;
    var text := MessageText(message.content);
    if text != "" {
      output := [Message("msg_" + uuids(drawn), text)];
      drawn := drawn + 1;
    }
    ghost var head := AnonymousAll(output);
    var calls := CallsOf(message);
    for i := 0 to |calls|
      invariant forall call <- calls[..i] :: !MalformedToolCallIn(call)
      invariant AnonymousAll(output) == head + CallsOutput(calls[..i])
      invariant drawn == |output| == (if text != "" then 1 else 0) + i
      invariant text != "" ==> output[0] == Message("msg_" + uuids(0), text)
      invariant forall j :: 0 <= j < i ==> IsCallItem(output[drawn - i + j], calls[j], uuids(drawn - i + j))
    {
      var call := calls[i];
      if MalformedToolCallIn(call) {
        return Err(MalformedToolCall);
      }
      var item := FunctionCall("fc_" + uuids(drawn), call.id, call.name, call.arguments);
      assert AnonymousAll(output + [item]) == AnonymousAll(output) + [Anonymous(item)];
      assert IsCallItem(item, call, uuids(drawn));
      output := output + [item];
      drawn := drawn + 1;
    }
    assert calls[..|calls|] == calls;
    return Ok(output);
  }

  // ----- The message a stream of deltas amounts to ---------------------------

  ghost function Keys(ds: seq<Delta>): set<nat> {
    set s <- Slots(ds) | s.CallSlot? :: s.key
  }

  function FoldCall(ds: seq<Delta>, key: nat): ToolCall {
    ToolCall(Some(key), LastId(ds, key), "function", LastName(ds, key), TextOf(ds, CallSlot(key)))
  }

  /** All text concatenated, and one tool call per key, in key order. */
  ghost function FoldMessage(ds: seq<Delta>): ChatMessage {
    var keys := SortedKeys(Keys(ds));
    ChatMessage(Some(Text(TextOf(ds, TextSlot))),
                Some(seq(|keys|, i requires 0 <= i < |keys| => FoldCall(ds, keys[i]))),
                None)
  }

  /** The slots in message order. */
  ghost function MessageSlots(ds: seq<Delta>): seq<Slot> {
    var keys := SortedKeys(Keys(ds));
    (if TextSlot in Slots(ds) then [TextSlot] else [])
    + seq(|keys|, i requires 0 <= i < |keys| => CallSlot(keys[i]))
  }

  function SlotOutputs(slots: seq<Slot>, ds: seq<Delta>): seq<Output> {
    seq(|slots|, i requires 0 <= i < |slots| => Item("", slots[i], ds))
  }

  /** One path fails exactly when the other does. */
  lemma SameFailures(ds: seq<Delta>)
    ensures (exists call <- CallsOf(FoldMessage(ds)) :: MalformedToolCallIn(call))
            <==> exists key :: CallSlot(key) in Slots(ds) && MalformedCall(ds, key)
  {
    var keys, calls := SortedKeys(Keys(ds)), CallsOf(FoldMessage(ds));
    if call :| call in calls && MalformedToolCallIn(call) {
      var i :| 0 <= i < |calls| && calls[i] == call;
      assert keys[i] in keys;
      assert CallSlot(keys[i]) in Slots(ds) && MalformedCall(ds, keys[i]);
    }
    if key :| CallSlot(key) in Slots(ds) && MalformedCall(ds, key) {
      assert key in Keys(ds) && key in keys;
      var i :| 0 <= i < |keys| && keys[i] == key;
      assert calls[i] in calls && MalformedToolCallIn(calls[i]);
    }
  }

  /** The batch output of the folded message is the outputs of the slots in message order. */
  lemma FoldedOutput(ds: seq<Delta>)
    requires forall d <- ds :: d.TextDelta? ==> d.piece != ""
    ensures MessageOutput(FoldMessage(ds)) == SlotOutputs(MessageSlots(ds), ds)
  {
    var keys := SortedKeys(Keys(ds));
    var text := if TextOf(ds, TextSlot) != "" then [Message("", TextOf(ds, TextSlot))] else [];
    FoldedText(ds);
    FoldedCalls(ds, keys);
    var slots := seq(|keys|, i requires 0 <= i < |keys| => CallSlot(keys[i]));
    assert SlotOutputs(MessageSlots(ds), ds) == text + SlotOutputs(slots, ds);
  }

  lemma FoldedText(ds: seq<Delta>)
    requires forall d <- ds :: d.TextDelta? ==> d.piece != ""
    ensures TextSlot in Slots(ds) <==> TextOf(ds, TextSlot) != ""
  {
    TextAppears(ds);
    ConcatNonempty(ds, TextSlot);
  }

  lemma FoldedCalls(ds: seq<Delta>, keys: seq<nat>)
    ensures CallsOutput(seq(|keys|, i requires 0 <= i < |keys| => FoldCall(ds, keys[i])))
            == SlotOutputs(seq(|keys|, i requires 0 <= i < |keys| => CallSlot(keys[i])), ds)
  {
  }

  // ----- Agreement -----------------------------------------------------------

  lemma MessageSlotsIncrease(ds: seq<Delta>)
    ensures Increasing(MessageSlots(ds))
  {
    SortedKeysIncreasing(Keys(ds));
  }

  lemma MessageSlotsSorted(ds: seq<Delta>)
    ensures Increasing(MessageSlots(ds))
    ensures forall s :: s in MessageSlots(ds) <==> s in Slots(ds)
  {
    MessageSlotsIncrease(ds);
    forall s: Slot
      ensures s in MessageSlots(ds) <==> s in Slots(ds)
    {
      MessageSlotsComplete(ds, s);
    }
  }

  lemma MessageSlotsComplete(ds: seq<Delta>, s: Slot)
    ensures s in MessageSlots(ds) <==> s in Slots(ds)
  {
    var keys, slots := SortedKeys(Keys(ds)), MessageSlots(ds);
    if s in Slots(ds) {
      if s.TextSlot? {
        assert slots[0] == s;
      } else {
        assert s.key in Keys(ds) && s.key in keys;
        var i :| 0 <= i < |keys| && keys[i] == s.key;
        assert slots[|slots| - |keys| + i] == s;
      }
    }
    if s in slots && s.CallSlot? {
      var i :| 0 <= i < |slots| && slots[i] == s;
      assert s.key in keys by { assert keys[i - (|slots| - |keys|)] == s.key; }
    }
  }

  lemma FirstIsLeast(a: seq<Slot>)
    requires Increasing(a) && a != []
    ensures forall s <- a :: s == a[0] || Rank(a[0]) < Rank(s)
    ensures Increasing(a[1..])
    ensures forall s :: s in a[1..] <==> s in a && s != a[0]
  {
    assert a == [a[0]] + a[1..];
    forall s <- a[1..]
      ensures Rank(a[0]) < Rank(s)
    {
      var i :| 0 <= i < |a[1..]| && a[1..][i] == s;
      assert a[i + 1] == s;
    }
  }

  /** Two increasing lists of the same slots are the same list. */
  lemma {:induction false} IncreasingUnique(a: seq<Slot>, b: seq<Slot>)
    requires Increasing(a) && Increasing(b)
    requires forall s :: s in a <==> s in b
    ensures a == b
  {
    if a == [] && b == [] {
    } else {
      assert (a != [] ==> a[0] in b) && (b != [] ==> b[0] in a);
      FirstIsLeast(a);
      FirstIsLeast(b);
      assert a[0] == b[0];
      IncreasingUnique(a[1..], b[1..]);
      assert a == [a[0]] + a[1..] && b == [b[0]] + b[1..];
    }
  }

  lemma DistinctSameElements(a: seq<Slot>, b: seq<Slot>)
    requires forall i, j :: 0 <= i < j < |a| ==> a[i] != a[j]
    requires forall i, j :: 0 <= i < j < |b| ==> b[i] != b[j]
    requires forall s :: s in a <==> s in b
    ensures multiset(a) == multiset(b)
  {
    OnceEach(a);
    OnceEach(b);
    forall s: Slot
      ensures multiset(a)[s] == multiset(b)[s]
    {
      assert s in multiset(a) <==> s in a;
      assert s in multiset(b) <==> s in b;
    }
  }

  lemma {:induction false} OnceEach(a: seq<Slot>)
    requires forall i, j :: 0 <= i < j < |a| ==> a[i] != a[j]
    ensures forall s :: multiset(a)[s] <= 1
  {
    if a == [] {
    } else {
      var n := |a| - 1;
      assert a == a[..n] + [a[n]];
      OnceEach(a[..n]);
      assert a[n] !in multiset(a[..n]);
    }
  }

  lemma RemoveOne(a: seq<Slot>, b: seq<Slot>, i: nat)
    requires a != [] && i < |b| && b[i] == a[0] && multiset(a) == multiset(b)
    ensures multiset(b[..i] + b[i + 1..]) == multiset(a[1..])
  {
    assert a == [a[0]] + a[1..];
    assert b == b[..i] + ([b[i]] + b[i + 1..]);
    assert multiset(b) == multiset(b[..i]) + (multiset{b[i]} + multiset(b[i + 1..]));
    assert multiset(b[..i] + b[i + 1..]) == multiset(b) - multiset{b[i]};
  }

  lemma {:induction false} OutputsPermute(a: seq<Slot>, b: seq<Slot>, ds: seq<Delta>)
    requires multiset(a) == multiset(b)
    ensures multiset(SlotOutputs(a, ds)) == multiset(SlotOutputs(b, ds))
    decreases |a|
  {
    assert |a| == |multiset(a)| == |multiset(b)| == |b|;
    if a != [] {
      assert a[0] in multiset(b);
      var i :| 0 <= i < |b| && b[i] == a[0];
      var rest := b[..i] + b[i + 1..];
      RemoveOne(a, b, i);
      OutputsPermute(a[1..], rest, ds);
      assert SlotOutputs(a, ds) == [Item("", a[0], ds)] + SlotOutputs(a[1..], ds);
      assert SlotOutputs(b, ds) == SlotOutputs(b[..i], ds) + [Item("", a[0], ds)] + SlotOutputs(b[i + 1..], ds);
      assert SlotOutputs(rest, ds) == SlotOutputs(b[..i], ds) + SlotOutputs(b[i + 1..], ds);
    }
  }

  /** Items are announced in message order exactly when the deltas arrive in message order. */
  lemma OrderAgrees(ds: seq<Delta>)
    ensures Slots(ds) == MessageSlots(ds) <==> InMessageOrder(ds)
  {
    MessageSlotsSorted(ds);
    SlotsIncreasing(ds);
    if InMessageOrder(ds) {
      IncreasingUnique(Slots(ds), MessageSlots(ds));
    }
  }

  lemma SlotsPermute(ds: seq<Delta>)
    ensures multiset(Slots(ds)) == multiset(MessageSlots(ds))
  {
    MessageSlotsSorted(ds);
    SlotsDistinct(ds);
    IncreasingDistinct(MessageSlots(ds));
    DistinctSameElements(Slots(ds), MessageSlots(ds));
  }

  lemma IncreasingDistinct(slots: seq<Slot>)
    requires Increasing(slots)
    ensures forall i, j :: 0 <= i < j < |slots| ==> slots[i] != slots[j]
  {
    assert forall i, j :: 0 <= i < j < |slots| ==> Rank(slots[i]) < Rank(slots[j]);
  }

  /**
    Streaming refines the batch conversion. Up to generated ids, the completed output is
    always a permutation of what the folded message converts to; the item order is the
    same exactly when the deltas arrive in message order, and then the outputs are equal.
   */
  lemma StreamingRefinesBatch(ds: seq<Delta>, ids: map<Slot, string>)
    requires forall d <- ds :: d.TextDelta? ==> d.piece != ""
    requires forall s <- Slots(ds) :: s in ids
    ensures multiset(AnonymousAll(FinalOutput(ds, ids))) == multiset(MessageOutput(FoldMessage(ds)))
    ensures Slots(ds) == MessageSlots(ds) <==> InMessageOrder(ds)
    ensures InMessageOrder(ds) ==> AnonymousAll(FinalOutput(ds, ids)) == MessageOutput(FoldMessage(ds))
  {
    assert AnonymousAll(FinalOutput(ds, ids)) == SlotOutputs(Slots(ds), ds);
    FoldedOutput(ds);
    OrderAgrees(ds);
    SlotsPermute(ds);
    OutputsPermute(Slots(ds), MessageSlots(ds), ds);
  }
}
