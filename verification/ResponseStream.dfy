/**
  `ResponseStreamState` of src/api/responses.rs: the class, the step function its methods
  are proved against, and the proof that the step function writes the life of every item.
 */
module ResponseStream {
  import opened Prelude
  import opened ChatTypes
  import opened DeltaFold
  import opened ResponseEvents
  import Sorting

  datatype TextItem = TextItem(id: string, outputIndex: nat, text: string)

  datatype ToolItem = ToolItem(id: string, outputIndex: nat, callId: string, name: string, arguments: string)

  // ----- The step function ---------------------------------------------------

  /** The mutable fields, without the usage. `drawn` counts the generated ids. */
  datatype State = State(drawn: nat, nextSequenceNumber: nat, nextOutputIndex: nat,
                         text: Option<TextItem>, tools: map<nat, ToolItem>)

  const INITIAL := State(0, 0, 0, None, map[])

  function Stamp(first: nat, bodies: seq<Body>): seq<Event> {
    seq(|bodies|, i requires 0 <= i < |bodies| => Event(first + i, bodies[i]))
  }

  /** The random part of the n-th generated id. */
  type Uuids = nat -> string

  function StepText(st: State, uuids: Uuids, piece: string): (State, seq<Body>) {
    match st.text
    case Some(item) =>
      (st.(text := Some(item.(text := item.text + piece)), nextSequenceNumber := st.nextSequenceNumber + 1),
       [OutputTextDelta(item.outputIndex, item.id, piece)])
    case None =>
      var id, k := "msg_" + uuids(st.drawn), st.nextOutputIndex;
      (State(st.drawn + 1, st.nextSequenceNumber + 3, k + 1, Some(TextItem(id, k, piece)), st.tools),
       [MessageAdded(k, id), PartAdded(k, id), OutputTextDelta(k, id, piece)])
  }

  function StepCall(st: State, uuids: Uuids, key: nat, callId: string, name: string, piece: string)
    : (State, seq<Body>)
  {
    var added := key !in st.tools;
    var item :=
      if added then ToolItem("fc_" + uuids(st.drawn), st.nextOutputIndex, callId, name, "") else st.tools[key];
    var updated := ToolItem(item.id, item.outputIndex,
      if callId != "" then callId else item.callId, if name != "" then name else item.name, item.arguments + piece);
    var bodies := (if added then [CallAdded(item.outputIndex, item.id, callId, name)] else [])
                + (if piece != "" then [ArgumentsDelta(item.outputIndex, item.id, piece)] else []);
    (State(if added then st.drawn + 1 else st.drawn, st.nextSequenceNumber + |bodies|,
           if added then st.nextOutputIndex + 1 else st.nextOutputIndex, st.text, st.tools[key := updated]),
     bodies)
  }

  function Step(st: State, uuids: Uuids, d: Delta): (r: (State, seq<Body>))
    ensures r.0.nextSequenceNumber == st.nextSequenceNumber + |r.1|
  {
    match d
    case TextDelta(piece) => StepText(st, uuids, piece)
    case CallDelta(key, id, name, piece) => StepCall(st, uuids, key, id, name, piece)
  }

  /** One delta, with the bodies stamped. */
  function Stepper(uuids: Uuids): (State, Delta) -> (State, seq<Event>) {
    (st: State, d: Delta) =>
      var (after, bodies) := Step(st, uuids, d);
      (after, Stamp(st.nextSequenceNumber, bodies))
  }

  /** The state after a list of inputs, and the outputs on the way. */
  function Run<S, D, E>(step: (S, D) -> (S, seq<E>), st: S, ds: seq<D>): (S, seq<E>) {
    if ds == [] then (st, [])
    else
      var (mid, outputs) := Run(step, st, ds[..|ds| - 1]);
      var (end, more) := step(mid, ds[|ds| - 1]);
      (end, outputs + more)
  }

  lemma RunSnoc<S, D, E>(step: (S, D) -> (S, seq<E>), st: S, ds: seq<D>, d: D)
    ensures var (mid, outputs) := Run(step, st, ds);
            var (end, more) := step(mid, d);
            Run(step, st, ds + [d]) == (end, outputs + more)
  {
    assert (ds + [d])[..|ds|] == ds;
  }

  lemma {:induction false} RunAppend<S, D, E>(step: (S, D) -> (S, seq<E>), st: S, a: seq<D>, b: seq<D>)
    ensures var (mid, before) := Run(step, st, a);
            var (end, after) := Run(step, mid, b);
            Run(step, st, a + b) == (end, before + after)
    decreases |b|
  {
    var (mid, before) := Run(step, st, a);
    if b == [] {
      assert a + b == a;
      assert before + [] == before;
    } else {
      var n := |b| - 1;
      RunAppend(step, st, a, b[..n]);
      RunSnoc(step, st, a + b[..n], b[n]);
      assert a + b == a + b[..n] + [b[n]];
      var (late, inner) := Run(step, mid, b[..n]);
      var last := step(late, b[n]).1;
      assert before + inner + last == before + (inner + last);
    }
  }

  lemma RunOne<S, D, E>(step: (S, D) -> (S, seq<E>), st: S, d: D)
    ensures Run(step, st, [d]) == step(st, d)
  {
    RunSnoc(step, st, [], d);
    assert [] + [d] == [d];
    assert [] + step(st, d).1 == step(st, d).1;
  }

  lemma ChoicesSnoc(choices: seq<Choice>, i: nat)
    requires i < |choices|
    ensures ChoicesDeltas(choices[..i + 1]) == ChoicesDeltas(choices[..i]) + ChoiceDeltas(choices[i])
  {
    assert choices[..i + 1][..i] == choices[..i];
  }

  // ----- The end of the stream -----------------------------------------------

  datatype StreamError = MalformedToolCall

  function MinKey(keys: set<nat>): (m: nat)
    requires keys != {}
    ensures m in keys && forall k <- keys :: m <= k
  {
    MinExists(keys);
    var m :| m in keys && forall k <- keys :: m <= k;
    m
  }

  lemma {:induction false} MinExists(keys: set<nat>)
    requires keys != {}
    ensures exists m :: m in keys && forall k <- keys :: m <= k
  {
    var k :| k in keys;
    var rest := keys - {k};
    if rest == {} {
      assert keys == {k};
    } else {
      MinExists(rest);
      var m :| m in rest && forall j <- rest :: m <= j;
      var least := Min(m, k);
      assert forall j <- keys :: j == k || j in rest;
      assert least in keys && forall j <- keys :: least <= j;
    }
  }

  /** The iteration order of a `BTreeMap`. */
  function SortedKeys(keys: set<nat>): (s: seq<nat>)
    ensures forall k :: k in s <==> k in keys
  {
    if keys == {} then [] else [MinKey(keys)] + SortedKeys(keys - {MinKey(keys)})
  }

  lemma {:induction false} SortedKeysIncreasing(keys: set<nat>)
    ensures forall i, j :: 0 <= i < j < |SortedKeys(keys)| ==> SortedKeys(keys)[i] < SortedKeys(keys)[j]
  {
    if keys == {} {
    } else {
      SortedKeysIncreasing(keys - {MinKey(keys)});
    }
  }

  function CloseText(text: Option<TextItem>): seq<Body> {
    match text
    case Some(item) =>
      [OutputTextDone(item.outputIndex, item.id, item.text), PartDone(item.outputIndex, item.id, item.text),
       ItemDone(item.outputIndex, Message(item.id, item.text))]
    case None => []
  }

  function CallOutput(tool: ToolItem): Output {
    FunctionCall(tool.id, tool.callId, tool.name, tool.arguments)
  }

  function CloseTool(tool: ToolItem): seq<Body> {
    [ArgumentsDone(tool.outputIndex, tool.id, tool.name, tool.arguments), ItemDone(tool.outputIndex, CallOutput(tool))]
  }

  predicate Malformed(tool: ToolItem) {
    Blank(tool.callId) || Blank(tool.name)
  }

  /** The items of the map in key order. */
  function InKeyOrder(tools: map<nat, ToolItem>): (s: seq<ToolItem>) {
    var keys := SortedKeys(tools.Keys);
    seq(|keys|, i requires 0 <= i < |keys| => assert keys[i] in keys; tools[keys[i]])
  }

  ghost predicate SomeMalformed(items: seq<ToolItem>) {
    exists t <- items :: Malformed(t)
  }

  function CloseTools(items: seq<ToolItem>): seq<Body> {
    if items == [] then [] else CloseTools(items[..|items| - 1]) + CloseTool(items[|items| - 1])
  }

  function ToolOutputs(items: seq<ToolItem>): seq<(nat, Output)> {
    seq(|items|, i requires 0 <= i < |items| => (items[i].outputIndex, CallOutput(items[i])))
  }

  function TextOutput(text: Option<TextItem>): seq<(nat, Output)> {
    match text
    case Some(item) => [(item.outputIndex, Message(item.id, item.text))]
    case None => []
  }

  /** The closing events, text first and then the tool calls by key. */
  function ClosingEvents(st: State, response: Response): seq<Event> {
    Stamp(st.nextSequenceNumber, ClosingBodies(st) + [Completed(response)])
  }

  function ClosingBodies(st: State): seq<Body> {
    CloseText(st.text) + CloseTools(InKeyOrder(st.tools))
  }

  function IndexedOutput(st: State): seq<(nat, Output)> {
    TextOutput(st.text) + ToolOutputs(InKeyOrder(st.tools))
  }

  function IndexOf(): ((nat, Output)) -> int {
    (item: (nat, Output)) => item.0
  }

  function SortByIndex(items: seq<(nat, Output)>): seq<(nat, Output)> {
    Sorting.Sort(IndexOf(), items)
  }

  function Values(items: seq<(nat, Output)>): seq<Output> {
    seq(|items|, i requires 0 <= i < |items| => items[i].1)
  }

  lemma StampAppend(first: nat, a: seq<Body>, b: seq<Body>)
    ensures Stamp(first, a + b) == Stamp(first, a) + Stamp(first + |a|, b)
  {
  }

  lemma StampThree(first: nat, a: seq<Body>, b: seq<Body>, last: Body)
    ensures Stamp(first, a + b + [last]) == Stamp(first, a) + Stamp(first + |a|, b) + [Event(first + |a| + |b|, last)]
  {
  }

  // ----- The class -----------------------------------------------------------

  const NO_USAGE := ResponseUsage(0, 0, 0)

  function UsageAfter(usage: ResponseUsage, chunk: Chunk): ResponseUsage {
    match chunk.usage
    case Some(u) => ResponseUsage(u.promptTokens, u.completionTokens, u.totalTokens)
    case None => usage
  }

  class ResponseStreamState {
    const responseId: string
    const model: string
    const createdAt: int
    const uuids: Uuids
    var drawn: nat
    var nextSequenceNumber: nat
    var nextOutputIndex: nat
    var text: Option<TextItem>
    var tools: map<nat, ToolItem>
    var usage: ResponseUsage

    function View(): State
      reads this
    {
      State(drawn, nextSequenceNumber, nextOutputIndex, text, tools)
    }

    constructor (responseId: string, model: string, createdAt: int, uuids: Uuids)
      ensures View() == INITIAL && usage == NO_USAGE
      ensures this.responseId == responseId && this.model == model && this.createdAt == createdAt && this.uuids == uuids
    {
      this.responseId, this.model, this.createdAt, this.uuids := responseId, model, createdAt, uuids;
      drawn, nextSequenceNumber, nextOutputIndex := 0, 0, 0;
      text, tools, usage := None, map[], NO_USAGE;
    }

    /** `event`: stamp a body with the next sequence number. */
    method Emit(body: Body) returns (e: Event)
      modifies this`nextSequenceNumber
      ensures e == Event(old(nextSequenceNumber), body)
      ensures nextSequenceNumber == old(nextSequenceNumber) + 1
    {
      e := Event(nextSequenceNumber, body);
      nextSequenceNumber := nextSequenceNumber + 1;
    }

    function ResponseValue(status: Status, output: seq<Output>): Response
      reads this
    {
      Response(responseId, createdAt, model, output, status, usage)
    }

    method StartEvents() returns (events: seq<Event>)
      modifies this`nextSequenceNumber
      ensures nextSequenceNumber == old(nextSequenceNumber) + 2
      ensures var value := ResponseValue(InProgressStatus, []);
              events == Stamp(old(nextSequenceNumber), [Created(value), InProgress(value)])
    {
      var created := ResponseValue(InProgressStatus, []);
      var first := Emit(Created(created));
      var second := Emit(InProgress(created));
      events := [first, second];
    }

    /** The text branch of `apply_chunk`. */
    method ApplyText(piece: string) returns (events: seq<Event>)
      modifies this
      ensures usage == old(usage)
      ensures var (after, bodies) := StepText(old(View()), uuids, piece);
              View() == after && events == Stamp(old(nextSequenceNumber), bodies)
    {
      events := [];
      if text.None? {
        var item := TextItem("msg_" + uuids(drawn), nextOutputIndex, "");
        drawn := drawn + 1;
        nextOutputIndex := nextOutputIndex + 1;
        var added := Emit(MessageAdded(item.outputIndex, item.id));
        var part := Emit(PartAdded(item.outputIndex, item.id));
        events := [added, part];
        text := Some(item);
      }
      assert "" + piece == piece;
      text := Some(text.value.(text := text.value.text + piece));
      var delta := Emit(OutputTextDelta(text.value.outputIndex, text.value.id, piece));
      events := events + [delta];
    }

    /** `or_insert_with` of a tool call not seen before, and its event. */
    method OpenTool(key: nat, call: ToolCall) returns (events: seq<Event>)
      requires key !in tools
      modifies this
      ensures usage == old(usage)
      ensures var st := old(View());
              var item := ToolItem("fc_" + uuids(st.drawn), st.nextOutputIndex, call.id, call.name, "");
              && View() == State(st.drawn + 1, st.nextSequenceNumber + 1, st.nextOutputIndex + 1,
                                 st.text, st.tools[key := item])
              && events == [Event(st.nextSequenceNumber, CallAdded(item.outputIndex, item.id, item.callId, item.name))]
    {
      var item := ToolItem("fc_" + uuids(drawn), nextOutputIndex, call.id, call.name, "");
      drawn := drawn + 1;
      nextOutputIndex := nextOutputIndex + 1;
      var added := Emit(CallAdded(item.outputIndex, item.id, item.callId, item.name));
      events := [added];
      tools := tools[key := item];
    }

    /** The tool-call branch of `apply_chunk`, for the call at `position` in its list. */
    method ApplyCall(position: nat, call: ToolCall) returns (events: seq<Event>)
      modifies this
      ensures usage == old(usage)
      ensures var key := if call.index.Some? then call.index.value else position;
              var (after, bodies) := StepCall(old(View()), uuids, key, call.id, call.name, call.arguments);
              View() == after && events == Stamp(old(nextSequenceNumber), bodies)
    {
      var key := if call.index.Some? then call.index.value else position;
      events := [];
      if key !in tools {
        events := OpenTool(key, call);
      }
      var item := tools[key];
      if call.id != "" {
        item := item.(callId := call.id);
      }
      if call.name != "" {
        item := item.(name := call.name);
      }
      item := item.(arguments := item.arguments + call.arguments);
      tools := tools[key := item];
      if call.arguments != "" {
        var delta := Emit(ArgumentsDelta(item.outputIndex, item.id, call.arguments));
        events := events + [delta];
      }
    }

    method ApplyCalls(calls: seq<ToolCall>) returns (events: seq<Event>)
      modifies this
      ensures usage == old(usage)
      ensures (View(), events) == Run(Stepper(uuids), old(View()), CallDeltas(calls))
    {
      events := [];
      ghost var ds := CallDeltas(calls);
      for position := 0 to |calls|
        invariant usage == old(usage)
        invariant (View(), events) == Run(Stepper(uuids), old(View()), ds[..position])
      {
        RunSnoc(Stepper(uuids), old(View()), ds[..position], ds[position]);
        assert ds[..position + 1] == ds[..position] + [ds[position]];
        var more := ApplyCall(position, calls[position]);
        events := events + more;
      }
      assert ds[..|calls|] == ds;
    }

    method ApplyChoice(choice: Choice) returns (events: seq<Event>)
      requires choice.index == 0
      modifies this
      ensures usage == old(usage)
      ensures (View(), events) == Run(Stepper(uuids), old(View()), ChoiceDeltas(choice))
    {
      events := [];
      ghost var done: seq<Delta> := [];
      if choice.content.Some? && choice.content.value != "" {
        done := [TextDelta(choice.content.value)];
        RunOne(Stepper(uuids), View(), done[0]);
        events := ApplyText(choice.content.value);
      }
      if choice.toolCalls.Some? {
        RunAppend(Stepper(uuids), old(View()), done, CallDeltas(choice.toolCalls.value));
        var more := ApplyCalls(choice.toolCalls.value);
        events := events + more;
      } else {
        assert done + [] == done;
      }
    }

    method ApplyChunk(chunk: Chunk) returns (events: seq<Event>)
      modifies this
      ensures usage == UsageAfter(old(usage), chunk)
      ensures (View(), events) == Run(Stepper(uuids), old(View()), ChoicesDeltas(chunk.choices))
    {
      if chunk.usage.Some? {
        var u := chunk.usage.value;
        usage := ResponseUsage(u.promptTokens, u.completionTokens, u.totalTokens);
      }
      events := [];
      var choices := chunk.choices;
      for i := 0 to |choices|
        invariant usage == UsageAfter(old(usage), chunk)
        invariant (View(), events) == Run(Stepper(uuids), old(View()), ChoicesDeltas(choices[..i]))
      {
        ChoicesSnoc(choices, i);
        RunAppend(Stepper(uuids), old(View()), ChoicesDeltas(choices[..i]), ChoiceDeltas(choices[i]));
        if choices[i].index == 0 {
          var more := ApplyChoice(choices[i]);
          events := events + more;
        } else {
          assert events + [] == events;
        }
      }
      assert choices[..|choices|] == choices;
    }

    /** Takes the text item out of the state and closes it. */
    method FinishText() returns (events: seq<Event>, indexed: seq<(nat, Output)>)
      modifies this`nextSequenceNumber, this`text
      ensures nextSequenceNumber == old(nextSequenceNumber) + |CloseText(old(text))|
      ensures events == Stamp(old(nextSequenceNumber), CloseText(old(text)))
      ensures indexed == TextOutput(old(text))
    {
      events, indexed := [], [];
      if text.Some? {
        var item := text.value;
        text := None;
        var done := Emit(OutputTextDone(item.outputIndex, item.id, item.text));
        var part := Emit(PartDone(item.outputIndex, item.id, item.text));
        var finished := Emit(ItemDone(item.outputIndex, Message(item.id, item.text)));
        events := [done, part, finished];
        indexed := [(item.outputIndex, Message(item.id, item.text))];
      }
    }

    method FinishTool(tool: ToolItem) returns (events: seq<Event>)
      modifies this`nextSequenceNumber
      ensures nextSequenceNumber == old(nextSequenceNumber) + 2
      ensures events == Stamp(old(nextSequenceNumber), CloseTool(tool))
    {
      var done := Emit(ArgumentsDone(tool.outputIndex, tool.id, tool.name, tool.arguments));
      var finished := Emit(ItemDone(tool.outputIndex, CallOutput(tool)));
      events := [done, finished];
    }

    /** The tool loop of `finish_events`. */
    method FinishTools(items: seq<ToolItem>) returns (r: Result<(seq<Event>, seq<(nat, Output)>), StreamError>)
      modifies this`nextSequenceNumber
      ensures r.Err? <==> SomeMalformed(items)
      ensures r.Ok? ==>
                && r.value.0 == Stamp(old(nextSequenceNumber), CloseTools(items))
                && r.value.1 == ToolOutputs(items)
                && nextSequenceNumber == old(nextSequenceNumber) + |CloseTools(items)|
    {
      var events, outputs := [], [];
      for i := 0 to |items|
        invariant forall t <- items[..i] :: !Malformed(t)
        invariant events == Stamp(old(nextSequenceNumber), CloseTools(items[..i]))
        invariant outputs == ToolOutputs(items[..i])
        invariant nextSequenceNumber == old(nextSequenceNumber) + |CloseTools(items[..i])|
      {
        var tool := items[i];
        if Malformed(tool) {
          return Err(MalformedToolCall);
        }
        assert items[..i + 1][..i] == items[..i];
        StampAppend(old(nextSequenceNumber), CloseTools(items[..i]), CloseTool(tool));
        var more := FinishTool(tool);
        events := events + more;
        outputs := outputs + [(tool.outputIndex, CallOutput(tool))];
      }
      assert items[..|items|] == items;
      return Ok((events, outputs));
    }

    /** Fails exactly when some tool call has a blank id or name; otherwise closes everything. */
    method FinishEvents() returns (r: Result<seq<Event>, StreamError>)
      modifies this
      ensures r.Err? <==> SomeMalformed(InKeyOrder(old(tools)))
      ensures r.Ok? ==>
                r.value == ClosingEvents(old(View()),
                  Response(responseId, createdAt, model, Values(SortByIndex(IndexedOutput(old(View())))),
                           CompletedStatus, old(usage)))
    {
      ghost var start, before := nextSequenceNumber, View();
      var events, indexed := FinishText();
      var items := InKeyOrder(tools);
      tools := map[];
      var closed := FinishTools(items);
      if closed.Err? {
        return Err(closed.error);
      }
      indexed := indexed + closed.value.1;
      var response := ResponseValue(CompletedStatus, Values(SortByIndex(indexed)));
      var last := Emit(Completed(response));
      StampThree(start, CloseText(before.text), CloseTools(items), Completed(response));
      r := Ok(events + closed.value.0 + [last]);
    }
  }
}
