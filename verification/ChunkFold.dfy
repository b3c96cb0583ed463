/**
  What a list of streamed chunks says, read off the chunks themselves (src/api/responses.rs):
  the text, and per tool call the arguments, the id and the name.
 */
module ChunkFold {
  import opened Prelude
  import opened ChatTypes
  import opened DeltaFold

  // ----- Reading the chunks --------------------------------------------------

  /** Something collected from every choice with index 0, chunk by chunk. */
  function FromChunks<T>(chunks: seq<Chunk>, from: Choice -> seq<T>): seq<T> {
    Flatten(seq(|chunks|, i requires 0 <= i < |chunks| => FromChoices(chunks[i].choices, from)))
  }

  function FromChoices<T>(choices: seq<Choice>, from: Choice -> seq<T>): seq<T> {
    Flatten(seq(|choices|, i requires 0 <= i < |choices| => if choices[i].index == 0 then from(choices[i]) else []))
  }

  /** Something collected from every tool call of a choice that has the key: its index, else its position. */
  function FromCalls<T>(choice: Choice, key: nat, from: ToolCall -> seq<T>): seq<T> {
    if choice.toolCalls.None? then []
    else
      var calls := choice.toolCalls.value;
      Flatten(seq(|calls|, i requires 0 <= i < |calls| =>
        if (if calls[i].index.Some? then calls[i].index.value else i) == key then from(calls[i]) else []))
  }

  function ContentOf(): Choice -> string {
    (c: Choice) => if c.content.Some? then c.content.value else ""
  }

  function NonemptyContent(): Choice -> seq<string> {
    (c: Choice) => if c.content.Some? && c.content.value != "" then [c.content.value] else []
  }

  function ArgumentsFor(key: nat): Choice -> string {
    (c: Choice) => FromCalls(c, key, (call: ToolCall) => call.arguments)
  }

  function IdsFor(key: nat): Choice -> seq<string> {
    (c: Choice) => FromCalls(c, key, (call: ToolCall) => [call.id])
  }

  function NamesFor(key: nat): Choice -> seq<string> {
    (c: Choice) => FromCalls(c, key, (call: ToolCall) => [call.name])
  }

  function NonemptyArgumentsFor(key: nat): Choice -> seq<string> {
    (c: Choice) => FromCalls(c, key, (call: ToolCall) => if call.arguments != "" then [call.arguments] else [])
  }

  /** All content of choice 0, in order. */
  function ChunksText(chunks: seq<Chunk>): string {
    FromChunks(chunks, ContentOf())
  }

  function ChunksArguments(chunks: seq<Chunk>, key: nat): string {
    FromChunks(chunks, ArgumentsFor(key))
  }

  function ChunksIds(chunks: seq<Chunk>, key: nat): seq<string> {
    FromChunks(chunks, IdsFor(key))
  }

  function ChunksNames(chunks: seq<Chunk>, key: nat): seq<string> {
    FromChunks(chunks, NamesFor(key))
  }

  /** `last` is the last value that is not empty, or empty if there is none. */
  ghost predicate IsLastNonempty(values: seq<string>, last: string) {
    if exists v <- values :: v != "" then
      exists i :: 0 <= i < |values| && values[i] == last && last != ""
                  && forall j :: i < j < |values| ==> values[j] == ""
    else last == ""
  }

  // ----- The same from the deltas --------------------------------------------

  function FromDeltas<T>(ds: seq<Delta>, from: Delta -> seq<T>): seq<T> {
    if ds == [] then [] else FromDeltas(ds[..|ds| - 1], from) + from(ds[|ds| - 1])
  }

  lemma FromDeltasSnoc<T>(ds: seq<Delta>, d: Delta, from: Delta -> seq<T>)
    ensures FromDeltas(ds + [d], from) == FromDeltas(ds, from) + from(d)
  {
    assert (ds + [d])[..|ds|] == ds;
  }

  lemma {:induction false} FromDeltasAppend<T>(a: seq<Delta>, b: seq<Delta>, from: Delta -> seq<T>)
    ensures FromDeltas(a + b, from) == FromDeltas(a, from) + FromDeltas(b, from)
    decreases |b|
  {
    if b == [] {
      assert a + b == a;
    } else {
      var init, last := b[..|b| - 1], b[|b| - 1];
      FromDeltasAppend(a, init, from);
      assert a + b == a + init + [last] && b == init + [last];
      FromDeltasSnoc(a + init, last, from);
      FromDeltasSnoc(init, last, from);
    }
  }

  /** What every choice 0 gives, all chunks give. */
  ghost predicate Agrees<T>(delta: Delta -> seq<T>, choice: Choice -> seq<T>) {
    forall c: Choice :: c.index == 0 ==> FromDeltas(ChoiceDeltas(c), delta) == choice(c)
  }

  lemma {:induction false} ChoicesAgree<T>(choices: seq<Choice>, delta: Delta -> seq<T>, choice: Choice -> seq<T>)
    requires Agrees(delta, choice)
    ensures FromDeltas(ChoicesDeltas(choices), delta) == FromChoices(choices, choice)
  {
    var parts :=
      seq(|choices|, i requires 0 <= i < |choices| => if choices[i].index == 0 then choice(choices[i]) else []);
    if choices == [] {
    } else {
      var init, last := choices[..|choices| - 1], choices[|choices| - 1];
      ChoicesAgree(init, delta, choice);
      FromDeltasAppend(ChoicesDeltas(init), ChoiceDeltas(last), delta);
      assert parts[..|parts| - 1]
          == seq(|init|, i requires 0 <= i < |init| => if init[i].index == 0 then choice(init[i]) else []);
      assert FromDeltas(ChoiceDeltas(last), delta) == parts[|parts| - 1];
    }
  }

  lemma {:induction false} ChunksAgree<T>(chunks: seq<Chunk>, delta: Delta -> seq<T>, choice: Choice -> seq<T>)
    requires Agrees(delta, choice)
    ensures FromDeltas(AllDeltas(chunks), delta) == FromChunks(chunks, choice)
  {
    var parts := seq(|chunks|, i requires 0 <= i < |chunks| => FromChoices(chunks[i].choices, choice));
    if chunks == [] {
    } else {
      var init, last := chunks[..|chunks| - 1], chunks[|chunks| - 1];
      ChunksAgree(init, delta, choice);
      ChoicesAgree(last.choices, delta, choice);
      FromDeltasAppend(AllDeltas(init), ChoicesDeltas(last.choices), delta);
      assert parts[..|parts| - 1] == seq(|init|, i requires 0 <= i < |init| => FromChoices(init[i].choices, choice));
    }
  }

  // ----- Text ----------------------------------------------------------------

  function TextPiece(): Delta -> string {
    (d: Delta) => if d.TextDelta? then d.piece else ""
  }

  function NonemptyText(): Delta -> seq<string> {
    (d: Delta) => if d.TextDelta? && d.piece != "" then [d.piece] else []
  }

  lemma {:induction false} CallsGiveNothing<T>(ds: seq<Delta>, from: Delta -> seq<T>)
    requires forall d <- ds :: from(d) == []
    ensures FromDeltas(ds, from) == []
  {
    if ds == [] {
    } else {
      CallsGiveNothing(ds[..|ds| - 1], from);
    }
  }

  /** The delta of the i-th call of a list. */
  predicate IsCallDelta(d: Delta, calls: seq<ToolCall>, i: nat)
    requires i < |calls|
  {
    d == CallDelta(if calls[i].index.Some? then calls[i].index.value else i,
                   calls[i].id, calls[i].name, calls[i].arguments)
  }

  /** The deltas of a choice, written out: its content unless empty, then one per tool call. */
  ghost predicate ArriveAs(ds: seq<Delta>, text: string, calls: seq<ToolCall>) {
    var first := if text == "" then 0 else 1;
    && |ds| == first + |calls|
    && (text != "" ==> ds[0] == TextDelta(text))
    && var rest := ds[first..];
       forall i :: 0 <= i < |calls| ==> IsCallDelta(rest[i], calls, i)
  }

  lemma TextThenCalls(text: string, calls: seq<ToolCall>)
    ensures ArriveAs((if text == "" then [] else [TextDelta(text)]) + CallDeltas(calls), text, calls)
  {
    var ds, first := CallDeltas(calls), if text == "" then [] else [TextDelta(text)];
    assert (first + ds)[|first|..] == ds;
    forall i | 0 <= i < |calls|
      ensures IsCallDelta(ds[i], calls, i)
    {
    }
  }

  /** A choice with another index gives nothing; choice 0 gives its content, then its calls. */
  lemma ChoiceArrivals(c: Choice)
    ensures c.index != 0 ==> ChoiceDeltas(c) == []
    ensures c.index == 0 ==>
              ArriveAs(ChoiceDeltas(c), if c.content.Some? then c.content.value else "",
                       if c.toolCalls.Some? then c.toolCalls.value else [])
  {
    var calls := if c.toolCalls.Some? then c.toolCalls.value else [];
    TextThenCalls(if c.content.Some? then c.content.value else "", calls);
    assert CallDeltas([]) == [];
  }

  lemma ChoiceSplits<T>(c: Choice, from: Delta -> seq<T>)
    requires c.index == 0
    ensures FromDeltas(ChoiceDeltas(c), from)
            == (if c.content.Some? && c.content.value != "" then from(TextDelta(c.content.value)) else [])
               + (if c.toolCalls.Some? then FromDeltas(CallDeltas(c.toolCalls.value), from) else [])
  {
    var text := if c.content.Some? && c.content.value != "" then [TextDelta(c.content.value)] else [];
    var calls := if c.toolCalls.Some? then CallDeltas(c.toolCalls.value) else [];
    FromDeltasAppend(text, calls, from);
    if text != [] {
      assert text[..0] == [] && FromDeltas(text[..0], from) == [];
    }
  }

  lemma TextAgrees()
    ensures Agrees(TextPiece(), ContentOf()) && Agrees(NonemptyText(), NonemptyContent())
  {
    forall c: Choice | c.index == 0
      ensures FromDeltas(ChoiceDeltas(c), TextPiece()) == ContentOf()(c)
      ensures FromDeltas(ChoiceDeltas(c), NonemptyText()) == NonemptyContent()(c)
    {
      ChoiceSplits(c, TextPiece());
      ChoiceSplits(c, NonemptyText());
      if c.toolCalls.Some? {
        CallsGiveNothing(CallDeltas(c.toolCalls.value), TextPiece());
        CallsGiveNothing(CallDeltas(c.toolCalls.value), NonemptyText());
      }
    }
  }

  lemma {:induction false} TextFromDeltas(ds: seq<Delta>)
    ensures TextOf(ds, TextSlot) == FromDeltas(ds, TextPiece())
    ensures Pieces(ds, TextSlot) == FromDeltas(ds, NonemptyText())
  {
    if ds == [] {
    } else {
      var init, last := ds[..|ds| - 1], ds[|ds| - 1];
      TextFromDeltas(init);
      PiecesSnoc(ds, TextSlot);
    }
  }

  lemma PiecesSnoc(ds: seq<Delta>, slot: Slot)
    requires ds != []
    ensures TextOf(ds, slot)
            == TextOf(ds[..|ds| - 1], slot) + if SlotOf(ds[|ds| - 1]) == slot then ds[|ds| - 1].piece else ""
  {
    var before, last := Pieces(ds[..|ds| - 1], slot), ds[|ds| - 1];
    if SlotOf(last) == slot && last.piece != "" {
      assert (before + [last.piece])[..|before|] == before;
    }
  }

  /** The streamed text is all content of choice 0, unchanged and in order; its deltas are the nonempty contents. */
  lemma TextOfChunks(chunks: seq<Chunk>)
    ensures TextOf(AllDeltas(chunks), TextSlot) == ChunksText(chunks)
    ensures Pieces(AllDeltas(chunks), TextSlot) == FromChunks(chunks, NonemptyContent())
  {
    TextFromDeltas(AllDeltas(chunks));
    TextAgrees();
    ChunksAgree(chunks, TextPiece(), ContentOf());
    ChunksAgree(chunks, NonemptyText(), NonemptyContent());
  }

  // ----- Tool calls ----------------------------------------------------------

  function CallPiece(key: nat): Delta -> string {
    (d: Delta) => if SlotOf(d) == CallSlot(key) then d.piece else ""
  }

  function CallId(key: nat): Delta -> seq<string> {
    (d: Delta) => if SlotOf(d) == CallSlot(key) then [d.id] else []
  }

  function CallName(key: nat): Delta -> seq<string> {
    (d: Delta) => if SlotOf(d) == CallSlot(key) then [d.name] else []
  }

  function NonemptyCallPiece(key: nat): Delta -> seq<string> {
    (d: Delta) => if SlotOf(d) == CallSlot(key) && d.piece != "" then [d.piece] else []
  }

  /** The i-th call of a list gives what its delta gives. */
  ghost predicate CallAgrees<T>(key: nat, delta: Delta -> seq<T>, call: ToolCall -> seq<T>) {
    && (forall k: nat, c: ToolCall ::
          delta(CallDelta(k, c.id, c.name, c.arguments)) == if k == key then call(c) else [])
    && forall piece :: delta(TextDelta(piece)) == []
  }

  lemma {:induction false} CallsAgree<T>(calls: seq<ToolCall>, key: nat, delta: Delta -> seq<T>,
                                         call: ToolCall -> seq<T>, n: nat)
    requires CallAgrees(key, delta, call) && n <= |calls|
    ensures FromDeltas(CallDeltas(calls)[..n], delta)
            == Flatten(seq(n, i requires 0 <= i < n =>
                 if (if calls[i].index.Some? then calls[i].index.value else i) == key then call(calls[i]) else []))
  {
    var parts := seq(n, i requires 0 <= i < n =>
      if (if calls[i].index.Some? then calls[i].index.value else i) == key then call(calls[i]) else []);
    var ds := CallDeltas(calls);
    if n == 0 {
    } else {
      CallsAgree(calls, key, delta, call, n - 1);
      assert ds[..n][..n - 1] == ds[..n - 1];
      assert parts[..n - 1] == seq(n - 1, i requires 0 <= i < n - 1 =>
        if (if calls[i].index.Some? then calls[i].index.value else i) == key then call(calls[i]) else []);
    }
  }

  lemma ChoiceCallsAgree<T>(c: Choice, key: nat, delta: Delta -> seq<T>, call: ToolCall -> seq<T>)
    requires c.index == 0 && CallAgrees(key, delta, call)
    ensures FromDeltas(ChoiceDeltas(c), delta) == FromCalls(c, key, call)
  {
    ChoiceSplits(c, delta);
    if c.toolCalls.Some? {
      var calls := c.toolCalls.value;
      CallsAgree(calls, key, delta, call, |calls|);
      assert CallDeltas(calls)[..|calls|] == CallDeltas(calls);
    }
  }

  lemma ArgumentsAgree(key: nat)
    ensures Agrees(CallPiece(key), ArgumentsFor(key)) && Agrees(NonemptyCallPiece(key), NonemptyArgumentsFor(key))
  {
    forall c: Choice | c.index == 0
      ensures FromDeltas(ChoiceDeltas(c), CallPiece(key)) == ArgumentsFor(key)(c)
      ensures FromDeltas(ChoiceDeltas(c), NonemptyCallPiece(key)) == NonemptyArgumentsFor(key)(c)
    {
      ChoiceCallsAgree(c, key, CallPiece(key), (call: ToolCall) => call.arguments);
      ChoiceCallsAgree(c, key, NonemptyCallPiece(key),
                       (call: ToolCall) => if call.arguments != "" then [call.arguments] else []);
    }
  }

  lemma NamesAgree(key: nat)
    ensures Agrees(CallId(key), IdsFor(key)) && Agrees(CallName(key), NamesFor(key))
  {
    forall c: Choice | c.index == 0
      ensures FromDeltas(ChoiceDeltas(c), CallId(key)) == IdsFor(key)(c)
      ensures FromDeltas(ChoiceDeltas(c), CallName(key)) == NamesFor(key)(c)
    {
      ChoiceCallsAgree(c, key, CallId(key), (call: ToolCall) => [call.id]);
      ChoiceCallsAgree(c, key, CallName(key), (call: ToolCall) => [call.name]);
    }
  }

  lemma IsLastSnoc(values: seq<string>, last: string, v: string)
    requires IsLastNonempty(values, last)
    ensures IsLastNonempty(values + [v], if v != "" then v else last)
  {
    var all := values + [v];
    assert all[|values|] == v;
    if v != "" {
      assert v in all;
    } else if exists u <- values :: u != "" {
      var u :| u in values && u != "";
      assert u in all;
      var i :| 0 <= i < |values| && values[i] == last && last != "" && forall j :: i < j < |values| ==> values[j] == "";
      assert all[i] == last && forall j :: i < j < |all| ==> all[j] == "";
    } else {
      assert forall u <- all :: u == "";
    }
  }

  lemma {:induction false} ArgumentsFromDeltas(ds: seq<Delta>, key: nat)
    ensures TextOf(ds, CallSlot(key)) == FromDeltas(ds, CallPiece(key))
    ensures Pieces(ds, CallSlot(key)) == FromDeltas(ds, NonemptyCallPiece(key))
  {
    if ds == [] {
    } else {
      ArgumentsFromDeltas(ds[..|ds| - 1], key);
      PiecesSnoc(ds, CallSlot(key));
    }
  }

  /** What a tool call is announced with. */
  lemma {:induction false} FirstFromDeltas(ds: seq<Delta>, key: nat)
    requires CallSlot(key) in Slots(ds)
    ensures var ids, names := FromDeltas(ds, CallId(key)), FromDeltas(ds, CallName(key));
            && ids != [] && names != []
            && First(ds, CallSlot(key)).CallDelta?
            && First(ds, CallSlot(key)).id == ids[0] && First(ds, CallSlot(key)).name == names[0]
  {
    var init := ds[..|ds| - 1];
    if CallSlot(key) in Slots(init) {
      FirstFromDeltas(init, key);
    } else {
      IdFromDeltas(init, key);
      NamesLikeIds(init, key);
    }
  }

  lemma {:induction false} NamesLikeIds(ds: seq<Delta>, key: nat)
    ensures |FromDeltas(ds, CallId(key))| == |FromDeltas(ds, CallName(key))|
  {
    if ds == [] {
    } else {
      NamesLikeIds(ds[..|ds| - 1], key);
    }
  }

  lemma {:induction false} IdFromDeltas(ds: seq<Delta>, key: nat)
    ensures IsLastNonempty(FromDeltas(ds, CallId(key)), LastId(ds, key))
    ensures CallSlot(key) in Slots(ds) <==> FromDeltas(ds, CallId(key)) != []
  {
    if ds == [] {
    } else {
      var init, last := ds[..|ds| - 1], ds[|ds| - 1];
      IdFromDeltas(init, key);
      if SlotOf(last) == CallSlot(key) {
        IsLastSnoc(FromDeltas(init, CallId(key)), LastId(init, key), last.id);
      } else {
        assert FromDeltas(init, CallId(key)) + [] == FromDeltas(init, CallId(key));
      }
    }
  }

  lemma {:induction false} NameFromDeltas(ds: seq<Delta>, key: nat)
    ensures IsLastNonempty(FromDeltas(ds, CallName(key)), LastName(ds, key))
  {
    if ds == [] {
    } else {
      var init, last := ds[..|ds| - 1], ds[|ds| - 1];
      NameFromDeltas(init, key);
      if SlotOf(last) == CallSlot(key) {
        IsLastSnoc(FromDeltas(init, CallName(key)), LastName(init, key), last.name);
      } else {
        assert FromDeltas(init, CallName(key)) + [] == FromDeltas(init, CallName(key));
      }
    }
  }

  /** A tool call is there if the chunks have one with its key; its parts are those of the chunks. */
  lemma CallOfChunks(chunks: seq<Chunk>, key: nat)
    ensures CallSlot(key) in Slots(AllDeltas(chunks)) <==> ChunksIds(chunks, key) != []
    ensures TextOf(AllDeltas(chunks), CallSlot(key)) == ChunksArguments(chunks, key)
    ensures IsLastNonempty(ChunksIds(chunks, key), LastId(AllDeltas(chunks), key))
    ensures IsLastNonempty(ChunksNames(chunks, key), LastName(AllDeltas(chunks), key))
    ensures Pieces(AllDeltas(chunks), CallSlot(key)) == FromChunks(chunks, NonemptyArgumentsFor(key))
    ensures CallSlot(key) in Slots(AllDeltas(chunks)) ==>
              var first := First(AllDeltas(chunks), CallSlot(key));
              && ChunksNames(chunks, key) != [] && first.CallDelta?
              && first.id == ChunksIds(chunks, key)[0] && first.name == ChunksNames(chunks, key)[0]
  {
    ArgumentsFromDeltas(AllDeltas(chunks), key);
    IdFromDeltas(AllDeltas(chunks), key);
    NameFromDeltas(AllDeltas(chunks), key);
    ArgumentsAgree(key);
    NamesAgree(key);
    ChunksAgree(chunks, CallPiece(key), ArgumentsFor(key));
    ChunksAgree(chunks, CallId(key), IdsFor(key));
    ChunksAgree(chunks, CallName(key), NamesFor(key));
    ChunksAgree(chunks, NonemptyCallPiece(key), NonemptyArgumentsFor(key));
    if CallSlot(key) in Slots(AllDeltas(chunks)) {
      FirstFromDeltas(AllDeltas(chunks), key);
    }
  }

  // ----- Order of arrival ----------------------------------------------------

  /** What comes later adds its new slots behind those already there. */
  lemma {:induction false} SlotsAppend(a: seq<Delta>, b: seq<Delta>)
    ensures Slots(a) <= Slots(a + b)
    ensures forall s :: s in Slots(a + b) <==> s in Slots(a) || s in Slots(b)
    decreases |b|
  {
    if b == [] {
      assert a + b == a;
    } else {
      SlotsAppend(a, b[..|b| - 1]);
      assert (a + b)[..|a + b| - 1] == a + b[..|b| - 1];
    }
  }
}
