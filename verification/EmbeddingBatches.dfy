/**
  Batching of embedding inputs (src/api/embeddings.rs): rejection, greedy chunking under
  a token budget, and merging the answers of the batches.
 */
module EmbeddingBatches {
  import opened Prelude

  /** A text as its UTF-8 bytes: only the byte length matters here. */
  type Text = seq<byte>

  datatype Input = Single(text: Text) | Multiple(texts: seq<Text>)

  const EMBEDDING_BATCH_FLOOR: u32 := 2048

  function InputTexts(input: Input): seq<Text> {
    match input
    case Single(text) => [text]
    case Multiple(texts) => texts
  }

  /** `(len as u32).div_ceil(4)`: the cast truncates. */
  function EstimateTokens(text: Text): (n: nat)
    ensures n <= 0x4000_0000
  {
    CeilDiv(|text| % U32_LIMIT, 4)
  }

  // ----- Limits and rejection ------------------------------------------------

  function OrElse<T>(a: Option<T>, b: Option<T>): Option<T> {
    if a.Some? then a else b
  }

  function OrDefault<T>(a: Option<T>, default: T): T {
    if a.Some? then a.value else default
  }

  /** The live batch and micro-batch: the runtime profile, then the arguments, then the floor. */
  function EffectiveBatchLimits(profileBatch: Option<u32>, profileUbatch: Option<u32>,
                                argsBatch: Option<u32>, argsUbatch: Option<u32>): (r: (u32, u32))
    ensures profileBatch.Some? ==> r.0 == profileBatch.value
    ensures profileBatch.None? && argsBatch.Some? ==> r.0 == argsBatch.value
    ensures profileBatch.None? && argsBatch.None? ==> r.0 == 2048
    ensures r.1 <= r.0
    ensures profileUbatch.Some? ==> r.1 == profileUbatch.value || r.1 == r.0 < profileUbatch.value
    ensures profileUbatch.None? && argsUbatch.Some? ==> r.1 == argsUbatch.value || r.1 == r.0 < argsUbatch.value
    ensures profileUbatch.None? && argsUbatch.None? ==> r.1 == 2048 || r.1 == r.0 < 2048
  {
    var batch := OrDefault(OrElse(profileBatch, argsBatch), EMBEDDING_BATCH_FLOOR);
    (batch, Min(OrDefault(OrElse(profileUbatch, argsUbatch), EMBEDDING_BATCH_FLOOR), batch))
  }

  /** Fails with the first input whose estimate is over the micro-batch; passes iff there is none. */
  method RejectOversizedInputs(input: Input, ubatch: u32) returns (r: Result<(), nat>)
    ensures r.Ok? <==> forall text <- InputTexts(input) :: EstimateTokens(text) <= ubatch
    ensures input.Single? ==> (r.Ok? <==> EstimateTokens(input.text) <= ubatch)
    ensures input.Multiple? ==> (r.Ok? <==> forall text <- input.texts :: EstimateTokens(text) <= ubatch)
    ensures r.Err? ==>
              && r.error < |InputTexts(input)| && EstimateTokens(InputTexts(input)[r.error]) > ubatch
              && forall i :: 0 <= i < r.error ==> EstimateTokens(InputTexts(input)[i]) <= ubatch
  {
    var texts := InputTexts(input);
    for i := 0 to |texts|
      invariant forall j :: 0 <= j < i ==> EstimateTokens(texts[j]) <= ubatch
    {
      if EstimateTokens(texts[i]) > ubatch {
        return Err(i);
      }
    }
    return Ok(());
  }

  // ----- Batches -------------------------------------------------------------

  function Tokens(texts: seq<Text>): nat {
    if texts == [] then 0 else Tokens(texts[..|texts| - 1]) + EstimateTokens(texts[|texts| - 1])
  }

  /** A batch is one text, or several within the budget. */
  predicate FitsBudget(batch: seq<Text>, limit: nat) {
    |batch| == 1 || (|batch| > 1 && Tokens(batch) <= limit)
  }

  /** A way of cutting the texts, in order, into admissible batches. */
  ghost predicate Partition(batches: seq<seq<Text>>, texts: seq<Text>, limit: nat) {
    Flatten(batches) == texts && forall b <- batches :: FitsBudget(b, limit)
  }

  /** u32 addition as an optimised build performs it. */
  function WrappingAdd(a: nat, b: nat): u32 {
    (a + b) % U32_LIMIT
  }

  /** The loop of `chunk_embedding_input` from an open batch of `tokens` tokens on. */
  function Greedy(current: seq<Text>, tokens: nat, rest: seq<Text>, limit: nat): seq<seq<Text>>
    decreases |rest|
  {
    if rest == [] then if current == [] then [] else [current]
    else
      var t := EstimateTokens(rest[0]);
      if WrappingAdd(tokens, t) > limit && current != []
      then [current] + Greedy([rest[0]], WrappingAdd(0, t), rest[1..], limit)
      else Greedy(current + [rest[0]], WrappingAdd(tokens, t), rest[1..], limit)
  }

  lemma GreedyStep(current: seq<Text>, tokens: nat, texts: seq<Text>, i: nat, limit: nat)
    requires i < |texts|
    ensures var t := EstimateTokens(texts[i]);
            Greedy(current, tokens, texts[i..], limit)
            == if WrappingAdd(tokens, t) > limit && current != []
               then [current] + Greedy([] + [texts[i]], WrappingAdd(0, t), texts[i + 1..], limit)
               else Greedy(current + [texts[i]], WrappingAdd(tokens, t), texts[i + 1..], limit)
  {
    assert texts[i..][1..] == texts[i + 1..];
    assert [] + [texts[i]] == [texts[i]];
  }

  /** The input as batches: a list is cut greedily, an empty list and a single text are passed on. */
  function Chunks(input: Input, limit: nat): seq<Input> {
    match input
    case Single(_) => [input]
    case Multiple(texts) =>
      var batches := Greedy([], 0, texts, limit);
      if batches == [] then [input] else Inputs(batches)
  }

  function Inputs(batches: seq<seq<Text>>): seq<Input> {
    seq(|batches|, i requires 0 <= i < |batches| => Multiple(batches[i]))
  }

  method ChunkEmbeddingInput(input: Input, limit: u32) returns (chunks: seq<Input>)
    ensures chunks == Chunks(input, limit)
  {
    match input
    case Single(_) => return [input];
    case Multiple(texts) =>
      var batches: seq<Input> := [];
      var current: seq<Text> := [];
      var tokens: u32 := 0;
      ghost var done: seq<seq<Text>> := [];
      for i := 0 to |texts|
        invariant done + Greedy(current, tokens, texts[i..], limit) == Greedy([], 0, texts, limit)
        invariant batches == Inputs(done)
      {
        var t := EstimateTokens(texts[i]);
        GreedyStep(current, tokens, texts, i, limit);
        if WrappingAdd(tokens, t) > limit && current != [] {
          batches := batches + [Multiple(current)];
          done := done + [current];
          current := [];
          tokens := 0;
        }
        current := current + [texts[i]];
        tokens := WrappingAdd(tokens, t);
      }
      assert texts[|texts|..] == [];
      if current != [] {
        batches := batches + [Multiple(current)];
        done := done + [current];
      }
      assert done == Greedy([], 0, texts, limit);
      chunks := if batches == [] then [input] else batches;
  }

  // ----- The batches are a partition -----------------------------------------

  /** Largest budget for which no u32 sum in the loop can overflow. */
  const MAX_LIMIT: nat := 0xBFFF_FFFF

  /** The open batch the loop can be in. */
  ghost predicate OpenBatch(current: seq<Text>, tokens: nat, limit: nat) {
    && tokens == Tokens(current)
    && (current == [] || FitsBudget(current, limit))
  }

  lemma NoOverflow(current: seq<Text>, tokens: nat, t: nat, limit: nat)
    requires OpenBatch(current, tokens, limit) && limit <= MAX_LIMIT && t <= 0x4000_0000
    ensures WrappingAdd(tokens, t) == tokens + t && WrappingAdd(0, t) == t
  {
    if |current| == 1 {
      assert Tokens(current) == Tokens([]) + EstimateTokens(current[0]);
    }
  }

  lemma TokensSnoc(texts: seq<Text>, text: Text)
    ensures Tokens(texts + [text]) == Tokens(texts) + EstimateTokens(text)
  {
    assert (texts + [text])[..|texts|] == texts;
  }

  /** The batches hold the texts in order under any budget, overflow or not. */
  lemma {:induction false} GreedyFlattens(current: seq<Text>, tokens: nat, rest: seq<Text>, limit: nat)
    ensures Flatten(Greedy(current, tokens, rest, limit)) == current + rest
    decreases |rest|
  {
    if rest == [] {
      assert current + rest == current;
      if current != [] {
        FlattenCons(current, []);
        assert current + [] == current;
      }
    } else {
      var text, t := rest[0], EstimateTokens(rest[0]);
      if WrappingAdd(tokens, t) > limit && current != [] {
        GreedyFlattens([text], WrappingAdd(0, t), rest[1..], limit);
        FlattenCons(current, Greedy([text], WrappingAdd(0, t), rest[1..], limit));
        assert [text] + rest[1..] == rest;
      } else {
        GreedyFlattens(current + [text], WrappingAdd(tokens, t), rest[1..], limit);
        assert current + [text] + rest[1..] == current + rest;
      }
    }
  }

  /** Closing or extending the open batch keeps it admissible. */
  lemma {:induction false} GreedyFits(current: seq<Text>, tokens: nat, rest: seq<Text>, limit: nat)
    requires OpenBatch(current, tokens, limit) && limit <= MAX_LIMIT
    ensures forall b <- Greedy(current, tokens, rest, limit) :: FitsBudget(b, limit)
    decreases |rest|
  {
    if rest == [] {
    } else {
      var text, t := rest[0], EstimateTokens(rest[0]);
      NoOverflow(current, tokens, t, limit);
      TokensSnoc([], text);
      TokensSnoc(current, text);
      assert [] + [text] == [text];
      if tokens + t > limit && current != [] {
        GreedyFits([text], t, rest[1..], limit);
      } else {
        GreedyFits(current + [text], tokens + t, rest[1..], limit);
      }
    }
  }

  /** The batches are a partition of the open batch and the rest. */
  lemma GreedyPartitions(current: seq<Text>, tokens: nat, rest: seq<Text>, limit: nat)
    requires OpenBatch(current, tokens, limit) && limit <= MAX_LIMIT
    ensures Partition(Greedy(current, tokens, rest, limit), current + rest, limit)
  {
    GreedyFlattens(current, tokens, rest, limit);
    GreedyFits(current, tokens, rest, limit);
  }

  /** A text with the largest estimate there is. */
  function LargestText(): (text: Text)
    ensures EstimateTokens(text) == 0x4000_0000
  {
    seq(0xFFFF_FFFD, i => 0)
  }

  /** Above the largest safe budget, four of the largest texts overflow the sum into one batch. */
  lemma SumOverflows(limit: u32)
    requires limit > MAX_LIMIT
    ensures var big := LargestText();
            && Greedy([], 0, [big, big, big, big], limit) == [[big, big, big, big]]
            && !FitsBudget([big, big, big, big], limit)
  {
    var big, t := LargestText(), 0x4000_0000;
    var texts := [big, big, big, big];
    assert texts[4..] == [] && texts[0..] == texts;
    GreedyStep([], 0, texts, 0, limit);
    assert [] + [big] == [big];
    GreedyStep([big], t, texts, 1, limit);
    assert [big] + [big] == [big, big];
    GreedyStep([big, big], 2 * t, texts, 2, limit);
    assert [big, big] + [big] == [big, big, big];
    GreedyStep([big, big, big], 3 * t, texts, 3, limit);
    assert [big, big, big] + [big] == texts;
    TokensSnoc([], big);
    TokensSnoc([big], big);
    TokensSnoc([big, big], big);
    TokensSnoc([big, big, big], big);
  }

  /** Every list is cut into admissible batches exactly under the budgets that leave room for one more text. */
  lemma BudgetKeptExactly(limit: u32)
    ensures (forall texts :: Partition(Greedy([], 0, texts, limit), texts, limit)) <==> limit <= MAX_LIMIT
  {
    if limit <= MAX_LIMIT {
      forall texts
        ensures Partition(Greedy([], 0, texts, limit), texts, limit)
      {
        GreedyPartitions([], 0, texts, limit);
        assert [] + texts == texts;
      }
    } else {
      SumOverflows(limit);
      var big := LargestText();
      var batches := Greedy([], 0, [big, big, big, big], limit);
      assert batches[0] in batches;
      assert !Partition(batches, [big, big, big, big], limit);
    }
  }

  // ----- No partition has fewer batches --------------------------------------

  lemma {:induction false} TokensMonotone(texts: seq<Text>, n: nat)
    requires n <= |texts|
    ensures Tokens(texts[..n]) <= Tokens(texts)
  {
    if n < |texts| {
      TokensMonotone(texts[..|texts| - 1], n);
      assert texts[..|texts| - 1][..n] == texts[..n];
    } else {
      assert texts[..n] == texts;
    }
  }

  lemma {:induction false} TokensTail(texts: seq<Text>)
    requires texts != []
    ensures Tokens(texts) == EstimateTokens(texts[0]) + Tokens(texts[1..])
  {
    if |texts| <= 1 {
    } else {
      var init := texts[..|texts| - 1];
      TokensTail(init);
      assert texts[1..][..|texts| - 2] == init[1..];
    }
  }

  /** Dropping the first text of a partition leaves a partition with no more batches. */
  lemma DropFirst(batches: seq<seq<Text>>, texts: seq<Text>, limit: nat) returns (fewer: seq<seq<Text>>)
    requires Partition(batches, texts, limit) && texts != []
    ensures Partition(fewer, texts[1..], limit) && |fewer| <= |batches|
  {
    var first, rest := batches[0], batches[1..];
    FlattenFirst(batches);
    assert FitsBudget(first, limit);
    if |first| == 1 {
      fewer := rest;
      assert Flatten(rest) == texts[1..];
    } else {
      fewer := [first[1..]] + rest;
      FlattenCons(first[1..], rest);
      TokensTail(first);
      assert first[1..] + Flatten(rest) == texts[1..];
    }
  }

  lemma {:induction false} DropMany(batches: seq<seq<Text>>, texts: seq<Text>, n: nat, limit: nat)
    returns (fewer: seq<seq<Text>>)
    requires Partition(batches, texts, limit) && n <= |texts|
    ensures Partition(fewer, texts[n..], limit) && |fewer| <= |batches|
    decreases n
  {
    if n == 0 {
      fewer := batches;
    } else {
      fewer := DropFirst(batches, texts, limit);
      fewer := DropMany(fewer, texts[1..], n - 1, limit);
      assert texts[1..][n - 1..] == texts[n..];
    }
  }

  lemma PrefixFits(batch: seq<Text>, n: nat, limit: nat)
    requires FitsBudget(batch, limit) && 2 <= n <= |batch|
    ensures Tokens(batch[..n]) <= limit
  {
    TokensMonotone(batch, n);
  }

  lemma PrefixOfConcat<T>(a: seq<T>, b: seq<T>, first: seq<T>, c: seq<T>)
    requires a + b == first + c && |a| < |first|
    ensures b != [] && first[..|a| + 1] == a + [b[0]]
  {
    assert (a + b)[..|a| + 1] == a + [b[0]];
    assert (first + c)[..|a| + 1] == first[..|a| + 1];
  }

  /** If the open batch cannot take the next text, the first batch of any partition ends by its end. */
  lemma FirstBatchIsShort(current: seq<Text>, rest: seq<Text>, limit: nat, batches: seq<seq<Text>>)
    requires current != [] && rest != [] && Tokens(current) + EstimateTokens(rest[0]) > limit
    requires Partition(batches, current + rest, limit)
    ensures batches != [] && |batches[0]| <= |current|
  {
    assert batches != [];
    FlattenFirst(batches);
    var first := batches[0];
    assert FitsBudget(first, limit);
    TokensSnoc(current, rest[0]);
    if |first| > |current| {
      PrefixOfConcat(current, rest, first, Flatten(batches[1..]));
      PrefixFits(first, |current| + 1, limit);
    }
  }

  /** Greedy chunking is optimal: no admissible way of cutting uses fewer batches. */
  lemma {:induction false} GreedyIsOptimal(current: seq<Text>, tokens: nat, rest: seq<Text>, limit: nat,
                                           batches: seq<seq<Text>>)
    requires OpenBatch(current, tokens, limit) && limit <= MAX_LIMIT
    requires Partition(batches, current + rest, limit)
    ensures |Greedy(current, tokens, rest, limit)| <= |batches|
    decreases |rest|
  {
    if rest == [] {
      assert current + rest == current;
    } else {
      var text, t := rest[0], EstimateTokens(rest[0]);
      NoOverflow(current, tokens, t, limit);
      TokensSnoc([], text);
      TokensSnoc(current, text);
      assert [] + [text] == [text];
      if tokens + t > limit && current != [] {
        FirstBatchIsShort(current, rest, limit, batches);
        var n := |batches[0]|;
        FlattenFirst(batches);
        assert (current + rest)[n..] == Flatten(batches[1..]);
        var fewer := DropMany(batches[1..], Flatten(batches[1..]), |current| - n, limit);
        assert Flatten(batches[1..])[|current| - n..] == [text] + rest[1..];
        GreedyIsOptimal([text], t, rest[1..], limit, fewer);
      } else {
        assert current + [text] + rest[1..] == current + rest;
        GreedyIsOptimal(current + [text], tokens + t, rest[1..], limit, batches);
      }
    }
  }

  /** The chunks of a list: in order, each admissible, and as few as possible. */
  lemma ChunkingIsOptimal(texts: seq<Text>, limit: nat)
    requires limit <= MAX_LIMIT
    ensures var batches := Greedy([], 0, texts, limit);
            && Partition(batches, texts, limit)
            && forall other :: Partition(other, texts, limit) ==> |batches| <= |other|
  {
    assert [] + texts == texts;
    GreedyPartitions([], 0, texts, limit);
    forall other | Partition(other, texts, limit)
      ensures |Greedy([], 0, texts, limit)| <= |other|
    {
      GreedyIsOptimal([], 0, texts, limit, other);
    }
  }

  lemma TokensOfOne(batch: seq<Text>)
    requires |batch| == 1
    ensures Tokens(batch) == EstimateTokens(batch[0])
  {
    assert Tokens(batch[..0]) == 0;
  }

  /** Once no text is oversized, every batch is within the budget, single texts included. */
  lemma AdmittedBatchesFit(texts: seq<Text>, ubatch: nat, limit: nat, batch: seq<Text>)
    requires ubatch <= limit <= MAX_LIMIT
    requires forall text <- texts :: EstimateTokens(text) <= ubatch
    requires batch in Greedy([], 0, texts, limit)
    ensures Tokens(batch) <= limit
  {
    GreedyPartitions([], 0, texts, limit);
    assert [] + texts == texts;
    if |batch| == 1 {
      BatchTextsAreInputs(Greedy([], 0, texts, limit), batch, batch[0]);
      TokensOfOne(batch);
    }
  }

  lemma {:induction false} BatchTextsAreInputs(batches: seq<seq<Text>>, batch: seq<Text>, text: Text)
    requires batch in batches && text in batch
    ensures text in Flatten(batches)
  {
    FlattenFirst(batches);
    if batch != batches[0] {
      BatchTextsAreInputs(batches[1..], batch, text);
    }
  }
}
