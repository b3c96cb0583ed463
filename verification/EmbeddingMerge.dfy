/**
  The batch loop of the embeddings handler (src/api/embeddings.rs): one backend call per
  batch, indices re-based by what was already merged.
 */
module EmbeddingMerge {
  import opened Prelude
  import opened EmbeddingBatches

  datatype Item<E> = Item(embedding: E, index: u32)

  datatype Response<E> = Response(data: seq<Item<E>>, promptTokens: u32, totalTokens: u32)

  /** What the backend answers to the i-th call; answers to different calls are unrelated. */
  type Backend<!E, !F> = (nat, Input) -> Result<Response<E>, F>

  function Rebase<E>(data: seq<Item<E>>, offset: nat): seq<Item<E>> {
    seq(|data|, i requires 0 <= i < |data| => Item(data[i].embedding, WrappingAdd(data[i].index, offset)))
  }

  /** Merging the answers to the first `n` batches, or the first error. */
  function Merged<E, F>(batches: seq<Input>, backend: Backend<E, F>, n: nat): Result<Response<E>, F>
    requires n <= |batches|
  {
    if n == 0 then Ok(Response([], 0, 0))
    else
      match Merged(batches, backend, n - 1)
      case Err(e) => Err(e)
      case Ok(sofar) =>
        match backend(n - 1, batches[n - 1])
        case Err(e) => Err(e)
        case Ok(answer) =>
          Ok(Response(sofar.data + Rebase(answer.data, |sofar.data| % U32_LIMIT),
                      WrappingAdd(sofar.promptTokens, answer.promptTokens),
                      WrappingAdd(sofar.totalTokens, answer.totalTokens)))
  }

  lemma {:induction false} MergedFailsEarly<E, F>(batches: seq<Input>, backend: Backend<E, F>, n: nat, m: nat)
    requires n <= m <= |batches| && Merged(batches, backend, n).Err?
    ensures Merged(batches, backend, m) == Merged(batches, backend, n)
  {
    if n < m {
      MergedFailsEarly(batches, backend, n, m - 1);
    }
  }

  method EmbedBatches<E, F>(batches: seq<Input>, backend: Backend<E, F>) returns (r: Result<Response<E>, F>)
    ensures r == Merged(batches, backend, |batches|)
  {
    var all: seq<Item<E>> := [];
    var promptTokens: u32, totalTokens: u32 := 0, 0;
    for i := 0 to |batches|
      invariant Merged(batches, backend, i) == Ok(Response(all, promptTokens, totalTokens))
    {
      var answer := backend(i, batches[i]);
      if answer.Err? {
        MergedFailsEarly(batches, backend, i + 1, |batches|);
        return Err(answer.error);
      }
      var offset := |all| % U32_LIMIT;
      var batchData := answer.value.data;
      var k := 0;
      while k < |batchData|
        invariant 0 <= k <= |batchData| == |answer.value.data|
        invariant forall j :: 0 <= j < k ==> batchData[j] == Rebase(answer.value.data, offset)[j]
        invariant forall j :: k <= j < |batchData| ==> batchData[j] == answer.value.data[j]
      {
        batchData := batchData[k := batchData[k].(index := WrappingAdd(batchData[k].index, offset))];
        k := k + 1;
      }
      assert batchData == Rebase(answer.value.data, offset);
      all := all + batchData;
      promptTokens := WrappingAdd(promptTokens, answer.value.promptTokens);
      totalTokens := WrappingAdd(totalTokens, answer.value.totalTokens);
    }
    return Ok(Response(all, promptTokens, totalTokens));
  }

  // ----- Chunked equals unchunked --------------------------------------------

  ghost predicate HasIndex<E>(data: seq<Item<E>>, k: nat) {
    exists i :: 0 <= i < |data| && data[i].index == k
  }

  ghost predicate DistinctIndices<E>(data: seq<Item<E>>) {
    forall i, j :: 0 <= i < j < |data| ==> data[i].index != data[j].index
  }

  ghost predicate Correct<E>(item: Item<E>, texts: seq<Text>, embed: Text -> E) {
    item.index < |texts| && item.embedding == embed(texts[item.index])
  }

  /** The data answers the texts: the indices permute 0..n, and item k is the embedding of text k. */
  ghost predicate Answers<E>(data: seq<Item<E>>, texts: seq<Text>, embed: Text -> E) {
    && |data| == |texts|
    && DistinctIndices(data)
    && (forall i :: 0 <= i < |data| ==> Correct(data[i], texts, embed))
    && forall k: nat :: k < |texts| ==> HasIndex(data, k)
  }

  function AllTexts(batches: seq<Input>, n: nat): seq<Text>
    requires n <= |batches|
  {
    if n == 0 then [] else AllTexts(batches, n - 1) + InputTexts(batches[n - 1])
  }

  lemma HasIndexAppend<E>(a: seq<Item<E>>, b: seq<Item<E>>, offset: nat, k: nat)
    ensures HasIndex(a, k) ==> HasIndex(a + Rebase(b, offset), k)
    ensures offset + k < U32_LIMIT && HasIndex(b, k) ==> HasIndex(a + Rebase(b, offset), offset + k)
  {
    var data := a + Rebase(b, offset);
    if HasIndex(a, k) {
      var i :| 0 <= i < |a| && a[i].index == k;
      assert data[i].index == k;
    }
    if offset + k < U32_LIMIT && HasIndex(b, k) {
      var i :| 0 <= i < |b| && b[i].index == k;
      assert data[|a| + i] == Rebase(b, offset)[i];
    }
  }

  lemma RebaseCorrect<E>(b: seq<Item<E>>, x: seq<Text>, y: seq<Text>, embed: Text -> E, i: nat)
    requires i < |b| && Correct(b[i], y, embed) && |x| + |y| < U32_LIMIT
    ensures Correct(Rebase(b, |x|)[i], x + y, embed)
    ensures Rebase(b, |x|)[i].index == b[i].index + |x| >= |x|
  {
  }

  lemma AnswersAppend<E>(a: seq<Item<E>>, x: seq<Text>, b: seq<Item<E>>, y: seq<Text>, embed: Text -> E)
    requires Answers(a, x, embed) && Answers(b, y, embed) && |x| + |y| < U32_LIMIT
    ensures Answers(a + Rebase(b, |x|), x + y, embed)
  {
    var c := Rebase(b, |x|);
    forall i | 0 <= i < |b|
      ensures Correct(c[i], x + y, embed) && c[i].index == b[i].index + |x| >= |x|
    {
      RebaseCorrect(b, x, y, embed, i);
    }
    assert forall i :: 0 <= i < |a| ==> a[i].index < |x| && Correct(a[i], x + y, embed);
    assert DistinctIndices(c);
    forall k: nat | k < |x + y|
      ensures HasIndex(a + c, k)
    {
      if k < |x| {
        HasIndexAppend(a, b, |x|, k);
      } else {
        HasIndexAppend(a, b, |x|, k - |x|);
      }
    }
  }

  /** If each batch is answered correctly, so are all texts together. */
  lemma {:induction false} MergedAnswers<E, F>(batches: seq<Input>, backend: Backend<E, F>, n: nat, embed: Text -> E)
    requires n <= |batches| && |AllTexts(batches, n)| < U32_LIMIT
    requires forall i :: 0 <= i < n ==> Answered(batches, backend, i, embed)
    ensures Merged(batches, backend, n).Ok?
    ensures Answers(Merged(batches, backend, n).value.data, AllTexts(batches, n), embed)
  {
    if n == 0 {
    } else {
      MergedAnswers(batches, backend, n - 1, embed);
      assert Answered(batches, backend, n - 1, embed);
      MergedStep(batches, backend, n);
      AnswersAppend(Merged(batches, backend, n - 1).value.data, AllTexts(batches, n - 1),
                    backend(n - 1, batches[n - 1]).value.data, InputTexts(batches[n - 1]), embed);
    }
  }

  ghost predicate Answered<E, F>(batches: seq<Input>, backend: Backend<E, F>, i: nat, embed: Text -> E)
    requires i < |batches|
  {
    backend(i, batches[i]).Ok? && Answers(backend(i, batches[i]).value.data, InputTexts(batches[i]), embed)
  }

  lemma MergedStep<E, F>(batches: seq<Input>, backend: Backend<E, F>, n: nat)
    requires 0 < n <= |batches|
    requires Merged(batches, backend, n - 1).Ok? && backend(n - 1, batches[n - 1]).Ok?
    requires |Merged(batches, backend, n - 1).value.data| < U32_LIMIT
    ensures Merged(batches, backend, n).Ok?
    ensures Merged(batches, backend, n).value.data
            == Merged(batches, backend, n - 1).value.data
               + Rebase(backend(n - 1, batches[n - 1]).value.data, |Merged(batches, backend, n - 1).value.data|)
  {
    var sofar := Merged(batches, backend, n - 1).value.data;
    SmallLength(|sofar|);
  }

  lemma SmallLength(n: nat)
    requires n < U32_LIMIT
    ensures n % U32_LIMIT == n
  {
  }

  lemma {:induction false} FlattenSnoc(batches: seq<seq<Text>>, n: nat)
    requires n <= |batches|
    ensures AllTexts(Inputs(batches), n) == Flatten(batches[..n])
  {
    if n > 0 {
      FlattenSnoc(batches, n - 1);
      assert batches[..n][..n - 1] == batches[..n - 1];
    } else {
      assert batches[..0] == [];
    }
  }

  /** Chunking neither loses, reorders nor invents texts. */
  lemma ChunksCarryAllTexts(input: Input, limit: nat)
    ensures AllTexts(Chunks(input, limit), |Chunks(input, limit)|) == InputTexts(input)
  {
    match input
    case Single(text) =>
      assert AllTexts([input], 1) == AllTexts([input], 0) + [text];
    case Multiple(texts) =>
      var batches := Greedy([], 0, texts, limit);
      GreedyFlattens([], 0, texts, limit);
      assert [] + texts == texts;
      if batches == [] {
        assert AllTexts([input], 1) == AllTexts([input], 0) + texts;
      } else {
        FlattenSnoc(batches, |batches|);
        assert batches[..|batches|] == batches;
      }
  }

  /**
    If the backend answers every batch correctly, the merged answer to the chunked input
    is a correct answer to the whole input: its indices permute 0..n and the item with
    index k is the embedding of input k.
   */
  lemma ChunkedAnswersInput<E, F>(input: Input, limit: nat, backend: Backend<E, F>, embed: Text -> E)
    requires |InputTexts(input)| < U32_LIMIT
    requires var chunks := Chunks(input, limit);
             forall i :: 0 <= i < |chunks| ==> Answered(chunks, backend, i, embed)
    ensures var r := Merged(Chunks(input, limit), backend, |Chunks(input, limit)|);
            r.Ok? && Answers(r.value.data, InputTexts(input), embed)
  {
    ChunksCarryAllTexts(input, limit);
    MergedAnswers(Chunks(input, limit), backend, |Chunks(input, limit)|, embed);
  }

  /** Two correct answers to the same texts hold the same items: chunked equals unchunked up to order. */
  lemma AnswersAgree<E>(a: seq<Item<E>>, b: seq<Item<E>>, texts: seq<Text>, embed: Text -> E)
    requires Answers(a, texts, embed) && Answers(b, texts, embed)
    ensures forall item :: item in a <==> item in b
  {
    AnswersInclude(a, b, texts, embed);
    AnswersInclude(b, a, texts, embed);
  }

  lemma AnswersInclude<E>(a: seq<Item<E>>, b: seq<Item<E>>, texts: seq<Text>, embed: Text -> E)
    requires Answers(a, texts, embed) && Answers(b, texts, embed)
    ensures forall item :: item in a ==> item in b
  {
    forall item | item in a
      ensures item in b
    {
      var i :| 0 <= i < |a| && a[i] == item;
      assert HasIndex(b, item.index);
      var j :| 0 <= j < |b| && b[j].index == item.index;
      assert b[j] == item;
    }
  }

  /** A refused input, by its position, or an error of the admission or of the backend. */
  datatype Failure<+F> = Oversized(index: nat) | Failed(error: F)

  /** The handler after the model is loaded: rejection, then admission, then chunking and merging. */
  method Embed<E, F>(input: Input, batch: u32, ubatch: u32, admission: Result<(), F>, backend: Backend<E, F>)
    returns (r: Result<Response<E>, Failure<F>>)
    ensures r.Err? && r.error.Oversized? <==> exists text <- InputTexts(input) :: EstimateTokens(text) > ubatch
    ensures (forall text <- InputTexts(input) :: EstimateTokens(text) <= ubatch) ==>
              if admission.Err? then r == Err(Failed(admission.error))
              else
                match Merged(Chunks(input, batch), backend, |Chunks(input, batch)|)
                case Ok(response) => r == Ok(response)
                case Err(e) => r == Err(Failed(e))
    ensures r.Err? && r.error.Oversized? ==>
              && r.error.index < |InputTexts(input)| && EstimateTokens(InputTexts(input)[r.error.index]) > ubatch
              && forall i :: 0 <= i < r.error.index ==> EstimateTokens(InputTexts(input)[i]) <= ubatch
  {
    var admitted := RejectOversizedInputs(input, ubatch);
    if admitted.Err? {
      return Err(Oversized(admitted.error));
    }
    if admission.Err? {
      return Err(Failed(admission.error));
    }
    var chunks := ChunkEmbeddingInput(input, batch);
    var merged := EmbedBatches(chunks, backend);
    r := if merged.Ok? then Ok(merged.value) else Err(Failed(merged.error));
  }
}
