/**
  The batches and the merged answer of an embedding request, determined: which cutting
  the greedy one is, and what every field of the merged answer is (src/api/embeddings.rs).
 */
module EmbeddingExact {
  import opened Prelude
  import opened EmbeddingBatches
  import opened EmbeddingMerge

  // ----- Estimates -----------------------------------------------------------

  /** A quarter of the byte length, rounded up, the length being taken in 32 bits. */
  lemma EstimateIs(text: Text)
    ensures var length := |text| % 0x1_0000_0000;
            length <= 4 * EstimateTokens(text) < length + 4
  {
  }

  // ----- The greedy cutting --------------------------------------------------

  /** The batch has no room for the first text of the next. */
  predicate NoRoom(batch: seq<Text>, next: seq<Text>, limit: nat) {
    next != [] && Tokens(batch) + EstimateTokens(next[0]) > limit
  }

  /** No batch could have taken the first text of the next one. */
  ghost predicate Full(batches: seq<seq<Text>>, limit: nat) {
    forall i, j :: 0 <= i < |batches| && 0 <= j < |batches| && j == i + 1 ==> NoRoom(batches[i], batches[j], limit)
  }

  lemma FullCons(first: seq<Text>, rest: seq<seq<Text>>, limit: nat)
    requires Full(rest, limit)
    requires rest != [] ==> NoRoom(first, rest[0], limit)
    ensures Full([first] + rest, limit)
  {
    var all := [first] + rest;
    forall i, j | 0 <= i < |all| && 0 <= j < |all| && j == i + 1
      ensures NoRoom(all[i], all[j], limit)
    {
      assert all[j] == rest[i];
      if i > 0 {
        assert all[i] == rest[i - 1];
      }
    }
  }

  /** The open batch is where the batches begin. */
  lemma {:induction false} GreedyStarts(current: seq<Text>, tokens: nat, rest: seq<Text>, limit: nat)
    requires current != []
    ensures Greedy(current, tokens, rest, limit) != [] && current <= Greedy(current, tokens, rest, limit)[0]
    decreases |rest|
  {
    if rest == [] {
    } else {
      var text, t := rest[0], EstimateTokens(rest[0]);
      if WrappingAdd(tokens, t) > limit {
      } else {
        GreedyStarts(current + [text], WrappingAdd(tokens, t), rest[1..], limit);
      }
    }
  }

  lemma {:induction false} GreedyIsFull(current: seq<Text>, tokens: nat, rest: seq<Text>, limit: nat)
    requires OpenBatch(current, tokens, limit) && limit <= MAX_LIMIT
    ensures Full(Greedy(current, tokens, rest, limit), limit)
    decreases |rest|
  {
    if rest == [] {
    } else {
      var text, t := rest[0], EstimateTokens(rest[0]);
      NoOverflow(current, tokens, t, limit);
      TokensSnoc([], text);
      TokensSnoc(current, text);
      assert [] + [text] == [text];
      if tokens + t > limit && current != [] {
        GreedyIsFull([text], t, rest[1..], limit);
        GreedyStarts([text], t, rest[1..], limit);
        FullCons(current, Greedy([text], t, rest[1..], limit), limit);
      } else {
        GreedyIsFull(current + [text], tokens + t, rest[1..], limit);
      }
    }
  }

  /** The first batch of a full partition is no shorter than that of any other partition. */
  lemma FirstIsLongest(a: seq<seq<Text>>, b: seq<seq<Text>>, texts: seq<Text>, limit: nat)
    requires Partition(a, texts, limit) && Full(a, limit) && Partition(b, texts, limit) && texts != []
    ensures a != [] && b != [] && |b[0]| <= |a[0]|
  {
    assert a != [] && b != [];
    FlattenFirst(a);
    FlattenFirst(b);
    if |a[0]| < |b[0]| {
      var rest := Flatten(a[1..]);
      assert FitsBudget(a[0], limit);
      PrefixOfConcat(a[0], rest, b[0], Flatten(b[1..]));
      assert a[1..] != [];
      FlattenFirst(a[1..]);
      assert a[1..][0] == a[1];
      assert NoRoom(a[0], a[1], limit);
      assert rest[0] == a[1][0];
      FirstBatchIsShort(a[0], rest, limit, b);
    }
  }

  lemma PartitionRest(a: seq<seq<Text>>, texts: seq<Text>, limit: nat)
    requires Partition(a, texts, limit) && Full(a, limit) && a != []
    ensures |a[0]| <= |texts| && a[0] == texts[..|a[0]|] && a[0] != []
    ensures Partition(a[1..], texts[|a[0]|..], limit) && Full(a[1..], limit)
  {
    FlattenFirst(a);
    assert FitsBudget(a[0], limit);
    assert texts[|a[0]|..] == Flatten(a[1..]);
    forall i, j | 0 <= i < |a[1..]| && 0 <= j < |a[1..]| && j == i + 1
      ensures NoRoom(a[1..][i], a[1..][j], limit)
    {
      assert NoRoom(a[i + 1], a[j + 1], limit);
    }
  }

  /** Only one partition is full. */
  lemma {:induction false} FullPartitionUnique(a: seq<seq<Text>>, b: seq<seq<Text>>, texts: seq<Text>, limit: nat)
    requires Partition(a, texts, limit) && Full(a, limit)
    requires Partition(b, texts, limit) && Full(b, limit)
    ensures a == b
    decreases |texts|
  {
    if texts == [] {
      NoBatches(a, limit);
      NoBatches(b, limit);
    } else {
      FirstIsLongest(a, b, texts, limit);
      FirstIsLongest(b, a, texts, limit);
      PartitionRest(a, texts, limit);
      PartitionRest(b, texts, limit);
      FullPartitionUnique(a[1..], b[1..], texts[|a[0]|..], limit);
      assert a == [a[0]] + a[1..] && b == [b[0]] + b[1..];
    }
  }

  lemma NoBatches(a: seq<seq<Text>>, limit: nat)
    requires Partition(a, [], limit)
    ensures a == []
  {
    if a != [] {
      FirstNotEmpty(a, limit);
      FlattenFirst(a);
    }
  }

  lemma FirstNotEmpty(a: seq<seq<Text>>, limit: nat)
    requires a != [] && forall b <- a :: FitsBudget(b, limit)
    ensures a[0] != []
  {
    assert FitsBudget(a[0], limit);
  }

  /** The chunks of a list are exactly the admissible cutting in which no batch could take the next text. */
  lemma GreedyExactly(texts: seq<Text>, limit: nat, batches: seq<seq<Text>>)
    requires limit <= MAX_LIMIT
    ensures batches == Greedy([], 0, texts, limit) <==> Partition(batches, texts, limit) && Full(batches, limit)
  {
    GreedyPartitions([], 0, texts, limit);
    GreedyIsFull([], 0, texts, limit);
    assert [] + texts == texts;
    if Partition(batches, texts, limit) && Full(batches, limit) {
      FullPartitionUnique(batches, Greedy([], 0, texts, limit), texts, limit);
    }
  }

  /** A single text and an empty list are passed on; the batches of any other list are lists. */
  lemma ChunksAre(input: Input, limit: nat)
    requires limit <= MAX_LIMIT
    ensures input.Single? || input.texts == [] ==> Chunks(input, limit) == [input]
    ensures input.Multiple? && input.texts != [] ==>
              exists batches :: Partition(batches, input.texts, limit) && Full(batches, limit)
                                && |Chunks(input, limit)| == |batches|
                                && forall i :: 0 <= i < |batches| ==> Chunks(input, limit)[i] == Multiple(batches[i])
  {
    if input.Multiple? && input.texts != [] {
      var batches := Greedy([], 0, input.texts, limit);
      GreedyExactly(input.texts, limit, batches);
      assert batches != [];
    }
  }

  // ----- The merged answer ---------------------------------------------------

  ghost predicate AllAnswered<E, F>(batches: seq<Input>, backend: Backend<E, F>, n: nat)
    requires n <= |batches|
  {
    forall i :: 0 <= i < n ==> backend(i, batches[i]).Ok?
  }

  /** Items in the answers to the first `n` batches. */
  function Start<E, F>(batches: seq<Input>, backend: Backend<E, F>, n: nat): nat
    requires n <= |batches| && AllAnswered(batches, backend, n)
  {
    if n == 0 then 0 else Start(batches, backend, n - 1) + |backend(n - 1, batches[n - 1]).value.data|
  }

  function PromptTotal<E, F>(batches: seq<Input>, backend: Backend<E, F>, n: nat): nat
    requires n <= |batches| && AllAnswered(batches, backend, n)
  {
    if n == 0 then 0 else PromptTotal(batches, backend, n - 1) + backend(n - 1, batches[n - 1]).value.promptTokens
  }

  function TokenTotal<E, F>(batches: seq<Input>, backend: Backend<E, F>, n: nat): nat
    requires n <= |batches| && AllAnswered(batches, backend, n)
  {
    if n == 0 then 0 else TokenTotal(batches, backend, n - 1) + backend(n - 1, batches[n - 1]).value.totalTokens
  }

  lemma SumInWidth(a: nat, b: nat)
    ensures WrappingAdd(a % U32_LIMIT, b) == (a + b) % U32_LIMIT
  {
  }

  /** With every batch answered: the token counts are the sums in 32 bits, and no item is lost or added. */
  lemma {:induction false} MergedTotals<E, F>(batches: seq<Input>, backend: Backend<E, F>, n: nat)
    requires n <= |batches| && AllAnswered(batches, backend, n)
    ensures Merged(batches, backend, n).Ok?
    ensures var r := Merged(batches, backend, n).value;
            && |r.data| == Start(batches, backend, n)
            && r.promptTokens == PromptTotal(batches, backend, n) % 0x1_0000_0000
            && r.totalTokens == TokenTotal(batches, backend, n) % 0x1_0000_0000
  {
    if n == 0 {
    } else {
      MergedTotals(batches, backend, n - 1);
      var answer := backend(n - 1, batches[n - 1]).value;
      SumInWidth(PromptTotal(batches, backend, n - 1), answer.promptTokens);
      SumInWidth(TokenTotal(batches, backend, n - 1), answer.totalTokens);
    }
  }

  lemma {:induction false} StartsGrow<E, F>(batches: seq<Input>, backend: Backend<E, F>, i: nat, n: nat)
    requires i < n <= |batches| && AllAnswered(batches, backend, n)
    ensures Start(batches, backend, i) + |backend(i, batches[i]).value.data| <= Start(batches, backend, n)
  {
    if i + 1 == n {
    } else {
      StartsGrow(batches, backend, i, n - 1);
    }
  }

  /** Item `j` of the answer to batch `i` stands behind all earlier answers, its index moved by their number. */
  lemma {:induction false} MergedItem<E, F>(batches: seq<Input>, backend: Backend<E, F>, n: nat, i: nat, j: nat)
    requires i < n <= |batches| && AllAnswered(batches, backend, n)
    requires j < |backend(i, batches[i]).value.data|
    ensures var start, item := Start(batches, backend, i), backend(i, batches[i]).value.data[j];
            && Merged(batches, backend, n).Ok? && start + j < |Merged(batches, backend, n).value.data|
            && Merged(batches, backend, n).value.data[start + j]
               == Item(item.embedding, (item.index + start) % 0x1_0000_0000)
  {
    MergedTotals(batches, backend, n);
    StartsGrow(batches, backend, i, n);
    MergedGrows(batches, backend, n);
    if i + 1 == n {
      SumInWidth(Start(batches, backend, i), backend(i, batches[i]).value.data[j].index);
    } else {
      MergedItem(batches, backend, n - 1, i, j);
    }
  }

  lemma MergedGrows<E, F>(batches: seq<Input>, backend: Backend<E, F>, n: nat)
    requires 0 < n <= |batches| && AllAnswered(batches, backend, n)
    ensures Merged(batches, backend, n - 1).Ok? && Merged(batches, backend, n).Ok?
    ensures |Merged(batches, backend, n - 1).value.data| == Start(batches, backend, n - 1)
    ensures Merged(batches, backend, n).value.data
            == Merged(batches, backend, n - 1).value.data
               + Rebase(backend(n - 1, batches[n - 1]).value.data, Start(batches, backend, n - 1) % U32_LIMIT)
  {
    MergedTotals(batches, backend, n - 1);
  }

  /** The first batch that fails decides, and nothing of the others is returned. */
  lemma {:induction false} MergedFirstError<E, F>(batches: seq<Input>, backend: Backend<E, F>, n: nat, i: nat)
    requires i < n <= |batches| && AllAnswered(batches, backend, i) && backend(i, batches[i]).Err?
    ensures Merged(batches, backend, n) == Err(backend(i, batches[i]).error)
  {
    MergedTotals(batches, backend, i);
    assert Merged(batches, backend, i + 1) == Err(backend(i, batches[i]).error);
    MergedFailsEarly(batches, backend, i + 1, n);
  }

  lemma {:induction false} FirstFailure<E, F>(batches: seq<Input>, backend: Backend<E, F>, n: nat) returns (i: nat)
    requires n <= |batches| && !AllAnswered(batches, backend, n)
    ensures i < n && AllAnswered(batches, backend, i) && backend(i, batches[i]).Err?
  {
    if AllAnswered(batches, backend, n - 1) {
      i := n - 1;
    } else {
      i := FirstFailure(batches, backend, n - 1);
    }
  }

  /** A request succeeds exactly when every batch does. */
  lemma MergedSucceedsExactly<E, F>(batches: seq<Input>, backend: Backend<E, F>, n: nat)
    requires n <= |batches|
    ensures Merged(batches, backend, n).Ok? <==> AllAnswered(batches, backend, n)
  {
    if AllAnswered(batches, backend, n) {
      MergedTotals(batches, backend, n);
    } else {
      var i := FirstFailure(batches, backend, n);
      MergedFirstError(batches, backend, n, i);
    }
  }
}
