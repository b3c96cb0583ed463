# Verified model of the core logic of gguf-switchboard

This project models the parts of the server whose correctness is hard to see by reading
one function: the GGUF integrity check, the streaming pipeline (SSE bytes to chat chunks
to Responses events), the tool-call JSON extractor, embedding batching, merging and
admission, the fit planner with its argument rewriting, and the aggregation of model
options. `dafny verify dfyconfig.toml` checks everything.

How the files fit together:

- `GgufFormat` gives the meaning of a header as functions from bytes and a position to a
  value and the next position. `GgufReader` is the cursor-driven reader, a class proved
  against those functions together with a bound on its loop iterations. `GgufVerdict`
  proves what the verdict means, `GgufRoundTrip` that headers of a typed writer are read
  back, `GgufExact` that nothing else is.
- `SseLines` is the line parser over an upstream of chunks, errors and not-ready polls.
- `ChatTypes` and `DeltaFold` say what a list of deltas accumulates to, `ChunkFold` what
  the chunks themselves say; `ResponseEvents` says what a correct event stream is;
  `ResponseStream` is the streaming state (a class) with its step function; `ResponseRuns`
  proves whole runs correct; `ResponseBatch` relates them to the non-streaming
  conversion; `ResponseServing` is the imperative run and the order of all its events.
- `BraceMatch` is the brace matcher with an independent grammar of balanced text,
  `JsonText` a printer for RFC 8259 (sections 4, 5 and 7), `Classify` the search and verdict.
- `EmbeddingBatches`, `EmbeddingMerge`, `EmbeddingExact` and `Admission` cover one
  embedding request.
- `ArgFlags`, `FitArgs` and `FitLadder` cover flag lists, plans and the fallback ladder.
- `ShardNames`, `ModelOptions`, `ModelAggregation`, `BalancedQuant` and `ModelAliases`
  cover model listing.
- `Prelude`, `Decimal` and `Sorting` hold shared types, u64 arithmetic, decimal numerals and
  the sort by a key.

Where the code and its own documentation disagree, the model follows the code:

- The list of plans at `src/fit.rs:7-11` is not the order the loops produce
  (`src/fit.rs:799-800`). Its contexts and KV types are followed exactly when at most two
  plans are allowed or the request is not above the floor: `FitLadder.DocumentedOrderFollowed`,
  with offload `FitLadder.DocumentedListFollowed`; a request that leaves it is
  `FitLadder.DocumentedOrderDiffers`.
- Reduced offload is said to be triggered on the final attempt always (`src/fit.rs:811`),
  but it is tied to the number of attempts allowed, which a ladder need not reach. When the
  last plan reduces it: `FitLadder.LastAttemptReduces`; an ordinary request where it does
  not: `FitLadder.FinalAttemptNotReduced`.
- `balanced_quant` is documented to pick the size closest to the midpoint
  (`src/config/models_cmd.rs:1928-1932`). Halving before adding loses a unit, so it does so
  for every list with given extreme sizes exactly when both are even or they are at most a
  byte apart: `BalancedQuant.ClosestExactly`.
- The integrity check is documented never to reject a good file for a tensor type it does
  not know (`src/gguf_integrity.rs:221-223`). An empty tensor of such a type at the very
  end of the data is counted as one byte. Which good files pass is
  `GgufVerdict.GoodFilePassesExactly`, for which headers all good files do is
  `GgufVerdict.UnknownTypesLenientExactly`, and a complete file of 64 bytes that is
  rejected is `GgufRoundTrip.EmptyUnknownIsRejected`.
- The concurrency limit of an embedding model is not a cap on permits across a change of
  the limit: `Admission.LimitHoldsExactly`. The queue-depth gauge never comes down again
  for a request dropped while it waits: `Admission.GaugeExactly`.
- The unterminated tail of an event stream is read by different rules than a complete
  line. For which texts the two agree is `SseLines.TailMatchesLine`, what that means for a
  stream is `SseLines.FinalNewlineMattersExactly`, and a text that is yielded without a
  final newline and skipped with one is `SseLines.BareObjectDependsOnNewline`.
- A `-c` flag that is the last argument makes the rewriting panic:
  `ArgFlags.ContextPanicsIff`.

## Model

| member | source | states |
|---|---|---|
| GgufReader.CheckGgufIntegrity | src/gguf_integrity.rs:224-305 | the imperative check returns the specified verdict for every file, and its loop iterations are at most a linear function of the file length, whatever counts the header declares |
| GgufReader.Reader.Bytes | src/gguf_integrity.rs:109-115 | a fixed-size read yields exactly the bytes at the cursor and advances past them, or fails naming the field |
| GgufReader.Reader.Skip | src/gguf_integrity.rs:125-134 | skipping advances the cursor by the length or fails when the file ends first |
| GgufReader.Reader.String | src/gguf_integrity.rs:146-153 | a length-prefixed string within the size ceiling is read as specified |
| GgufReader.Reader.Value | src/gguf_integrity.rs:156-215 | one metadata value of any type is read as specified, nesting bounded, with iterations bounded by the bytes consumed; what the specification accepts is `GgufExact.ValueWritten` |
| GgufReader.Reader.ArrayBody | src/gguf_integrity.rs:189-206 | fixed-width elements are skipped in one checked multiplication, others are read one by one, each consuming at least eight bytes |
| GgufReader.Reader.Pairs | src/gguf_integrity.rs:251-261 | the metadata loop returns the alignment the specification threads through the pairs |
| GgufReader.Reader.Shape | src/gguf_integrity.rs:266-280 | the rank is read and bounded, then its dimensions multiplied |
| GgufReader.Reader.Dims | src/gguf_integrity.rs:270-280 | the dimension loop returns the checked product or the specified error |
| GgufReader.Reader.Table | src/gguf_integrity.rs:263-288 | the tensor loop returns the furthest byte of all tensors described |
| GgufFormat.TypeLayout | src/gguf_integrity.rs:66-102 | exactly the types 0 to 30 without 4 and 5, and 34, 35 and 39, are known; a block is 1, 32 or 256 elements of at most eight bytes each |
| GgufVerdict.BlocksHoldTheirBits | src/gguf_integrity.rs:66-102 | a block of a known type takes the bits its type's name gives each element, and the bytes that stand beside them; no other type is known |
| GgufFormat.RepeatAdvances | src/gguf_integrity.rs:203-205 | a counted loop of reads that each move forward moves forward and stays within the file |
| GgufFormat.PairAt | src/gguf_integrity.rs:252-261 | a metadata pair consumes at least thirteen bytes |
| GgufFormat.TensorAt | src/gguf_integrity.rs:265-282 | a tensor entry consumes at least twenty-four bytes |
| GgufVerdict.VerdictExact | src/gguf_integrity.rs:224-305 | a file passes if and only if its header parses, its aligned data section starts inside it and every tensor, in unbounded arithmetic, ends inside it |
| GgufVerdict.RoundUpExact | src/gguf_integrity.rs:290-295 | for any file length the unchecked alignment round-up cannot overflow |
| GgufVerdict.FurthestExact | src/gguf_integrity.rs:263-288 | the saturating maximum is within a capacity exactly when every exact tensor extent is |
| GgufVerdict.SaturatedSumExact | src/gguf_integrity.rs:296-303 | comparing the file length with the saturated sum decides exact containment |
| GgufVerdict.RequiredExact | src/gguf_integrity.rs:290-303 | the required size of a header is within the file exactly when all tensors are |
| GgufVerdict.GoodFilePassesExactly | src/gguf_integrity.rs:221-305 | a file that holds all its tensors really occupy, whatever the layouts of unknown types, passes exactly when no empty tensor of an unknown type starts at its very end |
| GgufVerdict.UnknownTypesLenientExactly | src/gguf_integrity.rs:221-223 | for any header, no good file with it is rejected for an unknown type exactly when every empty tensor of such a type starts before the end of some tensor, or beyond any file |
| GgufRoundTrip.EmptyUnknownIsRejected | src/gguf_integrity.rs:282-304 | the file of one empty tensor of type 99, complete in 64 bytes under every layout, is reported truncated with 65 bytes required |
| GgufVerdict.TruncationExact | src/gguf_integrity.rs:224-305 | a prefix of k bytes of a file with table end T and required size R passes for k at least both, is reported truncated with k and R for T <= k < R, and has a damaged header for k < T |
| GgufVerdict.ExtensionPasses | src/gguf_integrity.rs:298-304 | appending any bytes to a passing file keeps it passing, with the same header |
| GgufVerdict.CutHeader | src/gguf_integrity.rs:224-288 | reading a cut header gives the same header past its end and damage before it |
| GgufVerdict.CutRepeat | src/gguf_integrity.rs:203-205 | the same for any counted loop, from its reads |
| GgufRoundTrip.HeaderRoundTrip | src/gguf_integrity.rs:224-288 | parsing a header written with typed values, whatever follows it, stops exactly at its end and recovers the alignment and every tensor |
| GgufRoundTrip.WrittenFileVerdict | src/gguf_integrity.rs:290-304 | a written file passes exactly when enough bytes follow its header |
| GgufExact.ValueWritten | src/gguf_integrity.rs:156-215 | conversely, whatever a value read accepts is a written value of that type, within the limits |
| GgufExact.RepeatWritten | src/gguf_integrity.rs:203-288 | a counted loop that succeeds has passed so many written things, one after the other, and folded their values |
| GgufExact.HeaderExactly | src/gguf_integrity.rs:224-288 | a header is readable if and only if the file starts with a written one, and then it is read as that one |
| GgufExact.PassesExactly | src/gguf_integrity.rs:224-304 | a file passes if and only if it is a written header followed by enough bytes for every tensor of its table |
| GgufExact.OutcomeExactly | src/gguf_integrity.rs:235-304 | which of the errors a file gets: not GGUF exactly by its first four bytes, truncated exactly when a written header stands there and a tensor does not fit, damaged exactly otherwise |
| GgufRoundTrip.ReadValue | src/gguf_integrity.rs:156-215 | any metadata value within the format's limits, arrays of arrays included, is read back |
| GgufRoundTrip.FixedWidth | src/gguf_integrity.rs:159-174 | every fixed-size type, by its code, is skipped by as many bytes as the writer gives it: one for U8, I8 and Bool, two for U16 and I16, four for U32, I32 and F32, eight for U64, I64 and F64 |
| GgufRoundTrip.FoldAlignment | src/gguf_integrity.rs:251-261 | the alignment threaded through the pairs is the last positive u32 stored under general.alignment, else 32 |
| GgufRoundTrip.ReadRepeat | src/gguf_integrity.rs:252-288 | a counted loop over consecutive written parts folds their items and stops at their end |
| GgufRoundTrip.FromLeOfToLe | src/gguf_integrity.rs:117-123 | little-endian encoding is read back for every value of the width |
| SseLines.SseLineParser.PollNext | src/backend/llama_cpp.rs:574-650 | a poll yields the next specified item, ends the stream only when none is left, or waits without changing what is to come |
| SseLines.SseLineParser.FindNewline | src/backend/llama_cpp.rs:582 | the first newline of the buffer |
| SseLines.SseLineParser.Collect | src/backend/llama_cpp.rs:571-651 | polling to the end yields exactly the specified items and terminates |
| SseLines.ParseStream | src/backend/llama_cpp.rs:545-651 | draining a fresh parser gives the items of the erased upstream and, without upstream errors, those of its lines and tail |
| SseLines.ChunkingIsIrrelevant | src/backend/llama_cpp.rs:574-650 | two ways of cutting the same bytes into chunks, with any waits, give the same items, those of the line specification |
| SseLines.ItemsAreLines | src/backend/llama_cpp.rs:580-646 | the items of a byte string are its lines interpreted in order, then its tail |
| SseLines.LinesPartition | src/backend/llama_cpp.rs:582-584 | lines and tail partition the bytes |
| SseLines.LinesOfJoin | src/backend/llama_cpp.rs:582-584 | joining lines and a tail and splitting again gives them back |
| SseLines.NothingAfterDone | src/backend/llama_cpp.rs:590-592 | nothing after the terminator line matters |
| SseLines.LineExactly | src/backend/llama_cpp.rs:584-616 | every line but the terminator gives the parse of its trimmed nonempty payload, if it parses, and lets the stream go on; the terminator alone ends it |
| SseLines.StreamExactly | src/backend/llama_cpp.rs:580-645 | the items are the values of all lines up to the first terminator and, if there is none, the value of the tail |
| SseLines.ErrorsDisturbNothing | src/backend/llama_cpp.rs:618-623 | with the upstream's errors taken out, the same values are read |
| SseLines.ErrorWithinLine | src/backend/llama_cpp.rs:618-623 | an error within a line is yielded where it happens and the line goes on behind it |
| Prelude.TrimCuts | src/backend/llama_cpp.rs:584 | trimming cuts white space off both ends and leaves text that neither starts nor ends with any |
| Prelude.TrimmedAway | src/api/responses.rs:501 | nothing is left exactly of white space |
| SseLines.TailMatchesLine | src/backend/llama_cpp.rs:585-645 | for every text that is not blank, tail and complete line are read alike if and only if: with `data: ` the payload is no padded terminator that would parse; with `data:` alone the text parses as its payload does; with no field it does not parse |
| SseLines.TailWithoutSpaceIsNotStripped | src/backend/llama_cpp.rs:634-638 | without the space the tail is handed over prefix and all, the line is not |
| SseLines.FinalNewlineMattersExactly | src/backend/llama_cpp.rs:580-645 | adding the final newline changes the items of a stream of one text exactly when the two readings differ |
| SseLines.BareObjectDependsOnNewline | src/backend/llama_cpp.rs:593-645 | an object without a field is yielded when the newline is missing and skipped when it is there |
| DeltaFold.SlotsDistinct | src/api/responses.rs:341-425 | an item is opened once per slot |
| DeltaFold.SlotsIncreasing | src/api/responses.rs:341-453 | items appear in message order exactly when the deltas arrive in it |
| ChunkFold.TextOfChunks | src/api/responses.rs:341-383 | the streamed text is the content of all choices with index 0, unchanged and in order, and its deltas are the nonempty contents |
| ChunkFold.CallOfChunks | src/api/responses.rs:397-451 | a tool call is there exactly when choice 0 has one with its key (index, else position); its arguments are concatenated, its id and name the last nonempty ones, and it is announced with the first |
| ChunkFold.ChoiceArrivals | src/api/responses.rs:341-399 | a choice with another index gives nothing; choice 0 gives its content unless empty, then one delta per tool call |
| ResponseStream.ResponseStreamState.Emit | src/api/responses.rs:291-300 | an event carries the next sequence number, which advances by one |
| ResponseStream.ResponseStreamState.StartEvents | src/api/responses.rs:316-326 | created and in-progress events with the empty response |
| ResponseStream.ResponseStreamState.ApplyText | src/api/responses.rs:342-395 | a text delta takes the specified step |
| ResponseStream.ResponseStreamState.ApplyCall | src/api/responses.rs:398-451 | a tool-call delta takes the specified step, keyed by its index or position |
| ResponseStream.ResponseStreamState.ApplyChunk | src/api/responses.rs:328-455 | a chunk runs the deltas of its choice 0 and takes over its usage |
| ResponseStream.ResponseStreamState.FinishEvents | src/api/responses.rs:457-543 | fails exactly when a tool call has a blank id or name, else closes every item and completes |
| ResponseStream.RunAppend | src/api/responses.rs:328-455 | running two lists of deltas is running their concatenation |
| ResponseRuns.StepConsistent | src/api/responses.rs:328-455 | every step keeps: numbers without gaps, one life so far per item, the state agreeing with the deltas |
| ResponseRuns.RunKeeps | src/api/responses.rs:328-455 | what every step keeps, every run keeps |
| ResponseRuns.RunExplained | src/api/responses.rs:328-455 | the invariant holds after any deltas |
| Sorting.SortSorts | src/api/responses.rs:532 | sorting by a key gives the same elements in ascending order |
| Sorting.SortStrict | src/api/responses.rs:532 | strictly ascending when no key occurs twice |
| ResponseRuns.SortYieldsTarget | src/api/responses.rs:532-536 | sorting the closed items by index puts item k at position k |
| ResponseRuns.RunTranscript | src/api/responses.rs:316-543 | start, any chunks and a successful finish emit a complete transcript: numbered from 0, created and in progress first, completed last with item k at position k, and between them every item added, its nonempty deltas in order, and done with their concatenation |
| ResponseRuns.FinalUsageIs | src/api/responses.rs:332-338 | the usage reported is that of the last chunk that has one, field by field, else zeros |
| ResponseRuns.MalformedMeansBlank | src/api/responses.rs:501-505 | a run fails exactly when some key's last nonempty id or name, read off the chunks, is white space |
| ResponseRuns.OutputListsChunks | src/api/responses.rs:457-536 | the completed output holds one message with the chunks' text if there is any and one call per key with what the chunks say, at position k under the k-th generated id |
| ResponseRuns.MessageLife | src/api/responses.rs:345-494 | all events of the message, written out from the chunks |
| ResponseRuns.CallLife | src/api/responses.rs:400-530 | all events of a function call, written out from the chunks |
| ResponseServing.RunInOrder | src/api/responses.rs:340-455 | the deltas' events come in the order of arrival |
| ResponseServing.ClosingInOrder | src/api/responses.rs:461-530 | the text is closed first, then the calls by ascending key |
| ResponseServing.RunInWholeOrder | src/api/responses.rs:316-543 | the complete list of event bodies of a run from start to finish |
| ResponseServing.FeedChunks | src/api/responses.rs:316-455 | starting the stream and applying the chunks one after the other is one run of all their deltas |
| ResponseServing.StreamResponse | src/api/responses.rs:261-543 | the imperative run fails exactly when a call of the chunks ends with a blank id or name, and otherwise emits exactly that list of events, a complete transcript whose output lists what the chunks say |
| ResponseEvents.LogStep | src/api/responses.rs:341-453 | the events of one delta extend the life of its item and of no other |
| ResponseEvents.LogClose | src/api/responses.rs:461-530 | the closing events of an item close it and touch no other |
| ResponseBatch.ToResponseOutput | src/api/responses.rs:167-214 | the non-streaming conversion gives the message's text, if any, then its calls in order, each under the generated id of its position, and fails exactly on a malformed call |
| ResponseBatch.MessageTextIs | src/api/responses.rs:169-180 | the text of a message: the whole text, the text parts concatenated without the images, or nothing |
| ResponseBatch.MalformedMeansBlank | src/api/responses.rs:195-198 | malformed is another kind than function, or an id or name of white space |
| ResponseBatch.StreamingRefinesBatch | src/api/responses.rs:328-543 | up to ids the streamed output is a permutation of the converted folded message; slot order agrees exactly for deltas in message order, and then the outputs are equal |
| ResponseBatch.SameFailures | src/api/responses.rs:195-202 | one path fails on a blank id or name exactly when the other does |
| ResponseBatch.FoldedOutput | src/api/responses.rs:167-214 | the conversion of the folded message lists its slots in message order |
| ResponseBatch.OrderAgrees | src/api/responses.rs:341-453 | announcement order is message order exactly for deltas in message order |
| BraceMatch.FindMatchingBrace | src/conformance/classify.rs:227-255 | the loop returns the specified match, the depth counter staying within the text length |
| BraceMatch.BalancedBraceSpans | src/conformance/classify.rs:210-225 | the loop returns the texts of all spans in order |
| BraceMatch.MatchIffBalanced | src/conformance/classify.rs:227-255 | the matcher stops at a position exactly when the text up to it is one balanced pair of braces of an independent grammar with strings and escapes |
| BraceMatch.BalancedIsMatched | src/conformance/classify.rs:227-255 | a balanced pair of braces is matched at its last byte wherever it stands |
| BraceMatch.SpansAreMatches | src/conformance/classify.rs:210-225 | spans are in order, disjoint, and each is a brace with its match |
| BraceMatch.SpansAreComplete | src/conformance/classify.rs:210-225 | every matched opening brace lies in a span |
| JsonText.BalancedJson | src/conformance/classify.rs:208-255 | every JSON text is balanced, whatever its strings contain |
| JsonText.ObjectIsMatched | src/conformance/classify.rs:227-255 | for every JSON object in any surrounding text the matcher stops exactly at its last byte |
| JsonText.ObjectIsSpan | src/conformance/classify.rs:210-225 | a printed object is a span of its own exactly when no span opened before it reaches it |
| JsonText.ObjectIsFirstSpan | src/conformance/classify.rs:210-225 | the object is the first span exactly when no brace before it has a match |
| JsonText.ObjectIsFirstText | src/conformance/classify.rs:217-220 | and its text is exactly the printed object |
| Classify.Find | src/conformance/classify.rs:184-197 | the search returns the first occurrence |
| Classify.FirstOccurrenceIsFirst | src/conformance/classify.rs:184-197 | an occurrence, none before it, and none at all when it fails |
| Classify.CollectBetween | src/conformance/classify.rs:180-206 | the loop collects the trimmed texts between successive tags, up to an unclosed one |
| Classify.BetweenFirst | src/conformance/classify.rs:183-203 | a part whose own opening and closing tags are the first to occur is split off, whatever follows |
| Classify.BetweenOfComposed | src/conformance/classify.rs:180-206 | the candidates of a text composed of any number of tagged parts are the texts inside the tags, trimmed, in order |
| Classify.BetweenDecomposes | src/conformance/classify.rs:180-206 | every text is so composed, up to a tail without a closed tag |
| Classify.FindToolCallShapedJson | src/conformance/classify.rs:166-175 | the first candidate of tool-call shape, tags before fences before spans |
| Classify.CandidatePrecedence | src/conformance/classify.rs:166-192 | the first shaped tagged text is found, if none the first shaped fenced one, if none the first shaped brace span, whatever unshaped candidates come before |
| Classify.ObjectIsFoundExactly | src/conformance/classify.rs:166-225 | a tool-call object anywhere in any text is what is found exactly when no brace span opened before it reaches it and no tagged, fenced or earlier brace text has the shape |
| Classify.PickedIsSpan | src/conformance/classify.rs:166-225 | what is found without a tag or fence is the text of a brace span |
| Classify.ObjectInProseIsFound | src/conformance/classify.rs:166-225 | in particular in prose, whatever the object contains |
| Classify.TaggedCallIsFound | src/conformance/classify.rs:184-192 | a call between the tags, given byte for byte, at the start of a text is what is found |
| Classify.FencedCallIsFound | src/conformance/classify.rs:195-203 | so is a call in a json fence, where there is no opening tag |
| Classify.ClassifyMessage | src/conformance/classify.rs:69-139 | the location is decided by structured calls, then content, then reasoning, each exactly, with the snippet found, the calls, and the notes: one per call whose arguments are not JSON, or what was found where |
| Classify.ExtractTextIs | src/conformance/classify.rs:141-163 | a whole text as it is, joined parts only if anything is in them |
| Classify.JoinAppend | src/conformance/classify.rs:145-156 | joining two lists of parts puts one newline between, where both have text |
| Classify.JoinOne | src/conformance/classify.rs:145-156 | one text is itself, images and no parts give none |
| Classify.NotesAppend | src/conformance/classify.rs:77-86 | the notes of two lists of calls stand one after the other |
| Classify.NoteOfOne | src/conformance/classify.rs:79-84 | a call is noted, by its name, exactly when its arguments are not JSON |
| EmbeddingBatches.EffectiveBatchLimits | src/api/embeddings.rs:32-45 | profile before arguments before the floor, for each size, the micro-batch cut down to the batch |
| EmbeddingBatches.RejectOversizedInputs | src/api/embeddings.rs:58-74 | passes exactly when no estimate exceeds the micro-batch, else names the first that does |
| EmbeddingBatches.ChunkEmbeddingInput | src/api/embeddings.rs:80-110 | the loop produces the greedy batches |
| EmbeddingBatches.GreedyPartitions | src/api/embeddings.rs:88-101 | the batches concatenate to the input and each is a single text or within budget |
| EmbeddingBatches.GreedyFlattens | src/api/embeddings.rs:88-101 | the batches hold all texts in order under any budget |
| EmbeddingBatches.BudgetKeptExactly | src/api/embeddings.rs:84-97 | every list is cut into admissible batches exactly under the budgets for which no u32 sum can overflow |
| EmbeddingBatches.GreedyIsOptimal | src/api/embeddings.rs:80-110 | no admissible way of cutting the texts uses fewer batches |
| EmbeddingBatches.ChunkingIsOptimal | src/api/embeddings.rs:80-110 | the chunks of a list are a partition, and a smallest one |
| EmbeddingBatches.AdmittedBatchesFit | src/api/embeddings.rs:58-110 | once no input is oversized, every batch is within the budget |
| EmbeddingBatches.NoOverflow | src/api/embeddings.rs:89-97 | token sums of an open batch cannot overflow u32 |
| EmbeddingExact.EstimateIs | src/api/embeddings.rs:20-24 | the estimate is a quarter of the byte length in 32 bits, rounded up |
| EmbeddingExact.GreedyExactly | src/api/embeddings.rs:80-110 | the batches of a list are exactly the admissible cutting in which no batch has room for the first text of the next |
| EmbeddingExact.ChunksAre | src/api/embeddings.rs:80-110 | a single text and an empty list are passed on, any other list becomes that cutting |
| EmbeddingMerge.EmbedBatches | src/api/embeddings.rs:175-209 | the loop merges the answers with re-based indices, or stops at the first error |
| EmbeddingExact.MergedTotals | src/api/embeddings.rs:188-191 | with every batch answered, both token counts are the sums over the batches in 32 bits, and the items are as many as all answers have |
| EmbeddingExact.MergedItem | src/api/embeddings.rs:179-186 | item j of batch i stands behind all earlier answers with its embedding, its index moved by their number |
| EmbeddingExact.MergedFirstError | src/api/embeddings.rs:175-176 | the error of the first batch that fails is the result |
| EmbeddingExact.MergedSucceedsExactly | src/api/embeddings.rs:175-209 | the result is an answer exactly when every batch is answered |
| EmbeddingMerge.Embed | src/api/embeddings.rs:152-209 | one request: rejected for the first oversized input before admission is asked, refused with the admission's error before any backend call, else chunked and merged |
| EmbeddingMerge.MergedAnswers | src/api/embeddings.rs:179-209 | if each batch is answered correctly, so are all texts together |
| EmbeddingMerge.ChunksCarryAllTexts | src/api/embeddings.rs:80-110 | chunking neither loses, reorders nor invents texts |
| EmbeddingMerge.ChunkedAnswersInput | src/api/embeddings.rs:163-209 | the merged indices permute 0..n and the item with index i is the embedding of input i |
| EmbeddingMerge.AnswersAgree | src/api/embeddings.rs:163-209 | chunked and unchunked answers hold the same items |
| Admission.EmbeddingAdmission.constructor | src/embedding_admission.rs:17-22 | no gates at first |
| Admission.EmbeddingAdmission.OpenGate | src/embedding_admission.rs:31-44 | find, make or replace the gate of a model |
| Admission.EmbeddingAdmission.Enter | src/embedding_admission.rs:29-50 | the lookup step: clone the gate's semaphore and start to wait |
| Admission.EmbeddingAdmission.Grant | src/embedding_admission.rs:51-58 | a permit is taken and the wait ends |
| Admission.EmbeddingAdmission.TimeOut | src/embedding_admission.rs:59-66 | the wait ends without a permit and the error asks for a delay of at least a second |
| Admission.EmbeddingAdmission.Release | src/embedding_admission.rs:24-28 | dropping the permit returns it to its own semaphore |
| Admission.RunConserves | src/embedding_admission.rs:24-69 | in every run, for every semaphore, permits held and available make its capacity |
| Admission.ReplacedOnlyWhenIdle | src/embedding_admission.rs:38-43 | entering replaces a gate exactly when its limit differs and none of its permits is held |
| Admission.OtherStepsKeepGates | src/embedding_admission.rs:29-45 | no other step touches a model's gate |
| Admission.CurrentGateWithinLimit | src/embedding_admission.rs:29-45 | in every run the permits out on the current gate are within its limit |
| Admission.CapIsReached | src/embedding_admission.rs:29-58 | if every request for a model asks for a, then at most a permits (one if a is zero) are out in every run, and in some run exactly so many are |
| Admission.RetiredOnlyDrains | src/embedding_admission.rs:38-45 | a replaced semaphore never comes back, and the requests using it only become fewer |
| Admission.LimitHoldsExactly | src/embedding_admission.rs:24-69 | for requests with two concurrencies, the larger limit caps the permits out in every run exactly when both mean the same limit |
| Admission.OverrunExceeds | src/embedding_admission.rs:38-51 | a run in which a request that looked up the old gate is admitted beside a full new one |
| Admission.GaugeExactly | src/embedding_admission.rs:48-50 | the queue-depth gauge is the number waiting plus one for every request dropped while waiting |
| ArgFlags.FindValueIndex | src/batch.rs:83-90 | the first flag of a family with something after it |
| ArgFlags.FindUncheckedIndex | src/context.rs:56-63 | the position after the first context flag, even past the end |
| ArgFlags.WithValue | src/batch.rs:13-23 | replace the value of the first flag, or append flag and value |
| ArgFlags.WithContextValue | src/context.rs:12-22 | the same with the unchecked index, whose out-of-range write is the failure |
| ArgFlags.ContextPanicsIff | src/context.rs:12-63 | it panics exactly when the only context flag is the last token |
| ArgFlags.PutGet | src/batch.rs:7-23 | a written value is read back exactly when a value slot existed or no dangling flag of the family ends the list |
| ArgFlags.PutKeepsWellFormed | src/batch.rs:13-42 | on a well-formed list every value is read back and the list stays well-formed |
| ArgFlags.PutSame | src/batch.rs:13-42 | writing the value already there changes nothing |
| ArgFlags.PutElsewhere | src/ngl.rs:30-49 | other flag families keep their values, in the same place |
| ArgFlags.PutTouchesOneToken | src/fit.rs:405-416 | only the token after a flag of the family changes, only flag and value are added |
| ArgFlags.UncheckedIsSafe | src/context.rs:56-63 | on a well-formed list the unchecked index finds the same slot, in range |
| ArgFlags.PutAllTouchesValues | src/fit.rs:355-401 | independent settings change only the value slots of their own families |
| ArgFlags.PutAllAppends | src/fit.rs:355-401 | and append flag and value, in order, of exactly the families that had no slot |
| ArgFlags.PutAllIdempotent | src/fit.rs:355-401 | applying independent settings twice is applying them once |
| FitArgs.ApplyPlanToArgs | src/fit.rs:355-401 | the imperative rewriting gives the specified list, panicking exactly on a dangling context flag |
| FitArgs.PlanIsLens | src/fit.rs:355-416 | on a well-formed list every family reads back the plan's value or, unset, its old one; only the value slots of families the plan sets change; what is added is exactly a flag and a value for each such family without a slot; the list stays well-formed; applying twice is applying once |
| FitArgs.PlanReadsBack | src/fit.rs:355-401 | the typed readers of context, ngl and both batch sizes return the plan's numbers through decimal printing and parsing |
| FitArgs.PlanInFlags | src/fit.rs:355-401 | every flag family, spelled out, reads back its own part of the plan |
| FitArgs.PlanFromNothing | src/fit.rs:355-416 | written into no arguments a plan gives each flag in its short spelling, in order |
| Decimal.ParseOfPrint | src/batch.rs:9-20 | a printed number is parsed back for every number of the type |
| Decimal.PrintDigits | src/batch.rs:9-20 | a printed number has the digit of each power of ten, the ones last, without leading zeros |
| Decimal.ParseExactly | src/config/models_cmd.rs:1884-1885 | a text is parsed as n if and only if it is n printed, after any zeros and one optional plus |
| FitLadder.BuildFallbackLadder | src/fit.rs:734-914 | the nested loops produce the first max(1, max_attempts) pairs of contexts and KV types, numbered from 1, and never none |
| FitLadder.RungInNumbers | src/fit.rs:789-809 | plan k carries number k + 1, default KV when k is even and q8_0 when it is odd, and the given splits |
| FitLadder.ContextInNumbers | src/fit.rs:776-800 | the context of plan k is the request, three quarters, half or a quarter of it by k / 2, or the floor |
| FitLadder.RequestInNumbers | src/fit.rs:740-748 | a pooling model's request is capped at 16384, 8192, 4096 or 2048 by the memory left, with the thresholds in MB |
| FitLadder.FloorInNumbers | src/fit.rs:749-754 | the floor is 4096, or 2048 for a pooling model, or the configured one if higher |
| FitLadder.DefaultInNumbers | src/fit.rs:756-766 | the default offload is the pinned value or 999, 999 if the file fits or its layers are unknown, else the greatest number of layers whose share of the file fits |
| FitLadder.OffloadInNumbers | src/fit.rs:811-847 | plan k offloads the default or, on a reduced attempt, the greatest number of layers below it that is within the share of the attempts left, at least one |
| FitLadder.BatchesInNumbers | src/fit.rs:849-867 | a pooling model with more than 8192 MB to spare gets batches 4096, 3072 and then 2048, else 2048 throughout, micro-batch and batch alike; other models get none |
| FitLadder.DescendingSorts | src/fit.rs:785-787 | sort, dedup and reverse give a strictly descending list of the same values |
| FitLadder.ContextsDescend | src/fit.rs:776-787 | contexts strictly descend from the request and never go below the model's floor |
| FitLadder.NoProfileTwice | src/fit.rs:799-805 | no pair of context and KV type is tried twice, and contexts never increase |
| FitLadder.FourStepsAre | src/fit.rs:776-787 | sorting, dedup and reversal of the four clamped ratios leave the value, its fractions above the floor, then the floor |
| FitLadder.LadderLengthIs | src/fit.rs:799-805 | the number of plans is the lesser of the attempts and twice the distinct contexts, and exceeds two exactly when more than two are allowed and the request is above the floor |
| FitLadder.DocumentedOrderFollowed | src/fit.rs:7-11 | the contexts and KV types of the header list are followed exactly when at most two plans are allowed or the request is not above the floor |
| FitLadder.DocumentedListFollowed | src/fit.rs:7-11 | and the offload column too exactly when, besides, the plans end before the reduced attempts or there is nothing to reduce |
| FitLadder.DocumentedOrderDiffers | src/fit.rs:7-11 | a request for 8192 over a floor of 4096 gets 6144 tokens at the default KV type as its third plan |
| FitLadder.NglNeverIncreases | src/fit.rs:811-847 | the offload of consecutive plans of the ladder never increases |
| FitLadder.LastAttemptReduces | src/fit.rs:811-822 | the last plan of the ladder offloads less than the default if and only if the default exceeds one and the attempts are at most twice the contexts, or two more when the weights do not fit |
| FitLadder.FinalAttemptNotReduced | src/fit.rs:811-822 | a request with two plans out of five allowed whose last still offloads everything |
| FitLadder.OffloadFitsVram | src/fit.rs:756-766 | unpinned weights beyond the usable VRAM: no rung offloads more layers than fit |
| FitLadder.ShareBelowLayers | src/fit.rs:763-765 | the u64 quotient always fits u32, so the conversion never falls back |
| FitLadder.ReductionInRange | src/fit.rs:822-829 | the arithmetic of reduced rungs cannot overflow |
| FitLadder.PoolingBatches | src/fit.rs:849-867 | on any hardware every rung of a pooling model has floor <= ubatch <= batch, batch never increasing |
| FitLadder.ShortInputsAdmitted | src/batch.rs:44-76 | an input of at most 2048 estimated tokens is admitted under any rung's profile, whose budget is overflow-free |
| FitLadder.FitPlanner.Advance | src/fit.rs:303-319 | the next rung, or none from the end on |
| FitLadder.FailEveryAttempt | src/fit.rs:297-324 | a caller whose every attempt fails tries each rung once in order, then gets none for good |
| ShardNames.SplitModelPartExactly | src/config/models_cmd.rs:1878-1888 | a path is split into a prefix, an index and a total if and only if it spells them: dash, `-of-`, numbers that parse with 1 <= index <= total, and a GGUF extension in any case |
| ShardNames.ShardNameRoundTrip | src/config/models_cmd.rs:1878-1888 | a shard name is split into its prefix, index and total, whatever the prefix contains and however the numbers are padded |
| ShardNames.SuffixIs | src/config/models_cmd.rs:1880 | the extension is a dot and the letters g, g, u, f in either case |
| ShardNames.SplitOfJoin | src/config/models_cmd.rs:1883-1884 | splitting at the last separator undoes joining |
| ModelAggregation.CompleteModelOptions | src/config/models_cmd.rs:1977-2030 | for any listing and any iteration order of the maps, the sorted list of each quant on offer with its least size over single files and complete shard sets |
| ModelAggregation.OrderOfListingIsIrrelevant | src/config/models_cmd.rs:1977-2030 | listings with the same multiset of files give the same list |
| ModelAggregation.GroupDecides | src/config/models_cmd.rs:1985-1992 | what the loop keeps of a prefix decides exactly whether its shards are a complete set (equal totals, each index from 1 to the total once, sum within u64) and of which size |
| ModelAggregation.ScanEntries | src/config/models_cmd.rs:1981-2001 | the first loop keeps the least size per quant of the single files and the group of every prefix |
| ModelAggregation.TotalSize | src/config/models_cmd.rs:2003-2007 | the checked sum in index order, none exactly when the group is not whole or the sum overflows |
| ModelAggregation.AddSets | src/config/models_cmd.rs:2003-2018 | the second loop adds exactly the offers of whole groups, in any order |
| ModelAggregation.SortOptions | src/config/models_cmd.rs:2020-2029 | the entries of the map, each once, strictly sorted by size and name |
| ModelOptions.GroupRecords | src/config/models_cmd.rs:1985-1992 | a group is valid exactly when its shards are pairwise compatible, and then records each of them |
| ModelOptions.OptionListUnique | src/config/models_cmd.rs:1977-2030 | the option list is determined by the multiset of files |
| ModelOptions.ListedBefore | src/config/models_cmd.rs:2020-2029 | options are listed by size, equal sizes by name |
| ModelOptions.StringLessExactly | src/config/models_cmd.rs:2027-2028 | names are ordered by the first character in which they differ, a shorter one first |
| ModelOptions.OneFileOffered | src/config/models_cmd.rs:1994-2000 | a listing of one model file offers its quant at its size |
| ModelOptions.OneSetOffered | src/config/models_cmd.rs:2003-2018 | a listing of both shards of two offers the prefix's quant at their sum |
| ModelOptions.HalfASetIsNotOffered | src/config/models_cmd.rs:2003-2018 | a listing of one shard of two offers nothing |
| ModelOptions.OtherFilesAreIgnored | src/config/models_cmd.rs:1981-1984 | a file that is no model file changes no listing's options |
| ModelOptions.NamelessIsNotListed | src/config/models_cmd.rs:1994-2018 | no option has an empty name |
| ModelOptions.QuantListedOnce | src/config/models_cmd.rs:2020-2029 | each quant is listed once |
| BalancedQuant.BalancedQuant | src/config/models_cmd.rs:1944-1975 | none exactly for no options, else name and estimates of the first entry of the option preferred to all others: nearest the computed midpoint, then smaller, then first by name |
| BalancedQuant.BalancedUnique | src/config/models_cmd.rs:1961-1969 | the choice depends only on the set of options |
| BalancedQuant.ClosestExactly | src/config/models_cmd.rs:1918-1959 | every list with these extreme sizes gets the option closest to their exact midpoint if and only if both are even or they are at most one apart |
| ModelAliases.DedupeAlias | src/config/models_cmd.rs:2296-2308 | a name not in use, the alias itself if free, else the least free suffix from 2, after trying at most one more name than are used |
| ModelAliases.TakenAreFew | src/config/models_cmd.rs:2300-2307 | pigeonhole: taken candidates are distinct members of the used names |
| ModelAliases.CandidatesDiffer | src/config/models_cmd.rs:2302 | different suffixes give different names, none of them the alias |
| ModelAliases.CandidateSpells | src/config/models_cmd.rs:2302 | a candidate is the alias, a dash and the counter in decimal |
| ModelAliases.AssignAliases | src/config/models_registry.rs:2267-2280 | models named in turn, each name taken from then on |
| ModelAliases.NamesAreDistinct | src/config/models_registry.rs:2267-2280 | names given in turn are pairwise distinct, and one wanted first is given as it is unless already given away |

## Left out

- The scheduler, process control, HTTP forwarding, downloads, configuration files, the
  registry, metrics other than the queue-depth gauge, and the command line: input, output
  and foreign calls.
- GGUF: errors of the file system (`Unreadable`), `scan_dir` and the display of sizes. The
  file is its bytes; allocation for strings is not modelled. The one unchecked
  multiplication is written with its wrap-around, which `GgufVerdict.RoundUpExact` shows
  never happens.
- JSON parsing, UTF-8 decoding and the shape test of tool calls are parameters of the
  models: any function of the bytes. The upstream of the SSE parser is assumed to stay
  ended once it has ended.
- Responses: ids come from an arbitrary supply indexed by draws; constant fields (roles,
  status strings inside items, empty annotation lists) are dropped; counters are unbounded;
  the handler's branch for an upstream error and the serialization of events are left out.
- GgufFormat.TypeLayout: the bytes that stand beside the elements of a block (scales, minima,
  codes) are those the table of the source implies; nothing derives them.
- GGUF: which field a damaged header names is part of the specification, and no law of its own
  is stated about the wording.
- JsonText.BalancedJson: numbers and literals are any bytes those are made of, a superset
  of RFC 8259, and blanks are arbitrary; a text with more than 2^31 nested braces would
  overflow the counter of the original, which is bounded by the text length here.
- Classify.ClassifyMessage: texts are their UTF-8 bytes, so slicing at byte positions needs no
  character boundary check; the notes are modelled by what they say, not by their wording.
- EmbeddingMerge.Embed: the admission step is its outcome, a permit or an error; when permits
  are granted is the `Admission` module. Holding and releasing the permit is not part of it.
- EmbeddingMerge.EmbedBatches: the backend is any function of a batch and its position,
  and u32 sums wrap as in an optimised build; logging, the model name and passed-through request
  fields are dropped.
- EmbeddingBatches.ChunkEmbeddingInput: u32 sums wrap as in an optimised build; a checked
  build panics instead, for budgets above the bound of `EmbeddingBatches.BudgetKeptExactly`.
- Admission.EmbeddingAdmission.Grant: permits go to any waiting request, an over-approximation
  of the first-come order of the runtime's semaphore; shared semaphores are numbered
  instead of referenced; timeouts and cancellation may happen at any moment of a wait;
  waiting times and the rejection counter are dropped.
- FitArgs.ApplyPlanToArgs: the formatted tensor split is a given string.
- FitLadder.BuildFallbackLadder: reason strings are dropped, and the split over several
  GPUs (`compute_gpu_split`, float heuristics) is a given result. The last-resort plan
  for an empty ladder is not modelled because the ladder is never empty.
- The vLLM ladder, `next_lower_context`, `suggest_ngl`, throughput and quality estimates:
  float heuristics or easier variants of what is modelled.
- The tables behind `is_model_gguf`, `is_auxiliary_model_file` and `extract_quant` are
  parameters of the aggregation: any functions of a path.
- BalancedQuant.BalancedQuant: how the speed and quality estimates are computed; they are
  any values attached to the options.
- ModelAliases.DedupeAlias: the suffix counter is unbounded, while the original counts in
  32 bits; two thousand million used names would be needed to notice.
