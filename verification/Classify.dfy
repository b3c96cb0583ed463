/**
  Locating a tool call in a message (src/conformance/classify.rs). Texts are UTF-8
  bytes; `str::trim` and "parses as JSON with tool-call keys" are parameters.
 */
module Classify {
  import opened Prelude
  import opened BraceMatch
  import opened JsonText

  type Text = seq<byte>
  type Trimmer = Text -> Text
  type Shape = Text -> bool

  /** `<tool_call>`, `</tool_call>`, three backticks and `json`, and three backticks. */
  const TOOL_OPEN: Text :=
    ['<' as byte, 't' as byte, 'o' as byte, 'o' as byte, 'l' as byte, '_' as byte, 'c' as byte, 'a' as byte,
     'l' as byte, 'l' as byte, '>' as byte]
  const TOOL_CLOSE: Text := ['<' as byte, '/' as byte] + TOOL_OPEN[1..]
  const FENCE_OPEN: Text := FENCE_CLOSE + ['j' as byte, 's' as byte, 'o' as byte, 'n' as byte]
  const FENCE_CLOSE: Text := ['`' as byte, '`' as byte, '`' as byte]

  // ----- Substring search ----------------------------------------------------

  /** `str::find`: the first occurrence. */
  method Find(text: Text, needle: Text) returns (r: Option<nat>)
    ensures r == FirstOccurrence(text, needle, 0)
  {
    for i := 0 to |text| + 1
      invariant FirstOccurrence(text, needle, 0) == FirstOccurrence(text, needle, i)
    {
      if OccursAt(text, needle, i) {
        return Some(i);
      }
    }
    return None;
  }

  function FirstOccurrence(text: Text, needle: Text, from: nat): (r: Option<nat>)
    ensures r.Some? ==> from <= r.value && r.value + |needle| <= |text|
    decreases |text| + 1 - from
  {
    if from > |text| then None
    else if OccursAt(text, needle, from) then Some(from)
    else FirstOccurrence(text, needle, from + 1)
  }

  /** The search finds an occurrence, none before it, and fails only if there is none at all. */
  lemma {:induction false} FirstOccurrenceIsFirst(text: Text, needle: Text, from: nat)
    ensures var r := FirstOccurrence(text, needle, from);
            && (r.Some? ==> OccursAt(text, needle, r.value))
            && forall i :: from <= i < (if r.Some? then r.value else |text| + 1) ==> !OccursAt(text, needle, i)
    decreases |text| + 1 - from
  {
    if from <= |text| && !OccursAt(text, needle, from) {
      FirstOccurrenceIsFirst(text, needle, from + 1);
    }
  }

  // ----- Tagged and fenced candidates ----------------------------------------

  /** The text between the first `open` and the first `close` after it, and what follows. */
  function NextBetween(text: Text, open: Text, close: Text): (r: Option<(Text, Text)>)
    ensures r.Some? ==> |r.value.1| <= |text| - |open|
  {
    match FirstOccurrence(text, open, 0)
    case None => None
    case Some(start) =>
      var after := text[start + |open|..];
      match FirstOccurrence(after, close, 0)
      case None => None
      case Some(end) => Some((after[..end], after[end + |close|..]))
  }

  /** The trimmed texts between successive `open` and `close`, up to an unclosed `open`. */
  function Between(text: Text, open: Text, close: Text, trim: Trimmer): seq<Text>
    requires open != []
    decreases |text|
  {
    match NextBetween(text, open, close)
    case None => []
    case Some((inner, rest)) => [trim(inner)] + Between(rest, open, close, trim)
  }

  /** A first occurrence that ends a text is the first occurrence in every longer text. */
  lemma {:induction false} FirstOccurrenceLocal(a: Text, needle: Text, rest: Text, from: nat)
    requires from <= |a|
    ensures FirstOccurrence(a + needle + rest, needle, from) == FirstOccurrence(a + needle, needle, from)
    decreases |a| - from
  {
    var short, long := a + needle, a + needle + rest;
    assert long[from..from + |needle|] == short[from..from + |needle|];
    if from < |a| && !OccursAt(short, needle, from) {
      FirstOccurrenceLocal(a, needle, rest, from + 1);
    } else {
      assert short[|a|..|a| + |needle|] == needle;
    }
  }

  lemma NextBetweenSplit(before: Text, open: Text, inner: Text, close: Text, after: Text)
    requires FirstOccurrence(before + open + (inner + close + after), open, 0) == Some(|before|)
    requires FirstOccurrence(inner + close + after, close, 0) == Some(|inner|)
    ensures NextBetween(before + open + (inner + close + after), open, close) == Some((inner, after))
  {
    var tail := inner + close + after;
    var text := before + open + tail;
    assert text[|before| + |open|..] == tail;
    assert tail[..|inner|] == inner;
    assert tail[|inner| + |close|..] == after;
  }

  /** A tagged text and what precedes its opening tag. */
  datatype Tagged = Tagged(before: Text, inner: Text)

  function Compose(parts: seq<Tagged>, open: Text, close: Text, tail: Text): Text {
    if parts == [] then tail
    else parts[0].before + open + (parts[0].inner + close + Compose(parts[1..], open, close, tail))
  }

  function Inners(parts: seq<Tagged>, trim: Trimmer): seq<Text> {
    seq(|parts|, i requires 0 <= i < |parts| => trim(parts[i].inner))
  }

  /** Each tag written is the first one: none opens earlier in what precedes, none closes earlier in what is inside. */
  ghost predicate CleanPart(part: Tagged, open: Text, close: Text) {
    && FirstOccurrence(part.before + open, open, 0) == Some(|part.before|)
    && FirstOccurrence(part.inner + close, close, 0) == Some(|part.inner|)
  }

  ghost predicate Clean(parts: seq<Tagged>, open: Text, close: Text, tail: Text) {
    (forall part <- parts :: CleanPart(part, open, close)) && NextBetween(tail, open, close).None?
  }

  /** A clean part is split off, whatever follows it. */
  lemma BetweenFirst(part: Tagged, open: Text, close: Text, rest: Text)
    requires CleanPart(part, open, close)
    ensures NextBetween(part.before + open + (part.inner + close + rest), open, close) == Some((part.inner, rest))
  {
    FirstOccurrenceLocal(part.before, open, part.inner + close + rest, 0);
    FirstOccurrenceLocal(part.inner, close, rest, 0);
    NextBetweenSplit(part.before, open, part.inner, close, rest);
  }

  lemma BetweenStep(part: Tagged, open: Text, close: Text, rest: Text, trim: Trimmer)
    requires open != [] && CleanPart(part, open, close)
    ensures Between(part.before + open + (part.inner + close + rest), open, close, trim)
            == [trim(part.inner)] + Between(rest, open, close, trim)
  {
    BetweenFirst(part, open, close, rest);
  }

  lemma InnersCons(parts: seq<Tagged>, trim: Trimmer)
    requires parts != []
    ensures Inners(parts, trim) == [trim(parts[0].inner)] + Inners(parts[1..], trim)
  {
  }

  /** The candidates of a text composed of any number of tagged parts are exactly what stands inside the tags. */
  lemma {:induction false} BetweenOfComposed(parts: seq<Tagged>, open: Text, close: Text, tail: Text, trim: Trimmer)
    requires open != [] && Clean(parts, open, close, tail)
    ensures Between(Compose(parts, open, close, tail), open, close, trim) == Inners(parts, trim)
  {
    if parts == [] {
    } else {
      BetweenOfComposed(parts[1..], open, close, tail, trim);
      BetweenStep(parts[0], open, close, Compose(parts[1..], open, close, tail), trim);
      InnersCons(parts, trim);
    }
  }

  lemma CutAt(text: Text, needle: Text, at: nat)
    requires OccursAt(text, needle, at)
    ensures text == text[..at] + needle + text[at + |needle|..]
  {
  }

  /** A text is cut at its first occurrence, which is the first in what precedes it too. */
  lemma CutAtFirst(text: Text, needle: Text, at: nat)
    requires FirstOccurrence(text, needle, 0) == Some(at)
    ensures text == text[..at] + needle + text[at + |needle|..]
    ensures FirstOccurrence(text[..at] + needle, needle, 0) == Some(at)
  {
    FirstOccurrenceIsFirst(text, needle, 0);
    CutAt(text, needle, at);
    FirstOccurrenceLocal(text[..at], needle, text[at + |needle|..], 0);
  }

  /** What a successful split cuts the text into. */
  lemma NextBetweenPart(text: Text, open: Text, close: Text) returns (part: Tagged)
    requires NextBetween(text, open, close).Some?
    ensures var (inner, rest) := NextBetween(text, open, close).value;
            && part.inner == inner && text == part.before + open + (inner + close + rest)
            && CleanPart(part, open, close)
  {
    var start := FirstOccurrence(text, open, 0).value;
    var after := text[start + |open|..];
    var end := FirstOccurrence(after, close, 0).value;
    var (inner, rest) := NextBetween(text, open, close).value;
    part := Tagged(text[..start], inner);
    CutAtFirst(text, open, start);
    CutAtFirst(after, close, end);
  }

  /** And every text is composed so, in the one way the candidates are read off. */
  lemma {:induction false} BetweenDecomposes(text: Text, open: Text, close: Text)
    returns (parts: seq<Tagged>, tail: Text)
    requires open != []
    ensures text == Compose(parts, open, close, tail) && Clean(parts, open, close, tail)
    decreases |text|
  {
    if NextBetween(text, open, close).None? {
      parts, tail := [], text;
    } else {
      var part := NextBetweenPart(text, open, close);
      var more;
      more, tail := BetweenDecomposes(NextBetween(text, open, close).value.1, open, close);
      parts := [part] + more;
      assert parts[1..] == more;
    }
  }

  method SplitNext(text: Text, open: Text, close: Text) returns (r: Option<(Text, Text)>)
    ensures r == NextBetween(text, open, close)
  {
    var start := Find(text, open);
    if start.None? {
      return None;
    }
    var after := text[start.value + |open|..];
    var end := Find(after, close);
    if end.None? {
      return None;
    }
    return Some((after[..end.value], after[end.value + |close|..]));
  }

  method CollectBetween(text: Text, open: Text, close: Text, trim: Trimmer) returns (out: seq<Text>)
    requires open != []
    ensures out == Between(text, open, close, trim)
  {
    out := [];
    var rest := text;
    while true
      invariant out + Between(rest, open, close, trim) == Between(text, open, close, trim)
      decreases |rest|
    {
      var next := SplitNext(rest, open, close);
      if next.None? {
        return;
      }
      out := out + [trim(next.value.0)];
      rest := next.value.1;
    }
  }

  /** Every text that is tried, in the order it is tried. */
  function Candidates(text: Text, trim: Trimmer): seq<Text> {
    Between(text, TOOL_OPEN, TOOL_CLOSE, trim) + Between(text, FENCE_OPEN, FENCE_CLOSE, trim)
    + TextsOf(text, Spans(text, 0))
  }

  function FirstShaped(candidates: seq<Text>, shaped: Shape): (r: Option<Text>)
    ensures r.Some? ==> r.value in candidates && shaped(r.value)
    ensures r.None? ==> forall c <- candidates :: !shaped(c)
  {
    if candidates == [] then None
    else if shaped(candidates[0]) then Some(candidates[0])
    else FirstShaped(candidates[1..], shaped)
  }

  method FindToolCallShapedJson(text: Text, trim: Trimmer, shaped: Shape) returns (r: Option<Text>)
    ensures r == FirstShaped(Candidates(text, trim), shaped)
  {
    var tagged := CollectBetween(text, TOOL_OPEN, TOOL_CLOSE, trim);
    var fenced := CollectBetween(text, FENCE_OPEN, FENCE_CLOSE, trim);
    var spans := BalancedBraceSpans(text);
    FirstShapedSplit(tagged + fenced, spans, shaped);
    r := FirstShaped(tagged + fenced, shaped);
    if r.None? {
      r := FirstShaped(spans, shaped);
    }
  }

  lemma {:induction false} FirstShapedSplit(a: seq<Text>, b: seq<Text>, shaped: Shape)
    ensures FirstShaped(a + b, shaped)
            == if FirstShaped(a, shaped).Some? then FirstShaped(a, shaped) else FirstShaped(b, shaped)
  {
    if a == [] {
      assert a + b == b;
    } else {
      assert (a + b)[1..] == a[1..] + b;
      FirstShapedSplit(a[1..], b, shaped);
    }
  }

  // ----- What is found -------------------------------------------------------

  /** Tags are tried before fences and both before spans, whatever shapes occur in which. */
  lemma CandidatePrecedence(text: Text, trim: Trimmer, shaped: Shape)
    ensures var tagged := FirstShaped(Between(text, TOOL_OPEN, TOOL_CLOSE, trim), shaped);
            var fenced := FirstShaped(Between(text, FENCE_OPEN, FENCE_CLOSE, trim), shaped);
            FirstShaped(Candidates(text, trim), shaped)
            == if tagged.Some? then tagged
               else if fenced.Some? then fenced
               else FirstShaped(TextsOf(text, Spans(text, 0)), shaped)
  {
    var tagged, fenced := Between(text, TOOL_OPEN, TOOL_CLOSE, trim), Between(text, FENCE_OPEN, FENCE_CLOSE, trim);
    FirstShapedSplit(tagged + fenced, TextsOf(text, Spans(text, 0)), shaped);
    FirstShapedSplit(tagged, fenced, shaped);
  }

  /** The position of the candidate that is returned. */
  function FirstShapedIndex(candidates: seq<Text>, shaped: Shape): (r: Option<nat>)
    ensures r.Some? ==> r.value < |candidates| && shaped(candidates[r.value])
    ensures forall i :: 0 <= i < (if r.Some? then r.value else |candidates|) ==> !shaped(candidates[i])
  {
    if candidates == [] then None
    else if shaped(candidates[0]) then Some(0)
    else
      match FirstShapedIndex(candidates[1..], shaped)
      case Some(i) => Some(i + 1)
      case None => None
  }

  lemma {:induction false} FirstShapedAt(candidates: seq<Text>, shaped: Shape)
    ensures var index := FirstShapedIndex(candidates, shaped);
            FirstShaped(candidates, shaped) == if index.Some? then Some(candidates[index.value]) else None
  {
    if candidates == [] {
    } else {
      FirstShapedAt(candidates[1..], shaped);
    }
  }

  function MarkedCandidates(text: Text, trim: Trimmer): seq<Text> {
    Between(text, TOOL_OPEN, TOOL_CLOSE, trim) + Between(text, FENCE_OPEN, FENCE_CLOSE, trim)
  }

  /** The span of the candidate that is returned, if it is not a marked one. */
  function PickFrom(marked: seq<Text>, texts: seq<Text>, spans: seq<(nat, nat)>, shaped: Shape): Option<(nat, nat)>
    requires |texts| == |spans|
  {
    match FirstShapedIndex(marked + texts, shaped)
    case Some(i) => if i >= |marked| then Some(spans[i - |marked|]) else None
    case None => None
  }

  /** The brace span the result is taken from, if it is not a tagged or fenced text. */
  function PickedSpan(text: Text, trim: Trimmer, shaped: Shape): Option<(nat, nat)> {
    TextsOfAt(text, Spans(text, 0));
    PickFrom(MarkedCandidates(text, trim), TextsOf(text, Spans(text, 0)), Spans(text, 0), shaped)
  }

  /** No tagged or fenced text and no earlier span has the shape. */
  ghost predicate NothingEarlier(text: Text, p: nat, trim: Trimmer, shaped: Shape) {
    && (forall c <- MarkedCandidates(text, trim) :: !shaped(c))
    && forall r <- Spans(text, 0) :: r.1 < p ==> !shaped(TextOf(text, r))
  }

  lemma IndexBehind(marked: seq<Text>, texts: seq<Text>, shaped: Shape, j: nat)
    requires j < |texts| && shaped(texts[j])
    ensures FirstShapedIndex(marked + texts, shaped) == Some(|marked| + j)
            <==> (forall c <- marked :: !shaped(c)) && forall i :: 0 <= i < j ==> !shaped(texts[i])
  {
    var all := marked + texts;
    assert all[|marked| + j] == texts[j];
    forall i | 0 <= i < j
      ensures all[|marked| + i] == texts[i]
    {
    }
    forall i | 0 <= i < |marked|
      ensures all[i] == marked[i] && marked[i] in marked
    {
    }
  }

  lemma PickFromIs(marked: seq<Text>, texts: seq<Text>, spans: seq<(nat, nat)>, shaped: Shape, j: nat)
    requires |texts| == |spans| && j < |spans| && shaped(texts[j])
    requires forall i :: 0 <= i < |spans| && spans[i] == spans[j] ==> i == j
    ensures PickFrom(marked, texts, spans, shaped) == Some(spans[j])
            <==> (forall c <- marked :: !shaped(c)) && forall i :: 0 <= i < j ==> !shaped(texts[i])
  {
    IndexBehind(marked, texts, shaped, j);
  }

  lemma PickedSpanIs(text: Text, trim: Trimmer, shaped: Shape, j: nat)
    requires j < |Spans(text, 0)| && shaped(TextOf(text, Spans(text, 0)[j]))
    ensures PickedSpan(text, trim, shaped) == Some(Spans(text, 0)[j])
            <==> && (forall c <- MarkedCandidates(text, trim) :: !shaped(c))
                 && forall i :: 0 <= i < j ==> !shaped(TextOf(text, Spans(text, 0)[i]))
  {
    TextsOfAt(text, Spans(text, 0));
    SpansDiffer(text, j);
    PickFromIs(MarkedCandidates(text, trim), TextsOf(text, Spans(text, 0)), Spans(text, 0), shaped, j);
  }

  lemma SpansDiffer(text: Text, j: nat)
    requires j < |Spans(text, 0)|
    ensures forall i :: 0 <= i < |Spans(text, 0)| && Spans(text, 0)[i] == Spans(text, 0)[j] ==> i == j
  {
    EarlierSpans(text, j);
    SpansAreMatches(text, 0);
    assert IsMatch(text, 0, Spans(text, 0)[j]);
    forall i | 0 <= i < |Spans(text, 0)| && Spans(text, 0)[i] == Spans(text, 0)[j]
      ensures i == j
    {
      EarlierSpans(text, i);
    }
  }

  lemma EarlierSpans(text: Text, j: nat)
    requires j < |Spans(text, 0)|
    ensures forall i :: 0 <= i < |Spans(text, 0)| ==> (Spans(text, 0)[i].1 < Spans(text, 0)[j].0 <==> i < j)
  {
    var spans := Spans(text, 0);
    SpansAreMatches(text, 0);
    forall i | 0 <= i < |spans|
      ensures spans[i].1 < spans[j].0 <==> i < j
    {
      assert IsMatch(text, 0, spans[i]) && IsMatch(text, 0, spans[j]);
    }
  }

  /**
    A tool-call object anywhere in a text is what is found, exactly when no brace span
    opened before it swallows it and nothing earlier has the shape of a tool call.
   */
  lemma ObjectIsFoundExactly(before: Text, o: Json, after: Text, trim: Trimmer, shaped: Shape)
    requires IsJson(o) && o.Obj? && shaped(Print(o))
    ensures var text, p := before + Print(o) + after, |before|;
            PickedSpan(text, trim, shaped) == Some((p, p + |Print(o)| - 1))
            <==> NoSpanOver(text, p) && NothingEarlier(text, p, trim, shaped)
  {
    ObjectIsSpan(before, o, after);
    PrintedIsFoundExactly(before, Print(o), after, trim, shaped);
  }

  lemma PrintedIsFoundExactly(before: Text, printed: Text, after: Text, trim: Trimmer, shaped: Shape)
    requires printed != [] && shaped(printed)
    ensures var text, p := before + printed + after, |before|;
            PickedSpan(text, trim, shaped) == Some((p, p + |printed| - 1))
            <==> (p, p + |printed| - 1) in Spans(text, 0) && NothingEarlier(text, p, trim, shaped)
  {
    var text, p := before + printed + after, |before|;
    ObjectText(before, printed, after);
    SpanIsFoundExactly(text, (p, p + |printed| - 1), trim, shaped);
  }

  lemma ObjectText(before: Text, printed: Text, after: Text)
    requires printed != []
    ensures TextOf(before + printed + after, (|before|, |before| + |printed| - 1)) == printed
  {
  }

  lemma SpanIsFoundExactly(text: Text, own: (nat, nat), trim: Trimmer, shaped: Shape)
    requires own in Spans(text, 0) ==> shaped(TextOf(text, own))
    ensures PickedSpan(text, trim, shaped) == Some(own)
            <==> own in Spans(text, 0) && NothingEarlier(text, own.0, trim, shaped)
  {
    if own in Spans(text, 0) {
      OwnSpanIsFound(text, own, trim, shaped);
    } else {
      PickedIsSpan(text, trim, shaped);
    }
  }

  lemma OwnSpanIsFound(text: Text, own: (nat, nat), trim: Trimmer, shaped: Shape)
    requires own in Spans(text, 0) && shaped(TextOf(text, own))
    ensures PickedSpan(text, trim, shaped) == Some(own) <==> NothingEarlier(text, own.0, trim, shaped)
  {
    var spans := Spans(text, 0);
    var j :| 0 <= j < |spans| && spans[j] == own;
    PickedSpanIs(text, trim, shaped, j);
    EarlierSpans(text, j);
    forall i | 0 <= i < j
      ensures spans[i] in spans
    {
    }
    forall r <- spans | r.1 < own.0
      ensures exists i :: 0 <= i < j && spans[i] == r
    {
      var i :| 0 <= i < |spans| && spans[i] == r;
    }
  }

  lemma PickFromSome(marked: seq<Text>, texts: seq<Text>, spans: seq<(nat, nat)>, shaped: Shape)
    requires |texts| == |spans|
    ensures PickFrom(marked, texts, spans, shaped).Some? ==>
              exists j :: 0 <= j < |spans| && PickFrom(marked, texts, spans, shaped).value == spans[j]
                          && FirstShaped(marked + texts, shaped) == Some(texts[j])
  {
    FirstShapedAt(marked + texts, shaped);
    var index := FirstShapedIndex(marked + texts, shaped);
    if index.Some? && index.value >= |marked| {
      assert (marked + texts)[index.value] == texts[index.value - |marked|];
    }
  }

  /** What is picked is a span, and its text is what is returned. */
  lemma PickedIsSpan(text: Text, trim: Trimmer, shaped: Shape)
    ensures PickedSpan(text, trim, shaped).Some? ==>
              && PickedSpan(text, trim, shaped).value in Spans(text, 0)
              && FirstShaped(Candidates(text, trim), shaped) == Some(TextOf(text, PickedSpan(text, trim, shaped).value))
  {
    TextsOfAt(text, Spans(text, 0));
    PickFromSome(MarkedCandidates(text, trim), TextsOf(text, Spans(text, 0)), Spans(text, 0), shaped);
  }

  /** The bytes of `<tool_call>`, `</tool_call>`, the fence with `json` and the bare fence. */
  const OPENING_TAG: Text := [60, 116, 111, 111, 108, 95, 99, 97, 108, 108, 62]
  const CLOSING_TAG: Text := [60, 47, 116, 111, 111, 108, 95, 99, 97, 108, 108, 62]
  const JSON_FENCE: Text := [96, 96, 96, 106, 115, 111, 110]
  const BARE_FENCE: Text := [96, 96, 96]

  /** A marker whose first byte does not occur before it is first found there. */
  lemma FoundAtFirstByte(inner: Text, marker: Text)
    requires marker != [] && marker[0] !in inner
    ensures FirstOccurrence(inner + marker, marker, 0) == Some(|inner|)
  {
    var text := inner + marker;
    FirstOccurrenceIsFirst(text, marker, 0);
    assert OccursAt(text, marker, |inner|);
    forall i | 0 <= i < |inner|
      ensures !OccursAt(text, marker, i)
    {
      assert text[i] == inner[i] != marker[0];
    }
  }

  /** The text between two markers at the start is the first candidate they give. */
  lemma MarkedAtStart(inner: Text, after: Text, open: Text, close: Text, trim: Trimmer)
    requires open != [] && close != [] && close[0] !in inner
    ensures Between(open + (inner + close + after), open, close, trim)
            == [trim(inner)] + Between(after, open, close, trim)
  {
    var part := Tagged([], inner);
    FoundAtFirstByte([], open);
    FoundAtFirstByte(inner, close);
    BetweenStep(part, open, close, after, trim);
    assert [] + open + (inner + close + after) == open + (inner + close + after);
  }

  /** A call written between the tags, byte for byte, is what is found. */
  lemma TaggedCallIsFound(inner: Text, after: Text, trim: Trimmer, shaped: Shape)
    requires CLOSING_TAG[0] !in inner && shaped(trim(inner))
    ensures FirstShaped(Candidates(OPENING_TAG + (inner + CLOSING_TAG + after), trim), shaped) == Some(trim(inner))
  {
    assert TOOL_OPEN == OPENING_TAG && TOOL_CLOSE == CLOSING_TAG;
    MarkedAtStart(inner, after, OPENING_TAG, CLOSING_TAG, trim);
    CandidatePrecedence(OPENING_TAG + (inner + CLOSING_TAG + after), trim, shaped);
  }

  /** A call written in a `json` fence is what is found, where there is no opening tag. */
  lemma FencedCallIsFound(inner: Text, after: Text, trim: Trimmer, shaped: Shape)
    requires BARE_FENCE[0] !in inner && shaped(trim(inner))
    requires var text := JSON_FENCE + (inner + BARE_FENCE + after);
             forall i :: 0 <= i <= |text| ==> !OccursAt(text, OPENING_TAG, i)
    ensures FirstShaped(Candidates(JSON_FENCE + (inner + BARE_FENCE + after), trim), shaped) == Some(trim(inner))
  {
    var text := JSON_FENCE + (inner + BARE_FENCE + after);
    assert TOOL_OPEN == OPENING_TAG && FENCE_OPEN == JSON_FENCE && FENCE_CLOSE == BARE_FENCE;
    FirstOccurrenceIsFirst(text, OPENING_TAG, 0);
    MarkedAtStart(inner, after, JSON_FENCE, BARE_FENCE, trim);
    CandidatePrecedence(text, trim, shaped);
  }

  /** In particular in prose: with no tag or fence and no matched brace before it. */
  lemma ObjectInProseIsFound(before: Text, o: Json, after: Text, trim: Trimmer, shaped: Shape)
    requires IsJson(o) && o.Obj? && shaped(Print(o))
    requires var text := before + Print(o) + after;
             && FirstOccurrence(text, TOOL_OPEN, 0).None? && FirstOccurrence(text, FENCE_OPEN, 0).None?
             && forall q :: 0 <= q < |before| && before[q] == OPEN ==> Matching(text, q).None?
    ensures FirstShaped(Candidates(before + Print(o) + after, trim), shaped) == Some(Print(o))
  {
    var text := before + Print(o) + after;
    ObjectIsFirstText(before, o, after);
    assert Candidates(text, trim) == TextsOf(text, Spans(text, 0));
  }

  // ----- The verdict ---------------------------------------------------------

  datatype Content = Whole(text: Text) | Parts(parts: seq<Option<Text>>)

  datatype Call = Call(name: Text, arguments: Text)

  datatype Message = Message(content: Option<Content>, toolCalls: Option<seq<Call>>, reasoning: Option<Text>)

  datatype Location = StructuredToolCalls | PlainTextJsonDump | LeakedIntoReasoning | NoToolCallDetected

  /** The diagnostic notes, by what they say. */
  datatype Note = ArgumentsNotJson(name: Text) | DumpedIntoContent | FoundInReasoning

  datatype Classification = Classification(location: Location, structured: Option<seq<Call>>, snippet: Option<Text>,
                                           contentPresent: bool, reasoningPresent: bool, notes: seq<Note>)

  /** Text parts joined by newlines; image parts (`None`) are dropped. */
  function JoinParts(parts: seq<Option<Text>>): Option<Text> {
    if parts == [] then None
    else
      match (parts[0], JoinParts(parts[1..]))
      case (None, rest) => rest
      case (Some(text), None) => Some(text)
      case (Some(text), Some(rest)) => Some(text + [10] + rest)
  }

  function ExtractText(content: Option<Content>): Option<Text> {
    match content
    case None => None
    case Some(Whole(text)) => Some(text)
    case Some(Parts(parts)) => if JoinParts(parts) == Some([]) then None else JoinParts(parts)
  }

  /** Joining the parts of two lists is joining each and putting a newline between, where both have text. */
  lemma {:induction false} JoinAppend(a: seq<Option<Text>>, b: seq<Option<Text>>)
    ensures JoinParts(a + b)
            == if JoinParts(a).None? then JoinParts(b)
               else if JoinParts(b).None? then JoinParts(a)
               else Some(JoinParts(a).value + [10] + JoinParts(b).value)
  {
    if a == [] {
      assert a + b == b;
    } else {
      JoinAppend(a[1..], b);
      assert (a + b)[1..] == a[1..] + b;
      if a[0].Some? && JoinParts(a[1..]).Some? && JoinParts(b).Some? {
        var x, y, z := a[0].value, JoinParts(a[1..]).value, JoinParts(b).value;
        assert x + [10] + (y + [10] + z) == x + [10] + y + [10] + z;
      }
    }
  }

  /** One text is itself, an image or no part gives no text. */
  lemma JoinOne(text: Text)
    ensures JoinParts([Some(text)]) == Some(text) && JoinParts([None]) == None && JoinParts([]) == None
  {
    var some, none: seq<Option<Text>> := [Some(text)], [None];
    assert some[1..] == [] && none[1..] == [];
  }

  /** A whole text is taken as it is; joined parts count only if something is in them. */
  lemma ExtractTextIs(content: Option<Content>)
    ensures content.None? ==> ExtractText(content) == None
    ensures content.Some? && content.value.Whole? ==> ExtractText(content) == Some(content.value.text)
    ensures content.Some? && content.value.Parts? ==>
              var joined := JoinParts(content.value.parts);
              ExtractText(content) == if joined.Some? && |joined.value| > 0 then joined else None
  {
  }

  function Present(text: Option<Text>): bool {
    text.Some? && text.value != []
  }

  /** One note for every call whose arguments are not JSON, in order. */
  function ArgumentNotes(calls: seq<Call>, isJson: Shape): seq<Note> {
    if calls == [] then []
    else
      var before, last := ArgumentNotes(calls[..|calls| - 1], isJson), calls[|calls| - 1];
      if isJson(last.arguments) then before else before + [ArgumentsNotJson(last.name)]
  }

  /** The notes of two lists of calls stand one after the other. */
  lemma {:induction false} NotesAppend(a: seq<Call>, b: seq<Call>, isJson: Shape)
    ensures ArgumentNotes(a + b, isJson) == ArgumentNotes(a, isJson) + ArgumentNotes(b, isJson)
    decreases |b|
  {
    if b == [] {
      assert a + b == a;
    } else {
      NotesAppend(a, b[..|b| - 1], isJson);
      assert (a + b)[..|a + b| - 1] == a + b[..|b| - 1];
    }
  }

  /** A call is noted, by its name, exactly when its arguments are not JSON. */
  lemma NoteOfOne(call: Call, isJson: Shape)
    ensures ArgumentNotes([call], isJson) == if isJson(call.arguments) then [] else [ArgumentsNotJson(call.name)]
  {
    assert [call][..0] == [];
  }

  ghost predicate HasStructured(m: Message) {
    m.toolCalls.Some? && m.toolCalls.value != []
  }

  ghost function Detected(text: Option<Text>, trim: Trimmer, shaped: Shape): Option<Text> {
    if text.Some? then FirstShaped(Candidates(text.value, trim), shaped) else None
  }

  method DetectIn(text: Option<Text>, trim: Trimmer, shaped: Shape) returns (r: Option<Text>)
    ensures r == Detected(text, trim, shaped)
  {
    r := None;
    if text.Some? {
      r := FindToolCallShapedJson(text.value, trim, shaped);
    }
  }

  method ClassifyMessage(m: Message, trim: Trimmer, shaped: Shape, isJson: Shape) returns (c: Classification)
    ensures c.location.StructuredToolCalls? <==> m.toolCalls.Some? && |m.toolCalls.value| > 0
    ensures c.location.PlainTextJsonDump? <==> !HasStructured(m) && Detected(ExtractText(m.content), trim, shaped).Some?
    ensures c.location.LeakedIntoReasoning?
            <==> && !HasStructured(m) && Detected(ExtractText(m.content), trim, shaped).None?
                 && Detected(m.reasoning, trim, shaped).Some?
    ensures c.snippet == match c.location
                         case PlainTextJsonDump => Detected(ExtractText(m.content), trim, shaped)
                         case LeakedIntoReasoning => Detected(m.reasoning, trim, shaped)
                         case _ => None
    ensures c.structured == if HasStructured(m) then m.toolCalls else None
    ensures c.notes == match c.location
                       case StructuredToolCalls => ArgumentNotes(m.toolCalls.value, isJson)
                       case PlainTextJsonDump => [DumpedIntoContent]
                       case LeakedIntoReasoning => [FoundInReasoning]
                       case NoToolCallDetected => []
    ensures c.contentPresent <==> ExtractText(m.content).Some? && |ExtractText(m.content).value| > 0
    ensures c.reasoningPresent <==> m.reasoning.Some? && |m.reasoning.value| > 0
  {
    var text := ExtractText(m.content);
    c := Classification(NoToolCallDetected, None, None, Present(text), Present(m.reasoning), []);
    if m.toolCalls.Some? && m.toolCalls.value != [] {
      var calls, notes := m.toolCalls.value, [];
      for i := 0 to |calls|
        invariant notes == ArgumentNotes(calls[..i], isJson)
      {
        assert calls[..i + 1][..i] == calls[..i];
        if !isJson(calls[i].arguments) {
          notes := notes + [ArgumentsNotJson(calls[i].name)];
        }
      }
      assert calls[..|calls|] == calls;
      return c.(location := StructuredToolCalls, structured := m.toolCalls, notes := notes);
    }
    var inContent := DetectIn(text, trim, shaped);
    if inContent.Some? {
      return c.(location := PlainTextJsonDump, snippet := inContent, notes := [DumpedIntoContent]);
    }
    var inReasoning := DetectIn(m.reasoning, trim, shaped);
    if inReasoning.Some? {
      return c.(location := LeakedIntoReasoning, snippet := inReasoning, notes := [FoundInReasoning]);
    }
  }
}
