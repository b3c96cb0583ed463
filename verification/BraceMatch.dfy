/**
  The string-aware brace matcher of src/conformance/classify.rs
  (`find_matching_brace`, `balanced_brace_spans`), on the UTF-8 bytes of a text,
  against a grammar of balanced text.
 */
module BraceMatch {
  import opened Prelude

  const QUOTE: byte := 34
  const BACKSLASH: byte := 92
  const OPEN: byte := 123
  const CLOSE: byte := 125

  // ----- The scanner ---------------------------------------------------------

  datatype Scan = Scan(depth: int, inString: bool, escaped: bool)

  const START := Scan(0, false, false)

  function Step(s: Scan, b: byte): Scan {
    if s.inString then
      if s.escaped then s.(escaped := false)
      else if b == BACKSLASH then s.(escaped := true)
      else if b == QUOTE then s.(inString := false)
      else s
    else if b == QUOTE then s.(inString := true)
    else if b == OPEN then s.(depth := s.depth + 1)
    else if b == CLOSE then s.(depth := s.depth - 1)
    else s
  }

  /** The first position from `i` on at which a closing brace outside strings brings the depth to zero. */
  function MatchFrom(bytes: seq<byte>, i: nat, s: Scan): (r: Option<nat>)
    ensures r.Some? ==> i <= r.value < |bytes| && bytes[r.value] == CLOSE
    decreases |bytes| - i
  {
    if i >= |bytes| then None
    else
      var next := Step(s, bytes[i]);
      if !s.inString && bytes[i] == CLOSE && next.depth == 0 then Some(i) else MatchFrom(bytes, i + 1, next)
  }

  function Matching(bytes: seq<byte>, open: nat): (r: Option<nat>)
    ensures r.Some? ==> open <= r.value < |bytes| && bytes[r.value] == CLOSE
  {
    MatchFrom(bytes, open, START)
  }

  /** The counter never leaves 0..|bytes| when the scan starts at an opening brace. */
  method FindMatchingBrace(bytes: seq<byte>, open: nat) returns (r: Option<nat>)
    requires open < |bytes| && bytes[open] == OPEN
    ensures r == Matching(bytes, open)
  {
    var depth, inString, escaped := 0, false, false;
    for i := open to |bytes|
      invariant Matching(bytes, open) == MatchFrom(bytes, i, Scan(depth, inString, escaped))
      invariant escaped ==> inString
      invariant if i == open then depth == 0 && !inString else 1 <= depth <= i - open
    {
      var b := bytes[i];
      if inString {
        if escaped {
          escaped := false;
        } else if b == BACKSLASH {
          escaped := true;
        } else if b == QUOTE {
          inString := false;
        }
        continue;
      }
      if b == QUOTE {
        inString := true;
      } else if b == OPEN {
        depth := depth + 1;
      } else if b == CLOSE {
        depth := depth - 1;
        if depth == 0 {
          return Some(i);
        }
      }
    }
    return None;
  }

  // ----- Balanced text as a grammar ------------------------------------------

  /** Text in which every brace outside a string is paired. */
  datatype Piece =
    | Plain(b: byte)
    | Quoted(body: seq<byte>)
    | Braces(inner: seq<Piece>)

  /** The inside of a string: no bare quote, and no backslash without the byte it escapes. */
  predicate StringBody(body: seq<byte>) {
    if body == [] then true
    else if body[0] == BACKSLASH then |body| >= 2 && StringBody(body[2..])
    else body[0] != QUOTE && StringBody(body[1..])
  }

  ghost predicate WellFormed(p: Piece) {
    match p
    case Plain(b) => b != QUOTE && b != OPEN && b != CLOSE
    case Quoted(body) => StringBody(body)
    case Braces(inner) => forall q <- inner :: WellFormed(q)
  }

  function Write(p: Piece): seq<byte>
    decreases p, 1
  {
    match p
    case Plain(b) => [b]
    case Quoted(body) => [QUOTE] + body + [QUOTE]
    case Braces(inner) => [OPEN] + WriteAll(inner) + [CLOSE]
  }

  function WriteAll(pieces: seq<Piece>): seq<byte>
    decreases pieces, 0
  {
    if pieces == [] then [] else Write(pieces[0]) + WriteAll(pieces[1..])
  }

  lemma SitsBetween(bytes: seq<byte>, pos: nat, left: byte, middle: seq<byte>, right: byte)
    requires Sits(bytes, pos, [left] + middle + [right])
    ensures bytes[pos] == left && Sits(bytes, pos + 1, middle) && bytes[pos + 1 + |middle|] == right
  {
    SitsSplit(bytes, pos, [left] + middle, [right]);
    SitsSplit(bytes, pos, [left], middle);
    assert bytes[pos] == [left][0] && bytes[pos + 1 + |middle|] == [right][0];
  }

  // ----- Balanced text is matched exactly ------------------------------------

  lemma {:induction false} PassBody(bytes: seq<byte>, i: nat, body: seq<byte>, depth: int)
    requires StringBody(body) && Sits(bytes, i, body)
    ensures MatchFrom(bytes, i, Scan(depth, true, false)) == MatchFrom(bytes, i + |body|, Scan(depth, true, false))
    decreases |body|
  {
    if body == [] {
    } else {
      assert bytes[i] == body[0];
      var n := if body[0] == BACKSLASH then 2 else 1;
      SitsSplit(bytes, i, body[..n], body[n..]);
      assert body[..n] + body[n..] == body;
      PassBody(bytes, i + n, body[n..], depth);
    }
  }

  lemma EnterBrace(bytes: seq<byte>, i: nat, depth: int)
    requires i < |bytes| && bytes[i] == OPEN
    ensures MatchFrom(bytes, i, Scan(depth, false, false)) == MatchFrom(bytes, i + 1, Scan(depth + 1, false, false))
  {
  }

  lemma ExitBrace(bytes: seq<byte>, i: nat, depth: int)
    requires i < |bytes| && bytes[i] == CLOSE && depth >= 1
    ensures MatchFrom(bytes, i, Scan(depth + 1, false, false)) == MatchFrom(bytes, i + 1, Scan(depth, false, false))
  {
  }

  lemma PassPlain(bytes: seq<byte>, i: nat, depth: int)
    requires i < |bytes| && bytes[i] != QUOTE && bytes[i] != OPEN && bytes[i] != CLOSE
    ensures MatchFrom(bytes, i, Scan(depth, false, false)) == MatchFrom(bytes, i + 1, Scan(depth, false, false))
  {
  }

  lemma PassQuoted(bytes: seq<byte>, i: nat, body: seq<byte>, depth: int)
    requires StringBody(body) && Sits(bytes, i, [QUOTE] + body + [QUOTE])
    ensures MatchFrom(bytes, i, Scan(depth, false, false))
            == MatchFrom(bytes, i + |body| + 2, Scan(depth, false, false))
  {
    SitsBetween(bytes, i, QUOTE, body, QUOTE);
    PassBody(bytes, i + 1, body, depth);
  }

  /** Inside an open brace, balanced text is passed over without a match. */
  lemma {:induction false} PassPiece(bytes: seq<byte>, i: nat, p: Piece, depth: int)
    requires depth >= 1 && WellFormed(p) && Sits(bytes, i, Write(p))
    ensures MatchFrom(bytes, i, Scan(depth, false, false))
            == MatchFrom(bytes, i + |Write(p)|, Scan(depth, false, false))
    decreases p, 1
  {
    match p
    case Plain(b) =>
      assert bytes[i] == [b][0];
      PassPlain(bytes, i, depth);
    case Quoted(body) => PassQuoted(bytes, i, body, depth);
    case Braces(inner) =>
      SitsBetween(bytes, i, OPEN, WriteAll(inner), CLOSE);
      PassBraces(bytes, i, inner, depth, i + 1 + |WriteAll(inner)|);
  }

  lemma {:induction false} PassBraces(bytes: seq<byte>, i: nat, inner: seq<Piece>, depth: int, close: nat)
    requires depth >= 1 && (forall q <- inner :: WellFormed(q))
    requires close == i + 1 + |WriteAll(inner)| && close < |bytes|
    requires bytes[i] == OPEN && Sits(bytes, i + 1, WriteAll(inner)) && bytes[close] == CLOSE
    ensures MatchFrom(bytes, i, Scan(depth, false, false)) == MatchFrom(bytes, close + 1, Scan(depth, false, false))
    decreases inner, 1
  {
    EnterBrace(bytes, i, depth);
    PassPieces(bytes, i + 1, inner, depth + 1);
    ExitBrace(bytes, close, depth);
  }

  lemma {:induction false} PassPieces(bytes: seq<byte>, i: nat, pieces: seq<Piece>, depth: int)
    requires depth >= 1 && (forall q <- pieces :: WellFormed(q)) && Sits(bytes, i, WriteAll(pieces))
    ensures MatchFrom(bytes, i, Scan(depth, false, false))
            == MatchFrom(bytes, i + |WriteAll(pieces)|, Scan(depth, false, false))
    decreases pieces, 0
  {
    if pieces == [] {
    } else {
      SitsSplit(bytes, i, Write(pieces[0]), WriteAll(pieces[1..]));
      PassPiece(bytes, i, pieces[0], depth);
      PassPieces(bytes, i + |Write(pieces[0])|, pieces[1..], depth);
    }
  }

  /** A balanced pair of braces, wherever it stands, is matched at its last byte. */
  lemma BalancedIsMatched(bytes: seq<byte>, open: nat, inner: seq<Piece>)
    requires WellFormed(Braces(inner)) && Sits(bytes, open, Write(Braces(inner)))
    ensures Matching(bytes, open) == Some(open + |Write(Braces(inner))| - 1)
  {
    SitsBetween(bytes, open, OPEN, WriteAll(inner), CLOSE);
    PassPieces(bytes, open + 1, inner, 1);
  }

  // ----- Only balanced text is matched ---------------------------------------

  /** A scan that gets out of a string passed a string body and a closing quote. */
  lemma {:induction false} LeaveString(bytes: seq<byte>, i: nat, depth: int) returns (close: nat)
    requires MatchFrom(bytes, i, Scan(depth, true, false)).Some?
    ensures i <= close < |bytes| && bytes[close] == QUOTE && StringBody(bytes[i..close])
    ensures MatchFrom(bytes, i, Scan(depth, true, false)) == MatchFrom(bytes, close + 1, Scan(depth, false, false))
    decreases |bytes| - i
  {
    if bytes[i] == QUOTE {
      close := i;
    } else {
      var n := if bytes[i] == BACKSLASH then 2 else 1;
      close := LeaveString(bytes, i + n, depth);
      assert bytes[i..close][n..] == bytes[i + n..close];
    }
  }

  /** From an opening quote, the string is one piece. */
  lemma LeaveQuoted(bytes: seq<byte>, i: nat, depth: int) returns (p: Piece, next: nat)
    requires i < |bytes| && bytes[i] == QUOTE && MatchFrom(bytes, i, Scan(depth, false, false)).Some?
    ensures i < next <= |bytes| && WellFormed(p) && Write(p) == bytes[i..next]
    ensures MatchFrom(bytes, i, Scan(depth, false, false)) == MatchFrom(bytes, next, Scan(depth, false, false))
  {
    var end := LeaveString(bytes, i + 1, depth);
    p, next := Quoted(bytes[i + 1..end]), end + 1;
    SliceEnds(bytes, i, end);
  }

  lemma SliceEnds(bytes: seq<byte>, i: nat, end: nat)
    requires i < end < |bytes|
    ensures bytes[i..end + 1] == [bytes[i]] + bytes[i + 1..end] + [bytes[end]]
  {
  }

  lemma BracesSlice(bytes: seq<byte>, i: nat, end: nat, inner: seq<Piece>)
    requires i < end < |bytes| && bytes[i] == OPEN && bytes[end] == CLOSE
    requires (forall q <- inner :: WellFormed(q)) && WriteAll(inner) == bytes[i + 1..end]
    ensures WellFormed(Braces(inner)) && Write(Braces(inner)) == bytes[i..end + 1]
  {
    SliceEnds(bytes, i, end);
  }

  /** From inside an open brace, what precedes its matching brace is balanced text. */
  lemma {:induction false} LeaveBraces(bytes: seq<byte>, i: nat, depth: int) returns (pieces: seq<Piece>, close: nat)
    requires depth >= 1 && MatchFrom(bytes, i, Scan(depth, false, false)).Some?
    ensures i <= close < |bytes| && bytes[close] == CLOSE
    ensures (forall p <- pieces :: WellFormed(p)) && WriteAll(pieces) == bytes[i..close]
    ensures MatchFrom(bytes, i, Scan(depth, false, false))
            == if depth == 1 then Some(close) else MatchFrom(bytes, close + 1, Scan(depth - 1, false, false))
    decreases |bytes| - i, 1
  {
    if bytes[i] == CLOSE {
      pieces, close := [], i;
    } else {
      var first, next := LeavePiece(bytes, i, depth);
      var rest;
      rest, close := LeaveBraces(bytes, next, depth);
      pieces := [first] + rest;
      assert pieces[1..] == rest;
      assert bytes[i..close] == bytes[i..next] + bytes[next..close];
    }
  }

  /** One balanced piece further, at the same depth. */
  lemma {:induction false} LeavePiece(bytes: seq<byte>, i: nat, depth: int) returns (p: Piece, next: nat)
    requires depth >= 1 && MatchFrom(bytes, i, Scan(depth, false, false)).Some?
    requires i < |bytes| && bytes[i] != CLOSE
    ensures i < next <= |bytes| && WellFormed(p) && Write(p) == bytes[i..next]
    ensures MatchFrom(bytes, i, Scan(depth, false, false)) == MatchFrom(bytes, next, Scan(depth, false, false))
    decreases |bytes| - i, 0
  {
    if bytes[i] == QUOTE {
      p, next := LeaveQuoted(bytes, i, depth);
    } else if bytes[i] == OPEN {
      EnterBrace(bytes, i, depth);
      var inner, end := LeaveBraces(bytes, i + 1, depth + 1);
      BracesSlice(bytes, i, end, inner);
      p, next := Braces(inner), end + 1;
    } else {
      PassPlain(bytes, i, depth);
      p, next := Plain(bytes[i]), i + 1;
      assert bytes[i..next] == [bytes[i]];
    }
  }

  /**
    From an opening brace, the matcher stops at `end` exactly when the bytes from the
    brace to `end` are one balanced pair of braces.
   */
  lemma MatchIffBalanced(bytes: seq<byte>, open: nat, end: nat)
    requires open <= end < |bytes| && bytes[open] == OPEN
    ensures Matching(bytes, open) == Some(end)
            <==> exists inner :: WellFormed(Braces(inner)) && Write(Braces(inner)) == bytes[open..end + 1]
  {
    if Matching(bytes, open) == Some(end) {
      var inner, close := LeaveBraces(bytes, open + 1, 1);
      BracesSlice(bytes, open, end, inner);
    }
    if inner :| WellFormed(Braces(inner)) && Write(Braces(inner)) == bytes[open..end + 1] {
      var span := bytes[open..end + 1];
      assert forall i :: 0 <= i < |span| ==> bytes[open + i] == span[i];
      BalancedIsMatched(bytes, open, inner);
    }
  }

  // ----- All spans -----------------------------------------------------------

  /** The spans `balanced_brace_spans` visits from `i` on, as inclusive bounds. */
  function Spans(bytes: seq<byte>, i: nat): seq<(nat, nat)>
    decreases |bytes| - i
  {
    if i >= |bytes| then []
    else if bytes[i] == OPEN && Matching(bytes, i).Some? then
      [(i, Matching(bytes, i).value)] + Spans(bytes, Matching(bytes, i).value + 1)
    else Spans(bytes, i + 1)
  }

  /** The text of a span; empty for bounds outside the text. */
  function TextOf(bytes: seq<byte>, span: (nat, nat)): seq<byte> {
    if span.0 <= span.1 < |bytes| then bytes[span.0..span.1 + 1] else []
  }

  function TextsOf(bytes: seq<byte>, spans: seq<(nat, nat)>): seq<seq<byte>> {
    if spans == [] then [] else [TextOf(bytes, spans[0])] + TextsOf(bytes, spans[1..])
  }

  lemma {:induction false} TextsOfAt(bytes: seq<byte>, spans: seq<(nat, nat)>)
    ensures |TextsOf(bytes, spans)| == |spans|
    ensures forall i :: 0 <= i < |spans| ==> TextsOf(bytes, spans)[i] == TextOf(bytes, spans[i])
  {
    if spans == [] {
    } else {
      TextsOfAt(bytes, spans[1..]);
    }
  }

  ghost predicate IsMatch(bytes: seq<byte>, i: nat, s: (nat, nat)) {
    i <= s.0 <= s.1 < |bytes| && bytes[s.0] == OPEN && Matching(bytes, s.0) == Some(s.1)
  }

  ghost predicate InOrder(spans: seq<(nat, nat)>) {
    forall j, k :: 0 <= j < k < |spans| ==> spans[j].1 < spans[k].0
  }

  lemma PrependInOrder(bytes: seq<byte>, first: (nat, nat), rest: seq<(nat, nat)>)
    requires InOrder(rest) && forall s <- rest :: IsMatch(bytes, first.1 + 1, s)
    ensures InOrder([first] + rest)
  {
    var all := [first] + rest;
    forall j, k | 0 <= j < k < |all|
      ensures all[j].1 < all[k].0
    {
      assert rest[k - 1] in rest;
      assert j > 0 ==> all[j] == rest[j - 1];
    }
  }

  /** Spans are in order, do not overlap, and each is a brace with its match. */
  lemma {:induction false} SpansAreMatches(bytes: seq<byte>, i: nat)
    ensures forall s <- Spans(bytes, i) :: IsMatch(bytes, i, s)
    ensures InOrder(Spans(bytes, i))
    decreases |bytes| - i
  {
    if i >= |bytes| {
    } else {
      if bytes[i] == OPEN && Matching(bytes, i).Some? {
        var end := Matching(bytes, i).value;
        SpansAreMatches(bytes, end + 1);
        PrependInOrder(bytes, (i, end), Spans(bytes, end + 1));
      } else {
        SpansAreMatches(bytes, i + 1);
      }
    }
  }

  /** Nothing is missed: an opening brace outside every span has no match. */
  lemma {:induction false} SpansAreComplete(bytes: seq<byte>, i: nat, p: nat)
    requires i <= p < |bytes| && bytes[p] == OPEN && Matching(bytes, p).Some?
    ensures exists s :: s in Spans(bytes, i) && s.0 <= p <= s.1
    decreases |bytes| - i
  {
    if bytes[i] == OPEN && Matching(bytes, i).Some? {
      var end := Matching(bytes, i).value;
      assert (i, end) in Spans(bytes, i);
      if end < p {
        SpansAreComplete(bytes, end + 1, p);
        var s :| s in Spans(bytes, end + 1) && s.0 <= p <= s.1;
        assert s in Spans(bytes, i);
      }
    } else {
      SpansAreComplete(bytes, i + 1, p);
    }
  }

  /** With no matched brace before `p`, the first span is the one at `p`. */
  lemma {:induction false} FirstSpan(bytes: seq<byte>, i: nat, p: nat)
    requires i <= p < |bytes| && bytes[p] == OPEN && Matching(bytes, p).Some?
    requires forall q :: i <= q < p && bytes[q] == OPEN ==> Matching(bytes, q).None?
    ensures Spans(bytes, i) == [(p, Matching(bytes, p).value)] + Spans(bytes, Matching(bytes, p).value + 1)
    decreases |bytes| - i
  {
    if i < p {
      FirstSpan(bytes, i + 1, p);
    }
  }

  lemma SpansNext(bytes: seq<byte>, i: nat)
    requires i < |bytes|
    ensures if bytes[i] == OPEN && Matching(bytes, i).Some? then
              var end := Matching(bytes, i).value;
              TextsOf(bytes, Spans(bytes, i)) == [bytes[i..end + 1]] + TextsOf(bytes, Spans(bytes, end + 1))
            else Spans(bytes, i) == Spans(bytes, i + 1)
  {
    if bytes[i] == OPEN && Matching(bytes, i).Some? {
      assert Spans(bytes, i)[1..] == Spans(bytes, Matching(bytes, i).value + 1);
    }
  }

  method BalancedBraceSpans(bytes: seq<byte>) returns (out: seq<seq<byte>>)
    ensures out == TextsOf(bytes, Spans(bytes, 0))
  {
    out := [];
    var i := 0;
    ghost var all, rest := TextsOf(bytes, Spans(bytes, 0)), TextsOf(bytes, Spans(bytes, 0));
    while i < |bytes|
      invariant out + rest == all && rest == TextsOf(bytes, Spans(bytes, i))
      decreases |bytes| - i
    {
      SpansNext(bytes, i);
      if bytes[i] == OPEN {
        var end := FindMatchingBrace(bytes, i);
        if end.Some? {
          var span := bytes[i..end.value + 1];
          assert rest == [span] + rest[1..] && out + ([span] + rest[1..]) == out + [span] + rest[1..];
          out := out + [span];
          rest := rest[1..];
          i := end.value + 1;
          continue;
        }
      }
      i := i + 1;
    }
    assert rest == [];
  }
}
