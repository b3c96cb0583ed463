/**
  The server-sent-event line parser (`SseLineParser::poll_next`,
  src/backend/llama_cpp.rs) and its independence from how the bytes were chunked.
  UTF-8 lossy decoding and JSON parsing are parameters: every result holds for all of them.
 */
module SseLines {
  import opened Prelude

  const NEWLINE: byte := 10

  type Decoder = seq<byte> -> string
  type Parser<!T> = string -> Option<T>

  // ----- One line, one tail --------------------------------------------------

  datatype LineOutcome<+T> = Skip | Done | Yield(value: T)

  function ParsePayload<T>(parse: Parser<T>, payload: string): LineOutcome<T> {
    if payload == "" then Skip
    else
      match parse(payload)
      case Some(value) => Yield(value)
      case None => Skip
  }

  /** A complete line, given after decoding and trimming. */
  function ReadLine<T>(parse: Parser<T>, line: string): LineOutcome<T> {
    if line == "" then Skip
    else if line == "data: [DONE]" then Done
    else if "data: " <= line then ParsePayload(parse, Trim(line[6..]))
    else if "data:" <= line then ParsePayload(parse, Trim(line[5..]))
    else Skip
  }

  predicate IsAsciiWhitespace(b: byte) {
    b in {9, 10, 12, 13, 32}
  }

  /** What is left in the buffer when the stream ends without a newline. */
  function ReadTail<T>(decode: Decoder, parse: Parser<T>, tail: seq<byte>): Option<T> {
    if forall b <- tail :: IsAsciiWhitespace(b) then None
    else
      var remaining := Trim(decode(tail));
      var json := if "data: " <= remaining then Trim(remaining[6..]) else remaining;
      if remaining == "" || json == "[DONE]" || json == "" then None else parse(json)
  }

  // ----- The stream, byte by byte --------------------------------------------

  /** What one poll of the upstream can give; an exhausted sequence is its end. */
  datatype Upstream<+E> = Chunk(bytes: seq<byte>) | Fail(error: E) | NotReady

  datatype Symbol<+E> = Byte(b: byte) | Failure(error: E)

  function Symbols<E>(bytes: seq<byte>): seq<Symbol<E>> {
    seq(|bytes|, i requires 0 <= i < |bytes| => Byte(bytes[i]))
  }

  /** The upstream with chunk boundaries and waiting erased. */
  function Erase<E>(upstream: seq<Upstream<E>>): seq<Symbol<E>> {
    if upstream == [] then []
    else
      (match upstream[0]
       case Chunk(bytes) => Symbols(bytes)
       case Fail(error) => [Failure(error)]
       case NotReady => []) + Erase(upstream[1..])
  }

  /** The items a consumer sees, one symbol at a time; `line` is the unfinished line. */
  function Items<T, E>(decode: Decoder, parse: Parser<T>, line: seq<byte>, rest: seq<Symbol<E>>): seq<Result<T, E>>
    decreases |rest|
  {
    if rest == [] then
      match ReadTail(decode, parse, line)
      case Some(value) => [Ok(value)]
      case None => []
    else
      match rest[0]
      case Failure(error) => [Err(error)] + Items(decode, parse, line, rest[1..])
      case Byte(b) =>
        if b != NEWLINE then Items(decode, parse, line + [b], rest[1..])
        else
          match ReadLine(parse, Trim(decode(line + [b])))
          case Done => []
          case Skip => Items(decode, parse, [], rest[1..])
          case Yield(value) => [Ok(value)] + Items(decode, parse, [], rest[1..])
  }

  lemma SymbolsAppend<E>(a: seq<byte>, b: seq<byte>)
    ensures Symbols<E>(a + b) == Symbols<E>(a) + Symbols<E>(b)
  {
  }

  /** Bytes without a newline only extend the unfinished line. */
  lemma {:induction false} ItemsWithinLine<T, E>(decode: Decoder, parse: Parser<T>, line: seq<byte>, more: seq<byte>,
                                                 rest: seq<Symbol<E>>)
    requires NEWLINE !in more
    ensures Items(decode, parse, line, Symbols(more) + rest) == Items(decode, parse, line + more, rest)
    decreases |more|
  {
    if more == [] {
      assert Symbols<E>(more) + rest == rest;
      assert line + more == line;
    } else {
      assert (Symbols<E>(more) + rest)[1..] == Symbols<E>(more[1..]) + rest;
      ItemsWithinLine(decode, parse, line + [more[0]], more[1..], rest);
      assert line + [more[0]] + more[1..] == line + more;
    }
  }

  /** The items from a buffer and what follows it, when the buffer starts with a complete line. */
  lemma ItemsAtLine<T, E>(decode: Decoder, parse: Parser<T>, buffer: seq<byte>, pos: nat, rest: seq<Symbol<E>>)
    requires pos < |buffer| && buffer[pos] == NEWLINE && NEWLINE !in buffer[..pos]
    ensures Items(decode, parse, [], Symbols(buffer) + rest) ==
            match ReadLine(parse, Trim(decode(buffer[..pos + 1])))
            case Done => []
            case Skip => Items(decode, parse, [], Symbols(buffer[pos + 1..]) + rest)
            case Yield(value) => [Ok(value)] + Items(decode, parse, [], Symbols(buffer[pos + 1..]) + rest)
  {
    var after := Symbols<E>(buffer[pos..]) + rest;
    assert buffer == buffer[..pos] + buffer[pos..] && buffer[pos..] == [NEWLINE] + buffer[pos + 1..];
    SymbolsAppend<E>(buffer[..pos], buffer[pos..]);
    SymbolsAppend<E>([NEWLINE], buffer[pos + 1..]);
    assert Symbols<E>(buffer) + rest == Symbols<E>(buffer[..pos]) + after;
    assert after == [Byte(NEWLINE)] + (Symbols<E>(buffer[pos + 1..]) + rest);
    ItemsWithinLine(decode, parse, [], buffer[..pos], after);
    assert [] + buffer[..pos] == buffer[..pos];
    assert after[0] == Byte(NEWLINE);
    assert after[1..] == Symbols<E>(buffer[pos + 1..]) + rest;
    assert buffer[..pos] + [NEWLINE] == buffer[..pos + 1];
  }

  // ----- The parser ----------------------------------------------------------

  datatype Poll<+T, +E> = Pending | Ready(item: Option<Result<T, E>>)

  class SseLineParser<T, E> {
    const decode: Decoder
    const parse: Parser<T>
    var upstream: seq<Upstream<E>>
    var buffer: seq<byte>

    constructor (decode: Decoder, parse: Parser<T>, upstream: seq<Upstream<E>>)
      ensures this.decode == decode && this.parse == parse
      ensures this.upstream == upstream && buffer == []
    {
      this.decode := decode;
      this.parse := parse;
      this.upstream := upstream;
      buffer := [];
    }

    /** The items still to come. */
    ghost function Rest(): seq<Result<T, E>>
      reads this
    {
      Items(decode, parse, [], Symbols(buffer) + Erase(upstream))
    }

    /** Decreases with every poll that does not end the stream. */
    ghost function Weight(): nat
      reads this
    {
      |buffer| + |Erase(upstream)| + |upstream|
    }

    method FindNewline() returns (r: Option<nat>)
      ensures r.Some? ==> r.value < |buffer| && buffer[r.value] == NEWLINE && NEWLINE !in buffer[..r.value]
      ensures r.None? ==> NEWLINE !in buffer
    {
      for i := 0 to |buffer|
        invariant NEWLINE !in buffer[..i]
      {
        if buffer[i] == NEWLINE {
          return Some(i);
        }
      }
      return None;
    }

    /**
      One poll: it yields the next item, ends the stream exactly when no item is left,
      or waits without changing what is still to come.
     */
    method PollNext() returns (p: Poll<T, E>)
      modifies this
      ensures match p
              case Pending => Rest() == old(Rest()) && upstream != old(upstream)
              case Ready(Some(item)) => old(Rest()) == [item] + Rest()
              case Ready(None) => old(Rest()) == []
      ensures p != Ready(None) ==> Weight() < old(Weight())
    {
      while true
        invariant Rest() == old(Rest())
        invariant Weight() <= old(Weight())
        invariant |upstream| <= |old(upstream)|
        decreases Weight()
      {
        var newline := FindNewline();
        if newline.Some? {
          var pos := newline.value;
          ItemsAtLine(decode, parse, buffer, pos, Erase(upstream));
          var line := Trim(decode(buffer[..pos + 1]));
          buffer := buffer[pos + 1..];
          match ReadLine(parse, line)
          case Skip => continue;
          case Done => return Ready(None);
          case Yield(value) => return Ready(Some(Ok(value)));
        }

        ItemsWithinLine(decode, parse, [], buffer, Erase(upstream));
        assert [] + buffer == buffer;
        if upstream == [] {
          var tail := buffer;
          if forall b <- tail :: IsAsciiWhitespace(b) {
            return Ready(None);
          }
          buffer := [];
          assert Symbols<E>([]) + Erase(upstream) == [];
          var value := ReadTail(decode, parse, tail);
          return Ready(if value.Some? then Some(Ok(value.value)) else None);
        }
        match upstream[0]
        case Chunk(bytes) =>
          assert Symbols<E>(buffer) + (Symbols<E>(bytes) + Erase(upstream[1..]))
              == Symbols<E>(buffer + bytes) + Erase(upstream[1..]);
          buffer := buffer + bytes;
          upstream := upstream[1..];
        case Fail(error) =>
          upstream := upstream[1..];
          ItemsWithinLine(decode, parse, [], buffer, Erase(upstream));
          return Ready(Some(Err(error)));
        case NotReady =>
          assert [] + Erase(upstream[1..]) == Erase(upstream[1..]);
          upstream := upstream[1..];
          return Pending;
      }
    }

    /** A consumer that polls until the end sees exactly the specified items. */
    method Collect() returns (items: seq<Result<T, E>>)
      modifies this
      ensures items == old(Rest())
    {
      items := [];
      while true
        invariant items + Rest() == old(Rest())
        decreases Weight()
      {
        var p := PollNext();
        match p
        case Pending =>
        case Ready(Some(item)) => items := items + [item];
        case Ready(None) => return;
      }
    }
  }

  // ----- Independence from chunking ------------------------------------------

  ghost predicate NeverFails<E>(upstream: seq<Upstream<E>>) {
    forall u <- upstream :: !u.Fail?
  }

  function Payload<E>(upstream: seq<Upstream<E>>): seq<byte> {
    if upstream == [] then []
    else (if upstream[0].Chunk? then upstream[0].bytes else []) + Payload(upstream[1..])
  }

  lemma {:induction false} EraseIsPayload<E>(upstream: seq<Upstream<E>>)
    requires NeverFails(upstream)
    ensures Erase(upstream) == Symbols(Payload(upstream))
  {
    if upstream == [] {
    } else {
      EraseIsPayload(upstream[1..]);
      if upstream[0].Chunk? {
        SymbolsAppend<E>(upstream[0].bytes, Payload(upstream[1..]));
      }
    }
  }

  /**
    Two ways of cutting the same bytes into chunks, empty chunks and waits included,
    give the same items; they are those of splitting the bytes into lines.
   */
  lemma ChunkingIsIrrelevant<T, E>(decode: Decoder, parse: Parser<T>, a: seq<Upstream<E>>, b: seq<Upstream<E>>)
    requires NeverFails(a) && NeverFails(b) && Payload(a) == Payload(b)
    ensures Items(decode, parse, [], Erase(a)) == Items(decode, parse, [], Erase(b))
    ensures Items(decode, parse, [], Erase(a))
            == Interpret<T, E>(decode, parse, Lines(Payload(a)), Tail(Payload(a)))
  {
    EraseIsPayload(a);
    EraseIsPayload(b);
    ItemsAreLines<T, E>(decode, parse, Payload(a));
  }

  // ----- The line-splitting specification ------------------------------------

  /** The complete lines of a byte string, newlines included. */
  function Lines(bytes: seq<byte>): seq<seq<byte>>
    decreases |bytes|
  {
    if NEWLINE !in bytes then []
    else
      var n := LineLength(bytes);
      [bytes[..n]] + Lines(bytes[n..])
  }

  /** What follows the last newline. */
  function Tail(bytes: seq<byte>): seq<byte>
    decreases |bytes|
  {
    if NEWLINE !in bytes then bytes else Tail(bytes[LineLength(bytes)..])
  }

  function LineLength(bytes: seq<byte>): (n: nat)
    requires NEWLINE in bytes
    ensures 0 < n <= |bytes| && bytes[n - 1] == NEWLINE && NEWLINE !in bytes[..n - 1]
  {
    if bytes[0] == NEWLINE then 1
    else
      assert bytes == [bytes[0]] + bytes[1..];
      var n := LineLength(bytes[1..]);
      assert bytes[..n] == [bytes[0]] + bytes[1..][..n - 1];
      1 + n
  }

  function Join(lines: seq<seq<byte>>, tail: seq<byte>): seq<byte> {
    if lines == [] then tail else lines[0] + Join(lines[1..], tail)
  }

  predicate IsLine(line: seq<byte>) {
    line != [] && line[|line| - 1] == NEWLINE && NEWLINE !in line[..|line| - 1]
  }

  /** Splitting loses nothing, and every piece is what it should be. */
  lemma {:induction false} LinesPartition(bytes: seq<byte>)
    ensures Join(Lines(bytes), Tail(bytes)) == bytes
    ensures NEWLINE !in Tail(bytes)
    ensures forall line <- Lines(bytes) :: IsLine(line)
    decreases |bytes|
  {
    if NEWLINE in bytes {
      LinesPartition(bytes[LineLength(bytes)..]);
    }
  }

  /** Conversely, joining lines and a tail and splitting again gives them back. */
  lemma {:induction false} LinesOfJoin(lines: seq<seq<byte>>, tail: seq<byte>)
    requires NEWLINE !in tail && forall line <- lines :: IsLine(line)
    ensures Lines(Join(lines, tail)) == lines && Tail(Join(lines, tail)) == tail
  {
    if lines == [] {
    } else {
      LinesOfJoin(lines[1..], tail);
      assert IsLine(lines[0]);
      var rest := Join(lines[1..], tail);
      LineLengthOfJoin(lines[0], rest);
      assert (lines[0] + rest)[|lines[0]|..] == rest;
    }
  }

  lemma LineLengthOfJoin(line: seq<byte>, rest: seq<byte>)
    requires IsLine(line)
    ensures NEWLINE in line + rest && LineLength(line + rest) == |line|
    ensures (line + rest)[..|line|] == line
  {
    var bytes, n := line + rest, |line|;
    var m := LineLength(bytes);
    assert forall j :: 0 <= j < n - 1 ==> bytes[j] == line[..n - 1][j];
    assert forall j :: 0 <= j < m - 1 ==> bytes[j] == bytes[..m - 1][j];
    assert bytes[n - 1] == NEWLINE == bytes[m - 1];
  }

  /** Lines in order up to the terminator; the tail only if there was none. */
  function Interpret<T, E>(decode: Decoder, parse: Parser<T>, lines: seq<seq<byte>>,
                           tail: seq<byte>): seq<Result<T, E>> {
    if lines == [] then
      match ReadTail(decode, parse, tail)
      case Some(value) => [Ok(value)]
      case None => []
    else
      match ReadLine(parse, Trim(decode(lines[0])))
      case Done => []
      case Skip => Interpret(decode, parse, lines[1..], tail)
      case Yield(value) => [Ok(value)] + Interpret(decode, parse, lines[1..], tail)
  }

  lemma {:induction false} ItemsAreLines<T, E>(decode: Decoder, parse: Parser<T>, bytes: seq<byte>)
    ensures Items<T, E>(decode, parse, [], Symbols(bytes)) == Interpret(decode, parse, Lines(bytes), Tail(bytes))
    decreases |bytes|
  {
    if NEWLINE in bytes {
      var n := LineLength(bytes);
      assert Symbols<E>(bytes) + [] == Symbols(bytes);
      assert Symbols<E>(bytes[n..]) + [] == Symbols(bytes[n..]);
      ItemsAtLine<T, E>(decode, parse, bytes, n - 1, []);
      ItemsAreLines<T, E>(decode, parse, bytes[n..]);
    } else {
      assert Symbols<E>(bytes) + [] == Symbols(bytes);
      ItemsWithinLine<T, E>(decode, parse, [], bytes, []);
      assert [] + bytes == bytes;
    }
  }

  /** Nothing after the terminator line matters: neither later lines nor the tail. */
  lemma {:induction false} NothingAfterDone<T, E>(decode: Decoder, parse: Parser<T>, before: seq<seq<byte>>,
                                                  line: seq<byte>, after: seq<seq<byte>>, tail: seq<byte>)
    requires Trim(decode(line)) == "data: [DONE]"
    ensures Interpret<T, E>(decode, parse, before + [line] + after, tail) == Interpret<T, E>(decode, parse, before, [])
  {
    var lines := before + [line] + after;
    if before != [] {
      NothingAfterDone<T, E>(decode, parse, before[1..], line, after, tail);
      assert lines[1..] == before[1..] + [line] + after;
    }
  }

  /** Draining a fresh parser: the specified items, and without upstream errors those of the lines. */
  method ParseStream<T, E>(decode: Decoder, parse: Parser<T>, upstream: seq<Upstream<E>>)
    returns (items: seq<Result<T, E>>)
    ensures items == Items(decode, parse, [], Erase(upstream))
    ensures NeverFails(upstream) ==>
              items == Interpret(decode, parse, Lines(Payload(upstream)), Tail(Payload(upstream)))
  {
    var parser := new SseLineParser(decode, parse, upstream);
    assert Symbols<E>([]) + Erase(upstream) == Erase(upstream);
    items := parser.Collect();
    if NeverFails(upstream) {
      ChunkingIsIrrelevant(decode, parse, upstream, upstream);
    }
  }

  // ----- What every line says ------------------------------------------------

  function ItemList<T, E>(value: Option<T>): seq<Result<T, E>> {
    if value.Some? then [Ok(value.value)] else []
  }

  /** The value of a line's text: the parse of the trimmed payload of its field, if there is one. */
  function Said<T>(parse: Parser<T>, text: string): Option<T> {
    var payload := if "data: " <= text then Trim(text[6..]) else if "data:" <= text then Trim(text[5..]) else "";
    if payload == "" then None else parse(payload)
  }

  /** The value of an unterminated text: only the spaced field is taken off, and nothing is read of blanks. */
  function SaidAtEnd<T>(decode: Decoder, parse: Parser<T>, tail: seq<byte>): Option<T> {
    var text := Trim(decode(tail));
    var payload := if "data: " <= text then Trim(text[6..]) else text;
    if (forall b <- tail :: b in {9, 10, 12, 13, 32}) || payload == "" || payload == "[DONE]" then None
    else parse(payload)
  }

  ghost predicate IsTerminator(decode: Decoder, line: seq<byte>) {
    Trim(decode(line)) == "data: [DONE]"
  }

  /** Every line but the terminator gives its value, if any, and lets the stream go on; the terminator ends it. */
  lemma LineExactly<T, E>(decode: Decoder, parse: Parser<T>, line: seq<byte>, after: seq<seq<byte>>, tail: seq<byte>)
    ensures Interpret<T, E>(decode, parse, [line] + after, tail)
            == if IsTerminator(decode, line) then []
               else ItemList(Said(parse, Trim(decode(line)))) + Interpret(decode, parse, after, tail)
  {
    var lines := [line] + after;
    assert lines[0] == line && lines[1..] == after;
  }

  function SaidBy<T, E>(decode: Decoder, parse: Parser<T>): seq<byte> -> seq<Result<T, E>> {
    (line: seq<byte>) => ItemList(Said(parse, Trim(decode(line))))
  }

  /** The values of lines, in order. */
  function AllSaid<T, E>(decode: Decoder, parse: Parser<T>, lines: seq<seq<byte>>): seq<Result<T, E>> {
    FlatMap(SaidBy(decode, parse), lines)
  }

  /** A line that goes on, and what is behind it. */
  lemma LineGoesOn<T, E>(decode: Decoder, parse: Parser<T>, line: seq<byte>, after: seq<seq<byte>>, tail: seq<byte>)
    requires !IsTerminator(decode, line)
    ensures Interpret<T, E>(decode, parse, [line] + after, tail)
            == SaidBy<T, E>(decode, parse)(line) + Interpret(decode, parse, after, tail)
  {
    LineExactly<T, E>(decode, parse, line, after, tail);
  }

  /** Lines none of which is the terminator give their values and let the stream go on. */
  lemma LinesGoOn<T, E>(decode: Decoder, parse: Parser<T>, before: seq<seq<byte>>, after: seq<seq<byte>>,
                        tail: seq<byte>)
    requires forall line <- before :: !IsTerminator(decode, line)
    ensures Interpret<T, E>(decode, parse, before + after, tail)
            == AllSaid(decode, parse, before) + Interpret(decode, parse, after, tail)
  {
    var interpret := (lines: seq<seq<byte>>) => Interpret<T, E>(decode, parse, lines, tail);
    var goesOn := (line: seq<byte>) => !IsTerminator(decode, line);
    forall line, rest | goesOn(line)
      ensures interpret([line] + rest) == SaidBy<T, E>(decode, parse)(line) + interpret(rest)
    {
      LineGoesOn<T, E>(decode, parse, line, rest, tail);
    }
    FlatMapPrefix(interpret, SaidBy<T, E>(decode, parse), goesOn, before, after);
  }

  /** At its end or its terminator. */
  lemma StreamEnds<T, E>(decode: Decoder, parse: Parser<T>, lines: seq<seq<byte>>, tail: seq<byte>)
    requires lines != [] ==> IsTerminator(decode, lines[0])
    ensures Interpret<T, E>(decode, parse, lines, tail)
            == if lines != [] then [] else ItemList(SaidAtEnd(decode, parse, tail))
  {
    if lines != [] {
      assert lines == [lines[0]] + lines[1..];
      LineExactly<T, E>(decode, parse, lines[0], lines[1..], tail);
    }
  }

  /** A stream gives the values of all its lines up to the first terminator, then of its tail if there is none. */
  lemma StreamExactly<T, E>(decode: Decoder, parse: Parser<T>, lines: seq<seq<byte>>, tail: seq<byte>, n: nat)
    requires n <= |lines| && (forall line <- lines[..n] :: !IsTerminator(decode, line))
    requires n < |lines| ==> IsTerminator(decode, lines[n])
    ensures Interpret<T, E>(decode, parse, lines, tail)
            == AllSaid(decode, parse, lines[..n])
               + if n < |lines| then [] else ItemList(SaidAtEnd(decode, parse, tail))
  {
    assert lines == lines[..n] + lines[n..];
    LinesGoOn<T, E>(decode, parse, lines[..n], lines[n..], tail);
    StreamEnds<T, E>(decode, parse, lines[n..], tail);
  }

  // ----- Errors of the upstream ----------------------------------------------

  function Oks<T, E>(items: seq<Result<T, E>>): seq<Result<T, E>> {
    if items == [] then []
    else (if items[0].Ok? then [items[0]] else []) + Oks(items[1..])
  }

  function BytesOnly<E>(rest: seq<Symbol<E>>): seq<Symbol<E>> {
    if rest == [] then []
    else (if rest[0].Byte? then [rest[0]] else []) + BytesOnly(rest[1..])
  }

  lemma OksCons<T, E>(item: Result<T, E>, items: seq<Result<T, E>>)
    ensures Oks([item] + items) == (if item.Ok? then [item] else []) + Oks(items)
  {
    assert ([item] + items)[1..] == items;
  }

  /** Upstream errors are passed on and disturb nothing: without them, the same values are read. */
  lemma {:induction false} ErrorsDisturbNothing<T, E>(decode: Decoder, parse: Parser<T>, line: seq<byte>,
                                                      rest: seq<Symbol<E>>)
    ensures Oks(Items(decode, parse, line, rest)) == Items(decode, parse, line, BytesOnly(rest))
    decreases |rest|
  {
    if rest == [] {
    } else {
      var bytes := BytesOnly(rest[1..]);
      match rest[0]
      case Failure(error) =>
        ErrorsDisturbNothing<T, E>(decode, parse, line, rest[1..]);
        OksCons<T, E>(Err(error), Items(decode, parse, line, rest[1..]));
        assert BytesOnly(rest) == [] + bytes == bytes;
        assert [] + Oks(Items(decode, parse, line, rest[1..])) == Oks(Items(decode, parse, line, rest[1..]));
      case Byte(b) =>
        assert BytesOnly(rest) == [rest[0]] + bytes;
        assert ([rest[0]] + bytes)[1..] == bytes;
        if b != NEWLINE {
          ErrorsDisturbNothing<T, E>(decode, parse, line + [b], rest[1..]);
        } else {
          ErrorsDisturbNothing<T, E>(decode, parse, [], rest[1..]);
          var outcome := ReadLine(parse, Trim(decode(line + [b])));
          if outcome.Yield? {
            OksCons(Ok(outcome.value), Items(decode, parse, [], rest[1..]));
          }
        }
    }
  }

  /** An error within a line is yielded where it happens, and the line goes on behind it. */
  lemma ErrorWithinLine<T, E>(decode: Decoder, parse: Parser<T>, line: seq<byte>, more: seq<byte>, error: E,
                              rest: seq<Symbol<E>>)
    requires NEWLINE !in more
    ensures Items(decode, parse, line, Symbols(more) + ([Failure(error)] + rest))
            == [Err(error)] + Items(decode, parse, line + more, rest)
  {
    ItemsWithinLine<T, E>(decode, parse, line, more, [Failure(error)] + rest);
    assert ([Failure(error)] + rest)[1..] == rest;
  }

  // ----- Where the tail is read differently ----------------------------------

  /** As a final complete line, or as an unterminated tail, the same text is read by different rules. */
  function LineItems<T>(parse: Parser<T>, text: string): Option<T> {
    match ReadLine(parse, text)
    case Yield(value) => Some(value)
    case _ => None
  }

  /** The terminator, written with more blanks than the exact line has. */
  predicate PaddedDone(text: string) {
    "data: " <= text && text != "data: [DONE]" && Trim(text[6..]) == "[DONE]"
  }

  /** What a missing final newline must not change: by the field the trimmed text starts with, if any. */
  predicate ReadAlike<T(==)>(parse: Parser<T>, text: string) {
    if "data: " <= text then PaddedDone(text) ==> parse("[DONE]").None?
    else if "data:" <= text then
      parse(text) == if Trim(text[5..]) == "" then None else parse(Trim(text[5..]))
    else text == "" || text == "[DONE]" || parse(text).None?
  }

  lemma FieldTailMatchesLine<T>(decode: Decoder, parse: Parser<T>, tail: seq<byte>)
    requires exists b <- tail :: !IsAsciiWhitespace(b)
    requires "data: " <= Trim(decode(tail))
    ensures ReadTail(decode, parse, tail) == LineItems(parse, Trim(decode(tail)))
            <==> (PaddedDone(Trim(decode(tail))) ==> parse("[DONE]").None?)
  {
    var text := Trim(decode(tail));
    if text == "data: [DONE]" {
      assert text[6..] == "[DONE]";
      TrimOfTrimmed("[DONE]");
    }
  }

  /** Without the space after the colon a tail is handed to the JSON parser prefix and all. */
  lemma TailWithoutSpaceIsNotStripped<T>(decode: Decoder, parse: Parser<T>, tail: seq<byte>)
    requires exists b <- tail :: !IsAsciiWhitespace(b)
    requires "data:" <= Trim(decode(tail)) && !("data: " <= Trim(decode(tail)))
    ensures ReadTail(decode, parse, tail) == parse(Trim(decode(tail)))
    ensures var payload := Trim(Trim(decode(tail))[5..]);
            LineItems(parse, Trim(decode(tail))) == if payload == "" then None else parse(payload)
  {
    assert Trim(decode(tail))[0] == 'd';
  }

  /**
    As an unterminated tail and as a complete line, any text is read alike exactly when:
    for a field with the space, its payload is not a padded terminator that would parse;
    for a field without the space, parsing it prefix and all gives what its payload gives;
    and for a text with no field at all, it would not parse.
   */
  lemma TailMatchesLine<T>(decode: Decoder, parse: Parser<T>, tail: seq<byte>)
    requires exists b <- tail :: !IsAsciiWhitespace(b)
    ensures ReadTail(decode, parse, tail) == LineItems(parse, Trim(decode(tail)))
            <==> ReadAlike(parse, Trim(decode(tail)))
  {
    var text := Trim(decode(tail));
    if "data: " <= text {
      FieldTailMatchesLine(decode, parse, tail);
    } else if "data:" <= text {
      TailWithoutSpaceIsNotStripped(decode, parse, tail);
    }
  }

  lemma TrimOfTrimmed(s: string)
    requires s != [] && !IsWhitespace(s[0]) && !IsWhitespace(s[|s| - 1])
    ensures Trim(s) == s
  {
  }

  /** A stream that is one unterminated text yields what the tail rule reads. */
  lemma TailItems<T, E>(decode: Decoder, parse: Parser<T>, tail: seq<byte>)
    requires NEWLINE !in tail
    ensures Items<T, E>(decode, parse, [], Symbols(tail)) == ItemList(ReadTail(decode, parse, tail))
  {
    ItemsWithinLine<T, E>(decode, parse, [], tail, []);
    assert Symbols<E>(tail) + [] == Symbols<E>(tail) && [] + tail == tail;
  }

  /** A stream that is one complete line yields what the line rule reads. */
  lemma LineItemsOnly<T, E>(decode: Decoder, parse: Parser<T>, tail: seq<byte>)
    requires NEWLINE !in tail
    ensures Items<T, E>(decode, parse, [], Symbols(tail + [NEWLINE]))
            == ItemList(LineItems(parse, Trim(decode(tail + [NEWLINE]))))
  {
    var line := tail + [NEWLINE];
    assert line[..|tail|] == tail && line[..|line|] == line && line[|line|..] == [];
    ItemsAtLine<T, E>(decode, parse, line, |tail|, []);
    assert Symbols<E>(line) + [] == Symbols<E>(line) && Symbols<E>([]) + [] == [];
  }

  /** So a final newline matters to the consumer exactly when the text is not read alike. */
  lemma FinalNewlineMattersExactly<T, E>(decode: Decoder, parse: Parser<T>, tail: seq<byte>)
    requires NEWLINE !in tail && exists b <- tail :: !IsAsciiWhitespace(b)
    requires Trim(decode(tail + [NEWLINE])) == Trim(decode(tail))
    ensures Items<T, E>(decode, parse, [], Symbols(tail)) == Items<T, E>(decode, parse, [], Symbols(tail + [NEWLINE]))
            <==> ReadAlike(parse, Trim(decode(tail)))
  {
    TailItems<T, E>(decode, parse, tail);
    LineItemsOnly<T, E>(decode, parse, tail);
    TailMatchesLine(decode, parse, tail);
  }

  /** The decoding of text that is ASCII. */
  function DecodeAscii(): Decoder {
    (bytes: seq<byte>) => seq(|bytes|, i requires 0 <= i < |bytes| => bytes[i] as char)
  }

  /** An object without any field. */
  const BARE_OBJECT: string := "{\"id\":1}"
  const BARE_OBJECT_BYTES: seq<byte> := [123, 34, 105, 100, 34, 58, 49, 125]

  lemma BareObjectDecodes()
    ensures DecodeAscii()(BARE_OBJECT_BYTES) == BARE_OBJECT
    ensures DecodeAscii()(BARE_OBJECT_BYTES + [NEWLINE]) == BARE_OBJECT + "\n"
  {
  }

  lemma TrimNewline(s: string)
    requires s != [] && !IsWhitespace(s[0]) && !IsWhitespace(s[|s| - 1])
    ensures Trim(s + "\n") == s
  {
    assert (s + "\n")[..|s|] == s;
    assert TrimStart(s + "\n") == s + "\n";
    assert TrimEnd(s + "\n") == TrimEnd(s) == s;
  }

  /** Where a parser accepts that object, it is yielded without a final newline and skipped with one. */
  lemma BareObjectDependsOnNewline<T, E>(parse: Parser<T>)
    requires parse(BARE_OBJECT).Some?
    ensures Items<T, E>(DecodeAscii(), parse, [], Symbols(BARE_OBJECT_BYTES)) == [Ok(parse(BARE_OBJECT).value)]
    ensures Items<T, E>(DecodeAscii(), parse, [], Symbols(BARE_OBJECT_BYTES + [NEWLINE])) == []
  {
    BareObjectDecodes();
    TrimOfTrimmed(BARE_OBJECT);
    TrimNewline(BARE_OBJECT);
    TailItems<T, E>(DecodeAscii(), parse, BARE_OBJECT_BYTES);
    LineItemsOnly<T, E>(DecodeAscii(), parse, BARE_OBJECT_BYTES);
    assert BARE_OBJECT_BYTES[0] in BARE_OBJECT_BYTES;
  }
}
