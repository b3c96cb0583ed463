/** Types and small functions shared by the models of several source files. */
module Prelude {

  datatype Option<+T> = None | Some(value: T)

  datatype Result<+T, +E> = Ok(value: T) | Err(error: E)

  type byte = x: int | 0 <= x < 256

  const U32_LIMIT: nat := 0x1_0000_0000
  const U64_LIMIT: nat := 0x1_0000_0000_0000_0000

  type u32 = n: nat | n < U32_LIMIT
  type u64 = n: nat | n < U64_LIMIT

  function Min(a: int, b: int): int {
    if a <= b then a else b
  }

  function Max(a: int, b: int): int {
    if a >= b then a else b
  }

  /** The saturating operations of u64. */
  function SaturatingAdd(a: nat, b: nat): nat {
    Min(a + b, U64_LIMIT - 1)
  }

  function SaturatingMul(a: nat, b: nat): nat {
    Min(a * b, U64_LIMIT - 1)
  }

  function SaturatingSub(a: nat, b: nat): nat {
    if a <= b then 0 else a - b
  }

  /** Rust's `div_ceil` on unsigned integers. */
  function CeilDiv(a: nat, b: nat): nat
    requires b > 0
  {
    (a + b - 1) / b
  }

  /** `CeilDiv(a, b) * b` is the least multiple of `b` that is at least `a`. */
  lemma CeilDivIsLeastMultiple(a: nat, b: nat)
    requires b > 0
    ensures a <= CeilDiv(a, b) * b < a + b
    ensures forall m: nat :: a <= m * b ==> CeilDiv(a, b) <= m
  {
    var q := CeilDiv(a, b);
    assert q * b <= a + b - 1 < q * b + b;
    forall m: nat | a <= m * b
      ensures q <= m
    {
      assert (m + 1) * b == m * b + b;
      if m < q {
        MulMonotone(m + 1, q, b);
        assert false;
      }
    }
  }

  lemma MulMonotone(x: nat, y: nat, z: nat)
    requires x <= y
    ensures x * z <= y * z
  {
  }

  /** The bytes `part` stand at `pos` in `data`. */
  ghost predicate Sits(data: seq<byte>, pos: nat, part: seq<byte>) {
    pos + |part| <= |data| && forall i :: 0 <= i < |part| ==> data[pos + i] == part[i]
  }

  lemma SitsSplit(data: seq<byte>, pos: nat, a: seq<byte>, b: seq<byte>)
    requires Sits(data, pos, a + b)
    ensures Sits(data, pos, a) && Sits(data, pos + |a|, b)
  {
    assert forall i :: 0 <= i < |a| ==> (a + b)[i] == a[i];
    assert forall i :: 0 <= i < |b| ==> (a + b)[|a| + i] == b[i];
  }

  /** `part` stands at `i` in `s`. */
  predicate OccursAt<T(==)>(s: seq<T>, part: seq<T>, i: nat) {
    i + |part| <= |s| && s[i..i + |part|] == part
  }

  function Flatten<T>(parts: seq<seq<T>>): seq<T> {
    if parts == [] then [] else Flatten(parts[..|parts| - 1]) + parts[|parts| - 1]
  }

  lemma {:induction false} FlattenCons<T>(first: seq<T>, rest: seq<seq<T>>)
    ensures Flatten([first] + rest) == first + Flatten(rest)
  {
    var all := [first] + rest;
    if rest == [] {
      assert all[..|all| - 1] == [];
    } else {
      FlattenCons(first, rest[..|rest| - 1]);
      assert all[..|all| - 1] == [first] + rest[..|rest| - 1];
    }
  }

  function Each<W, T>(f: W -> T, ws: seq<W>): seq<T> {
    seq(|ws|, i requires 0 <= i < |ws| => f(ws[i]))
  }

  lemma EachCons<W, T>(f: W -> T, w: W, ws: seq<W>)
    ensures Each(f, [w] + ws) == [f(w)] + Each(f, ws)
  {
  }

  /** What a function gives for each element, one after the other. */
  function FlatMap<W, T>(f: W -> seq<T>, ws: seq<W>): seq<T> {
    Flatten(Each(f, ws))
  }

  lemma FlatMapCons<W, T>(f: W -> seq<T>, w: W, ws: seq<W>)
    ensures FlatMap(f, [w] + ws) == f(w) + FlatMap(f, ws)
  {
    EachCons(f, w, ws);
    FlattenCons(f(w), Each(f, ws));
  }

  /** What takes off one element at a time takes off a list of them. */
  lemma {:induction false} FlatMapPrefix<W(!new), T>(f: seq<W> -> seq<T>, g: W -> seq<T>, ok: W -> bool,
                                                     before: seq<W>, after: seq<W>)
    requires forall w, rest :: ok(w) ==> f([w] + rest) == g(w) + f(rest)
    requires forall w <- before :: ok(w)
    ensures f(before + after) == FlatMap(g, before) + f(after)
  {
    if before == [] {
      assert before + after == after;
    } else {
      var first, rest := before[0], before[1..];
      assert before == [first] + rest && before + after == [first] + (rest + after);
      FlatMapPrefix(f, g, ok, rest, after);
      FlatMapCons(g, first, rest);
      assert ok(first);
      assert g(first) + (FlatMap(g, rest) + f(after)) == g(first) + FlatMap(g, rest) + f(after);
    }
  }

  lemma FlattenFirst<T>(parts: seq<seq<T>>)
    requires parts != []
    ensures Flatten(parts) == parts[0] + Flatten(parts[1..])
  {
    assert [parts[0]] + parts[1..] == parts;
    FlattenCons(parts[0], parts[1..]);
  }

  /** Unicode White_Space, the class `str::trim` removes. */
  predicate IsWhitespace(c: char) {
    var n := c as int;
    || 0x09 <= n <= 0x0D
    || n in {0x20, 0x85, 0xA0, 0x1680, 0x2028, 0x2029, 0x202F, 0x205F, 0x3000}
    || 0x2000 <= n <= 0x200A
  }

  function TrimStart(s: string): string {
    if s != [] && IsWhitespace(s[0]) then TrimStart(s[1..]) else s
  }

  function TrimEnd(s: string): string {
    if s != [] && IsWhitespace(s[|s| - 1]) then TrimEnd(s[..|s| - 1]) else s
  }

  /** Rust's `str::trim`. */
  function Trim(s: string): string {
    TrimEnd(TrimStart(s))
  }

  /** The code points with the property: tab to carriage return, space, and the wider blanks of Unicode. */
  lemma WhitespaceIs(c: char)
    ensures IsWhitespace(c) <==>
            c as int in {9, 10, 11, 12, 13, 32, 133, 160, 5760, 8192, 8193, 8194, 8195, 8196, 8197, 8198, 8199,
                         8200, 8201, 8202, 8232, 8233, 8239, 8287, 12288}
  {
  }

  predicate AllWhitespace(s: string) {
    forall c <- s :: IsWhitespace(c)
  }

  lemma PrependKeeps(c: char, rest: string, more: string, end: string)
    requires rest == more + end && AllWhitespace(more) && IsWhitespace(c)
    ensures [c] + rest == [c] + more + end && AllWhitespace([c] + more)
  {
  }

  lemma {:induction false} TrimStartCuts(s: string) returns (before: string)
    ensures s == before + TrimStart(s) && AllWhitespace(before)
    ensures TrimStart(s) == "" || !IsWhitespace(TrimStart(s)[0])
  {
    if s == [] || !IsWhitespace(s[0]) {
      before := "";
    } else {
      var more := TrimStartCuts(s[1..]);
      before := [s[0]] + more;
      PrependKeeps(s[0], s[1..], more, TrimStart(s[1..]));
      assert s == [s[0]] + s[1..];
    }
  }

  lemma {:induction false} TrimEndCuts(s: string) returns (after: string)
    ensures s == TrimEnd(s) + after && AllWhitespace(after)
    ensures TrimEnd(s) == "" || !IsWhitespace(TrimEnd(s)[|TrimEnd(s)| - 1])
  {
    if s == [] || !IsWhitespace(s[|s| - 1]) {
      after := "";
    } else {
      var init, last := s[..|s| - 1], s[|s| - 1];
      var more := TrimEndCuts(init);
      after := more + [last];
      assert s == init + [last];
      assert TrimEnd(init) + more + [last] == TrimEnd(init) + after;
      assert TrimEnd(s) == TrimEnd(init);
    }
  }

  /** What is cut off is white space, and what is left neither starts nor ends with any. */
  lemma TrimCuts(s: string) returns (before: string, after: string)
    ensures s == before + Trim(s) + after && AllWhitespace(before) && AllWhitespace(after)
    ensures Trim(s) == "" || (!IsWhitespace(Trim(s)[0]) && !IsWhitespace(Trim(s)[|Trim(s)| - 1]))
  {
    before := TrimStartCuts(s);
    after := TrimEndCuts(TrimStart(s));
    assert TrimStart(s) == Trim(s) + after;
    if Trim(s) != "" {
      assert Trim(s)[0] == TrimStart(s)[0];
    }
  }

  /** Nothing is left exactly of white space. */
  lemma TrimmedAway(s: string)
    ensures Trim(s) == "" <==> AllWhitespace(s)
  {
    var before, after := TrimCuts(s);
    if Trim(s) == "" {
      assert s == before + after;
    } else {
      assert s[|before|] == Trim(s)[0];
      assert s[|before|] in s;
    }
  }
}
