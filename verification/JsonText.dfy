/**
  JSON texts as RFC 8259 writes them (sections 2, 4, 5, 6 and 7): any white space, any
  choice of escapes. Every one of them is balanced text in the sense of BraceMatch.
 */
module JsonText {
  import opened Prelude
  import opened BraceMatch

  /** Strings are given by the bytes between their quotes, numbers and literals by their token. */
  datatype Json =
    | Atom(token: seq<byte>)
    | Str(body: seq<byte>)
    | Arr(blank: seq<byte>, elements: seq<Element>)
    | Obj(blank: seq<byte>, members: seq<Member>)

  /** A value with the white space around it. */
  datatype Element = Element(before: seq<byte>, value: Json, after: seq<byte>)

  datatype Member = Member(before: seq<byte>, name: seq<byte>, afterName: seq<byte>, element: Element)

  // The characters of the grammar, by the names RFC 8259 gives them.
  const COMMA: byte := ',' as byte
  const COLON: byte := ':' as byte
  const QUOTATION_MARK: byte := '"' as byte
  const ESCAPE: byte := '\\' as byte
  const BEGIN_ARRAY: byte := '[' as byte
  const END_ARRAY: byte := ']' as byte
  const BEGIN_OBJECT: byte := '{' as byte
  const END_OBJECT: byte := '}' as byte

  // ----- The grammar ---------------------------------------------------------

  predicate IsBlank(s: seq<byte>) {
    forall i :: 0 <= i < |s| ==> s[i] in {9, 10, 13, 32}
  }

  /** Bytes that numbers, `true`, `false` and `null` are made of. */
  predicate IsTokenByte(b: byte) {
    48 <= b <= 57 || 65 <= b <= 90 || 97 <= b <= 122 || b in {43, 45, 46}
  }

  predicate IsToken(s: seq<byte>) {
    s != [] && forall i :: 0 <= i < |s| ==> IsTokenByte(s[i])
  }

  predicate IsHex(b: byte) {
    48 <= b <= 57 || 65 <= b <= 70 || 97 <= b <= 102
  }

  /** Section 7: unescaped bytes, two-character escapes, and `u` with four hex digits. */
  predicate IsBody(s: seq<byte>) {
    if s == [] then true
    else if s[0] == ESCAPE then
      |s| >= 2 &&
      if s[1] == 117 then |s| >= 6 && (forall i :: 2 <= i < 6 ==> IsHex(s[i])) && IsBody(s[6..])
      else s[1] in {34, 92, 47, 98, 102, 110, 114, 116} && IsBody(s[2..])
    else s[0] >= 0x20 && s[0] != QUOTATION_MARK && IsBody(s[1..])
  }

  ghost predicate IsJson(j: Json) {
    match j
    case Atom(token) => IsToken(token)
    case Str(body) => IsBody(body)
    case Arr(blank, elements) =>
      IsBlank(blank) && forall e <- elements :: IsBlank(e.before) && IsBlank(e.after) && IsJson(e.value)
    case Obj(blank, members) =>
      IsBlank(blank) && forall m <- members ::
        && IsBlank(m.before) && IsBody(m.name) && IsBlank(m.afterName)
        && IsBlank(m.element.before) && IsBlank(m.element.after) && IsJson(m.element.value)
  }

  // ----- The printer ---------------------------------------------------------

  function Print(j: Json): seq<byte>
    decreases j, 1
  {
    match j
    case Atom(token) => token
    case Str(body) => [QUOTATION_MARK] + body + [QUOTATION_MARK]
    case Arr(blank, elements) => [BEGIN_ARRAY] + blank + PrintElements(elements) + [END_ARRAY]
    case Obj(blank, members) => [BEGIN_OBJECT] + (blank + PrintMembers(members)) + [END_OBJECT]
  }

  function PrintElement(e: Element): seq<byte>
    decreases e, 2
  {
    e.before + Print(e.value) + e.after
  }

  function PrintElements(elements: seq<Element>): seq<byte>
    decreases elements, 0
  {
    if elements == [] then []
    else (PrintElement(elements[0]) + if |elements| > 1 then [COMMA] else []) + PrintElements(elements[1..])
  }

  function PrintMember(m: Member): seq<byte>
    decreases m, 2
  {
    m.before + ([QUOTATION_MARK] + m.name + [QUOTATION_MARK]) + m.afterName + [COLON] + PrintElement(m.element)
  }

  function PrintMembers(members: seq<Member>): seq<byte>
    decreases members, 0
  {
    if members == [] then []
    else (PrintMember(members[0]) + if |members| > 1 then [COMMA] else []) + PrintMembers(members[1..])
  }

  // ----- JSON is balanced text -----------------------------------------------

  /** The byte string can be written as well-formed pieces. */
  ghost predicate Balanced(text: seq<byte>) {
    exists pieces :: AllWellFormed(pieces) && WriteAll(pieces) == text
  }

  ghost predicate AllWellFormed(pieces: seq<Piece>) {
    forall p <- pieces :: WellFormed(p)
  }

  lemma Associative(a: seq<byte>, b: seq<byte>, c: seq<byte>)
    ensures a + b + c == a + (b + c)
  {
  }

  lemma {:induction false} WriteAllAppend(a: seq<Piece>, b: seq<Piece>)
    ensures WriteAll(a + b) == WriteAll(a) + WriteAll(b)
  {
    if a == [] {
      assert a + b == b;
    } else {
      WriteAllAppend(a[1..], b);
      assert (a + b)[1..] == a[1..] + b;
      Associative(Write(a[0]), WriteAll(a[1..]), WriteAll(b));
    }
  }

  lemma BalancedAppend(a: seq<byte>, b: seq<byte>)
    requires Balanced(a) && Balanced(b)
    ensures Balanced(a + b)
  {
    var p :| AllWellFormed(p) && WriteAll(p) == a;
    var q :| AllWellFormed(q) && WriteAll(q) == b;
    WriteAllAppend(p, q);
    assert AllWellFormed(p + q);
  }

  lemma BalancedOne(p: Piece)
    requires WellFormed(p)
    ensures Balanced(Write(p))
  {
    assert WriteAll([p]) == Write(p) + WriteAll([p][1..]) == Write(p);
    assert AllWellFormed([p]);
  }

  /** Bytes that are neither quotes nor braces are balanced by themselves. */
  lemma {:induction false} BalancedPlain(s: seq<byte>)
    requires forall i :: 0 <= i < |s| ==> s[i] !in {QUOTE, OPEN, CLOSE}
    ensures Balanced(s)
  {
    if s == [] {
      assert AllWellFormed([]) && WriteAll([]) == s;
    } else {
      BalancedPlain(s[1..]);
      BalancedOne(Plain(s[0]));
      BalancedAppend([s[0]], s[1..]);
      assert [s[0]] + s[1..] == s;
    }
  }

  lemma {:induction false} BodyIsStringBody(s: seq<byte>)
    requires IsBody(s)
    ensures StringBody(s)
    decreases |s|
  {
    if s == [] {
    } else {
      if s[0] == BACKSLASH && s[1] == 117 {
        BodyIsStringBody(s[6..]);
        HexDigits(s[2..], s[6..]);
      } else {
        BodyIsStringBody(s[if s[0] == BACKSLASH then 2 else 1..]);
      }
    }
  }

  lemma HexDigits(s: seq<byte>, rest: seq<byte>)
    requires |s| >= 4 && s[4..] == rest && (forall i :: 0 <= i < 4 ==> IsHex(s[i])) && StringBody(rest)
    ensures StringBody(s)
  {
    assert s[3..][1..] == rest && s[3..][0] == s[3];
    assert StringBody(s[3..]);
    assert s[2..][1..] == s[3..] && s[2..][0] == s[2];
    assert StringBody(s[2..]);
    assert s[1..][1..] == s[2..] && s[1..][0] == s[1];
    assert StringBody(s[1..]);
  }

  lemma BalancedString(body: seq<byte>)
    requires IsBody(body)
    ensures Balanced([QUOTE] + body + [QUOTE])
  {
    BodyIsStringBody(body);
    BalancedOne(Quoted(body));
  }

  lemma {:induction false} BalancedJson(j: Json)
    requires IsJson(j)
    ensures Balanced(Print(j))
    decreases j, 1
  {
    match j
    case Atom(token) => BalancedPlain(token);
    case Str(body) => BalancedString(body);
    case Arr(blank, elements) =>
      BalancedElements(elements);
      BalancedPlain([91] + blank);
      BalancedPlain([93]);
      BalancedAppend([91] + blank, PrintElements(elements));
      BalancedAppend([91] + blank + PrintElements(elements), [93]);
    case Obj(blank, members) =>
      ObjectIsBraces(j);
      var inner :| WellFormed(Braces(inner)) && Write(Braces(inner)) == Print(j);
      BalancedOne(Braces(inner));
  }

  /** An object is one balanced pair of braces. */
  lemma {:induction false} ObjectIsBraces(j: Json)
    requires IsJson(j) && j.Obj?
    ensures exists inner :: WellFormed(Braces(inner)) && Write(Braces(inner)) == Print(j)
    decreases j, 0
  {
    BalancedMembers(j.members);
    BalancedPlain(j.blank);
    BalancedAppend(j.blank, PrintMembers(j.members));
    var inner :| AllWellFormed(inner) && WriteAll(inner) == j.blank + PrintMembers(j.members);
    assert WellFormed(Braces(inner)) && Write(Braces(inner)) == Print(j);
  }

  lemma {:induction false} BalancedElement(e: Element)
    requires IsBlank(e.before) && IsBlank(e.after) && IsJson(e.value)
    ensures Balanced(PrintElement(e))
    decreases e, 2
  {
    BalancedPlain(e.before);
    BalancedPlain(e.after);
    BalancedJson(e.value);
    BalancedAppend(e.before, Print(e.value));
    BalancedAppend(e.before + Print(e.value), e.after);
  }

  lemma {:induction false} BalancedElements(elements: seq<Element>)
    requires forall e <- elements :: IsBlank(e.before) && IsBlank(e.after) && IsJson(e.value)
    ensures Balanced(PrintElements(elements))
    decreases elements, 0
  {
    if elements == [] {
      BalancedPlain([]);
    } else {
      var comma := if |elements| > 1 then [COMMA] else [];
      BalancedElement(elements[0]);
      BalancedPlain(comma);
      BalancedElements(elements[1..]);
      BalancedAppend(PrintElement(elements[0]), comma);
      BalancedAppend(PrintElement(elements[0]) + comma, PrintElements(elements[1..]));
    }
  }

  lemma {:induction false} BalancedMember(m: Member)
    requires IsBlank(m.before) && IsBody(m.name) && IsBlank(m.afterName)
    requires IsBlank(m.element.before) && IsBlank(m.element.after) && IsJson(m.element.value)
    ensures Balanced(PrintMember(m))
    decreases m, 2
  {
    var name := [QUOTE] + m.name + [QUOTE];
    BalancedPlain(m.before);
    BalancedString(m.name);
    BalancedPlain(m.afterName);
    BalancedPlain([COLON]);
    BalancedElement(m.element);
    BalancedAppend(m.before, name);
    BalancedAppend(m.before + name, m.afterName);
    BalancedAppend(m.before + name + m.afterName, [COLON]);
    BalancedAppend(m.before + name + m.afterName + [COLON], PrintElement(m.element));
  }

  lemma {:induction false} BalancedMembers(members: seq<Member>)
    requires forall m <- members ::
      && IsBlank(m.before) && IsBody(m.name) && IsBlank(m.afterName)
      && IsBlank(m.element.before) && IsBlank(m.element.after) && IsJson(m.element.value)
    ensures Balanced(PrintMembers(members))
    decreases members, 0
  {
    if members == [] {
      BalancedPlain([]);
    } else {
      var comma := if |members| > 1 then [COMMA] else [];
      BalancedMember(members[0]);
      BalancedPlain(comma);
      BalancedMembers(members[1..]);
      BalancedAppend(PrintMember(members[0]), comma);
      BalancedAppend(PrintMember(members[0]) + comma, PrintMembers(members[1..]));
    }
  }

  // ----- Objects in surrounding text -----------------------------------------

  /**
    For every JSON object and any surrounding text, the matcher started at its opening
    brace stops exactly at its last byte.
   */
  lemma ObjectIsMatched(before: seq<byte>, o: Json, after: seq<byte>)
    requires IsJson(o) && o.Obj?
    ensures |Print(o)| >= 2 && Print(o)[0] == OPEN
    ensures Matching(before + Print(o) + after, |before|) == Some(|before| + |Print(o)| - 1)
  {
    ObjectIsBraces(o);
    var inner :| WellFormed(Braces(inner)) && Write(Braces(inner)) == Print(o);
    BalancedIsMatched(before + Print(o) + after, |before|, inner);
  }

  /** The first span found is exactly the object if and only if no brace before it has a match. */
  lemma ObjectIsFirstSpan(before: seq<byte>, o: Json, after: seq<byte>)
    requires IsJson(o) && o.Obj?
    ensures var text := before + Print(o) + after;
            && Spans(text, 0) != []
            && (Spans(text, 0)[0] == (|before|, |before| + |Print(o)| - 1)
                <==> forall q :: 0 <= q < |before| && before[q] == OPEN ==> Matching(text, q).None?)
  {
    var text, p := before + Print(o) + after, |before|;
    ObjectIsMatched(before, o, after);
    assert text[p] == Print(o)[0];
    assert forall q :: 0 <= q < p ==> text[q] == before[q];
    SpansAreMatches(text, 0);
    SpansAreComplete(text, 0, p);
    if q :| 0 <= q < p && before[q] == OPEN && Matching(text, q).Some? {
      SpansAreComplete(text, 0, q);
    } else {
      FirstSpan(text, 0, p);
    }
  }

  /** No span that opens before a position reaches it. */
  ghost predicate NoSpanOver(text: seq<byte>, p: nat) {
    forall r <- Spans(text, 0) :: !(r.0 < p <= r.1)
  }

  /** The object is a span of its own exactly when no span opened before it reaches it. */
  lemma ObjectIsSpan(before: seq<byte>, o: Json, after: seq<byte>)
    requires IsJson(o) && o.Obj?
    ensures var text, p := before + Print(o) + after, |before|;
            (p, p + |Print(o)| - 1) in Spans(text, 0) <==> NoSpanOver(text, p)
  {
    var text, p := before + Print(o) + after, |before|;
    var own, spans := (p, p + |Print(o)| - 1), Spans(text, 0);
    ObjectIsMatched(before, o, after);
    assert text[p] == Print(o)[0];
    SpansAreMatches(text, 0);
    SpansAreComplete(text, 0, p);
    var s :| s in spans && s.0 <= p <= s.1;
    assert IsMatch(text, 0, s);
    if own in spans {
      OwnSpanIsAlone(text, own, p);
    }
  }

  lemma OwnSpanIsAlone(text: seq<byte>, own: (nat, nat), p: nat)
    requires own in Spans(text, 0) && own.0 == p
    ensures NoSpanOver(text, p)
  {
    var spans := Spans(text, 0);
    SpansAreMatches(text, 0);
    forall r <- spans
      ensures !(r.0 < p <= r.1)
    {
      assert IsMatch(text, 0, own) && IsMatch(text, 0, r);
      var i :| 0 <= i < |spans| && spans[i] == r;
      var j :| 0 <= j < |spans| && spans[j] == own;
    }
  }

  /** The text of that first span is the printed object. */
  lemma ObjectIsFirstText(before: seq<byte>, o: Json, after: seq<byte>)
    requires IsJson(o) && o.Obj?
    requires forall q :: 0 <= q < |before| && before[q] == OPEN ==> Matching(before + Print(o) + after, q).None?
    ensures var text := before + Print(o) + after;
            var texts := TextsOf(text, Spans(text, 0));
            texts != [] && texts[0] == Print(o)
  {
    var text, p := before + Print(o) + after, |before|;
    ObjectIsMatched(before, o, after);
    ObjectIsFirstSpan(before, o, after);
    assert text[p..p + |Print(o)|] == Print(o);
  }
}
