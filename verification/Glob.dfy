/**
 Shell-style patterns as borg matches them against archive names: `*`, `?`, character
 classes with ranges and `!`/`^` negation, and an unterminated `[` standing for itself
 (section 2.13 of POSIX.1-2017, Shell Command Language; `^` is the code's own addition).

 The meaning of a pattern is given once, by `Matches` on its token list. Everything the
 collision decider computes is judged against that definition.
 */
module Glob {
  import opened Wrappers

  /** A character range of a class, both ends included. */
  datatype Span = Span(lo: char, hi: char)

  /** What one non-star pattern position accepts. */
  datatype Element =
    | Literal(c: char)
    | AnyChar
    | Class(negated: bool, spans: seq<Span>)

  datatype Token = Star | One(e: Element)

  predicate InSpans(spans: seq<Span>, c: char) {
    exists i | 0 <= i < |spans| :: spans[i].lo <= c <= spans[i].hi
  }

  predicate Accepts(e: Element, c: char) {
    match e
    case Literal(want) => c == want
    case AnyChar => true
    case Class(negated, spans) => InSpans(spans, c) != negated
  }

  // ---- Reading a pattern -------------------------------------------------------------

  /** One class item at j: a range `a-b` unless `b` would be the closing bracket. */
  function ClassItem(pattern: string, j: nat): (r: (Span, nat))
    requires j < |pattern|
    ensures j < r.1 <= |pattern|
  {
    if j + 2 < |pattern| && pattern[j + 1] == '-' && pattern[j + 2] != ']'
    then (Span(pattern[j], pattern[j + 2]), j + 3)
    else (Span(pattern[j], pattern[j]), j + 1)
  }

  /** The ranges from j up to the closing bracket, and the index after it. A `]` in first
      place is an ordinary member; an inverted range contributes nothing. */
  function ClassItems(pattern: string, j: nat, first: bool): (r: Option<(seq<Span>, nat)>)
    requires j <= |pattern|
    ensures r.Some? ==> j < r.value.1 <= |pattern|
    decreases |pattern| - j
  {
    if j == |pattern| then None
    else if pattern[j] == ']' && !first then Some(([], j + 1))
    else
      var (span, next) := ClassItem(pattern, j);
      match ClassItems(pattern, next, false)
      case None => None
      case Some((rest, after)) =>
        Some((if span.lo <= span.hi then [span] + rest else rest, after))
  }

  predicate NegatedAt(pattern: string, j: nat) {
    j < |pattern| && (pattern[j] == '!' || pattern[j] == '^')
  }

  /** The class opened by the bracket at i, or None when nothing closes it. */
  function ClassAt(pattern: string, i: nat): (r: Option<(Element, nat)>)
    requires i < |pattern|
    ensures r.Some? ==> i + 1 < r.value.1 <= |pattern| && r.value.0.Class?
  {
    var negated := NegatedAt(pattern, i + 1);
    match ClassItems(pattern, if negated then i + 2 else i + 1, true)
    case None => None
    case Some((spans, after)) => Some((Class(negated, spans), after))
  }

  /** The element at i and the index after it; a `*` read here is its literal self. */
  function ElementAt(pattern: string, i: nat): (r: (Element, nat))
    requires i < |pattern|
    ensures i < r.1 <= |pattern|
  {
    if pattern[i] == '?' then (AnyChar, i + 1)
    else if pattern[i] == '[' && ClassAt(pattern, i).Some? then ClassAt(pattern, i).value
    else (Literal(pattern[i]), i + 1)
  }

  function Tokens(pattern: string, i: nat): seq<Token>
    requires i <= |pattern|
    decreases |pattern| - i
  {
    if i == |pattern| then []
    else if pattern[i] == '*' then [Star] + Tokens(pattern, i + 1)
    else
      var (e, after) := ElementAt(pattern, i);
      [One(e)] + Tokens(pattern, after)
  }

  // ---- What a pattern means ----------------------------------------------------------

  predicate Matches(ts: seq<Token>, name: string)
    decreases |ts| + |name|
  {
    if ts == [] then name == []
    else
      match ts[0]
      case Star => Matches(ts[1..], name) || (name != [] && Matches(ts, name[1..]))
      case One(e) => name != [] && Accepts(e, name[0]) && Matches(ts[1..], name[1..])
  }

  /** The glob `pattern` matches the archive name `name`. */
  predicate GlobMatches(pattern: string, name: string) {
    Matches(Tokens(pattern, 0), name)
  }

  /** Some character satisfies the element. */
  ghost predicate Inhabited(e: Element) {
    exists c :: Accepts(e, c)
  }

  /** Every class of the pattern admits some character. */
  ghost predicate AllInhabited(ts: seq<Token>) {
    forall i | 0 <= i < |ts| && ts[i].One? :: Inhabited(ts[i].e)
  }

  /** No token of the pattern is a character class. */
  predicate NoClass(ts: seq<Token>) {
    forall i | 0 <= i < |ts| && ts[i].One? :: !ts[i].e.Class?
  }

  /** Without negation a class is empty exactly when every range it keeps is empty, that
      is, when all its written ranges were inverted. */
  lemma PlainClassInhabited(spans: seq<Span>)
    ensures Inhabited(Class(false, spans)) <==> exists i :: 0 <= i < |spans| && spans[i].lo <= spans[i].hi
  {
    if i :| 0 <= i < |spans| && spans[i].lo <= spans[i].hi {
      assert Accepts(Class(false, spans), spans[i].lo);
    }
  }

  // ---- Classes read back as they were written ----------------------------------------

  function RenderSpans(spans: seq<Span>): string {
    if spans == [] then "]"
    else [spans[0].lo, '-', spans[0].hi] + RenderSpans(spans[1..])
  }

  function RenderClass(negated: bool, spans: seq<Span>): string {
    (if negated then "[!" else "[") + RenderSpans(spans)
  }

  /** Ranges that can be written without their text being read as something else. */
  predicate Writable(spans: seq<Span>) {
    forall i | 0 <= i < |spans| ::
      && spans[i].lo <= spans[i].hi
      && spans[i].hi != ']'
      && spans[i].lo != ']'
  }

  lemma {:induction false} RenderedItems(prefix: string, spans: seq<Span>, rest: string, first: bool)
    requires Writable(spans)
    requires first ==> spans != []
    ensures var p := prefix + RenderSpans(spans) + rest;
            ClassItems(p, |prefix|, first) == Some((spans, |prefix + RenderSpans(spans)|))
    decreases |spans|
  {
    var p := prefix + RenderSpans(spans) + rest;
    if spans == [] {
      assert p[|prefix|] == ']';
    } else {
      var head := [spans[0].lo, '-', spans[0].hi];
      assert p == (prefix + head) + RenderSpans(spans[1..]) + rest;
      assert p[|prefix|] == spans[0].lo && p[|prefix| + 1] == '-' && p[|prefix| + 2] == spans[0].hi;
      RenderedItems(prefix + head, spans[1..], rest, false);
      assert [spans[0]] + spans[1..] == spans;
      assert |prefix + head| == |prefix| + 3;
      assert |prefix + RenderSpans(spans)| == |(prefix + head) + RenderSpans(spans[1..])|;
    }
  }

  lemma RenderedClass(before: string, body: string, tail: string, negated: bool, spans: seq<Span>)
    requires body == RenderSpans(spans) && Writable(spans) && spans != []
    requires !negated ==> spans[0].lo != '!' && spans[0].lo != '^'
    ensures var opening := if negated then "[!" else "[";
            ClassAt(before + opening + body + tail, |before|)
              == Some((Class(negated, spans), |before| + |opening| + |body|))
  {
    var opening := if negated then "[!" else "[";
    var p := before + opening + body + tail;
    assert p[|before| + |opening|] == body[0] == spans[0].lo;
    if negated { assert p[|before| + 1] == opening[1] == '!'; }
    RenderedItems(before + opening, spans, tail, true);
    hide RenderSpans, ClassItems;
  }

  /** A written class is read back with the same negation and the same ranges, wherever it
      stands and whatever follows it. */
  lemma ClassRoundTrip(prefix: string, negated: bool, spans: seq<Span>, rest: string)
    requires Writable(spans) && spans != []
    requires !negated ==> spans[0].lo != '!' && spans[0].lo != '^'
    ensures var text := RenderClass(negated, spans);
            ElementAt(prefix + text + rest, |prefix|) == (Class(negated, spans), |prefix + text|)
  {
    var opening, body := if negated then "[!" else "[", RenderSpans(spans);
    RenderedClass(prefix, body, rest, negated, spans);
    hide RenderSpans, ClassAt;
    var p := prefix + RenderClass(negated, spans) + rest;
    assert p == prefix + opening + body + rest;
    assert p[|prefix|] == opening[0] == '[';
  }
}
