/**
 The decision itself: the glob is walked as a set of live positions, and each segment
 advances that set through everything it can write. The loops below are the code's; each
 is proved to keep the set of live positions equivalent to the unread part of the problem.
 */
module CollisionDecider {
  import opened Characters
  import opened Wrappers
  import opened Glob
  import opened FormatLanguage

  // ---- Positions ---------------------------------------------------------------------

  /** From position i the pattern still matches w. */
  predicate LiveAt(pattern: string, i: nat, w: Word)
    requires i <= |pattern|
  {
    MatchesWord(Tokens(pattern, i), w)
  }

  ghost predicate InRange(pattern: string, states: set<nat>) {
    forall i | i in states :: i <= |pattern|
  }

  ghost predicate LiveAny(pattern: string, states: set<nat>, w: Word) {
    exists i :: i in states && i <= |pattern| && LiveAt(pattern, i, w)
  }

  predicate StarAt(pattern: string, i: nat) { i < |pattern| && pattern[i] == '*' }

  /** Where the element at i ends; a star is one character long. */
  function After(pattern: string, i: nat): (j: nat)
    requires i < |pattern|
    ensures i < j <= |pattern|
  {
    if pattern[i] == '*' then i + 1 else ElementAt(pattern, i).1
  }

  /** The element boundaries at and beyond i. */
  function Boundaries(pattern: string, i: nat): (bs: set<nat>)
    requires i <= |pattern|
    ensures i in bs && |pattern| in bs
    ensures forall j | j in bs :: i <= j <= |pattern|
    decreases |pattern| - i
  {
    if i == |pattern| then {i} else {i} + Boundaries(pattern, After(pattern, i))
  }

  /** i and the positions a run of stars starting at i lets the walk skip to. */
  function StarChain(pattern: string, i: nat): (s: set<nat>)
    ensures i in s
    ensures i <= |pattern| ==> forall j | j in s :: i <= j <= |pattern|
    decreases |pattern| - i
  {
    if StarAt(pattern, i) then {i} + StarChain(pattern, i + 1) else {i}
  }

  ghost predicate Closed(pattern: string, states: set<nat>) {
    forall i | i in states && StarAt(pattern, i) :: i + 1 in states
  }

  /** What the walk's position sets always are. */
  ghost predicate Good(pattern: string, states: set<nat>) {
    InRange(pattern, states) && Closed(pattern, states) && states <= Boundaries(pattern, 0)
  }

  lemma LiveUnfold(pattern: string, i: nat, w: Word)
    requires i <= |pattern|
    ensures i == |pattern| ==> (LiveAt(pattern, i, w) <==> w == [])
    ensures i < |pattern| && StarAt(pattern, i) ==>
      (LiveAt(pattern, i, w) <==> LiveAt(pattern, i + 1, w) || (w != [] && LiveAt(pattern, i, w[1..])))
    ensures i < |pattern| && !StarAt(pattern, i) ==>
      (LiveAt(pattern, i, w) <==>
        w != [] && Takes(ElementAt(pattern, i).0, w[0]) && LiveAt(pattern, After(pattern, i), w[1..]))
  {
    if i < |pattern| {
      var ts := Tokens(pattern, i);
      assert ts[1..] == Tokens(pattern, After(pattern, i));
    }
  }

  lemma BoundaryStep(pattern: string, s: nat, i: nat)
    requires s <= |pattern| && i in Boundaries(pattern, s) && i < |pattern|
    ensures After(pattern, i) in Boundaries(pattern, s)
    decreases |pattern| - s
  {
    if i != s { BoundaryStep(pattern, After(pattern, s), i); }
  }

  lemma {:induction false} BoundaryOrder(pattern: string, s: nat, lo: nat, i: nat)
    requires s <= |pattern| && lo in Boundaries(pattern, s) && i in Boundaries(pattern, s) && lo <= i
    ensures i in Boundaries(pattern, lo)
    decreases |pattern| - s
  {
    if s != lo { BoundaryOrder(pattern, After(pattern, s), lo, i); }
  }

  lemma {:induction false} BoundariesNest(pattern: string, s: nat, lo: nat, i: nat)
    requires s <= |pattern| && lo in Boundaries(pattern, s) && i in Boundaries(pattern, lo)
    ensures i in Boundaries(pattern, s)
    decreases |pattern| - s
  {
    if s != lo { BoundariesNest(pattern, After(pattern, s), lo, i); }
  }

  // ---- Star closure ------------------------------------------------------------------

  lemma {:induction false} StarChainLive(pattern: string, i: nat, j: nat, w: Word)
    requires i <= |pattern| && j in StarChain(pattern, i) && LiveAt(pattern, j, w)
    ensures LiveAt(pattern, i, w)
    decreases |pattern| - i
  {
    if j != i {
      StarChainLive(pattern, i + 1, j, w);
      LiveUnfold(pattern, i, w);
    }
  }

  lemma {:induction false} StarChainGood(pattern: string, i: nat)
    requires i in Boundaries(pattern, 0)
    ensures Good(pattern, StarChain(pattern, i))
    decreases |pattern| - i
  {
    if StarAt(pattern, i) {
      BoundaryStep(pattern, 0, i);
      StarChainGood(pattern, i + 1);
    }
  }

  /** Adds `state` and what its stars lead to; positions already present end the walk. */
  method AddState(pattern: string, out0: set<nat>, state: nat) returns (out: set<nat>)
    requires Closed(pattern, out0)
    ensures out == out0 + StarChain(pattern, state)
    decreases |pattern| - state
  {
    out := out0;
    if state in out {
      ClosedHoldsChain(pattern, out, state);
      return;
    }
    if StarAt(pattern, state) {
      // The code marks `state` before following its star; the order is immaterial to the
      // set, and this one keeps the accumulator closed.
      out := AddState(pattern, out, state + 1);
    }
    out := out + {state};
  }

  lemma {:induction false} ClosedHoldsChain(pattern: string, states: set<nat>, i: nat)
    requires Closed(pattern, states) && i in states
    ensures StarChain(pattern, i) <= states
    decreases |pattern| - i
  {
    if StarAt(pattern, i) { ClosedHoldsChain(pattern, states, i + 1); }
  }

  /** The positions reachable by letting stars match nothing: a good set that is live for
      exactly the words the given set is live for. */
  method StarClosure(pattern: string, states: set<nat>) returns (out: set<nat>)
    requires states <= Boundaries(pattern, 0)
    ensures Good(pattern, out) && states <= out
    ensures out == {} <==> states == {}
    ensures forall w :: LiveAny(pattern, out, w) <==> LiveAny(pattern, states, w)
  {
    out := {};
    var todo := states;
    while todo != {}
      invariant todo <= states
      invariant out == Chains(pattern, states - todo)
      decreases todo
    {
      var state :| state in todo;
      ChainsGood(pattern, states - todo);
      todo := todo - {state};
      out := AddState(pattern, out, state);
    }
    assert states - todo == states;
    ChainsGood(pattern, states);
    forall w ensures LiveAny(pattern, out, w) <==> LiveAny(pattern, states, w) {
      ChainsLive(pattern, states, w);
    }
  }

  ghost function Chains(pattern: string, states: set<nat>): set<nat> {
    set i, j | i in states && j in StarChain(pattern, i) :: j
  }

  lemma ChainsGood(pattern: string, states: set<nat>)
    requires states <= Boundaries(pattern, 0)
    ensures Good(pattern, Chains(pattern, states)) && states <= Chains(pattern, states)
  {
    var out := Chains(pattern, states);
    forall j | j in out ensures j <= |pattern| && j in Boundaries(pattern, 0) && (StarAt(pattern, j) ==> j + 1 in out) {
      var i :| i in states && j in StarChain(pattern, i);
      StarChainGood(pattern, i);
      assert StarAt(pattern, j) ==> j + 1 in StarChain(pattern, i);
    }
    forall i | i in states ensures i in out {
      assert i in StarChain(pattern, i);
    }
  }

  lemma ChainsLive(pattern: string, states: set<nat>, w: Word)
    requires states <= Boundaries(pattern, 0)
    ensures LiveAny(pattern, Chains(pattern, states), w) <==> LiveAny(pattern, states, w)
  {
    var out := Chains(pattern, states);
    ChainsGood(pattern, states);
    if LiveAny(pattern, out, w) {
      var j :| j in out && j <= |pattern| && LiveAt(pattern, j, w);
      var i :| i in states && j in StarChain(pattern, i);
      StarChainLive(pattern, i, j, w);
    }
  }

  // ---- One input character -----------------------------------------------------------

  /** The positions one character leads to, when the caller can supply exactly the
      characters `offered` describes: stars stay, an element that takes one of them ends. */
  ghost predicate SteppedTo(pattern: string, states: set<nat>, offer: Element -> bool, next: set<nat>) {
    forall j :: j in next <==> exists i :: i in states && i < |pattern| && MovesTo(pattern, i, offer, j)
  }

  predicate MovesTo(pattern: string, i: nat, offer: Element -> bool, j: nat)
    requires i < |pattern|
  {
    if pattern[i] == '*' then j == i
    else offer(ElementAt(pattern, i).0) && j == After(pattern, i)
  }

  /** Advances every state by one character; `offer` reports whether a character the
      caller can supply satisfies the element. */
  method Step(pattern: string, states: set<nat>, offer: Element -> bool) returns (out: set<nat>)
    requires Good(pattern, states)
    ensures Good(pattern, out)
    ensures forall w :: LiveAny(pattern, out, w) <==>
              exists i: nat, j: nat :: i in states && i < |pattern| && MovesTo(pattern, i, offer, j)
                && j <= |pattern| && LiveAt(pattern, j, w)
  {
    var next: set<nat> := {};
    var todo := states;
    while todo != {}
      invariant todo <= states
      invariant next <= Boundaries(pattern, 0)
      invariant SteppedTo(pattern, states - todo, offer, next)
      decreases todo
    {
      var state :| state in todo;
      todo := todo - {state};
      ghost var before := next;
      if state < |pattern| {
        if pattern[state] == '*' {
          next := next + {state};
        } else {
          var e, after := PatternElement(pattern, state);
          BoundaryStep(pattern, 0, state);
          if offer(e) { next := next + {after}; }
        }
        StepOne(pattern, states - todo, state, offer, before, next);
      } else {
        SkipOne(pattern, states - todo, state, offer, before);
      }
    }
    assert states - todo == states;
    out := StarClosure(pattern, next);
  }

  lemma StepOne(pattern: string, seen: set<nat>, state: nat, offer: Element -> bool, before: set<nat>, next: set<nat>)
    requires state in seen && state < |pattern|
    requires SteppedTo(pattern, seen - {state}, offer, before)
    requires next == before + (set j | j in {state, After(pattern, state)} && MovesTo(pattern, state, offer, j))
    ensures SteppedTo(pattern, seen, offer, next)
  {
    forall j ensures j in next <==> exists i :: i in seen && i < |pattern| && MovesTo(pattern, i, offer, j) {
      if j in before {
        var i :| i in seen - {state} && i < |pattern| && MovesTo(pattern, i, offer, j);
        assert i in seen;
      } else if i :| i in seen && i < |pattern| && MovesTo(pattern, i, offer, j) {
        assert i != state ==> i in seen - {state};
      }
    }
  }

  lemma SkipOne(pattern: string, seen: set<nat>, state: nat, offer: Element -> bool, before: set<nat>)
    requires state in seen && state >= |pattern|
    requires SteppedTo(pattern, seen - {state}, offer, before)
    ensures SteppedTo(pattern, seen, offer, before)
  {
    forall j ensures j in before <==> exists i :: i in seen && i < |pattern| && MovesTo(pattern, i, offer, j) {
      if i :| i in seen && i < |pattern| && MovesTo(pattern, i, offer, j) {
        assert i in seen - {state};
      }
    }
  }

  /** One known symbol: stepping is reading it. */
  lemma SteppedBySymbol(pattern: string, states: set<nat>, s: Symbol, offer: Element -> bool, w: Word)
    requires Good(pattern, states)
    requires forall e :: offer(e) == Takes(e, s)
    ensures LiveAny(pattern, states, [s] + w) <==>
              exists i: nat, j: nat :: i in states && i < |pattern| && MovesTo(pattern, i, offer, j)
                && j <= |pattern| && LiveAt(pattern, j, w)
  {
    assert ([s] + w)[1..] == w;
    if LiveAny(pattern, states, [s] + w) {
      var i :| i in states && i <= |pattern| && LiveAt(pattern, i, [s] + w);
      ReadSymbol(pattern, states, i, s, offer, w);
    }
    if i: nat, j: nat :|
      i in states && i < |pattern| && MovesTo(pattern, i, offer, j) && j <= |pattern| && LiveAt(pattern, j, w)
    {
      LiveUnfold(pattern, i, [s] + w);
      assert LiveAt(pattern, i, [s] + w);
    }
  }

  lemma {:induction false} ReadSymbol(pattern: string, states: set<nat>, i: nat, s: Symbol, offer: Element -> bool,
                                      w: Word)
    requires Good(pattern, states) && i in states && LiveAt(pattern, i, [s] + w)
    requires forall e :: offer(e) == Takes(e, s)
    ensures exists k: nat, j: nat :: k in states && k < |pattern| && MovesTo(pattern, k, offer, j)
              && j <= |pattern| && LiveAt(pattern, j, w)
    decreases |pattern| - i
  {
    LiveUnfold(pattern, i, [s] + w);
    assert ([s] + w)[1..] == w;
    if StarAt(pattern, i) {
      if LiveAt(pattern, i + 1, [s] + w) {
        ReadSymbol(pattern, states, i + 1, s, offer, w);
      } else {
        assert MovesTo(pattern, i, offer, i);
      }
    } else {
      assert MovesTo(pattern, i, offer, After(pattern, i));
    }
  }

  // ---- Reading the pattern -----------------------------------------------------------

  method ParseCharClass(pattern: string, i: nat) returns (e: Element, after: nat, ok: bool)
    requires i < |pattern|
    ensures ok <==> ClassAt(pattern, i).Some?
    ensures ok ==> (e, after) == ClassAt(pattern, i).value
  {
    var j := i + 1;
    var negated := false;
    if j < |pattern| && (pattern[j] == '!' || pattern[j] == '^') {
      negated := true;
      j := j + 1;
    }
    var spans: seq<Span> := [];
    var first := true;
    ghost var start := j;
    Prefixed([], ClassItems(pattern, start, true));
    while j < |pattern|
      invariant start <= j <= |pattern|
      invariant ClassItems(pattern, start, true) == Prefix(spans, ClassItems(pattern, j, first))
    {
      if pattern[j] == ']' && !first {
        assert spans + [] == spans;
        return Class(negated, spans), j + 1, true;
      }
      ItemThenRest(pattern, j, first, spans);
      first := false;
      var lo := pattern[j];
      var hi := lo;
      var next := j + 1;
      if next < |pattern| && pattern[next] == '-' && next + 1 < |pattern| && pattern[next + 1] != ']' {
        hi := pattern[next + 1];
        next := next + 2;
      }
      assert ClassItem(pattern, j) == (Span(lo, hi), next);
      if lo <= hi {
        spans := spans + [Span(lo, hi)];
      }
      j := next;
    }
    return AnyChar, 0, false;
  }

  /** The ranges read so far, put before those still to be read. */
  function Prefix(spans: seq<Span>, rest: Option<(seq<Span>, nat)>): Option<(seq<Span>, nat)> {
    match rest
    case None => None
    case Some((more, after)) => Some((spans + more, after))
  }

  lemma Prefixed(spans: seq<Span>, rest: Option<(seq<Span>, nat)>)
    requires spans == []
    ensures Prefix(spans, rest) == rest
  {
    if rest.Some? { assert spans + rest.value.0 == rest.value.0; }
  }

  lemma ItemThenRest(pattern: string, j: nat, first: bool, spans: seq<Span>)
    requires j < |pattern| && !(pattern[j] == ']' && !first)
    ensures var (span, next) := ClassItem(pattern, j);
            Prefix(spans, ClassItems(pattern, j, first))
              == Prefix(if span.lo <= span.hi then spans + [span] else spans, ClassItems(pattern, next, false))
  {
    var (span, next) := ClassItem(pattern, j);
    var rest := ClassItems(pattern, next, false);
    if rest.Some? {
      assert spans + ([span] + rest.value.0) == (spans + [span]) + rest.value.0;
    }
  }

  /** The matcher at i and the index after it. */
  method PatternElement(pattern: string, i: nat) returns (e: Element, after: nat)
    requires i < |pattern|
    ensures (e, after) == ElementAt(pattern, i)
  {
    match pattern[i]
    case '?' => return AnyChar, i + 1;
    case '[' =>
      var bracket, end, ok := ParseCharClass(pattern, i);
      if ok { return bracket, end; }
      return Literal('['), i + 1;
    case c => return Literal(c), i + 1;
  }

  // ---- Literal text and digit runs -----------------------------------------------------

  method StepRune(pattern: string, states: set<nat>, r: char) returns (out: set<nat>)
    requires Good(pattern, states)
    ensures Good(pattern, out)
    ensures forall w :: LiveAny(pattern, out, w) <==> LiveAny(pattern, states, [Ch(r)] + w)
  {
    var offer := (e: Element) => Accepts(e, r);
    out := Step(pattern, states, offer);
    forall w ensures LiveAny(pattern, out, w) <==> LiveAny(pattern, states, [Ch(r)] + w) {
      SteppedBySymbol(pattern, states, Ch(r), offer, w);
    }
  }

  predicate AcceptsSomeDigit(e: Element) {
    exists d :: d in "0123456789" && Accepts(e, d)
  }

  lemma DigitsListed(c: char)
    ensures IsDigit(c) <==> c in "0123456789"
  {}

  /** One decimal digit, whichever fits. */
  method StepDigit(pattern: string, states: set<nat>) returns (out: set<nat>)
    requires Good(pattern, states)
    ensures Good(pattern, out)
    ensures forall w :: LiveAny(pattern, out, w) <==>
              exists d :: IsDigit(d) && LiveAny(pattern, states, [Ch(d)] + w)
  {
    out := Step(pattern, states, AcceptsSomeDigit);
    forall w ensures LiveAny(pattern, out, w) <==>
              exists d :: IsDigit(d) && LiveAny(pattern, states, [Ch(d)] + w) {
      DigitStep(pattern, states, w);
    }
  }

  ghost predicate DigitMoves(pattern: string, states: set<nat>, w: Word) {
    exists i: nat, j: nat :: i in states && i < |pattern| && MovesTo(pattern, i, AcceptsSomeDigit, j)
        && j <= |pattern| && LiveAt(pattern, j, w)
  }

  lemma DigitStep(pattern: string, states: set<nat>, w: Word)
    requires Good(pattern, states)
    ensures DigitMoves(pattern, states, w) <==>
              exists d :: IsDigit(d) && LiveAny(pattern, states, [Ch(d)] + w)
  {
    if DigitMoves(pattern, states, w) {
      var i: nat, j: nat :| i in states && i < |pattern| && MovesTo(pattern, i, AcceptsSomeDigit, j)
        && j <= |pattern| && LiveAt(pattern, j, w);
      var d := '0';
      if pattern[i] != '*' {
        d :| d in "0123456789" && Accepts(ElementAt(pattern, i).0, d);
      }
      DigitsListed(d);
      var offer := (e: Element) => Accepts(e, d);
      assert MovesTo(pattern, i, offer, j);
      SteppedBySymbol(pattern, states, Ch(d), offer, w);
    }
    if d :| IsDigit(d) && LiveAny(pattern, states, [Ch(d)] + w) {
      DigitsListed(d);
      var offer := (e: Element) => Accepts(e, d);
      SteppedBySymbol(pattern, states, Ch(d), offer, w);
      var i: nat, j: nat :| i in states && i < |pattern| && MovesTo(pattern, i, offer, j)
        && j <= |pattern| && LiveAt(pattern, j, w);
      assert MovesTo(pattern, i, AcceptsSomeDigit, j);
    }
  }

  /** `cur` is live exactly for what is left after the text is read from `states`. */
  ghost predicate ReadUpTo(pattern: string, states: set<nat>, text: string, cur: set<nat>) {
    forall w :: LiveAny(pattern, cur, w) <==> LiveAny(pattern, states, Lift(text) + w)
  }

  lemma ReadNothing(pattern: string, states: set<nat>)
    ensures ReadUpTo(pattern, states, "", states)
  {
    hide LiveAny;
    forall w: Word ensures Lift("") + w == w {}
  }

  lemma ReadOneMore(pattern: string, states: set<nat>, text: string, before: set<nat>, r: char, cur: set<nat>)
    requires ReadUpTo(pattern, states, text, before)
    requires forall w :: LiveAny(pattern, cur, w) <==> LiveAny(pattern, before, [Ch(r)] + w)
    ensures ReadUpTo(pattern, states, text + [r], cur)
  {
    hide LiveAny;
    forall w ensures LiveAny(pattern, cur, w) <==> LiveAny(pattern, states, Lift(text + [r]) + w) {
      assert Lift(text + [r]) + w == Lift(text) + ([Ch(r)] + w);
    }
  }

  lemma ReadDead(pattern: string, states: set<nat>, text: string, rest: string)
    requires ReadUpTo(pattern, states, text, {})
    ensures ReadUpTo(pattern, states, text + rest, {})
  {
    forall w ensures LiveAny(pattern, {}, w) <==> LiveAny(pattern, states, Lift(text + rest) + w) {
      assert Lift(text + rest) + w == Lift(text) + (Lift(rest) + w);
      assert !LiveAny(pattern, {}, Lift(rest) + w);
    }
  }

  /** Advances every state through the literal text. */
  method Consume(pattern: string, states: set<nat>, text: string) returns (cur: set<nat>)
    requires Good(pattern, states)
    ensures Good(pattern, cur)
    ensures forall w :: LiveAny(pattern, cur, w) <==> LiveAny(pattern, states, Lift(text) + w)
  {
    cur := states;
    ReadNothing(pattern, states);
    hide Good, LiveAny;
    for n := 0 to |text|
      invariant Good(pattern, cur)
      invariant ReadUpTo(pattern, states, text[..n], cur)
    {
      if cur == {} {
        ReadDead(pattern, states, text[..n], text[n..]);
        assert text[..n] + text[n..] == text;
        return;
      }
      var before := cur;
      cur := StepRune(pattern, cur, text[n]);
      ReadOneMore(pattern, states, text[..n], before, text[n], cur);
      assert text[..n + 1] == text[..n] + [text[n]];
    }
    assert text[..|text|] == text;
  }

  /** Some word of the segment leads from `states` to where `w` is live. */
  ghost predicate LeadsBy(pattern: string, states: set<nat>, seg: FormatSegment, w: Word) {
    exists u :: SegmentSpells(seg, u) && LiveAny(pattern, states, u + w)
  }

  ghost predicate LeadsByDigits(pattern: string, states: set<nat>, n: int, w: Word) {
    exists u :: DigitWord(u, n) && LiveAny(pattern, states, u + w)
  }

  lemma OneMoreDigit(pattern: string, states: set<nat>, cur: set<nat>, next: set<nat>, n: nat, w: Word)
    requires forall v :: LiveAny(pattern, cur, v) <==> LeadsByDigits(pattern, states, n, v)
    requires forall v :: LiveAny(pattern, next, v) <==> exists d :: IsDigit(d) && LiveAny(pattern, cur, [Ch(d)] + v)
    ensures LiveAny(pattern, next, w) <==> LeadsByDigits(pattern, states, n + 1, w)
  {
    if LiveAny(pattern, next, w) {
      var d :| IsDigit(d) && LiveAny(pattern, cur, [Ch(d)] + w);
      var u :| DigitWord(u, n) && LiveAny(pattern, states, u + ([Ch(d)] + w));
      assert u + ([Ch(d)] + w) == (u + [Ch(d)]) + w;
      assert DigitWord(u + [Ch(d)], n + 1);
    }
    if LeadsByDigits(pattern, states, n + 1, w) {
      var u :| DigitWord(u, n + 1) && LiveAny(pattern, states, u + w);
      var d := u[n].c;
      assert u == u[..n] + [Ch(d)];
      assert u + w == u[..n] + ([Ch(d)] + w);
      assert DigitWord(u[..n], n);
      assert LeadsByDigits(pattern, states, n, [Ch(d)] + w);
    }
  }

  lemma {:induction false} FewerDigits(pattern: string, states: set<nat>, i: nat, n: nat, w: Word)
    requires i <= n
    requires forall v :: !LeadsByDigits(pattern, states, i, v)
    ensures !LeadsByDigits(pattern, states, n, w)
  {
    if u :| DigitWord(u, n) && LiveAny(pattern, states, u + w) {
      assert u + w == u[..i] + (u[i..] + w);
      assert DigitWord(u[..i], i);
      assert LeadsByDigits(pattern, states, i, u[i..] + w);
    }
  }

  /** Exactly n decimal digits, whichever those turn out to be. */
  method ConsumeDigits(pattern: string, states: set<nat>, n: nat) returns (cur: set<nat>)
    requires Good(pattern, states)
    ensures Good(pattern, cur)
    ensures forall w :: LiveAny(pattern, cur, w) <==> LeadsByDigits(pattern, states, n, w)
  {
    cur := states;
    forall w ensures LiveAny(pattern, cur, w) <==> LeadsByDigits(pattern, states, 0, w) {
      assert [] + w == w && DigitWord([], 0);
    }
    var i := 0;
    while i < n && cur != {}
      invariant 0 <= i <= n
      invariant Good(pattern, cur)
      invariant forall w :: LiveAny(pattern, cur, w) <==> LeadsByDigits(pattern, states, i, w)
    {
      var before := cur;
      cur := StepDigit(pattern, cur);
      forall w ensures LiveAny(pattern, cur, w) <==> LeadsByDigits(pattern, states, i + 1, w) {
        OneMoreDigit(pattern, states, before, cur, i, w);
      }
      i := i + 1;
    }
    if i < n {
      forall w ensures !LeadsByDigits(pattern, states, n, w) {
        forall v ensures !LeadsByDigits(pattern, states, i, v) {
          assert !LiveAny(pattern, cur, v);
        }
        FewerDigits(pattern, states, i, n, w);
      }
    }
  }

  // ---- Anything ----------------------------------------------------------------------

  lemma {:induction false} AnythingForward(pattern: string, i: nat, u: Word, v: Word) returns (q: nat)
    requires i <= |pattern| && LiveAt(pattern, i, u + v)
    ensures q in Boundaries(pattern, i) && LiveAt(pattern, q, v)
    decreases |pattern| - i + |u|
  {
    if u == [] {
      assert u + v == v;
      q := i;
    } else {
      LiveUnfold(pattern, i, u + v);
      assert (u + v)[1..] == u[1..] + v;
      if StarAt(pattern, i) {
        if LiveAt(pattern, i + 1, u + v) {
          q := AnythingForward(pattern, i + 1, u, v);
        } else {
          q := AnythingForward(pattern, i, u[1..], v);
        }
      } else {
        q := AnythingForward(pattern, After(pattern, i), u[1..], v);
      }
    }
  }

  lemma {:induction false} AnythingBackward(pattern: string, i: nat, q: nat, v: Word) returns (u: Word)
    requires i <= |pattern| && q in Boundaries(pattern, i) && LiveAt(pattern, q, v)
    ensures LiveAt(pattern, i, u + v)
    decreases |pattern| - i
  {
    if q == i {
      u := [];
      assert u + v == v;
    } else {
      u := AnythingBackward(pattern, After(pattern, i), q, v);
      if !StarAt(pattern, i) {
        var rest := u;
        u := [Joker] + rest;
        assert (u + v)[1..] == rest + v;
      }
      LiveUnfold(pattern, i, u + v);
    }
  }

  /** Every boundary from the earliest live state on is where an unknown text may end. */
  lemma BoundariesFromLowest(pattern: string, states: set<nat>, lo: nat, next: set<nat>, v: Word)
    requires Good(pattern, states) && lo in states && forall i | i in states :: lo <= i
    requires next == Boundaries(pattern, lo)
    ensures LiveAny(pattern, next, v) <==> exists u :: LiveAny(pattern, states, u + v)
  {
    if u :| LiveAny(pattern, states, u + v) {
      var i :| i in states && i <= |pattern| && LiveAt(pattern, i, u + v);
      var q := AnythingForward(pattern, i, u, v);
      BoundaryOrder(pattern, 0, lo, i);
      BoundariesNest(pattern, lo, i, q);
    }
    if LiveAny(pattern, next, v) {
      var q :| q in next && q <= |pattern| && LiveAt(pattern, q, v);
      var u := AnythingBackward(pattern, lo, q, v);
      assert LiveAny(pattern, states, u + v);
    }
  }

  // ---- The whole walk ----------------------------------------------------------------

  /** From one of the states the glob still matches something the segments still spell. */
  ghost predicate Joint(pattern: string, states: set<nat>, segs: seq<FormatSegment>) {
    exists w :: Spells(segs, w) && LiveAny(pattern, states, w)
  }

  lemma OneSegment(pattern: string, states: set<nat>, segs: seq<FormatSegment>, next: set<nat>)
    requires segs != []
    requires forall w :: LiveAny(pattern, next, w) <==> LeadsBy(pattern, states, segs[0], w)
    ensures Joint(pattern, states, segs) <==> Joint(pattern, next, segs[1..])
  {
    if Joint(pattern, states, segs) {
      var w :| Spells(segs, w) && LiveAny(pattern, states, w);
      var k :| 0 <= k <= |w| && SegmentSpells(segs[0], w[..k]) && Spells(segs[1..], w[k..]);
      assert w == w[..k] + w[k..];
      assert LeadsBy(pattern, states, segs[0], w[k..]);
      assert LiveAny(pattern, next, w[k..]);
    }
    if Joint(pattern, next, segs[1..]) {
      var v :| Spells(segs[1..], v) && LiveAny(pattern, next, v);
      var u :| SegmentSpells(segs[0], u) && LiveAny(pattern, states, u + v);
      var w := u + v;
      assert w[..|u|] == u && w[|u|..] == v;
      assert Spells(segs, w);
    }
  }

  /** The earliest live position. */
  method Lowest(pattern: string, states: set<nat>) returns (lo: nat)
    requires InRange(pattern, states) && states != {}
    ensures lo in states && forall i | i in states :: lo <= i
  {
    lo := |pattern|;
    var todo := states;
    while todo != {}
      invariant todo <= states && lo <= |pattern|
      invariant forall i | i in states && i !in todo :: lo <= i
      invariant lo in states || lo == |pattern|
      decreases todo
    {
      var state :| state in todo;
      if state < lo { lo := state; }
      todo := todo - {state};
    }
    if lo !in states {
      var i :| i in states;
      assert lo <= i <= |pattern|;
    }
  }

  /** An unknown segment makes every boundary at or beyond the earliest live state live. */
  method ConsumeAnything(pattern: string, states: set<nat>) returns (out: set<nat>)
    requires Good(pattern, states) && states != {}
    ensures Good(pattern, out) && out != {}
    ensures forall w :: LiveAny(pattern, out, w) <==> exists u :: LiveAny(pattern, states, u + w)
  {
    var lo := Lowest(pattern, states);
    var next: set<nat> := {};
    var p := lo;
    while p < |pattern|
      invariant lo <= p <= |pattern|
      invariant p in Boundaries(pattern, 0)
      invariant next + Boundaries(pattern, p) == Boundaries(pattern, lo)
    {
      next := next + {p};
      var _, after := PatternElement(pattern, p);
      if pattern[p] == '*' { assert ElementAt(pattern, p) == (Literal('*'), p + 1); }
      BoundaryStep(pattern, 0, p);
      p := after;
    }
    next := next + {|pattern|};
    forall j | j in next ensures j in Boundaries(pattern, 0) {
      BoundariesNest(pattern, 0, lo, j);
    }
    out := StarClosure(pattern, next);
    forall w ensures LiveAny(pattern, out, w) <==> exists u :: LiveAny(pattern, states, u + w) {
      BoundariesFromLowest(pattern, states, lo, next, w);
    }
  }

  ghost predicate LeadsByAlternative(pattern: string, states: set<nat>, alts: seq<string>, n: nat, w: Word)
    requires n <= |alts|
  {
    exists i :: 0 <= i < n && LiveAny(pattern, states, Lift(alts[i]) + w)
  }

  /** The union of what each alternative leads to. */
  method ConsumeAlternatives(pattern: string, states: set<nat>, alts: seq<string>) returns (next: set<nat>)
    requires Good(pattern, states)
    ensures Good(pattern, next)
    ensures forall w :: LiveAny(pattern, next, w) <==> LeadsByAlternative(pattern, states, alts, |alts|, w)
  {
    next := {};
    for n := 0 to |alts|
      invariant Good(pattern, next)
      invariant forall w :: LiveAny(pattern, next, w) <==> LeadsByAlternative(pattern, states, alts, n, w)
    {
      var before := next;
      var reached := Consume(pattern, states, alts[n]);
      next := next + reached;
      forall w ensures LiveAny(pattern, next, w) <==> LeadsByAlternative(pattern, states, alts, n + 1, w) {
        assert LiveAny(pattern, next, w) <==> LiveAny(pattern, before, w) || LiveAny(pattern, reached, w);
        assert LiveAny(pattern, before, w) <==> LeadsByAlternative(pattern, states, alts, n, w);
      }
    }
  }

  /** Reports whether the glob claims any name the format can generate. */
  method PatternMatchesFormat(pattern: string, segs: seq<FormatSegment>) returns (r: bool)
    ensures r <==> Claims(pattern, segs)
  {
    var states := StarClosure(pattern, {0});
    forall w ensures LiveAny(pattern, states, w) <==> LiveAt(pattern, 0, w) {
      assert LiveAny(pattern, {0}, w) <==> LiveAt(pattern, 0, w);
    }
    assert Joint(pattern, states, segs) <==> Claims(pattern, segs);
    for n := 0 to |segs|
      invariant Good(pattern, states) && states != {}
      invariant Joint(pattern, states, segs[n..]) <==> Claims(pattern, segs)
    {
      var seg := segs[n];
      var before := states;
      assert segs[n..][0] == seg && segs[n..][1..] == segs[n + 1..];
      if seg.any {
        states := ConsumeAnything(pattern, states);
        AnySegment(pattern, before, seg, states);
        OneSegment(pattern, before, segs[n..], states);
        continue;
      }
      var next: set<nat>;
      if seg.digits > 0 {
        next := ConsumeDigits(pattern, states, seg.digits);
        DigitSegment(pattern, before, seg, next);
      } else {
        next := ConsumeAlternatives(pattern, states, seg.alts);
        AlternativeSegment(pattern, before, seg, next);
      }
      OneSegment(pattern, before, segs[n..], next);
      if next == {} {
        assert !Joint(pattern, next, segs[n + 1..]);
        return false;
      }
      states := next;
    }
    assert segs[|segs|..] == [];
    EndOfFormat(pattern, states);
    return |pattern| in states;
  }

  lemma AnySegment(pattern: string, states: set<nat>, seg: FormatSegment, next: set<nat>)
    requires seg.any
    requires forall w :: LiveAny(pattern, next, w) <==> exists u :: LiveAny(pattern, states, u + w)
    ensures forall w :: LiveAny(pattern, next, w) <==> LeadsBy(pattern, states, seg, w)
  {
    forall w ensures LiveAny(pattern, next, w) <==> LeadsBy(pattern, states, seg, w) {
      if u :| LiveAny(pattern, states, u + w) {
        assert SegmentSpells(seg, u);
      }
    }
  }

  lemma DigitSegment(pattern: string, states: set<nat>, seg: FormatSegment, next: set<nat>)
    requires !seg.any && seg.digits > 0
    requires forall w :: LiveAny(pattern, next, w) <==> LeadsByDigits(pattern, states, seg.digits, w)
    ensures forall w :: LiveAny(pattern, next, w) <==> LeadsBy(pattern, states, seg, w)
  {
    forall w ensures LiveAny(pattern, next, w) <==> LeadsBy(pattern, states, seg, w) {
      if LeadsByDigits(pattern, states, seg.digits, w) {
        var u :| DigitWord(u, seg.digits) && LiveAny(pattern, states, u + w);
        assert SegmentSpells(seg, u);
      }
      if LeadsBy(pattern, states, seg, w) {
        var u :| SegmentSpells(seg, u) && LiveAny(pattern, states, u + w);
        assert DigitWord(u, seg.digits);
      }
    }
  }

  lemma AlternativeSegment(pattern: string, states: set<nat>, seg: FormatSegment, next: set<nat>)
    requires !seg.any && seg.digits <= 0
    requires forall w :: LiveAny(pattern, next, w) <==> LeadsByAlternative(pattern, states, seg.alts, |seg.alts|, w)
    ensures forall w :: LiveAny(pattern, next, w) <==> LeadsBy(pattern, states, seg, w)
  {
    forall w ensures LiveAny(pattern, next, w) <==> LeadsBy(pattern, states, seg, w) {
      if LeadsByAlternative(pattern, states, seg.alts, |seg.alts|, w) {
        var i :| 0 <= i < |seg.alts| && LiveAny(pattern, states, Lift(seg.alts[i]) + w);
        assert SegmentSpells(seg, Lift(seg.alts[i]));
      }
      if LeadsBy(pattern, states, seg, w) {
        var u :| SegmentSpells(seg, u) && LiveAny(pattern, states, u + w);
        var i :| 0 <= i < |seg.alts| && u == Lift(seg.alts[i]);
        assert LeadsByAlternative(pattern, states, seg.alts, |seg.alts|, w);
      }
    }
  }

  lemma EndOfFormat(pattern: string, states: set<nat>)
    requires Good(pattern, states)
    ensures Joint(pattern, states, []) <==> |pattern| in states
  {
    assert Spells([], []);
    if Joint(pattern, states, []) {
      var i :| i in states && i <= |pattern| && LiveAt(pattern, i, []);
      OnlyStarsLeft(pattern, states, i);
    }
    if |pattern| in states {
      LiveUnfold(pattern, |pattern|, []);
      assert LiveAny(pattern, states, []);
    }
  }

  lemma {:induction false} OnlyStarsLeft(pattern: string, states: set<nat>, i: nat)
    requires Good(pattern, states) && i in states && LiveAt(pattern, i, [])
    ensures |pattern| in states
    decreases |pattern| - i
  {
    LiveUnfold(pattern, i, []);
    if i < |pattern| { OnlyStarsLeft(pattern, states, i + 1); }
  }

  /** An absent pattern or format distinguishes nothing: over-matching, the safe side. */
  ghost predicate Overmatches(pattern: string, format: seq<FormatSegment>) {
    pattern == "" || format == [] || Claims(pattern, format)
  }

  method PatternOvermatches(pattern: string, format: seq<FormatSegment>) returns (r: bool)
    ensures r <==> Overmatches(pattern, format)
  {
    if pattern == "" || |format| == 0 { return true; }
    r := PatternMatchesFormat(pattern, format);
  }
}
