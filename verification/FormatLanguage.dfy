/**
 The names an archive format can generate, and what it means for a glob and a format to
 share one. Both are stated over symbols: ordinary characters, plus a joker standing for
 "some character the pattern would take here". The joker is what the decider's treatment
 of an unknown placeholder amounts to: it lets such a placeholder step over any pattern
 element, even a class no character satisfies.
 */
module FormatLanguage {
  import opened Characters
  import opened Glob
  import opened Wrappers

  /** One position of a format: finitely many alternatives, a run of digits of known
      length, or anything. The fields are consulted in the order any, digits, alts. */
  datatype FormatSegment = FormatSegment(alts: seq<string>, digits: int, any: bool)

  // ---- Names -------------------------------------------------------------------------

  ghost predicate SegmentWrites(seg: FormatSegment, text: string) {
    if seg.any then true
    else if seg.digits > 0 then |text| == seg.digits && forall i | 0 <= i < |text| :: IsDigit(text[i])
    else text in seg.alts
  }

  /** The format made of these segments can write this name. */
  ghost predicate Writes(segs: seq<FormatSegment>, name: string) {
    if segs == [] then name == []
    else exists k :: 0 <= k <= |name| && SegmentWrites(segs[0], name[..k]) && Writes(segs[1..], name[k..])
  }

  /** Some archive name is both matched by the glob and writable by the format. */
  ghost predicate ShareAName(pattern: string, segs: seq<FormatSegment>) {
    exists name :: Writes(segs, name) && GlobMatches(pattern, name)
  }

  // ---- Symbol strings ----------------------------------------------------------------

  datatype Symbol = Ch(c: char) | Joker

  type Word = seq<Symbol>

  function Lift(text: string): (w: Word)
    ensures |w| == |text|
    ensures forall i :: 0 <= i < |w| ==> w[i] == Ch(text[i])
  {
    seq(|text|, i requires 0 <= i < |text| => Ch(text[i]))
  }

  predicate Takes(e: Element, s: Symbol) {
    s.Joker? || Accepts(e, s.c)
  }

  predicate MatchesWord(ts: seq<Token>, w: Word)
    decreases |ts| + |w|
  {
    if ts == [] then w == []
    else
      match ts[0]
      case Star => MatchesWord(ts[1..], w) || (w != [] && MatchesWord(ts, w[1..]))
      case One(e) => w != [] && Takes(e, w[0]) && MatchesWord(ts[1..], w[1..])
  }

  predicate DigitWord(w: Word, n: int) {
    |w| == n && forall i | 0 <= i < |w| :: w[i].Ch? && IsDigit(w[i].c)
  }

  ghost predicate SegmentSpells(seg: FormatSegment, w: Word) {
    if seg.any then true
    else if seg.digits > 0 then DigitWord(w, seg.digits)
    else exists i :: 0 <= i < |seg.alts| && w == Lift(seg.alts[i])
  }

  ghost predicate Spells(segs: seq<FormatSegment>, w: Word) {
    if segs == [] then w == []
    else exists k :: 0 <= k <= |w| && SegmentSpells(segs[0], w[..k]) && Spells(segs[1..], w[k..])
  }

  /** What the decider decides, for every pattern and format: the glob claims some word
      the format spells. */
  ghost predicate Claims(pattern: string, segs: seq<FormatSegment>) {
    exists w :: Spells(segs, w) && MatchesWord(Tokens(pattern, 0), w)
  }

  // ---- From words to names -----------------------------------------------------------

  lemma {:induction false} MatchesLift(ts: seq<Token>, name: string)
    ensures MatchesWord(ts, Lift(name)) == Matches(ts, name)
    decreases |ts| + |name|
  {
    if ts != [] {
      if name != [] {
        assert Lift(name)[1..] == Lift(name[1..]);
        MatchesLift(ts, name[1..]);
        MatchesLift(ts[1..], name[1..]);
      }
      MatchesLift(ts[1..], name);
    }
  }

  lemma {:induction false} WritesLift(segs: seq<FormatSegment>, name: string)
    requires Writes(segs, name)
    ensures Spells(segs, Lift(name))
  {
    if segs != [] {
      var k :| 0 <= k <= |name| && SegmentWrites(segs[0], name[..k]) && Writes(segs[1..], name[k..]);
      WritesLift(segs[1..], name[k..]);
      assert Lift(name)[..k] == Lift(name[..k]) && Lift(name)[k..] == Lift(name[k..]);
      var seg := segs[0];
      assert SegmentSpells(seg, Lift(name)[..k]) by {
        if !seg.any && seg.digits <= 0 {
          var i :| 0 <= i < |seg.alts| && seg.alts[i] == name[..k];
          assert Lift(name[..k]) == Lift(seg.alts[i]);
        }
      }
    }
  }

  /** No collision is missed: a shared name is always claimed, whatever the pattern. */
  lemma SharedNameIsClaimed(pattern: string, segs: seq<FormatSegment>, name: string)
    requires Writes(segs, name) && GlobMatches(pattern, name)
    ensures Claims(pattern, segs)
  {
    WritesLift(segs, name);
    MatchesLift(Tokens(pattern, 0), name);
  }

  // Replacing jokers by characters the pattern takes.

  ghost predicate Instance(w: Word, name: string) {
    |w| == |name| && forall i | 0 <= i < |w| && w[i].Ch? :: w[i].c == name[i]
  }

  lemma {:induction false} Instantiate(ts: seq<Token>, w: Word) returns (name: string)
    requires MatchesWord(ts, w) && AllInhabited(ts)
    ensures Instance(w, name) && Matches(ts, name)
    decreases |ts| + |w|
  {
    if ts == [] {
      name := [];
    } else if ts[0].Star? && MatchesWord(ts[1..], w) {
      assert AllInhabited(ts[1..]) by { TailInhabited(ts); }
      name := Instantiate(ts[1..], w);
    } else if ts[0].Star? {
      var rest := Instantiate(ts, w[1..]);
      var c := if w[0].Ch? then w[0].c else 'x';
      name := [c] + rest;
      assert name[1..] == rest;
    } else {
      TailInhabited(ts);
      var rest := Instantiate(ts[1..], w[1..]);
      assert Inhabited(ts[0].e);
      var c :| Accepts(ts[0].e, c) && (w[0].Ch? ==> c == w[0].c);
      name := [c] + rest;
      assert name[1..] == rest;
    }
  }

  lemma TailInhabited(ts: seq<Token>)
    requires ts != [] && AllInhabited(ts)
    ensures AllInhabited(ts[1..])
  {
    forall i | 0 <= i < |ts[1..]| && ts[1..][i].One? ensures Inhabited(ts[1..][i].e) {
      assert ts[1..][i] == ts[i + 1];
    }
  }

  lemma {:induction false} InstanceIsWritten(segs: seq<FormatSegment>, w: Word, name: string)
    requires Spells(segs, w) && Instance(w, name)
    ensures Writes(segs, name)
  {
    if segs != [] {
      var k :| 0 <= k <= |w| && SegmentSpells(segs[0], w[..k]) && Spells(segs[1..], w[k..]);
      assert Instance(w[k..], name[k..]);
      InstanceIsWritten(segs[1..], w[k..], name[k..]);
      var seg := segs[0];
      assert SegmentWrites(seg, name[..k]) by {
        assert Instance(w[..k], name[..k]);
        if !seg.any && seg.digits > 0 {
          forall i | 0 <= i < |name[..k]| ensures IsDigit(name[..k][i]) {
            assert w[..k][i].Ch?;
          }
        } else if !seg.any {
          var i :| 0 <= i < |seg.alts| && w[..k] == Lift(seg.alts[i]);
          forall j | 0 <= j < k ensures name[..k][j] == seg.alts[i][j] {
            assert w[..k][j] == Ch(seg.alts[i][j]);
          }
          assert name[..k] == seg.alts[i];
        }
      }
    }
  }

  /** With every class inhabited, a claim is always a name the two really share. */
  lemma ClaimIsShared(pattern: string, segs: seq<FormatSegment>)
    requires Claims(pattern, segs) && AllInhabited(Tokens(pattern, 0))
    ensures ShareAName(pattern, segs)
  {
    var w :| Spells(segs, w) && MatchesWord(Tokens(pattern, 0), w);
    var name := Instantiate(Tokens(pattern, 0), w);
    InstanceIsWritten(segs, w, name);
  }

  // ---- Exactly which patterns are decided exactly --------------------------------------

  const ANYTHING: FormatSegment := FormatSegment([], 0, true)

  lemma {:induction false} AllJokersMatch(ts: seq<Token>)
    ensures exists w :: MatchesWord(ts, w)
  {
    if ts == [] {
      assert MatchesWord(ts, []);
    } else {
      AllJokersMatch(ts[1..]);
      var rest :| MatchesWord(ts[1..], rest);
      if ts[0].Star? {
        assert MatchesWord(ts, rest);
      } else {
        assert ([Joker] + rest)[1..] == rest;
        assert MatchesWord(ts, [Joker] + rest);
      }
    }
  }

  lemma AnythingSpells(w: Word)
    ensures Spells([ANYTHING], w)
  {
    assert w[|w|..] == [] && [ANYTHING][1..] == [];
    assert SegmentSpells([ANYTHING][0], w[..|w|]) && Spells([ANYTHING][1..], w[|w|..]);
  }

  lemma {:induction false} EmptyClassMatchesNothing(ts: seq<Token>, i: nat, name: string)
    requires i < |ts| && ts[i].One? && !Inhabited(ts[i].e)
    ensures !Matches(ts, name)
    decreases |ts| + |name|
  {
    match ts[0]
    case Star =>
      EmptyClassMatchesNothing(ts[1..], i - 1, name);
      if name != [] { EmptyClassMatchesNothing(ts, i, name[1..]); }
    case One(e) =>
      if i > 0 && name != [] { EmptyClassMatchesNothing(ts[1..], i - 1, name[1..]); }
  }

  /** The decider is exact for a pattern on every format precisely when each of the
      pattern's classes admits some character. A class written only with inverted ranges,
      `[z-a]`, is what breaks it: no name matches the pattern, yet a format holding an
      unknown placeholder is still claimed. */
  lemma ExactPatterns(pattern: string)
    ensures (forall segs :: Claims(pattern, segs) <==> ShareAName(pattern, segs))
       <==> AllInhabited(Tokens(pattern, 0))
  {
    var ts := Tokens(pattern, 0);
    forall segs | ShareAName(pattern, segs) ensures Claims(pattern, segs) {
      var name :| Writes(segs, name) && GlobMatches(pattern, name);
      SharedNameIsClaimed(pattern, segs, name);
    }
    if AllInhabited(ts) {
      forall segs | Claims(pattern, segs) ensures ShareAName(pattern, segs) {
        ClaimIsShared(pattern, segs);
      }
    } else {
      var i :| 0 <= i < |ts| && ts[i].One? && !Inhabited(ts[i].e);
      AllJokersMatch(ts);
      var w :| MatchesWord(ts, w);
      AnythingSpells(w);
      assert Claims(pattern, [ANYTHING]);
      forall name ensures !GlobMatches(pattern, name) {
        EmptyClassMatchesNothing(ts, i, name);
      }
      assert !ShareAName(pattern, [ANYTHING]);
    }
  }

  /** The smallest such pattern. */
  lemma InvertedRangeClaimsTooMuch()
    ensures Claims("[z-a]", [ANYTHING]) && !ShareAName("[z-a]", [ANYTHING])
  {
    var p := "[z-a]";
    assert ClassItems(p, 4, false) == Some(([], 5));
    assert ClassItem(p, 1) == (Span('z', 'a'), 4);
    assert ClassItems(p, 1, true) == Some(([], 5));
    assert ElementAt(p, 0) == (Class(false, []), 5);
    assert Tokens(p, 5) == [];
    var ts := Tokens(p, 0);
    assert ts == [One(Class(false, []))];
    assert ts[1..] == [];
    assert MatchesWord(ts, [Joker]) by { assert [Joker][1..] == []; }
    AnythingSpells([Joker]);
    assert !Inhabited(ts[0].e);
    forall name ensures !GlobMatches(p, name) {
      EmptyClassMatchesNothing(ts, 0, name);
    }
  }

  /** A format without an unknown placeholder is decided exactly for every pattern. */
  lemma {:induction false} KnownFormatsSpellNames(segs: seq<FormatSegment>, w: Word)
    requires Spells(segs, w) && forall i | 0 <= i < |segs| :: !segs[i].any
    ensures forall i :: 0 <= i < |w| ==> w[i].Ch?
  {
    if segs != [] {
      var k :| 0 <= k <= |w| && SegmentSpells(segs[0], w[..k]) && Spells(segs[1..], w[k..]);
      KnownFormatsSpellNames(segs[1..], w[k..]);
      forall i | 0 <= i < |w| ensures w[i].Ch? {
        if i < k { assert w[i] == w[..k][i]; } else { assert w[i] == w[k..][i - k]; }
      }
    }
  }

  lemma KnownFormatsAreExact(pattern: string, segs: seq<FormatSegment>)
    requires forall i | 0 <= i < |segs| :: !segs[i].any
    ensures Claims(pattern, segs) <==> ShareAName(pattern, segs)
  {
    if Claims(pattern, segs) {
      var w: Word :| Spells(segs, w) && MatchesWord(Tokens(pattern, 0), w);
      KnownFormatsSpellNames(segs, w);
      var name := seq(|w|, i requires 0 <= i < |w| => w[i].c);
      assert Lift(name) == w;
      MatchesLift(Tokens(pattern, 0), name);
      InstanceIsWritten(segs, w, name);
    }
    if ShareAName(pattern, segs) {
      var name :| Writes(segs, name) && GlobMatches(pattern, name);
      SharedNameIsClaimed(pattern, segs, name);
    }
  }
}
