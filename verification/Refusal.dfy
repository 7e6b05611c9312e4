/**
 Which groups generation refuses when several share a repository: rounds of refusals until
 no surviving group's pattern claims a surviving sibling's archives.
 */
module Refusal {
  import opened Graph
  import SinkCycles
  import opened FormatLanguage
  import CollisionDecider

  type Group = Node
  type Repo = string

  /** The groups writing to each repository, their glob patterns and their formats. */
  datatype Sharing = Sharing(
    repoGroups: map<Repo, seq<Group>>,
    patterns: map<Group, string>,
    formats: map<Group, seq<FormatSegment>>)
  {
    /** A group without an entry reads as the map's zero value. */
    function PatternOf(g: Group): string { if g in patterns then patterns[g] else "" }
    function FormatOf(g: Group): seq<FormatSegment> { if g in formats then formats[g] else [] }

    predicate In(g: Group, repo: Repo) { repo in repoGroups && g in repoGroups[repo] }
  }

  function Groups(sh: Sharing): set<Group> {
    set repo, g | repo in sh.repoGroups && g in sh.repoGroups[repo] :: g
  }

  /** In this repository a's retention would prune b's archives. */
  ghost predicate ConflictIn(sh: Sharing, repo: Repo, a: Group, b: Group) {
    && a != b && sh.In(a, repo) && sh.In(b, repo)
    && CollisionDecider.Overmatches(sh.PatternOf(a), sh.FormatOf(b))
  }

  ghost predicate Conflict(sh: Sharing, a: Group, b: Group) {
    exists repo :: ConflictIn(sh, repo, a, b)
  }

  // ---- One round, as a function of the surviving groups ---------------------------------------

  ghost predicate Over(sh: Sharing, alive: set<Group>, a: Group, b: Group) {
    a in alive && b in alive && Conflict(sh, a, b)
  }

  /** a over-matches some survivor. */
  ghost predicate Source(sh: Sharing, alive: set<Group>, a: Group) {
    exists b :: Over(sh, alive, a, b)
  }

  /** a over-matches a survivor that over-matches nobody. */
  ghost predicate ClaimsInnocent(sh: Sharing, alive: set<Group>, a: Group) {
    exists b :: Over(sh, alive, a, b) && !Source(sh, alive, b)
  }

  ghost function InnocentRound(sh: Sharing, alive: set<Group>): set<Group> {
    set a | a in alive && ClaimsInnocent(sh, alive, a)
  }

  ghost function Listed(s: set<Group>): (r: seq<Group>)
    ensures forall x :: x in r <==> x in s
  {
    if s == {} then [] else var x :| x in s; [x] + Listed(s - {x})
  }

  /** The over-match graph of the survivors. */
  ghost function ConflictGraph(sh: Sharing, alive: set<Group>): (adj: Adjacency)
    ensures adj.Keys == set a | a in alive && Source(sh, alive, a)
    ensures forall a, b :: Edge(adj, a, b) <==> Over(sh, alive, a, b)
  {
    map a | a in alive && Source(sh, alive, a) :: Listed(set b | b in alive && Over(sh, alive, a, b))
  }

  ghost function Round(sh: Sharing, alive: set<Group>): (r: set<Group>)
    ensures r <= alive
  {
    if InnocentRound(sh, alive) != {} then InnocentRound(sh, alive)
    else set a | a in alive && InSinkCycle(ConflictGraph(sh, alive), a)
  }

  lemma OnlyOffenders(sh: Sharing, alive: set<Group>, adj: Adjacency)
    requires InnocentRound(sh, alive) == {}
    requires adj.Keys == set a | a in alive && Source(sh, alive, a)
    requires forall a, b :: Edge(adj, a, b) <==> Over(sh, alive, a, b)
    ensures AllOffenders(adj)
  {
    forall a | a in adj ensures adj[a] != [] {
      var b :| Over(sh, alive, a, b);
      assert Edge(adj, a, b);
    }
    forall a, b | a in adj && b in adj[a] ensures b in adj && b != a {
      assert Edge(adj, a, b);
      assert a !in InnocentRound(sh, alive);
      assert Source(sh, alive, b);
    }
  }

  /** While some survivor over-matches another, the round refuses at least one group, so
      the rounds come to an end. */
  lemma RoundRefusesSomeone(sh: Sharing, alive: set<Group>)
    requires exists a :: Source(sh, alive, a)
    ensures Round(sh, alive) != {}
  {
    hide InSinkCycle, Edge, Over, ClaimsInnocent, AllOffenders;
    if InnocentRound(sh, alive) == {} {
      var adj := ConflictGraph(sh, alive);
      OnlyOffenders(sh, alive, adj);
      var a :| Source(sh, alive, a);
      SourceAlive(sh, alive, a);
      assert a in adj.Keys;
      SinkCycleExists(adj);
      var v :| v in adj && InSinkCycle(adj, v);
      assert v in Round(sh, alive);
    }
  }

  /** Who is left when the rounds have settled. */
  ghost function Survivors(sh: Sharing, alive: set<Group>): (r: set<Group>)
    ensures r <= alive
    decreases |alive|
  {
    if !exists a :: Source(sh, alive, a) then alive
    else
      RoundRefusesSomeone(sh, alive);
      RemovalShrinks(alive, Round(sh, alive));
      Survivors(sh, alive - Round(sh, alive))
  }

  lemma RemovalShrinks(s: set<Group>, r: set<Group>)
    requires r <= s && r != {}
    ensures |s - r| < |s|
  {
    assert s == (s - r) + r;
    assert |s| == |s - r| + |r|;
  }

  // ---- What the rounds guarantee ---------------------------------------------------------------

  /** Survivors cannot prune each other. */
  lemma {:induction false} SurvivorsDoNotConflict(sh: Sharing, alive: set<Group>, a: Group, b: Group)
    requires a in Survivors(sh, alive) && b in Survivors(sh, alive)
    ensures !Conflict(sh, a, b)
    decreases |alive|
  {
    if exists x :: Source(sh, alive, x) {
      RoundRefusesSomeone(sh, alive);
      RemovalShrinks(alive, Round(sh, alive));
      SurvivorsDoNotConflict(sh, alive - Round(sh, alive), a, b);
    } else {
      if Conflict(sh, a, b) {
        assert Over(sh, alive, a, b);
        assert Source(sh, alive, a);
      }
    }
  }

  lemma FewerSources(sh: Sharing, big: set<Group>, small: set<Group>, a: Group)
    requires small <= big && Source(sh, small, a)
    ensures Source(sh, big, a)
  {
    var b :| Over(sh, small, a, b);
    assert Over(sh, big, a, b);
  }

  lemma RoundTakesSources(sh: Sharing, alive: set<Group>, a: Group)
    requires a in Round(sh, alive)
    ensures Source(sh, alive, a)
  {
    if InnocentRound(sh, alive) == {} {
      var adj := ConflictGraph(sh, alive);
      var w :| w != a && Mutual(adj, a, w);
      SinkCycles.HasSuccessor(adj, a, w);
    }
  }

  /** A group that over-matches no survivor is never refused. */
  lemma {:induction false} HarmlessSurvives(sh: Sharing, alive: set<Group>, a: Group)
    requires a in alive && !Source(sh, alive, a)
    ensures a in Survivors(sh, alive)
    decreases |alive|
  {
    if exists x :: Source(sh, alive, x) {
      RoundRefusesSomeone(sh, alive);
      RemovalShrinks(alive, Round(sh, alive));
      var rest := alive - Round(sh, alive);
      if a in Round(sh, alive) { RoundTakesSources(sh, alive, a); }
      if Source(sh, rest, a) { FewerSources(sh, alive, rest, a); }
      HarmlessSurvives(sh, rest, a);
    }
  }

  /** `later` is the set of survivors at the start of some round. */
  ghost predicate Stage(sh: Sharing, alive: set<Group>, later: set<Group>)
    decreases |alive|
  {
    later == alive
    || ((exists a :: Source(sh, alive, a))
        && (RoundRefusesSomeone(sh, alive); RemovalShrinks(alive, Round(sh, alive));
            Stage(sh, alive - Round(sh, alive), later)))
  }

  /** a claims a sibling that runs to the end. */
  ghost predicate ClaimsASurvivor(sh: Sharing, alive: set<Group>, a: Group) {
    exists b :: b in Survivors(sh, alive) && Conflict(sh, a, b)
  }

  /** a is on a cycle of over-matches nothing escapes from, and the round refuses every
      group on it. */
  ghost predicate FallsWithItsCycle(sh: Sharing, stage: set<Group>, a: Group) {
    var adj := ConflictGraph(sh, stage);
    && InSinkCycle(adj, a)
    && forall w | Mutual(adj, a, w) :: w in Round(sh, stage)
  }

  /** Every refusal is justified: the refused group claims a sibling that survives to the
      end, or goes down with the whole of a cycle of offenders. */
  lemma {:induction false} RefusalJustified(sh: Sharing, alive: set<Group>, a: Group)
    requires a in alive && a !in Survivors(sh, alive)
    ensures exists stage :: Stage(sh, alive, stage) && a in Round(sh, stage)
              && (ClaimsASurvivor(sh, alive, a) || FallsWithItsCycle(sh, stage, a))
    decreases |alive|
  {
    RoundRefusesSomeone(sh, alive);
    RemovalShrinks(alive, Round(sh, alive));
    var rest := alive - Round(sh, alive);
    if a !in Round(sh, alive) {
      RefusalJustified(sh, rest, a);
      var stage :| Stage(sh, rest, stage) && a in Round(sh, stage)
              && (ClaimsASurvivor(sh, rest, a) || FallsWithItsCycle(sh, stage, a));
      assert Stage(sh, alive, stage);
    } else {
      assert Stage(sh, alive, alive);
      if InnocentRound(sh, alive) != {} {
        var b :| Over(sh, alive, a, b) && !Source(sh, alive, b);
        HarmlessSurvives(sh, alive, b);
        assert ClaimsASurvivor(sh, alive, a);
      } else {
        CycleGoesTogether(sh, alive, a);
      }
    }
  }

  lemma CycleGoesTogether(sh: Sharing, alive: set<Group>, a: Group)
    requires InnocentRound(sh, alive) == {} && a in Round(sh, alive)
    ensures FallsWithItsCycle(sh, alive, a)
  {
    var adj := ConflictGraph(sh, alive);
    hide ConflictGraph;
    forall w | Mutual(adj, a, w) ensures w in Round(sh, alive) {
      SinkMembers(adj, a, w);
      if w != a {
        SinkCycles.HasSuccessor(adj, w, a);
        assert w in adj.Keys;
      }
    }
  }

  lemma SinkMembers(adj: Adjacency, a: Node, w: Node)
    requires InSinkCycle(adj, a) && Mutual(adj, a, w)
    ensures InSinkCycle(adj, w)
  {
    hide Reach;
    forall y | Reach(adj, w, y) ensures Reach(adj, y, w) {
      ReachTrans(adj, a, w, y);
      ReachTrans(adj, y, a, w);
    }
    var other :| other != a && Mutual(adj, a, other);
    if w == a {
      assert Mutual(adj, w, other);
    } else {
      assert Mutual(adj, w, a);
    }
  }

  // ---- Mutual over-matches ------------------------------------------------------------------------

  /** Of two groups that claim each other at most one survives. */
  lemma NotBothSurvive(sh: Sharing, alive: set<Group>, a: Group, b: Group)
    requires Conflict(sh, a, b)
    ensures !(a in Survivors(sh, alive) && b in Survivors(sh, alive))
  {
    if a in Survivors(sh, alive) && b in Survivors(sh, alive) {
      SurvivorsDoNotConflict(sh, alive, a, b);
    }
  }

  /** The round of this stage is a cycle round, or the two both or neither claim an innocent
      sibling. */
  ghost predicate TreatedAlike(sh: Sharing, stage: set<Group>, a: Group, b: Group) {
    InnocentRound(sh, stage) == {} || (ClaimsInnocent(sh, stage, a) <==> ClaimsInnocent(sh, stage, b))
  }

  /** A round treats the two alike exactly when it is a cycle round or when both or
      neither claim an innocent sibling as well. */
  lemma MutualPairInARound(sh: Sharing, alive: set<Group>, a: Group, b: Group)
    requires Over(sh, alive, a, b) && Over(sh, alive, b, a)
    ensures (a in Round(sh, alive) <==> b in Round(sh, alive)) <==> TreatedAlike(sh, alive, a, b)
  {
    if InnocentRound(sh, alive) == {} {
      var adj := ConflictGraph(sh, alive);
      ReachEdge(adj, a, b);
      ReachEdge(adj, b, a);
      if InSinkCycle(adj, a) { SinkMembers(adj, a, b); }
      if InSinkCycle(adj, b) { SinkMembers(adj, b, a); }
    }
  }

  lemma {:induction false} LaterStage(sh: Sharing, alive: set<Group>, later: set<Group>)
    requires Stage(sh, alive, later)
    ensures later <= alive && Survivors(sh, alive) == Survivors(sh, later)
    decreases |alive|
  {
    if later != alive {
      RoundStep(sh, alive);
      LaterStage(sh, alive - Round(sh, alive), later);
    }
  }

  lemma RoundIsFinal(sh: Sharing, alive: set<Group>, stage: set<Group>, a: Group)
    requires Stage(sh, alive, stage) && a in Round(sh, stage)
    ensures a !in Survivors(sh, alive)
  {
    LaterStage(sh, alive, stage);
    RoundTakesSources(sh, stage, a);
    RoundStep(sh, stage);
  }

  ghost predicate TakenTogether(sh: Sharing, alive: set<Group>, a: Group, b: Group) {
    exists stage :: Stage(sh, alive, stage) && a in Round(sh, stage) && b in Round(sh, stage)
  }

  ghost predicate AlwaysAlike(sh: Sharing, alive: set<Group>, a: Group, b: Group) {
    forall stage | Stage(sh, alive, stage) && a in stage && b in stage :: TreatedAlike(sh, stage, a, b)
  }

  /** Two groups that claim each other are refused by one and the same round exactly when
      every round up to then treats them alike. */
  lemma {:induction false} RefusedTogether(sh: Sharing, alive: set<Group>, a: Group, b: Group)
    requires Over(sh, alive, a, b) && Over(sh, alive, b, a)
    ensures TakenTogether(sh, alive, a, b) <==> AlwaysAlike(sh, alive, a, b)
    ensures TakenTogether(sh, alive, a, b) ==> a !in Survivors(sh, alive) && b !in Survivors(sh, alive)
    decreases |alive|
  {
    hide Stage, Round, InnocentRound, Source, TakenTogether, AlwaysAlike, Survivors, TreatedAlike;
    MutualSources(sh, alive, a, b);
    MutualPairInARound(sh, alive, a, b);
    RoundStep(sh, alive);
    FirstStage(sh, alive, a, b);
    var round, rest := Round(sh, alive), alive - Round(sh, alive);
    if a !in round && b !in round {
      RefusedTogether(sh, rest, a, b);
    } else {
      OneIsGone(sh, rest, a, b);
    }
    if TakenTogether(sh, alive, a, b) { TogetherIsFinal(sh, alive, a, b); }
  }

  lemma MutualSources(sh: Sharing, alive: set<Group>, a: Group, b: Group)
    requires Over(sh, alive, a, b) && Over(sh, alive, b, a)
    ensures Source(sh, alive, a) && Source(sh, alive, b)
  {}

  lemma TogetherIsFinal(sh: Sharing, alive: set<Group>, a: Group, b: Group)
    requires TakenTogether(sh, alive, a, b)
    ensures a !in Survivors(sh, alive) && b !in Survivors(sh, alive)
  {
    hide Stage, Round, Survivors;
    var stage :| Stage(sh, alive, stage) && a in Round(sh, stage) && b in Round(sh, stage);
    RoundIsFinal(sh, alive, stage, a);
    RoundIsFinal(sh, alive, stage, b);
  }

  /** A stage is the first one or a stage of the rest. */
  lemma FirstStage(sh: Sharing, alive: set<Group>, a: Group, b: Group)
    requires a in alive && b in alive && exists x :: Source(sh, alive, x)
    ensures var round, rest := Round(sh, alive), alive - Round(sh, alive);
            && (TakenTogether(sh, alive, a, b) <==> (a in round && b in round) || TakenTogether(sh, rest, a, b))
            && (AlwaysAlike(sh, alive, a, b) <==> TreatedAlike(sh, alive, a, b) && AlwaysAlike(sh, rest, a, b))
  {
    var round, rest := Round(sh, alive), alive - Round(sh, alive);
    StagesAre(sh, alive);
    hide Stage, Round, Source, TreatedAlike;
    if stage :| Stage(sh, rest, stage) && a in Round(sh, stage) && b in Round(sh, stage) {
      assert Stage(sh, alive, stage);
    }
    if AlwaysAlike(sh, alive, a, b) {
      forall stage | Stage(sh, rest, stage) && a in stage && b in stage ensures TreatedAlike(sh, stage, a, b) {
        assert Stage(sh, alive, stage);
      }
    }
  }

  lemma OneIsGone(sh: Sharing, rest: set<Group>, a: Group, b: Group)
    requires a !in rest || b !in rest
    ensures !TakenTogether(sh, rest, a, b) && AlwaysAlike(sh, rest, a, b)
  {
    hide Stage, Round, TreatedAlike, Survivors;
    forall stage | Stage(sh, rest, stage) ensures stage <= rest { LaterStage(sh, rest, stage); }
  }

  lemma StagesAre(sh: Sharing, alive: set<Group>)
    requires exists a :: Source(sh, alive, a)
    ensures forall stage :: Stage(sh, alive, stage) <==> stage == alive || Stage(sh, alive - Round(sh, alive), stage)
  {}

  /** Two groups that the rules cannot tell apart. */
  ghost predicate Twins(sh: Sharing, a: Group, b: Group) {
    && sh.PatternOf(a) == sh.PatternOf(b) && sh.FormatOf(a) == sh.FormatOf(b)
    && forall repo :: sh.In(a, repo) <==> sh.In(b, repo)
  }

  /** Identical formats and globs in the same repositories: a match between the two refuses
      both. */
  lemma TwinsBothRefused(sh: Sharing, alive: set<Group>, a: Group, b: Group)
    requires a in alive && b in alive && Twins(sh, a, b) && Conflict(sh, a, b)
    ensures a !in Survivors(sh, alive) && b !in Survivors(sh, alive)
  {
    TwinsClaimAlike(sh, a, b);
    RefusedTogether(sh, alive, a, b);
    forall stage | Stage(sh, alive, stage) && a in stage && b in stage ensures TreatedAlike(sh, stage, a, b) {
      TwinsTreatedAlike(sh, stage, a, b);
    }
  }

  lemma TwinsClaimAlike(sh: Sharing, a: Group, b: Group)
    requires Twins(sh, a, b) && Conflict(sh, a, b)
    ensures Conflict(sh, b, a)
    ensures forall x | x != a && x != b :: Conflict(sh, a, x) <==> Conflict(sh, b, x)
  {
    hide CollisionDecider.Overmatches;
    var repo :| ConflictIn(sh, repo, a, b);
    assert ConflictIn(sh, repo, b, a);
    forall x | x != a && x != b ensures Conflict(sh, a, x) <==> Conflict(sh, b, x) {
      if r :| ConflictIn(sh, r, a, x) { assert ConflictIn(sh, r, b, x); }
      if r :| ConflictIn(sh, r, b, x) { assert ConflictIn(sh, r, a, x); }
    }
  }

  lemma TwinsTreatedAlike(sh: Sharing, stage: set<Group>, a: Group, b: Group)
    requires a in stage && b in stage && Twins(sh, a, b) && Conflict(sh, a, b)
    ensures TreatedAlike(sh, stage, a, b)
  {
    TwinsClaimAlike(sh, a, b);
    forall x ensures !Conflict(sh, x, x) {}
    hide Conflict, InnocentRound;
    assert Over(sh, stage, a, b) && Over(sh, stage, b, a);
    assert Source(sh, stage, a) && Source(sh, stage, b);
    if x :| Over(sh, stage, a, x) && !Source(sh, stage, x) { assert Over(sh, stage, b, x); }
    if x :| Over(sh, stage, b, x) && !Source(sh, stage, x) { assert Over(sh, stage, a, x); }
  }

  const THE_HOST: seq<FormatSegment> := [FormatSegment(["host"], 0, false)]
  const JUST_C: seq<FormatSegment> := [FormatSegment(["c"], 0, false)]

  /** a and b claim each other; a also claims c, in another repository, and c nobody. */
  const MUTUAL_PAIR: Sharing := Sharing(
    map["shared" := ["a", "b"], "other" := ["a", "c"]],
    map["a" := "*", "b" := "*", "c" := "c"],
    map["a" := THE_HOST, "b" := THE_HOST, "c" := JUST_C])

  lemma OneAlternative(text: string)
    ensures Spells([FormatSegment([text], 0, false)], Lift(text))
    ensures forall w | Spells([FormatSegment([text], 0, false)], w) :: |w| == |text|
  {
    var segs, word := [FormatSegment([text], 0, false)], Lift(text);
    assert segs[1..] == [] && segs[0].alts[0] == text;
    assert word[..|word|] == word && word[|word|..] == [];
    assert SegmentSpells(segs[0], word[..|word|]) && Spells(segs[1..], word[|word|..]);
  }

  lemma {:induction false} StarMatchesWord(w: Word)
    ensures MatchesWord([Glob.Star], w)
    decreases |w|
  {
    assert [Glob.Star][1..] == [];
    if w != [] { StarMatchesWord(w[1..]); }
  }

  lemma StarClaims(segs: seq<FormatSegment>, w: Word)
    requires Spells(segs, w) && segs != []
    ensures CollisionDecider.Overmatches("*", segs)
  {
    assert Glob.Tokens("*", 1) == [];
    assert Glob.Tokens("*", 0) == [Glob.Star];
    StarMatchesWord(w);
  }

  lemma CDoesNotClaimTheHost()
    ensures !CollisionDecider.Overmatches("c", THE_HOST)
  {
    var ts := Glob.Tokens("c", 0);
    assert Glob.Tokens("c", 1) == [];
    assert ts == [Glob.One(Glob.Literal('c'))];
    OneAlternative("host");
    forall w | Spells(THE_HOST, w) ensures !MatchesWord(ts, w) {
      assert |w| == 4 && ts[1..] == [] && w[1..] != [];
    }
  }

  /** Of three groups, a and b claim each other, a also claims c, and nothing else is
      claimed: a goes for claiming the innocent c, and b, which then claims nobody, runs. */
  lemma MutualOffenderSurvives(sh: Sharing, all: set<Group>, a: Group, b: Group, c: Group)
    requires all == {a, b, c} && a != b && b != c
    requires Conflict(sh, a, b) && Conflict(sh, b, a) && Conflict(sh, a, c)
    requires !Conflict(sh, b, c) && forall y :: !Conflict(sh, c, y)
    ensures a !in Survivors(sh, all) && b in Survivors(sh, all)
  {
    OffenderAndVictims(sh, all, a, b, c);
    hide Over, Source, ClaimsInnocent, Conflict, Survivors;
    assert a in InnocentRound(sh, all) && b !in InnocentRound(sh, all);
    RoundStep(sh, all);
    var rest := all - InnocentRound(sh, all);
    HarmlessSurvives(sh, rest, b);
  }

  lemma OffenderAndVictims(sh: Sharing, all: set<Group>, a: Group, b: Group, c: Group)
    requires all == {a, b, c} && a != b && b != c
    requires Conflict(sh, a, b) && Conflict(sh, b, a) && Conflict(sh, a, c)
    requires !Conflict(sh, b, c) && forall y :: !Conflict(sh, c, y)
    ensures Source(sh, all, a) && ClaimsInnocent(sh, all, a) && !ClaimsInnocent(sh, all, b)
    ensures forall rest | rest <= {b, c} :: !Source(sh, rest, b)
  {
    forall y ensures !Conflict(sh, y, y) {}
    hide Conflict;
    assert Over(sh, all, a, c) && Over(sh, all, a, b);
    assert !Source(sh, all, c) && Source(sh, all, a);
  }

  lemma PairConflicts()
    ensures CollisionDecider.Overmatches("*", THE_HOST)
    ensures CollisionDecider.Overmatches("*", JUST_C)
    ensures !CollisionDecider.Overmatches("c", THE_HOST)
  {
    OneAlternative("host");
    OneAlternative("c");
    StarClaims(THE_HOST, Lift("host"));
    StarClaims(JUST_C, Lift("c"));
    CDoesNotClaimTheHost();
  }

  /** Such a sharing exists, so a mutual over-match does not always refuse both. */
  lemma MutualOffenderCanSurvive()
    ensures Conflict(MUTUAL_PAIR, "a", "b") && Conflict(MUTUAL_PAIR, "b", "a")
    ensures "a" !in Survivors(MUTUAL_PAIR, Groups(MUTUAL_PAIR))
    ensures "b" in Survivors(MUTUAL_PAIR, Groups(MUTUAL_PAIR))
  {
    var sh := MUTUAL_PAIR;
    PairConflicts();
    hide CollisionDecider.Overmatches, Survivors;
    var shared, other := sh.repoGroups["shared"], sh.repoGroups["other"];
    assert shared == ["a", "b"] && other == ["a", "c"];
    assert "a" in shared && "b" in shared && "a" in other && "c" in other && "c" !in shared && "b" !in other;
    assert Groups(sh) == {"a", "b", "c"};
    assert ConflictIn(sh, "shared", "a", "b") && ConflictIn(sh, "shared", "b", "a")
           && ConflictIn(sh, "other", "a", "c");
    forall repo, y ensures !ConflictIn(sh, repo, "c", y) && !ConflictIn(sh, repo, "b", "c") {}
    MutualOffenderSurvives(sh, Groups(sh), "a", "b", "c");
  }

  // ---- The rounds as the code runs them -----------------------------------------------------------

  /** A sibling a group over-matches, and a repository the two share. */
  datatype Victim = Victim(repo: Repo, name: Group)

  ghost predicate Wanted(sh: Sharing, alive: set<Group>, a: Group, v: Victim) {
    a in alive && v.name in alive && ConflictIn(sh, v.repo, a, v.name)
  }

  predicate Holds(edges: map<Group, seq<Victim>>, a: Group, v: Victim) {
    a in edges && v in edges[a]
  }

  method Overmatch(sh: Sharing, a: Group, b: Group) returns (r: bool)
    ensures r <==> CollisionDecider.Overmatches(sh.PatternOf(a), sh.FormatOf(b))
  {
    r := CollisionDecider.PatternOvermatches(sh.PatternOf(a), sh.FormatOf(b));
  }

  function AddVictim(edges: map<Group, seq<Victim>>, a: Group, v: Victim): (r: map<Group, seq<Victim>>)
    ensures forall b, w :: Holds(r, b, w) <==> Holds(edges, b, w) || (b == a && w == v)
    ensures (forall b | b in edges :: edges[b] != []) ==> forall b | b in r :: r[b] != []
  {
    edges[a := (if a in edges then edges[a] else []) + [v]]
  }

  /** a against every group of one repository. */
  method GroupConflicts(sh: Sharing, repo: Repo, groups: seq<Group>, a: Group, edges0: map<Group, seq<Victim>>)
    returns (edges: map<Group, seq<Victim>>)
    requires forall b | b in edges0 :: edges0[b] != []
    ensures forall b | b in edges :: edges[b] != []
    ensures forall b, v :: Holds(edges, b, v) <==>
              (Holds(edges0, b, v)
               || (b == a && v.repo == repo && v.name in groups && v.name != a
                   && CollisionDecider.Overmatches(sh.PatternOf(a), sh.FormatOf(v.name))))
  {
    hide CollisionDecider.Overmatches;
    edges := edges0;
    for i := 0 to |groups|
      invariant forall b | b in edges :: edges[b] != []
      invariant forall b, v :: Holds(edges, b, v) <==>
              (Holds(edges0, b, v)
               || (b == a && v.repo == repo && v.name in groups[..i] && v.name != a
                   && CollisionDecider.Overmatches(sh.PatternOf(a), sh.FormatOf(v.name))))
    {
      var b := groups[i];
      assert groups[..i + 1] == groups[..i] + [b];
      if a == b { continue; }
      var over := Overmatch(sh, a, b);
      if over { edges := AddVictim(edges, a, Victim(repo, b)); }
    }
    assert groups[..|groups|] == groups;
  }

  /** Every over-match inside one repository. */
  method RepoConflicts(sh: Sharing, repo: Repo, groups: seq<Group>, edges0: map<Group, seq<Victim>>)
    returns (edges: map<Group, seq<Victim>>)
    requires forall b | b in edges0 :: edges0[b] != []
    ensures forall b | b in edges :: edges[b] != []
    ensures forall a, v :: Holds(edges, a, v) <==>
              (Holds(edges0, a, v)
               || (a in groups && v.repo == repo && v.name in groups && v.name != a
                   && CollisionDecider.Overmatches(sh.PatternOf(a), sh.FormatOf(v.name))))
  {
    hide CollisionDecider.Overmatches;
    edges := edges0;
    for i := 0 to |groups|
      invariant forall b | b in edges :: edges[b] != []
      invariant forall a, v :: Holds(edges, a, v) <==>
              (Holds(edges0, a, v)
               || (a in groups[..i] && v.repo == repo && v.name in groups && v.name != a
                   && CollisionDecider.Overmatches(sh.PatternOf(a), sh.FormatOf(v.name))))
    {
      assert groups[..i + 1] == groups[..i] + [groups[i]];
      edges := GroupConflicts(sh, repo, groups, groups[i], edges);
    }
    assert groups[..|groups|] == groups;
  }

  method Unrefused(groups: seq<Group>, refused: set<Group>) returns (out: seq<Group>)
    ensures forall g :: g in out <==> g in groups && g !in refused
  {
    out := [];
    for i := 0 to |groups|
      invariant forall g :: g in out <==> g in groups[..i] && g !in refused
    {
      assert groups[..i + 1] == groups[..i] + [groups[i]];
      if groups[i] !in refused { out := out + [groups[i]]; }
    }
    assert groups[..|groups|] == groups;
  }

  /** Every over-match among the surviving groups. The code visits repositories and groups
      in sorted order, which decides only the order of each victim list. */
  method FindConflicts(sh: Sharing, refused: set<Group>) returns (edges: map<Group, seq<Victim>>)
    ensures FoundAll(sh, Groups(sh) - refused, edges)
  {
    hide CollisionDecider.Overmatches;
    edges := map[];
    var todo := sh.repoGroups.Keys;
    while todo != {}
      invariant todo <= sh.repoGroups.Keys
      invariant forall a | a in edges :: edges[a] != []
      invariant forall a, v :: Holds(edges, a, v) <==> v.repo !in todo && Wanted(sh, Groups(sh) - refused, a, v)
      decreases todo
    {
      var repo :| repo in todo;
      ghost var was := todo;
      todo := todo - {repo};
      var groups := Unrefused(sh.repoGroups[repo], refused);
      forall a: Group, v: Victim | v.repo == repo ensures Wanted(sh, Groups(sh) - refused, a, v) <==>
        a in groups && v.name in groups && v.name != a
            && CollisionDecider.Overmatches(sh.PatternOf(a), sh.FormatOf(v.name))
      {
        InRepo(sh, repo, a);
        InRepo(sh, repo, v.name);
      }
      if |groups| < 2 {
        Crowd(groups);
        continue;
      }
      edges := RepoConflicts(sh, repo, groups, edges);
    }
  }

  lemma InRepo(sh: Sharing, repo: Repo, g: Group)
    ensures sh.In(g, repo) ==> g in Groups(sh)
  {}

  lemma Crowd(groups: seq<Group>)
    requires |groups| < 2
    ensures forall a, b :: a in groups && b in groups ==> a == b
  {}

  ghost predicate FoundAll(sh: Sharing, alive: set<Group>, edges: map<Group, seq<Victim>>) {
    && (forall a | a in edges :: edges[a] != [])
    && (forall a, v :: Holds(edges, a, v) <==> Wanted(sh, alive, a, v))
  }

  lemma EdgeOver(sh: Sharing, alive: set<Group>, edges: map<Group, seq<Victim>>, a: Group, b: Group)
    requires FoundAll(sh, alive, edges)
    ensures Over(sh, alive, a, b) <==> a in edges && exists i :: 0 <= i < |edges[a]| && edges[a][i].name == b
  {
    if Over(sh, alive, a, b) {
      var repo :| ConflictIn(sh, repo, a, b);
      assert Wanted(sh, alive, a, Victim(repo, b));
      assert Holds(edges, a, Victim(repo, b));
    }
    if a in edges && exists i :: 0 <= i < |edges[a]| && edges[a][i].name == b {
      var i :| 0 <= i < |edges[a]| && edges[a][i].name == b;
      assert Holds(edges, a, edges[a][i]);
      assert ConflictIn(sh, edges[a][i].repo, a, b);
    }
  }

  lemma SourcesAreKeys(sh: Sharing, alive: set<Group>, edges: map<Group, seq<Victim>>, a: Group)
    requires FoundAll(sh, alive, edges)
    ensures a in edges <==> Source(sh, alive, a)
    ensures a in edges ==> a in alive
  {
    if a in edges {
      assert Holds(edges, a, edges[a][0]);
      EdgeOver(sh, alive, edges, a, edges[a][0].name);
    }
    if Source(sh, alive, a) {
      var b :| Over(sh, alive, a, b);
      EdgeOver(sh, alive, edges, a, b);
    }
  }

  method NamesAnInnocent(victims: seq<Victim>, sources: set<Group>) returns (r: bool)
    ensures r <==> exists i :: 0 <= i < |victims| && victims[i].name !in sources
  {
    for i := 0 to |victims|
      invariant forall j :: 0 <= j < i ==> victims[j].name in sources
    {
      if victims[i].name !in sources { return true; }
    }
    return false;
  }

  /** The groups that claim an innocent sibling. */
  method InnocentClaims(sh: Sharing, ghost alive: set<Group>, edges: map<Group, seq<Victim>>)
    returns (round: set<Group>)
    requires FoundAll(sh, alive, edges)
    ensures round == InnocentRound(sh, alive)
  {
    hide FoundAll, Source, Over, ClaimsInnocent, InnocentRound;
    round := {};
    var todo := edges.Keys;
    while todo != {}
      invariant todo <= edges.Keys
      invariant forall a :: a in round <==> a in edges && a !in todo && ClaimsInnocent(sh, alive, a)
      decreases todo
    {
      var a :| a in todo;
      todo := todo - {a};
      var guilty := NamesAnInnocent(edges[a], edges.Keys);
      InnocentByEdges(sh, alive, edges, a);
      if guilty { round := round + {a}; }
    }
    InnocentRoundIs(sh, alive, edges, round);
  }

  lemma InnocentByEdges(sh: Sharing, alive: set<Group>, edges: map<Group, seq<Victim>>, a: Group)
    requires FoundAll(sh, alive, edges) && a in edges
    ensures ClaimsInnocent(sh, alive, a) <==> exists i :: 0 <= i < |edges[a]| && edges[a][i].name !in edges.Keys
  {
    hide FoundAll, Over, Source;
    if ClaimsInnocent(sh, alive, a) {
      var b :| Over(sh, alive, a, b) && !Source(sh, alive, b);
      EdgeOver(sh, alive, edges, a, b);
      SourcesAreKeys(sh, alive, edges, b);
    }
    if i :| 0 <= i < |edges[a]| && edges[a][i].name !in edges.Keys {
      EdgeOver(sh, alive, edges, a, edges[a][i].name);
      SourcesAreKeys(sh, alive, edges, edges[a][i].name);
    }
  }

  lemma InnocentRoundIs(sh: Sharing, alive: set<Group>, edges: map<Group, seq<Victim>>, round: set<Group>)
    requires FoundAll(sh, alive, edges)
    requires forall a :: a in round <==> a in edges && ClaimsInnocent(sh, alive, a)
    ensures round == InnocentRound(sh, alive)
  {
    forall a ensures a in round <==> a in InnocentRound(sh, alive) {
      if a in InnocentRound(sh, alive) {
        var b :| Over(sh, alive, a, b) && !Source(sh, alive, b);
        assert Source(sh, alive, a);
      }
      SourcesAreKeys(sh, alive, edges, a);
    }
  }

  /** The over-match graph as adjacency lists, a victim once per shared repository. */
  method BuildAdjacency(edges: map<Group, seq<Victim>>) returns (adj: Adjacency)
    ensures adj.Keys == edges.Keys
    ensures forall a | a in edges :: |adj[a]| == |edges[a]| && forall i :: 0 <= i < |adj[a]| ==>
            adj[a][i] == edges[a][i].name
  {
    adj := map[];
    var todo := edges.Keys;
    while todo != {}
      invariant todo <= edges.Keys && adj.Keys == edges.Keys - todo
      invariant forall a | a in adj :: |adj[a]| == |edges[a]| && forall i :: 0 <= i < |adj[a]| ==>
                adj[a][i] == edges[a][i].name
      decreases todo
    {
      var a :| a in todo;
      todo := todo - {a};
      var names := [];
      for i := 0 to |edges[a]|
        invariant |names| == i && forall j :: 0 <= j < i ==> names[j] == edges[a][j].name
      {
        names := names + [edges[a][i].name];
      }
      adj := adj[a := names];
    }
  }

  /** Sink cycles depend only on which edges there are. */
  lemma SameEdgesSameSinks(g: Adjacency, h: Adjacency, v: Node)
    requires forall a, b :: Edge(g, a, b) <==> Edge(h, a, b)
    ensures InSinkCycle(g, v) <==> InSinkCycle(h, v)
  {
    forall a, b ensures Reach(g, a, b) <==> Reach(h, a, b) {
      if p :| IsPath(g, a, p, b) { SamePath(g, h, a, p, b); }
      if p :| IsPath(h, a, p, b) { SamePath(h, g, a, p, b); }
    }
    hide Reach;
    forall a, b ensures Mutual(g, a, b) <==> Mutual(h, a, b) {}
  }

  lemma {:induction false} SamePath(g: Adjacency, h: Adjacency, a: Node, p: seq<Node>, b: Node)
    requires forall x, y :: Edge(g, x, y) <==> Edge(h, x, y)
    requires IsPath(g, a, p, b)
    ensures IsPath(h, a, p, b)
    decreases |p|
  {
    if p != [] { SamePath(g, h, p[0], p[1..], b); }
  }

  /** A cycle round: the sink cycles of the survivors' graph. */
  method CycleRound(sh: Sharing, ghost alive: set<Group>, edges: map<Group, seq<Victim>>) returns (round: set<Group>)
    requires FoundAll(sh, alive, edges) && edges.Keys != {} && InnocentRound(sh, alive) == {}
    ensures round == Round(sh, alive)
  {
    hide FoundAll, InSinkCycle, Over, Source;
    var adj := BuildAdjacency(edges);
    round := SinkCycles.SinkCycleMembers(adj);
    GraphsAgree(sh, alive, edges, adj);
    CycleRoundIs(sh, alive, adj, round);
  }

  lemma GraphsAgree(sh: Sharing, alive: set<Group>, edges: map<Group, seq<Victim>>, adj: Adjacency)
    requires FoundAll(sh, alive, edges) && adj.Keys == edges.Keys
    requires forall a | a in edges :: |adj[a]| == |edges[a]| && forall i :: 0 <= i < |adj[a]| ==>
             adj[a][i] == edges[a][i].name
    ensures forall a, b :: Edge(adj, a, b) <==> Over(sh, alive, a, b)
    ensures adj.Keys == set a | a in alive && Source(sh, alive, a)
  {
    hide FoundAll, Over, Source;
    forall a, b ensures Edge(adj, a, b) <==> Over(sh, alive, a, b) {
      EdgeOver(sh, alive, edges, a, b);
      if a in edges && exists i :: 0 <= i < |edges[a]| && edges[a][i].name == b {
        var i :| 0 <= i < |edges[a]| && edges[a][i].name == b;
        assert adj[a][i] == b;
      }
    }
    forall a ensures a in adj.Keys <==> a in alive && Source(sh, alive, a) {
      SourcesAreKeys(sh, alive, edges, a);
      if Source(sh, alive, a) { SourceAlive(sh, alive, a); }
    }
  }

  lemma SourceAlive(sh: Sharing, alive: set<Group>, a: Group)
    requires Source(sh, alive, a)
    ensures a in alive
  {}

  lemma CycleRoundIs(sh: Sharing, alive: set<Group>, adj: Adjacency, round: set<Group>)
    requires InnocentRound(sh, alive) == {} && adj.Keys != {}
    requires forall a, b :: Edge(adj, a, b) <==> Over(sh, alive, a, b)
    requires adj.Keys == set a | a in alive && Source(sh, alive, a)
    requires var sinks := set v | v in adj && InSinkCycle(adj, v); round == if sinks == {} then adj.Keys else sinks
    ensures round == Round(sh, alive)
  {
    hide InSinkCycle, ConflictGraph, Over, Source, Edge, AllOffenders, ClaimsInnocent;
    OnlyOffenders(sh, alive, adj);
    SinkCycleExists(adj);
    var g := ConflictGraph(sh, alive);
    SinksAgree(adj, g, alive);
    var v :| v in adj && InSinkCycle(adj, v);
    var sinks := set v | v in adj && InSinkCycle(adj, v);
    assert v in sinks;
    assert round == sinks == set a | a in alive && InSinkCycle(g, a);
  }

  lemma SinksAgree(adj: Adjacency, g: Adjacency, alive: set<Group>)
    requires forall a, b :: Edge(adj, a, b) <==> Edge(g, a, b)
    requires adj.Keys <= alive
    ensures (set v | v in adj && InSinkCycle(adj, v)) == set a | a in alive && InSinkCycle(g, a)
  {
    forall a ensures a in adj && InSinkCycle(adj, a) <==> a in alive && InSinkCycle(g, a) {
      SameEdgesSameSinks(adj, g, a);
      if InSinkCycle(adj, a) { SinkHasSuccessor(adj, a); }
    }
  }

  lemma SinkHasSuccessor(adj: Adjacency, a: Node)
    requires InSinkCycle(adj, a)
    ensures a in adj
  {
    var w :| w != a && Mutual(adj, a, w);
    SinkCycles.HasSuccessor(adj, a, w);
  }

  /** The refusals of one round. */
  method NextRound(sh: Sharing, ghost alive: set<Group>, edges: map<Group, seq<Victim>>) returns (round: set<Group>)
    requires FoundAll(sh, alive, edges) && edges.Keys != {}
    ensures round == Round(sh, alive)
  {
    SettledOrNot(sh, alive, edges);
    RoundStep(sh, alive);
    hide FoundAll, Round, InnocentRound;
    round := InnocentClaims(sh, alive, edges);
    if round == {} {
      round := CycleRound(sh, alive, edges);
    }
  }

  /** Records the first victim of each refused group. */
  method Refuse(sh: Sharing, overmatching0: map<Group, Victim>, round: set<Group>, edges: map<Group, seq<Victim>>)
    returns (overmatching: map<Group, Victim>)
    requires round <= edges.Keys
    requires forall a | a in edges :: edges[a] != []
    ensures overmatching.Keys == overmatching0.Keys + round
    ensures forall a | a in overmatching :: overmatching[a] == if a in round then edges[a][0] else overmatching0[a]
  {
    overmatching := overmatching0;
    var todo := round;
    while todo != {}
      invariant todo <= round
      invariant overmatching.Keys == overmatching0.Keys + (round - todo)
      invariant forall a | a in overmatching ::
                  overmatching[a] == if a in round - todo then edges[a][0] else overmatching0[a]
      decreases todo
    {
      var name :| name in todo;
      todo := todo - {name};
      overmatching := overmatching[name := edges[name][0]];
    }
  }

  /** Between two rounds: the recorded groups are those no longer alive, each with a real
      victim, and the survivors to come are those of the start. */
  ghost predicate BetweenRounds(sh: Sharing, alive: set<Group>, overmatching: map<Group, Victim>) {
    && alive <= Groups(sh)
    && overmatching.Keys == Groups(sh) - alive
    && Survivors(sh, alive) == Survivors(sh, Groups(sh))
    && (forall a | a in overmatching :: ConflictIn(sh, overmatching[a].repo, a, overmatching[a].name))
  }

  lemma OneRound(sh: Sharing, alive: set<Group>, edges: map<Group, seq<Victim>>, before: map<Group, Victim>,
                 after: map<Group, Victim>)
    requires BetweenRounds(sh, alive, before) && FoundAll(sh, alive, edges) && edges.Keys != {}
    requires after.Keys == before.Keys + Round(sh, alive)
    requires forall a | a in after ::
               after[a] == if a in Round(sh, alive) && a in edges && edges[a] != [] then edges[a][0]
                           else if a in before then before[a] else after[a]
    ensures BetweenRounds(sh, alive - Round(sh, alive), after) && |alive - Round(sh, alive)| < |alive|
  {
    hide ConflictIn, FoundAll, Source, Round, Survivors, Groups, InnocentRound;
    SettledOrNot(sh, alive, edges);
    RoundStep(sh, alive);
    RoundInEdges(sh, alive, edges);
    WantedConflicts(sh, alive, edges);
  }

  /** Settles the refusals: the groups left are the survivors, and every refused group is
      recorded with a sibling it over-matches in a repository they share. */
  method OvermatchingPatterns(sh: Sharing) returns (overmatching: map<Group, Victim>)
    ensures overmatching.Keys == Groups(sh) - Survivors(sh, Groups(sh))
    ensures forall a | a in overmatching :: ConflictIn(sh, overmatching[a].repo, a, overmatching[a].name)
  {
    overmatching := map[];
    ghost var alive := Groups(sh);
    while true
      invariant BetweenRounds(sh, alive, overmatching)
      decreases |alive|
    {
      hide ConflictIn, FoundAll, Source, Round, Survivors, Groups, InnocentRound;
      assert alive == Groups(sh) - overmatching.Keys;
      var edges := FindConflicts(sh, overmatching.Keys);
      if edges.Keys == {} {
        SettledOrNot(sh, alive, edges);
        SurvivorsAtRest(sh, alive);
        return;
      }
      hide BetweenRounds;
      var round := NextRound(sh, alive, edges);
      RoundInEdges(sh, alive, edges);
      WantedConflicts(sh, alive, edges);
      ghost var before := overmatching;
      overmatching := Refuse(sh, overmatching, round, edges);
      OneRound(sh, alive, edges, before, overmatching);
      alive := alive - round;
    }
  }

  lemma SettledOrNot(sh: Sharing, alive: set<Group>, edges: map<Group, seq<Victim>>)
    requires FoundAll(sh, alive, edges)
    ensures edges.Keys != {} <==> exists a :: Source(sh, alive, a)
  {
    if a :| a in edges.Keys { SourcesAreKeys(sh, alive, edges, a); }
    if a :| Source(sh, alive, a) { SourcesAreKeys(sh, alive, edges, a); }
  }

  lemma SurvivorsAtRest(sh: Sharing, alive: set<Group>)
    requires !exists a :: Source(sh, alive, a)
    ensures Survivors(sh, alive) == alive
  {}

  lemma RoundStep(sh: Sharing, alive: set<Group>)
    requires exists a :: Source(sh, alive, a)
    ensures Round(sh, alive) <= alive && |alive - Round(sh, alive)| < |alive|
    ensures Survivors(sh, alive) == Survivors(sh, alive - Round(sh, alive))
    ensures InnocentRound(sh, alive) != {} ==> Round(sh, alive) == InnocentRound(sh, alive)
  {
    RoundRefusesSomeone(sh, alive);
    RemovalShrinks(alive, Round(sh, alive));
  }

  lemma RoundInEdges(sh: Sharing, alive: set<Group>, edges: map<Group, seq<Victim>>)
    requires FoundAll(sh, alive, edges)
    ensures Round(sh, alive) <= edges.Keys
  {
    forall a | a in Round(sh, alive) ensures a in edges {
      RoundTakesSources(sh, alive, a);
      SourcesAreKeys(sh, alive, edges, a);
    }
  }

  lemma WantedConflicts(sh: Sharing, alive: set<Group>, edges: map<Group, seq<Victim>>)
    requires FoundAll(sh, alive, edges)
    ensures forall a | a in edges :: edges[a] != [] && ConflictIn(sh, edges[a][0].repo, a, edges[a][0].name)
  {
    forall a | a in edges ensures ConflictIn(sh, edges[a][0].repo, a, edges[a][0].name) {
      assert Holds(edges, a, edges[a][0]);
    }
  }
}
