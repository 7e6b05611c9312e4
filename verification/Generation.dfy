/**
 The last two passes of planning a generation: a group sharing a repository must carry the
 `{group}` token, and must not claim a sibling's archives. The safety result composes the
 rounds, the decider and the format language down to the archive names borg writes.
 */
module Generation {
  import opened Wrappers
  import opened Glob
  import opened FormatLanguage
  import opened ArchiveFormat
  import opened Refusal
  import CollisionDecider

  /** A group about to be generated; `format` already has the group's name in it. */
  datatype Entry = Entry(name: Group, format: string, groupToken: bool, repos: seq<Repo>)

  datatype Reason = NeedsGroupToken | ClaimsArchivesOf(victim: Group)

  datatype Refused = Refused(group: Group, reason: Reason)

  predicate DistinctNames(entries: seq<Entry>) {
    forall i, j :: 0 <= i < j < |entries| ==> entries[i].name != entries[j].name
  }

  function Names(entries: seq<Entry>): set<Group> {
    set i | 0 <= i < |entries| :: entries[i].name
  }

  /** The entries with one of these names, in order. */
  function Only(entries: seq<Entry>, names: set<Group>): seq<Entry> {
    if entries == [] then []
    else (if entries[0].name in names then [entries[0]] else []) + Only(entries[1..], names)
  }

  function NameList(entries: seq<Entry>): seq<Group> {
    seq(|entries|, i requires 0 <= i < |entries| => entries[i].name)
  }

  function RefusedList(refusals: seq<Refused>): seq<Group> {
    seq(|refusals|, i requires 0 <= i < |refusals| => refusals[i].group)
  }

  /** Every entry is kept or refused, and only one of them, and only once. */
  ghost predicate Conserved(entries: seq<Entry>, kept: seq<Entry>, refusals: seq<Refused>) {
    multiset(NameList(entries)) == multiset(NameList(kept)) + multiset(RefusedList(refusals))
  }

  // ---- Who writes where ------------------------------------------------------------------------

  function Times(repos: seq<Repo>, repo: Repo, name: Group): seq<Group> {
    if repos == [] then [] else (if repos[0] == repo then [name] else []) + Times(repos[1..], repo, name)
  }

  /** The groups listing the repository, once per mention. */
  function Writers(entries: seq<Entry>, repo: Repo): seq<Group> {
    if entries == [] then [] else Times(entries[0].repos, repo, entries[0].name) + Writers(entries[1..], repo)
  }

  ghost predicate RepoGroupsOf(entries: seq<Entry>, m: map<Repo, seq<Group>>) {
    forall repo :: (if repo in m then m[repo] else []) == Writers(entries, repo)
  }

  lemma {:induction false} TimesMember(repos: seq<Repo>, repo: Repo, name: Group, g: Group)
    ensures g in Times(repos, repo, name) <==> repo in repos && g == name
  {
    if repos != [] { TimesMember(repos[1..], repo, name, g); }
  }

  lemma {:induction false} WritersMember(entries: seq<Entry>, repo: Repo, g: Group)
    ensures g in Writers(entries, repo) <==>
            exists i :: 0 <= i < |entries| && entries[i].name == g && repo in entries[i].repos
  {
    if entries != [] {
      TimesMember(entries[0].repos, repo, entries[0].name, g);
      WritersMember(entries[1..], repo, g);
      if i :| 0 <= i < |entries| && entries[i].name == g && repo in entries[i].repos {
        assert i > 0 ==> entries[1..][i - 1] == entries[i];
      }
    }
  }

  lemma {:induction false} TimesConcat(a: seq<Repo>, b: seq<Repo>, repo: Repo, name: Group)
    ensures Times(a + b, repo, name) == Times(a, repo, name) + Times(b, repo, name)
  {
    if a == [] {
      assert a + b == b;
    } else {
      assert (a + b)[1..] == a[1..] + b;
      TimesConcat(a[1..], b, repo, name);
    }
  }

  lemma {:induction false} WritersConcat(a: seq<Entry>, b: seq<Entry>, repo: Repo)
    ensures Writers(a + b, repo) == Writers(a, repo) + Writers(b, repo)
  {
    if a == [] {
      assert a + b == b;
    } else {
      assert (a + b)[1..] == a[1..] + b;
      WritersConcat(a[1..], b, repo);
    }
  }

  /** The table after the entries before i and the first j repositories of entry i. */
  ghost predicate PartialGroups(entries: seq<Entry>, i: nat, j: nat, m: map<Repo, seq<Group>>)
    requires i < |entries| && j <= |entries[i].repos|
  {
    forall repo :: (if repo in m then m[repo] else [])
      == Writers(entries[..i], repo) + Times(entries[i].repos[..j], repo, entries[i].name)
  }

  lemma TimesStep(repos: seq<Repo>, j: nat, repo: Repo, name: Group)
    requires j < |repos|
    ensures Times(repos[..j + 1], repo, name) == Times(repos[..j], repo, name) + if repos[j] == repo then [name] else []
  {
    assert repos[..j + 1] == repos[..j] + [repos[j]];
    TimesConcat(repos[..j], [repos[j]], repo, name);
    assert [repos[j]][1..] == [];
  }

  lemma PartialStep(entries: seq<Entry>, i: nat, j: nat, m: map<Repo, seq<Group>>, m': map<Repo, seq<Group>>)
    requires i < |entries| && j < |entries[i].repos| && PartialGroups(entries, i, j, m)
    requires var repo := entries[i].repos[j];
             m' == m[repo := (if repo in m then m[repo] else []) + [entries[i].name]]
    ensures PartialGroups(entries, i, j + 1, m')
  {
    hide Writers, Times;
    var e := entries[i];
    forall r ensures (if r in m' then m'[r] else []) == Writers(entries[..i], r) + Times(e.repos[..j + 1], r, e.name) {
      TimesStep(e.repos, j, r, e.name);
      assert (if r in m then m[r] else []) == Writers(entries[..i], r) + Times(e.repos[..j], r, e.name);
    }
  }

  lemma PartialStart(entries: seq<Entry>, i: nat, m: map<Repo, seq<Group>>)
    requires i < |entries| && RepoGroupsOf(entries[..i], m)
    ensures PartialGroups(entries, i, 0, m)
  {}

  lemma PartialEnd(entries: seq<Entry>, i: nat, m: map<Repo, seq<Group>>)
    requires i < |entries| && PartialGroups(entries, i, |entries[i].repos|, m)
    ensures RepoGroupsOf(entries[..i + 1], m)
  {
    var e := entries[i];
    assert e.repos[..|e.repos|] == e.repos;
    forall repo ensures (if repo in m then m[repo] else []) == Writers(entries[..i + 1], repo) {
      assert entries[..i + 1] == entries[..i] + [e];
      WritersConcat(entries[..i], [e], repo);
      assert [e][1..] == [];
    }
  }

  method RepoGroups(entries: seq<Entry>) returns (m: map<Repo, seq<Group>>)
    ensures RepoGroupsOf(entries, m)
  {
    m := map[];
    assert RepoGroupsOf(entries[..0], m);
    hide RepoGroupsOf, PartialGroups;
    for i := 0 to |entries|
      invariant RepoGroupsOf(entries[..i], m)
    {
      var e := entries[i];
      PartialStart(entries, i, m);
      for j := 0 to |e.repos|
        invariant PartialGroups(entries, i, j, m)
      {
        var repo := e.repos[j];
        ghost var before := m;
        m := m[repo := (if repo in m then m[repo] else []) + [e.name]];
        PartialStep(entries, i, j, before, m);
      }
      PartialEnd(entries, i, m);
    }
    assert entries[..|entries|] == entries;
  }

  // ---- The plan as a specification ---------------------------------------------------------------

  /** Some repository of the entry is listed more than once across all groups. */
  ghost predicate SharesRepo(entries: seq<Entry>, e: Entry) {
    exists repo :: repo in e.repos && |Writers(entries, repo)| > 1
  }

  ghost function Tokened(entries: seq<Entry>): set<Group> {
    set i | 0 <= i < |entries| && (entries[i].groupToken || !SharesRepo(entries, entries[i])) :: entries[i].name
  }

  lemma {:induction false} TimesCount(repos: seq<Repo>, repo: Repo, name: Group)
    ensures |Times(repos, repo, name)| == multiset(repos)[repo]
  {
    if repos != [] {
      TimesCount(repos[1..], repo, name);
      assert repos == [repos[0]] + repos[1..];
    }
  }

  lemma {:induction false} Unlisted(entries: seq<Entry>, repo: Repo)
    ensures |Writers(entries, repo)| == 0 <==> forall j | 0 <= j < |entries| :: repo !in entries[j].repos
  {
    if entries != [] {
      TimesCount(entries[0].repos, repo, entries[0].name);
      Unlisted(entries[1..], repo);
      assert forall j | 0 < j < |entries| :: entries[j] == entries[1..][j - 1];
      hide Times;
    }
  }

  ghost predicate ListedElsewhere(entries: seq<Entry>, i: nat, repo: Repo) {
    exists j :: 0 <= j < |entries| && j != i && repo in entries[j].repos
  }

  lemma ElsewhereFrom(entries: seq<Entry>, i: nat, repo: Repo)
    requires i < |entries|
    ensures i > 0 ==>
              (ListedElsewhere(entries, i, repo) <==>
                  repo in entries[0].repos || ListedElsewhere(entries[1..], i - 1, repo))
    ensures i == 0 ==>
              (ListedElsewhere(entries, i, repo) <==>
                  exists j :: 0 <= j < |entries[1..]| && repo in entries[1..][j].repos)
  {
    var rest := entries[1..];
    assert forall j | 0 <= j < |rest| :: rest[j] == entries[j + 1];
    assert forall j | 0 < j < |entries| :: entries[j] == rest[j - 1];
  }

  /** How often a repository is listed: by one entry alone, or by that and the others. */
  lemma {:induction false} ListedBy(entries: seq<Entry>, i: nat, repo: Repo)
    requires i < |entries|
    ensures var own, all := multiset(entries[i].repos)[repo], |Writers(entries, repo)|;
            if ListedElsewhere(entries, i, repo) then all > own else all == own
  {
    var rest := entries[1..];
    TimesCount(entries[0].repos, repo, entries[0].name);
    ElsewhereFrom(entries, i, repo);
    hide Times, ListedElsewhere;
    if i > 0 {
      assert rest[i - 1] == entries[i];
      ListedBy(rest, i - 1, repo);
    } else {
      Unlisted(rest, repo);
    }
  }

  /** The entry lacks the token, and one of its repositories is listed by another entry as
      well, or by itself a second time. */
  ghost predicate LacksToken(entries: seq<Entry>, i: nat)
    requires i < |entries|
  {
    && !entries[i].groupToken
    && exists repo :: repo in entries[i].repos
         && (multiset(entries[i].repos)[repo] > 1 || ListedElsewhere(entries, i, repo))
  }

  lemma TokenedExactly(entries: seq<Entry>, i: nat)
    requires DistinctNames(entries) && i < |entries|
    ensures entries[i].name in Tokened(entries) <==> !LacksToken(entries, i)
  {
    TokenedIff(entries, i);
    forall repo | repo in entries[i].repos
      ensures |Writers(entries, repo)| > 1 <==>
              (multiset(entries[i].repos)[repo] > 1 || ListedElsewhere(entries, i, repo))
    {
      ListedBy(entries, i, repo);
      assert multiset(entries[i].repos)[repo] > 0;
    }
  }

  function PatternText(e: Entry): string { MatchText(Pieces(e.format)) }
  function Segments(host: Host, e: Entry): seq<FormatSegment> { Compile(host, Pieces(e.format), "") }

  /** The sharing the last pass judges, restricted to the groups the token pass kept. */
  ghost predicate SharingOf(host: Host, entries: seq<Entry>, sh: Sharing) {
    && RepoGroupsOf(entries, sh.repoGroups)
    && (forall i :: 0 <= i < |entries| ==>
          && entries[i].name in sh.patterns && sh.patterns[entries[i].name] == PatternText(entries[i])
          && entries[i].name in sh.formats && sh.formats[entries[i].name] == Segments(host, entries[i]))
  }

  method BuildSharing(host: Host, entries: seq<Entry>) returns (sh: Sharing)
    requires DistinctNames(entries)
    ensures SharingOf(host, entries, sh)
  {
    var groups := RepoGroups(entries);
    hide RepoGroupsOf, MatchText, Pieces, Compile;
    var patterns: map<Group, string> := map[];
    var formats: map<Group, seq<FormatSegment>> := map[];
    for i := 0 to |entries|
      invariant forall k :: 0 <= k < i ==>
                  && entries[k].name in patterns && patterns[entries[k].name] == PatternText(entries[k])
                  && entries[k].name in formats && formats[entries[k].name] == Segments(host, entries[k])
    {
      var e := entries[i];
      var pattern := ArchiveMatchPattern(e.format);
      var segs := ArchiveFormatSegments(host, e.format);
      patterns := patterns[e.name := pattern];
      formats := formats[e.name := segs];
    }
    sh := Sharing(groups, patterns, formats);
  }

  // ---- Safety --------------------------------------------------------------------------------------

  /** A surviving group's retention cannot reach a surviving sibling's archives: its glob
      matches no name a run of the sibling can write. */
  lemma SurvivorsKeepTheirArchives(host: Host, entries: seq<Entry>, sh: Sharing, i: nat, j: nat, repo: Repo, env: Env)
    requires SharingOf(host, entries, sh)
    requires i < |entries| && j < |entries| && entries[i].name != entries[j].name
    requires repo in entries[i].repos && repo in entries[j].repos
    requires entries[i].name in Survivors(sh, Groups(sh)) && entries[j].name in Survivors(sh, Groups(sh))
    requires RunsOn(env, host)
    ensures !GlobMatches(PatternText(entries[i]), Expand(env, Pieces(entries[j].format)))
  {
    hide Survivors, Groups, Expand, Pieces, RunsOn;
    NoClaimBetween(host, entries, sh, i, j, repo);
    NoClaimNoMatch(host, entries[i], entries[j], env);
  }

  lemma NoClaimBetween(host: Host, entries: seq<Entry>, sh: Sharing, i: nat, j: nat, repo: Repo)
    requires SharingOf(host, entries, sh)
    requires i < |entries| && j < |entries| && entries[i].name != entries[j].name
    requires repo in entries[i].repos && repo in entries[j].repos
    requires entries[i].name in Survivors(sh, Groups(sh)) && entries[j].name in Survivors(sh, Groups(sh))
    ensures !CollisionDecider.Overmatches(PatternText(entries[i]), Segments(host, entries[j]))
  {
    hide Survivors, Groups, CollisionDecider.Overmatches, PatternText, Segments;
    var a, b := entries[i], entries[j];
    SurvivorsDoNotConflict(sh, Groups(sh), a.name, b.name);
    WritersMember(entries, repo, a.name);
    WritersMember(entries, repo, b.name);
    hide Writers;
    assert sh.In(a.name, repo) && sh.In(b.name, repo);
    assert !ConflictIn(sh, repo, a.name, b.name);
  }

  lemma NoClaimNoMatch(host: Host, a: Entry, b: Entry, env: Env)
    requires !CollisionDecider.Overmatches(PatternText(a), Segments(host, b)) && RunsOn(env, host)
    ensures !GlobMatches(PatternText(a), Expand(env, Pieces(b.format)))
  {
    EveryWrittenNameIsGenerated(host, env, b.format);
    hide Expand, Pieces, Compile, GlobMatches, Writes, Claims;
    if GlobMatches(PatternText(a), Expand(env, Pieces(b.format))) {
      SharedNameIsClaimed(PatternText(a), Segments(host, b), Expand(env, Pieces(b.format)));
    }
  }

  // ---- The passes ------------------------------------------------------------------------------------

  method SharesAny(repos: seq<Repo>, repoGroups: map<Repo, seq<Group>>, ghost entries: seq<Entry>) returns (r: bool)
    requires RepoGroupsOf(entries, repoGroups)
    ensures r <==> exists repo :: repo in repos && |Writers(entries, repo)| > 1
  {
    hide Writers;
    for i := 0 to |repos|
      invariant forall k :: 0 <= k < i ==> |Writers(entries, repos[k])| <= 1
    {
      var repo := repos[i];
      assert (if repo in repoGroups then repoGroups[repo] else []) == Writers(entries, repo);
      if repo in repoGroups && |repoGroups[repo]| > 1 { return true; }
    }
    return false;
  }

  lemma {:induction false} OnlyConcat(a: seq<Entry>, b: seq<Entry>, names: set<Group>)
    ensures Only(a + b, names) == Only(a, names) + Only(b, names)
  {
    if a == [] {
      assert a + b == b;
    } else {
      assert (a + b)[1..] == a[1..] + b;
      OnlyConcat(a[1..], b, names);
      var first := if a[0].name in names then [a[0]] else [];
      assert first + (Only(a[1..], names) + Only(b, names)) == first + Only(a[1..], names) + Only(b, names);
    }
  }

  lemma {:induction false} OnlyMember(entries: seq<Entry>, names: set<Group>, e: Entry)
    ensures e in Only(entries, names) <==> e in entries && e.name in names
  {
    if entries != [] { OnlyMember(entries[1..], names, e); }
  }

  lemma {:induction false} OnlyDistinct(entries: seq<Entry>, names: set<Group>)
    requires DistinctNames(entries)
    ensures DistinctNames(Only(entries, names))
  {
    if entries != [] {
      var rest := Only(entries[1..], names);
      OnlyDistinct(entries[1..], names);
      forall k | 0 <= k < |rest| ensures rest[k].name != entries[0].name {
        OnlyMember(entries[1..], names, rest[k]);
        var m :| 0 <= m < |entries[1..]| && entries[1..][m] == rest[k];
        assert entries[m + 1] == rest[k];
      }
    }
  }

  lemma OnlyStep(entries: seq<Entry>, names: set<Group>, i: nat)
    requires i < |entries|
    ensures Only(entries[..i + 1], names)
         == Only(entries[..i], names) + if entries[i].name in names then [entries[i]] else []
  {
    assert entries[..i + 1] == entries[..i] + [entries[i]];
    OnlyConcat(entries[..i], [entries[i]], names);
    assert [entries[i]][1..] == [];
  }

  lemma TokenedIff(entries: seq<Entry>, i: nat)
    requires DistinctNames(entries) && i < |entries|
    ensures entries[i].name in Tokened(entries) <==> entries[i].groupToken || !SharesRepo(entries, entries[i])
  {
    if entries[i].name in Tokened(entries) {
      var k :| 0 <= k < |entries| && (entries[k].groupToken || !SharesRepo(entries, entries[k]))
          && entries[k].name == entries[i].name;
    }
  }

  lemma NameListStep(entries: seq<Entry>, e: Entry)
    ensures NameList(entries + [e]) == NameList(entries) + [e.name]
  {}

  lemma RefusedListStep(refusals: seq<Refused>, r: Refused)
    ensures RefusedList(refusals + [r]) == RefusedList(refusals) + [r.group]
  {}

  lemma RefusedListConcat(a: seq<Refused>, b: seq<Refused>)
    ensures RefusedList(a + b) == RefusedList(a) + RefusedList(b)
  {}

  /** One more entry, kept or refused. */
  lemma ConservedStep(entries: seq<Entry>, i: nat, kept: seq<Entry>, refusals: seq<Refused>, reason: Reason)
    requires i < |entries| && Conserved(entries[..i], kept, refusals)
    ensures Conserved(entries[..i + 1], kept + [entries[i]], refusals)
    ensures Conserved(entries[..i + 1], kept, refusals + [Refused(entries[i].name, reason)])
  {
    assert entries[..i + 1] == entries[..i] + [entries[i]];
    NameListStep(entries[..i], entries[i]);
    NameListStep(kept, entries[i]);
    RefusedListStep(refusals, Refused(entries[i].name, reason));
    hide NameList, RefusedList;
  }

  /** What the token pass has made of the first i entries. */
  ghost predicate TokenSplit(entries: seq<Entry>, i: nat, kept: seq<Entry>, refusals: seq<Refused>)
    requires i <= |entries|
  {
    && kept == Only(entries[..i], Tokened(entries)) && Conserved(entries[..i], kept, refusals)
    && forall g :: g in refusals <==> g.reason.NeedsGroupToken? && g.group in Names(entries[..i]) - Tokened(entries)
  }

  lemma TokenKeeps(entries: seq<Entry>, i: nat, kept: seq<Entry>, refusals: seq<Refused>)
    requires i < |entries| && TokenSplit(entries, i, kept, refusals) && entries[i].name in Tokened(entries)
    ensures TokenSplit(entries, i + 1, kept + [entries[i]], refusals)
  {
    OnlyStep(entries, Tokened(entries), i);
    NamesStep(entries, i);
    ConservedStep(entries, i, kept, refusals, NeedsGroupToken);
    hide Only, Names, Tokened, Conserved;
  }

  lemma TokenRefuses(entries: seq<Entry>, i: nat, kept: seq<Entry>, refusals: seq<Refused>)
    requires i < |entries| && TokenSplit(entries, i, kept, refusals) && entries[i].name !in Tokened(entries)
    ensures TokenSplit(entries, i + 1, kept, refusals + [Refused(entries[i].name, NeedsGroupToken)])
  {
    OnlyStep(entries, Tokened(entries), i);
    NamesStep(entries, i);
    ConservedStep(entries, i, kept, refusals, NeedsGroupToken);
    hide Only, Names, Tokened, Conserved;
  }

  /** Pass 2: sharing a repository takes the literal token. */
  method TokenPass(entries: seq<Entry>) returns (kept: seq<Entry>, refusals: seq<Refused>)
    requires DistinctNames(entries)
    ensures kept == Only(entries, Tokened(entries))
    ensures Conserved(entries, kept, refusals)
    ensures forall g :: g in refusals <==> g.reason.NeedsGroupToken? && g.group in Names(entries) - Tokened(entries)
    ensures forall i | 0 <= i < |entries| :: Refused(entries[i].name, NeedsGroupToken) in refusals <==>
              LacksToken(entries, i)
  {
    var repoGroups := RepoGroups(entries);
    kept, refusals := [], [];
    assert TokenSplit(entries, 0, kept, refusals);
    hide SharesRepo, Tokened, TokenSplit, DistinctNames, RepoGroupsOf, Writers, LacksToken, Names;
    for i := 0 to |entries|
      invariant TokenSplit(entries, i, kept, refusals)
    {
      var e := entries[i];
      TokenedIff(entries, i);
      var shares := SharesAny(e.repos, repoGroups, entries);
      SharesIs(entries, e, shares);
      if shares && !e.groupToken {
        TokenRefuses(entries, i, kept, refusals);
        refusals := refusals + [Refused(e.name, NeedsGroupToken)];
        continue;
      }
      TokenKeeps(entries, i, kept, refusals);
      kept := kept + [e];
    }
    TokenSplitAll(entries, kept, refusals);
    forall i | 0 <= i < |entries|
      ensures Refused(entries[i].name, NeedsGroupToken) in refusals <==> LacksToken(entries, i)
    {
      TokenedExactly(entries, i);
      NamesHas(entries, i);
    }
  }

  lemma TokenSplitAll(entries: seq<Entry>, kept: seq<Entry>, refusals: seq<Refused>)
    requires TokenSplit(entries, |entries|, kept, refusals)
    ensures kept == Only(entries, Tokened(entries)) && Conserved(entries, kept, refusals)
    ensures forall g :: g in refusals <==> g.reason.NeedsGroupToken? && g.group in Names(entries) - Tokened(entries)
  {
    assert entries[..|entries|] == entries;
  }

  lemma NamesStep(entries: seq<Entry>, i: nat)
    requires i < |entries|
    ensures Names(entries[..i + 1]) == Names(entries[..i]) + {entries[i].name}
  {
    forall g ensures g in Names(entries[..i + 1]) <==> g in Names(entries[..i]) + {entries[i].name} {
      if g in Names(entries[..i]) {
        var k :| 0 <= k < i && entries[..i][k].name == g;
        assert entries[..i + 1][k].name == g;
      }
      if g == entries[i].name { assert entries[..i + 1][i].name == g; }
      if g in Names(entries[..i + 1]) && g != entries[i].name {
        var k :| 0 <= k < i + 1 && entries[..i + 1][k].name == g;
        assert entries[..i][k].name == g;
      }
    }
  }

  lemma SharesIs(entries: seq<Entry>, e: Entry, shares: bool)
    requires shares <==> exists repo :: repo in e.repos && |Writers(entries, repo)| > 1
    ensures shares <==> SharesRepo(entries, e)
  {}

  /** Pass 3: drops the groups the rounds refuse. */
  method OverlapPass(kept0: seq<Entry>, overmatching: map<Group, Victim>)
    returns (kept: seq<Entry>, refusals: seq<Refused>)
    requires DistinctNames(kept0)
    ensures kept == Only(kept0, Names(kept0) - overmatching.Keys)
    ensures Conserved(kept0, kept, refusals)
    ensures forall g :: g in refusals <==>
              g.group in Names(kept0) && g.group in overmatching
                  && g.reason == ClaimsArchivesOf(overmatching[g.group].name)
  {
    ghost var stay := Names(kept0) - overmatching.Keys;
    kept, refusals := [], [];
    assert Conserved(kept0[..0], kept, refusals);
    hide Conserved, Only, Names;
    assert Names(kept0[..0]) == {} && Only(kept0[..0], stay) == [] by { NothingYet(kept0, stay); }
    for i := 0 to |kept0|
      invariant kept == Only(kept0[..i], stay) && Conserved(kept0[..i], kept, refusals)
      invariant forall g :: g in refusals <==>
                  g.group in Names(kept0[..i]) && g.group in overmatching
                      && g.reason == ClaimsArchivesOf(overmatching[g.group].name)
    {
      var e := kept0[i];
      OnlyStep(kept0, stay, i);
      NamesStep(kept0, i);
      NamesHas(kept0, i);
      if e.name in overmatching {
        ConservedStep(kept0, i, kept, refusals, ClaimsArchivesOf(overmatching[e.name].name));
        refusals := refusals + [Refused(e.name, ClaimsArchivesOf(overmatching[e.name].name))];
        continue;
      }
      ConservedStep(kept0, i, kept, refusals, NeedsGroupToken);
      kept := kept + [e];
    }
    assert kept0[..|kept0|] == kept0;
  }

  lemma NothingYet(entries: seq<Entry>, names: set<Group>)
    ensures Names(entries[..0]) == {} && Only(entries[..0], names) == []
  {}

  lemma NamesHas(entries: seq<Entry>, i: nat)
    requires i < |entries|
    ensures entries[i].name in Names(entries)
  {}

  /** No kept group's glob matches an archive another kept group of a shared repository
      can write, on any run on this host. */
  ghost predicate ArchivesApart(host: Host, kept: seq<Entry>) {
    forall a, b, repo, env ::
      (a in kept && b in kept && a.name != b.name && repo in a.repos && repo in b.repos && RunsOn(env, host))
      ==> !GlobMatches(PatternText(a), Expand(env, Pieces(b.format)))
  }

  /** The refused entry shares a repository with its victim, and its glob claims the victim's
      archives: there is no glob or no format to tell them apart, or a shared name. */
  ghost predicate ClaimsVictim(host: Host, entries: seq<Entry>, g: Group, victim: Group) {
    exists i, j, repo :: 0 <= i < |entries| && 0 <= j < |entries| && entries[i].name == g && entries[j].name == victim
      && g != victim && repo in entries[i].repos && repo in entries[j].repos
      && (PatternText(entries[i]) == "" || Segments(host, entries[j]) == []
          || Claims(PatternText(entries[i]), Segments(host, entries[j])))
  }

  lemma ConflictIsClaim(host: Host, entries: seq<Entry>, sh: Sharing, repo: Repo, g: Group, victim: Group)
    requires SharingOf(host, entries, sh) && ConflictIn(sh, repo, g, victim)
    ensures ClaimsVictim(host, entries, g, victim)
  {
    hide PatternText, Segments, Claims, Writers;
    WritersMember(entries, repo, g);
    WritersMember(entries, repo, victim);
    var i :| 0 <= i < |entries| && entries[i].name == g && repo in entries[i].repos;
    var j :| 0 <= j < |entries| && entries[j].name == victim && repo in entries[j].repos;
  }

  /** Plans the passes. Every entry is either kept, in order, or refused, once, with its
      reason; unless the overlap pass is bypassed, the kept groups' archives are apart. */
  method Plan(host: Host, entries: seq<Entry>, keepOvermatched: bool)
    returns (kept: seq<Entry>, refusals: seq<Refused>, ghost sh: Sharing)
    requires DistinctNames(entries)
    ensures SharingOf(host, Only(entries, Tokened(entries)), sh)
    ensures var tokened := Only(entries, Tokened(entries));
            var gone := if keepOvermatched then {} else Groups(sh) - Survivors(sh, Groups(sh));
            kept == Only(tokened, Names(tokened) - gone)
    ensures Conserved(entries, kept, refusals)
    ensures forall g | g in refusals && g.reason.ClaimsArchivesOf? ::
              ClaimsVictim(host, Only(entries, Tokened(entries)), g.group, g.reason.victim)
    ensures forall i | 0 <= i < |entries| :: Refused(entries[i].name, NeedsGroupToken) in refusals <==>
              LacksToken(entries, i)
    ensures !keepOvermatched ==> ArchivesApart(host, kept)
  {
    hide SharesRepo, Tokened, Survivors, Groups, Conserved, LacksToken, ClaimsVictim;
    var tokenless: seq<Refused>;
    kept, tokenless := TokenPass(entries);
    refusals := tokenless;
    OnlyDistinct(entries, Tokened(entries));
    ghost var tokened := kept;
    var sharing := BuildSharing(host, kept);
    sh := sharing;
    if keepOvermatched {
      KeepAll(tokened);
      return;
    }
    var overmatching := OvermatchingPatterns(sharing);
    var overlapping: seq<Refused>;
    kept, overlapping := OverlapPass(kept, overmatching);
    refusals := tokenless + overlapping;
    ConservedTwice(entries, tokened, tokenless, kept, overlapping);
    forall g | g in overlapping ensures ClaimsVictim(host, tokened, g.group, g.reason.victim) {
      ConflictIsClaim(host, tokened, sh, overmatching[g.group].repo, g.group, g.reason.victim);
    }
    KeptAreApart(host, tokened, sh, kept);
  }

  lemma ConservedTwice(entries: seq<Entry>, between: seq<Entry>, first: seq<Refused>, kept: seq<Entry>,
                       second: seq<Refused>)
    requires Conserved(entries, between, first) && Conserved(between, kept, second)
    ensures Conserved(entries, kept, first + second)
  {
    RefusedListConcat(first, second);
    hide NameList, RefusedList;
  }

  lemma {:induction false} KeepAllOf(entries: seq<Entry>, names: set<Group>)
    requires forall e :: e in entries ==> e.name in names
    ensures Only(entries, names) == entries
  {
    if entries != [] { KeepAllOf(entries[1..], names); }
  }

  lemma KeepAll(entries: seq<Entry>)
    ensures Only(entries, Names(entries) - {}) == entries
  {
    assert Names(entries) - {} == Names(entries);
    forall e | e in entries ensures e.name in Names(entries) {
      var i :| 0 <= i < |entries| && entries[i] == e;
    }
    KeepAllOf(entries, Names(entries));
  }

  lemma KeptAreApart(host: Host, tokened: seq<Entry>, sh: Sharing, kept: seq<Entry>)
    requires SharingOf(host, tokened, sh)
    requires kept == Only(tokened, Names(tokened) - (Groups(sh) - Survivors(sh, Groups(sh))))
    ensures ArchivesApart(host, kept)
  {
    hide Survivors, Groups, GlobMatches, Expand, Pieces;
    forall a, b, repo, env |
      a in kept && b in kept && a.name != b.name && repo in a.repos && repo in b.repos && RunsOn(env, host)
      ensures !GlobMatches(PatternText(a), Expand(env, Pieces(b.format)))
    {
      var i := KeptIndex(tokened, sh, kept, a, repo, host);
      var j := KeptIndex(tokened, sh, kept, b, repo, host);
      SurvivorsKeepTheirArchives(host, tokened, sh, i, j, repo, env);
    }
  }

  lemma KeptIndex(tokened: seq<Entry>, sh: Sharing, kept: seq<Entry>, e: Entry, repo: Repo, host: Host) returns (i: nat)
    requires SharingOf(host, tokened, sh)
    requires kept == Only(tokened, Names(tokened) - (Groups(sh) - Survivors(sh, Groups(sh))))
    requires e in kept && repo in e.repos
    ensures i < |tokened| && tokened[i] == e && e.name in Survivors(sh, Groups(sh))
  {
    hide Survivors;
    OnlyMember(tokened, Names(tokened) - (Groups(sh) - Survivors(sh, Groups(sh))), e);
    i :| 0 <= i < |tokened| && tokened[i] == e;
    WritersMember(tokened, repo, e.name);
    assert sh.In(e.name, repo);
    InRepo(sh, repo, e.name);
  }

  // ---- A mutual pair as a plan meets it --------------------------------------------------------------

  const PAIR_ENTRIES: seq<Entry> := [
    Entry("a", "{hostname:a}", true, ["shared", "other"]),
    Entry("b", "{hostname:b}", true, ["shared"]),
    Entry("c", "c", true, ["other"])]

  /** Two groups with the format `{hostname:{group}}` and one with `{group}`, on the host
      `host`, make the sharing in which one of a mutual pair survives. */
  lemma MutualPairIsPlanned()
    ensures DistinctNames(PAIR_ENTRIES) && Only(PAIR_ENTRIES, Tokened(PAIR_ENTRIES)) == PAIR_ENTRIES
    ensures SharingOf(Host("host", ""), PAIR_ENTRIES, MUTUAL_PAIR)
  {
    hide Pieces, Compile, MatchText, RepoGroupsOf, Only, Tokened;
    PairTokened();
    PairWriters();
    HostEntry('a');
    HostEntry('b');
    assert PAIR_ENTRIES[0].format == "{hostname:" + ['a'] + "}" && PAIR_ENTRIES[1].format == "{hostname:" + ['b'] + "}";
    PlainC();
  }

  lemma HostEntry(g: char)
    requires g == 'a' || g == 'b'
    ensures var ps := Pieces("{hostname:" + [g] + "}");
            MatchText(ps) == "*" && Compile(Host("host", ""), ps, "") == THE_HOST
  {
    hide *;
    HostnamePieces(g);
    var token := "hostname:" + [g];
    assert token == if g == 'a' then "hostname:a" else "hostname:b";
    HostSegments(token);
  }

  lemma PairTokened()
    ensures Only(PAIR_ENTRIES, Tokened(PAIR_ENTRIES)) == PAIR_ENTRIES
  {
    forall e | e in PAIR_ENTRIES ensures e.name in Tokened(PAIR_ENTRIES) {
      var i :| 0 <= i < |PAIR_ENTRIES| && PAIR_ENTRIES[i] == e;
    }
    KeepAllOf(PAIR_ENTRIES, Tokened(PAIR_ENTRIES));
  }

  lemma OneWriter(e: Entry, rest: seq<Entry>, repo: Repo)
    ensures Writers([e] + rest, repo) == Times(e.repos, repo, e.name) + Writers(rest, repo)
  {
    assert ([e] + rest)[1..] == rest;
  }

  lemma OneMention(first: Repo, rest: seq<Repo>, repo: Repo, name: Group)
    ensures Times([first] + rest, repo, name) == (if first == repo then [name] else []) + Times(rest, repo, name)
  {
    assert ([first] + rest)[1..] == rest;
  }

  lemma PairWriters()
    ensures RepoGroupsOf(PAIR_ENTRIES, MUTUAL_PAIR.repoGroups)
  {
    var a, b, c := PAIR_ENTRIES[0], PAIR_ENTRIES[1], PAIR_ENTRIES[2];
    assert PAIR_ENTRIES == [a] + ([b] + ([c] + []));
    assert a.repos == ["shared"] + (["other"] + []) && b.repos == ["shared"] + [] && c.repos == ["other"] + [];
    forall repo
      ensures Writers(PAIR_ENTRIES, repo)
           == if repo == "shared" then ["a", "b"] else if repo == "other" then ["a", "c"] else []
    {
      OneWriter(a, [b] + ([c] + []), repo);
      OneWriter(b, [c] + [], repo);
      OneWriter(c, [], repo);
      OneMention("shared", ["other"] + [], repo, "a");
      OneMention("other", [], repo, "a");
      OneMention("shared", [], repo, "b");
      OneMention("other", [], repo, "c");
    }
    hide Writers;
  }

  lemma HostnamePieces(g: char)
    requires g == 'a' || g == 'b'
    ensures Pieces("{hostname:" + [g] + "}") == [Placeholder("hostname:" + [g])]
  {
    var token := "hostname:" + [g];
    var format := "{hostname:" + [g] + "}";
    assert format == "{" + token + "}" && format[0] == '{';
    assert format[1..11] == token;
    forall k | 1 <= k < 11 ensures format[k] != '{' && format[k] != '}' {
      assert format[k] == token[k - 1] && token[k - 1] in "hostname:ab";
    }
    TokenScan(format, 1, "");
    assert "" + token == token;
  }

  /** Inside one brace the token is what is read up to the next. */
  lemma {:induction false} TokenScan(format: string, i: nat, token: string)
    requires i < |format| && format[|format| - 1] == '}'
    requires forall k | i <= k < |format| - 1 :: format[k] != '{' && format[k] != '}'
    ensures Scan(format, i, 1, token) == [Placeholder(token + format[i..|format| - 1])]
    decreases |format| - i
  {
    var n := |format| - 1;
    if i == n {
      assert token + format[i..n] == token && Scan(format, n + 1, 0, token) == [];
    } else {
      TokenScan(format, i + 1, token + [format[i]]);
      assert token + [format[i]] + format[i + 1..n] == token + format[i..n];
    }
  }

  lemma HostSegments(token: string)
    requires token == "hostname:a" || token == "hostname:b"
    ensures Compile(Host("host", ""), [Placeholder(token)], "") == THE_HOST
    ensures MatchText([Placeholder(token)]) == "*"
  {
    NameOfHostname(token);
    assert [Placeholder(token)][1..] == [];
    assert HostnameAlternatives(Host("host", "")) == ["host"];
  }

  lemma NameOfHostname(token: string)
    requires token == "hostname:a" || token == "hostname:b"
    ensures TokenName(token) == "hostname"
  {
    assert token[..8] == "hostname" && token[8] == ':';
    FirstAt(token, ':', 8);
    hide IndexOf;
    Trimmed("hostname");
    Lowered("hostname");
  }

  lemma Trimmed(s: string)
    requires s != "" && 'a' <= s[0] <= 'z' && 'a' <= s[|s| - 1] <= 'z'
    ensures TrimSpace(s) == s
  {}

  lemma {:induction false} Lowered(s: string)
    requires forall k | 0 <= k < |s| :: s[k] < 'A' || 'Z' < s[k]
    ensures ToLower(s) == s
  {
    if s != "" {
      Lowered(s[1..]);
      assert s == [s[0]] + s[1..];
    }
  }

  lemma {:induction false} FirstAt(s: string, c: char, n: nat)
    requires n < |s| && s[n] == c && forall k | 0 <= k < n :: s[k] != c
    ensures IndexOf(s, c) == Some(n)
    decreases n
  {
    if n > 0 { FirstAt(s[1..], c, n - 1); }
  }

  lemma PlainC()
    ensures Pieces("c") == [Text('c')] && MatchText(Pieces("c")) == "c"
    ensures Compile(Host("host", ""), Pieces("c"), "") == JUST_C
  {
    assert Scan("c", 1, 0, "") == [];
    var ps := [Text('c')];
    assert ps[1..] == [] && "" + ['c'] == "c";
    assert Compile(Host("host", ""), [], "c") == Flush("c");
    assert Compile(Host("host", ""), ps, "") == Compile(Host("host", ""), ps[1..], "" + ['c']);
  }
}
