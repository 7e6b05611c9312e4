/**
 The schedule file: what is known of each group and of each repository it writes to. Every
 change is a locked read-modify-write of the whole file, so any number of processes may make
 them; and what is known of a repository belongs to the destination it was learnt from.
 */
module Schedule {
  import opened Wrappers

  // ---- Records ---------------------------------------------------------------------------------

  datatype RunResult = Ok | Failed | Terminated

  datatype RepoOutcome = RepoOutcome(id: string, path: string, result: RunResult, files: int, originalBytes: int,
                                     compressedBytes: int, deduplicatedBytes: int, duration: real, completedAt: int,
                                     measured: bool)

  /** Measured is authoritative; outcomes written before it existed count by their numbers. */
  predicate MeasuredStats(o: RepoOutcome) {
    o.measured || o.files > 0 || o.originalBytes > 0 || o.compressedBytes > 0 || o.deduplicatedBytes > 0
        || o.duration > 0.0
  }

  /** Times count from 1; 0 is no time at all. */
  datatype RunOutcome = RunOutcome(finished: int, result: RunResult, repositories: seq<RepoOutcome>,
                                   logTail: seq<string>, configured: seq<string>,
                                   configuredPaths: map<string, string>, known: bool)

  datatype RepoRecord = RepoRecord(path: string, lastSuccess: int, lastRun: Option<RepoOutcome>,
                                   lastStats: Option<RepoOutcome>)

  const NO_RECORD := RepoRecord("", 0, None, None)

  datatype GroupRecord = GroupRecord(lastSuccess: int, fingerprint: string, lastRun: Option<RunOutcome>,
                                     history: seq<RunOutcome>,
                                     repositories: map<string, RepoRecord>, missingCycles: nat)

  const NEW_GROUP := GroupRecord(0, "", None, [], map[], 0)

  datatype Pending = Pending(group: string, started: int, pid: nat)

  datatype ScheduleFile = ScheduleFile(groups: map<string, GroupRecord>, pending: map<string, Pending>)

  const EMPTY := ScheduleFile(map[], map[])

  const MAX_HISTORY := 90

  predicate SameDestination(canonical: string -> string, a: string, b: string) {
    a == b || canonical(a) == canonical(b)
  }

  // ---- One run, as the record of one repository sees it ---------------------------------------------

  /** What a run says of a repository: an outcome, or, when the run knows the inventory, where
      the repository points now or that it is gone. */
  datatype Event = Judged(outcome: RepoOutcome, finished: int) | Configured(path: string) | Dropped

  function Group(f: ScheduleFile, name: string): GroupRecord { if name in f.groups then f.groups[name] else NEW_GROUP }

  function Repo(repos: map<string, RepoRecord>, id: string): Option<RepoRecord> {
    if id in repos then Some(repos[id]) else None
  }

  function AfterOutcome(canonical: string -> string, before: Option<RepoRecord>, o: RepoOutcome,
                        finished: int): RepoRecord
  {
    var kept := if before.Some? then before.value else NO_RECORD;
    var base := if o.path != "" && kept.path != "" && !SameDestination(canonical, kept.path, o.path) then NO_RECORD
        else kept;
    RepoRecord(if o.path != "" then o.path else base.path,
               if o.result == Ok then (if o.completedAt != 0 then o.completedAt else finished) else base.lastSuccess,
               Some(o),
               if o.result == Ok && MeasuredStats(o) then Some(o) else base.lastStats)
  }

  function AfterConfigured(canonical: string -> string, before: Option<RepoRecord>, path: string): RepoRecord {
    if before.None? then NO_RECORD.(path := path)
    else if path != "" && before.value.path != ""
        && !SameDestination(canonical, before.value.path, path) then NO_RECORD.(path := path)
    else if path != "" && before.value.path == "" then before.value.(path := path)
    else before.value
  }

  function After(canonical: string -> string, before: Option<RepoRecord>, e: Event): Option<RepoRecord> {
    match e
    case Judged(o, finished) => Some(AfterOutcome(canonical, before, o, finished))
    case Configured(path) => Some(AfterConfigured(canonical, before, path))
    case Dropped => None
  }

  function AfterAll(canonical: string -> string, before: Option<RepoRecord>, events: seq<Event>): Option<RepoRecord> {
    if events == [] then before
    else After(canonical, AfterAll(canonical, before, events[..|events| - 1]), events[|events| - 1])
  }

  /** The outcomes of one run that are about repository id, in order. */
  function Judgements(outcomes: seq<RepoOutcome>, finished: int, id: string): seq<Event> {
    if outcomes == [] then []
    else
      var rest := Judgements(outcomes[..|outcomes| - 1], finished, id);
      if outcomes[|outcomes| - 1].id == id then rest + [Judged(outcomes[|outcomes| - 1], finished)] else rest
  }

  /** The outcomes a run's events come from: all those about the repository, in their order. */
  lemma {:induction false} JudgedInOrder(outcomes: seq<RepoOutcome>, finished: int, id: string) returns (at: seq<nat>)
    ensures |Judgements(outcomes, finished, id)| == |at|
    ensures forall k | 0 <= k < |at| ::
              at[k] < |outcomes| && Judgements(outcomes, finished, id)[k] == Judged(outcomes[at[k]], finished)
    ensures forall k, l | 0 <= k < l < |at| :: at[k] < at[l]
    ensures forall i: nat | i < |outcomes| :: i in at <==> outcomes[i].id == id
  {
    at := [];
    if outcomes != [] {
      var last := |outcomes| - 1;
      at := JudgedInOrder(outcomes[..last], finished, id);
      if outcomes[last].id == id { at := at + [last]; }
    }
  }

  predicate KnowsInventory(o: RunOutcome) { o.known || o.configured != [] }

  function ConfiguredPath(o: RunOutcome, id: string): string {
    if id in o.configuredPaths then o.configuredPaths[id] else ""
  }

  function Inventory(o: RunOutcome, id: string): seq<Event> {
    if !KnowsInventory(o) then [] else if id in o.configured then [Configured(ConfiguredPath(o, id))] else [Dropped]
  }

  function EventsOf(o: RunOutcome, id: string): seq<Event> {
    Judgements(o.repositories, o.finished, id) + Inventory(o, id)
  }

  /** Whatever a run says of a repository's outcomes, its inventory has the last word. */
  lemma InventoryHasTheLastWord(o: RunOutcome, id: string)
    ensures var judged, all := Judgements(o.repositories, o.finished, id), EventsOf(o, id);
            && (!o.known && o.configured == [] ==> all == judged)
            && (o.known || o.configured != [] ==>
                  if id !in o.configured then all == judged + [Dropped]
                  else if id in o.configuredPaths then all == judged + [Configured(o.configuredPaths[id])]
                  else all == judged + [Configured("")])
  {}

  function Slim(o: RunOutcome): RunOutcome { o.(logTail := [], repositories := []) }

  function LastOf<T>(s: seq<T>, n: nat): seq<T> { if |s| > n then s[|s| - n..] else s }

  /** What RecordRun makes of a group: every repository's record moves through its events. */
  ghost predicate RunRecorded(canonical: string -> string, before: GroupRecord, o: RunOutcome, after: GroupRecord) {
    && after.lastRun == Some(o) && after.history == LastOf(before.history + [Slim(o)], MAX_HISTORY)
    && after.lastSuccess == before.lastSuccess && after.fingerprint == before.fingerprint
        && after.missingCycles == before.missingCycles
    && forall id :: Repo(after.repositories, id) == AfterAll(canonical, Repo(before.repositories, id), EventsOf(o, id))
  }

  // ---- The store ---------------------------------------------------------------------------------------

  method RecordOutcomes(canonical: string -> string, repos: map<string, RepoRecord>, o: RunOutcome)
    returns (out: map<string, RepoRecord>)
    ensures forall id ::
            Repo(out, id) == AfterAll(canonical, Repo(repos, id), Judgements(o.repositories, o.finished, id))
  {
    hide AfterOutcome, After, AfterAll, Judgements;
    out := repos;
    forall id ensures AfterAll(canonical, Repo(repos, id), Judgements(o.repositories[..0], o.finished, id))
        == Repo(repos, id)
    {
      NothingJudged(canonical, Repo(repos, id), o.finished, id);
    }
    for i := 0 to |o.repositories|
      invariant forall id ::
                Repo(out, id) == AfterAll(canonical, Repo(repos, id), Judgements(o.repositories[..i], o.finished, id))
    {
      var ro := o.repositories[i];
      ghost var before := out;
      var rr := AfterOutcome(canonical, Repo(out, ro.id), ro, o.finished);
      out := out[ro.id := rr];
      forall id
        ensures Repo(out, id)
                == AfterAll(canonical, Repo(repos, id), Judgements(o.repositories[..i + 1], o.finished, id))
      {
        OneMoreJudgement(canonical, Repo(repos, id), o.repositories, o.finished, id, i);
        assert id != ro.id ==> Repo(out, id) == Repo(before, id);
      }
    }
    assert o.repositories[..|o.repositories|] == o.repositories;
  }

  lemma NothingJudged(canonical: string -> string, before: Option<RepoRecord>, finished: int, id: string)
    ensures AfterAll(canonical, before, Judgements([], finished, id)) == before
  {}

  lemma OneMoreJudgement(canonical: string -> string, before: Option<RepoRecord>, outcomes: seq<RepoOutcome>,
                         finished: int, id: string, i: nat)
    requires i < |outcomes|
    ensures var sofar := AfterAll(canonical, before, Judgements(outcomes[..i], finished, id));
            AfterAll(canonical, before, Judgements(outcomes[..i + 1], finished, id))
            == if outcomes[i].id == id then Some(AfterOutcome(canonical, sofar, outcomes[i], finished)) else sofar
  {
    hide AfterOutcome;
    assert outcomes[..i + 1][..i] == outcomes[..i];
    OneMoreEvent(canonical, before, Judgements(outcomes[..i], finished, id), Judged(outcomes[i], finished));
  }

  lemma OneMoreEvent(canonical: string -> string, before: Option<RepoRecord>, events: seq<Event>, e: Event)
    ensures AfterAll(canonical, before, events + [e]) == After(canonical, AfterAll(canonical, before, events), e)
  {
    assert (events + [e])[..|events|] == events;
  }

  /** Repositories now configured are materialised, repointed ones start anew, and those no
      longer configured are dropped. */
  method ReconcileInventory(canonical: string -> string, repos: map<string, RepoRecord>, o: RunOutcome)
    returns (out: map<string, RepoRecord>)
    ensures forall id :: Repo(out, id) == AfterAll(canonical, Repo(repos, id), Inventory(o, id))
  {
    hide AfterAll, Inventory, AfterConfigured, ConfiguredPath;
    out := repos;
    forall id ensures AfterAll(canonical, Repo(repos, id), Inventory(o, id))
        == Reconciled(canonical, Repo(repos, id), o, id)
    {
      InventoryReconciles(canonical, Repo(repos, id), o, id);
    }
    if !KnowsInventory(o) { return; }
    for i := 0 to |o.configured|
      invariant forall id :: Repo(out, id) ==
                  if id in o.configured[..i]
                  then Some(AfterConfigured(canonical, Repo(repos, id), ConfiguredPath(o, id)))
                  else Repo(repos, id)
    {
      var id := o.configured[i];
      assert o.configured[..i + 1] == o.configured[..i] + [id];
      ConfiguredTwice(canonical, Repo(repos, id), ConfiguredPath(o, id));
      out := out[id := AfterConfigured(canonical, Repo(out, id), ConfiguredPath(o, id))];
    }
    assert o.configured[..|o.configured|] == o.configured;
    out := map id | id in out && id in o.configured :: out[id];
  }

  function Reconciled(canonical: string -> string, before: Option<RepoRecord>, o: RunOutcome,
                      id: string): Option<RepoRecord>
  {
    if !KnowsInventory(o) then before
    else if id in o.configured then Some(AfterConfigured(canonical, before, ConfiguredPath(o, id)))
    else None
  }

  lemma InventoryReconciles(canonical: string -> string, before: Option<RepoRecord>, o: RunOutcome, id: string)
    ensures AfterAll(canonical, before, Inventory(o, id)) == Reconciled(canonical, before, o, id)
  {
    hide AfterConfigured;
    if KnowsInventory(o) { OneMoreEvent(canonical, before, [], Inventory(o, id)[0]); }
  }

  /** A repository listed twice is reconciled as if once. */
  lemma ConfiguredTwice(canonical: string -> string, before: Option<RepoRecord>, path: string)
    ensures var once := AfterConfigured(canonical, before, path); AfterConfigured(canonical, Some(once), path) == once
  {}

  /** Being listed where it was known to be changes nothing in a repository's record. */
  lemma ListedIsUntouched(canonical: string -> string, r: RepoRecord, path: string)
    requires path == "" || (r.path != "" && canonical(r.path) == canonical(path))
    ensures AfterConfigured(canonical, Some(r), path) == r
  {}

  class Store {
    var file: ScheduleFile

    constructor (file: ScheduleFile)
      ensures this.file == file
    {
      this.file := file;
    }

    method RecordRun(canonical: string -> string, name: string, o: RunOutcome)
      modifies this
      ensures file.pending == old(file.pending) && name in file.groups
      ensures file.groups == old(file.groups)[name := file.groups[name]]
      ensures RunRecorded(canonical, old(Group(file, name)), o, file.groups[name])
    {
      var rec := Group(file, name);
      var judged := RecordOutcomes(canonical, rec.repositories, o);
      var repos := ReconcileInventory(canonical, judged, o);
      forall id ensures Repo(repos, id) == AfterAll(canonical, Repo(rec.repositories, id), EventsOf(o, id)) {
        AfterBoth(canonical, Repo(rec.repositories, id), Judgements(o.repositories, o.finished, id), Inventory(o, id));
      }
      var history := rec.history + [Slim(o)];
      if |history| > MAX_HISTORY { history := history[|history| - MAX_HISTORY..]; }
      rec := rec.(lastRun := Some(o), repositories := repos, history := history);
      file := file.(groups := file.groups[name := rec]);
    }

    method MarkSuccess(name: string, fingerprint: string, startedAt: int)
      modifies this
      ensures file == Marked(old(file), name, fingerprint, startedAt)
    {
      var rec := MarkedRecord(Group(file, name), fingerprint, startedAt);
      file := file.(groups := file.groups[name := rec]);
    }

    /** Ages the records of groups that are absent this cycle. */
    method Retain(active: set<string>, protected: set<string>)
      modifies this
      ensures file == Retained(old(file), active, protected)
    {
      var groups := file.groups;
      var todo := groups.Keys;
      while todo != {}
        invariant todo <= file.groups.Keys && file == old(file)
        invariant forall n :: n in groups <==> n in file.groups && (n in todo || !Expires(file, active, protected, n))
        invariant forall n | n in groups :: groups[n] == if n in todo then file.groups[n]
                  else Aged(file.groups[n], n in active)
        decreases todo
      {
        var name :| name in todo;
        todo := todo - {name};
        var rec := file.groups[name];
        if name in active {
          if rec.missingCycles != 0 { groups := groups[name := rec.(missingCycles := 0)]; }
        } else if name !in protected && rec.missingCycles >= 2 {
          groups := groups - {name};
        } else {
          groups := groups[name := rec.(missingCycles := rec.missingCycles + 1)];
        }
      }
      file := file.(groups := groups);
    }
  }

  lemma {:induction false} AfterBoth(canonical: string -> string, before: Option<RepoRecord>, first: seq<Event>,
                                     second: seq<Event>)
    ensures AfterAll(canonical, before, first + second)
            == AfterAll(canonical, AfterAll(canonical, before, first), second)
    decreases second
  {
    if second == [] {
      assert first + second == first;
    } else {
      var shorter := second[..|second| - 1];
      AfterBoth(canonical, before, first, shorter);
      assert (first + second)[..|first + second| - 1] == first + shorter;
    }
  }

  function MarkedRecord(r: GroupRecord, fingerprint: string, at: int): GroupRecord {
    r.(lastSuccess := at, fingerprint := fingerprint, missingCycles := 0)
  }

  function Marked(f: ScheduleFile, name: string, fingerprint: string, at: int): ScheduleFile {
    f.(groups := f.groups[name := MarkedRecord(Group(f, name), fingerprint, at)])
  }

  predicate Expires(f: ScheduleFile, active: set<string>, protected: set<string>, name: string) {
    name in f.groups && name !in active && name !in protected && f.groups[name].missingCycles >= 2
  }

  function Aged(r: GroupRecord, active: bool): GroupRecord {
    r.(missingCycles := if active then 0 else r.missingCycles + 1)
  }

  function Retained(f: ScheduleFile, active: set<string>, protected: set<string>): ScheduleFile {
    f.(groups := map n | n in f.groups && !Expires(f, active, protected, n) :: Aged(f.groups[n], n in active))
  }

  // ---- History belongs to its destination ------------------------------------------------------------------

  /** The events of a sequence of runs about one repository. */
  function Chronicle(outcomes: seq<RunOutcome>, id: string): seq<Event> {
    if outcomes == [] then [] else Chronicle(outcomes[..|outcomes| - 1], id) + EventsOf(outcomes[|outcomes| - 1], id)
  }

  /** The path an event gives its repository; "" says nothing of it. */
  function PathGiven(e: Event): string {
    match e
    case Judged(o, _) => o.path
    case Configured(path) => path
    case Dropped => ""
  }

  /** Where the repository was last said to be since it was last dropped. */
  function PathKnown(events: seq<Event>): string {
    if events == [] || events[|events| - 1].Dropped? then ""
    else if PathGiven(events[|events| - 1]) != "" then PathGiven(events[|events| - 1])
    else PathKnown(events[..|events| - 1])
  }

  /** The newest event finds the repository somewhere else than it was known to be. */
  ghost predicate Repointed(canonical: string -> string, events: seq<Event>)
    requires events != []
  {
    var given, known := PathGiven(events[|events| - 1]), PathKnown(events[..|events| - 1]);
    given != "" && known != "" && canonical(given) != canonical(known)
  }

  /** Looking back from the newest event, as far as the repository was neither dropped nor
      repointed, the first that `wanted` accepts. */
  ghost function Latest(canonical: string -> string, events: seq<Event>, wanted: RepoOutcome -> bool): Option<Event> {
    if events == [] || events[|events| - 1].Dropped? then None
    else if events[|events| - 1].Judged? && wanted(events[|events| - 1].outcome) then Some(events[|events| - 1])
    else if Repointed(canonical, events) then None
    else Latest(canonical, events[..|events| - 1], wanted)
  }

  function SuccessTime(e: Event): int
    requires e.Judged?
  {
    if e.outcome.completedAt != 0 then e.outcome.completedAt else e.finished
  }

  ghost predicate Faithful(canonical: string -> string, r: Option<RepoRecord>, events: seq<Event>) {
    match r
    case None => events == [] || events[|events| - 1].Dropped?
    case Some(rr) =>
      && events != [] && !events[|events| - 1].Dropped?
      && canonical(rr.path) == canonical(PathKnown(events)) && (rr.path == "" <==> PathKnown(events) == "")
      && (var ok := Latest(canonical, events, (o: RepoOutcome) => o.result == Ok);
          rr.lastSuccess == if ok.Some? && ok.value.Judged? then SuccessTime(ok.value) else 0)
      && (var stats := Latest(canonical, events, (o: RepoOutcome) => o.result == Ok
          && (o.measured || o.files > 0 || o.originalBytes > 0 || o.compressedBytes > 0 || o.deduplicatedBytes > 0
              || o.duration > 0.0));
          rr.lastStats == if stats.Some? && stats.value.Judged? then Some(stats.value.outcome) else None)
      && (var any := Latest(canonical, events, (o: RepoOutcome) => true);
          rr.lastRun == if any.Some? && any.value.Judged? then Some(any.value.outcome) else None)
  }

  lemma {:induction false} FoldIsFaithful(canonical: string -> string, events: seq<Event>)
    ensures Faithful(canonical, AfterAll(canonical, None, events), events)
  {
    if events != [] {
      var before, e := events[..|events| - 1], events[|events| - 1];
      FoldIsFaithful(canonical, before);
    }
  }

  /** The group's record after a sequence of runs recorded into a store that knew nothing. */
  ghost predicate Recorded(canonical: string -> string, records: seq<GroupRecord>, outcomes: seq<RunOutcome>) {
    && |records| == |outcomes| + 1 && records[0] == NEW_GROUP
    && forall i :: 0 <= i < |outcomes| ==> RunRecorded(canonical, records[i], outcomes[i], records[i + 1])
  }

  lemma {:induction false} RecordIsFold(canonical: string -> string, records: seq<GroupRecord>,
                                        outcomes: seq<RunOutcome>,
                                        id: string, n: nat)
    requires Recorded(canonical, records, outcomes) && n <= |outcomes|
    ensures Repo(records[n].repositories, id) == AfterAll(canonical, None, Chronicle(outcomes[..n], id))
  {
    if n > 0 {
      RecordIsFold(canonical, records, outcomes, id, n - 1);
      assert RunRecorded(canonical, records[n - 1], outcomes[n - 1], records[n - 1 + 1]);
      assert outcomes[..n][..n - 1] == outcomes[..n - 1];
      AfterBoth(canonical, None, Chronicle(outcomes[..n - 1], id), EventsOf(outcomes[n - 1], id));
    }
  }

  /** A repository's last success, statistics and outcome are those of the newest event of
      their kind since it was last repointed or dropped, and of no other destination's. */
  lemma HistoryBelongsToDestination(canonical: string -> string, records: seq<GroupRecord>, outcomes: seq<RunOutcome>,
                                    id: string)
    requires Recorded(canonical, records, outcomes)
    ensures Faithful(canonical, Repo(records[|outcomes|].repositories, id), Chronicle(outcomes, id))
  {
    RecordIsFold(canonical, records, outcomes, id, |outcomes|);
    assert outcomes[..|outcomes|] == outcomes;
    FoldIsFaithful(canonical, Chronicle(outcomes, id));
  }

  /** After a run that knows the inventory the records are exactly those of the configured ids. */
  lemma InventoryIsExact(canonical: string -> string, before: GroupRecord, o: RunOutcome, after: GroupRecord)
    requires RunRecorded(canonical, before, o, after) && (o.known || o.configured != [])
    ensures forall id :: id in after.repositories <==> id in o.configured
  {
    forall id ensures id in after.repositories <==> id in o.configured {
      var events := EventsOf(o, id);
      assert events[..|events| - 1] == Judgements(o.repositories, o.finished, id);
      assert Repo(after.repositories, id) == AfterAll(canonical, Repo(before.repositories, id), events);
    }
  }

  /** The newest outcomes, up to ninety of them, oldest first: each with its time, result and
      inventory, and without its log and its per-repository part. */
  ghost predicate NewestNinety(outcomes: seq<RunOutcome>, history: seq<RunOutcome>) {
    && |history| == (if |outcomes| < 90 then |outcomes| else 90)
    && forall j | 0 <= j < |history| ::
        var kept, told := history[j], outcomes[|outcomes| - |history| + j];
        && kept.finished == told.finished && kept.result == told.result
        && kept.configured == told.configured && kept.configuredPaths == told.configuredPaths
        && kept.known == told.known && kept.logTail == [] && kept.repositories == []
  }

  lemma {:induction false} HistoryIsTheTail(canonical: string -> string, records: seq<GroupRecord>,
                                            outcomes: seq<RunOutcome>, n: nat)
    requires Recorded(canonical, records, outcomes) && n <= |outcomes|
    ensures NewestNinety(outcomes[..n], records[n].history)
  {
    if n > 0 {
      HistoryIsTheTail(canonical, records, outcomes, n - 1);
      assert RunRecorded(canonical, records[n - 1], outcomes[n - 1], records[n - 1 + 1]);
      HistoryGrows(outcomes[..n - 1], records[n - 1].history, outcomes[n - 1]);
      assert outcomes[..n - 1] + [outcomes[n - 1]] == outcomes[..n];
    }
  }

  lemma HistoryGrows(outcomes: seq<RunOutcome>, history: seq<RunOutcome>, o: RunOutcome)
    requires NewestNinety(outcomes, history)
    ensures NewestNinety(outcomes + [o], LastOf(history + [Slim(o)], MAX_HISTORY))
  {}

  // ---- Absent groups ------------------------------------------------------------------------------------------

  function RetainedAll(f: ScheduleFile, cycles: seq<(set<string>, set<string>)>): ScheduleFile {
    if cycles == [] then f
    else
      var last := cycles[|cycles| - 1];
      Retained(RetainedAll(f, cycles[..|cycles| - 1]), last.0, last.1)
  }

  /** A group absent and unprotected from now on survives two cycles and goes in the third. */
  lemma {:induction false} TwoCyclesOfGrace(f: ScheduleFile, cycles: seq<(set<string>, set<string>)>, name: string)
    requires name in f.groups && f.groups[name].missingCycles == 0
    requires forall c | c in cycles :: name !in c.0 && name !in c.1
    ensures name in RetainedAll(f, cycles).groups <==> |cycles| <= 2
    ensures |cycles| <= 2 ==> RetainedAll(f, cycles).groups[name] == f.groups[name].(missingCycles := |cycles|)
  {
    if cycles != [] {
      var before := cycles[..|cycles| - 1];
      assert cycles[|cycles| - 1] in cycles;
      assert forall c | c in before :: c in cycles;
      TwoCyclesOfGrace(f, before, name);
    }
  }

  lemma OneCycle(f: ScheduleFile, active: set<string>, protected: set<string>, name: string)
    ensures var g := Retained(f, active, protected).groups;
            && (name in g <==>
                  (name in f.groups && (name in active || name in protected || f.groups[name].missingCycles < 2)))
            && (name in g ==>
                  g[name] == f.groups[name].(missingCycles := if name in active then 0
                                                              else f.groups[name].missingCycles + 1))
  {}

  /** As long as it is there, a record is as it was but for the count of the cycles since the
      group was last there. */
  lemma {:induction false} AbsencesCounted(f: ScheduleFile, cycles: seq<(set<string>, set<string>)>, name: string)
    requires name in f.groups && f.groups[name].missingCycles == 0 && name in RetainedAll(f, cycles).groups
    ensures var r := RetainedAll(f, cycles).groups[name];
            && r.missingCycles <= |cycles| && r == f.groups[name].(missingCycles := r.missingCycles)
            && (forall i | |cycles| - r.missingCycles <= i < |cycles| :: name !in cycles[i].0)
            && (r.missingCycles < |cycles| ==> name in cycles[|cycles| - r.missingCycles - 1].0)
  {
    if cycles != [] {
      var before, last := cycles[..|cycles| - 1], |cycles| - 1;
      OneCycle(RetainedAll(f, before), cycles[last].0, cycles[last].1, name);
      hide Retained;
      AbsencesCounted(f, before, name);
    }
  }

  /** When a group's record goes, for every run of cycles: in the first in which the group is
      absent and unprotected, and was absent in the two before. */
  lemma {:induction false} StaysExactly(f: ScheduleFile, cycles: seq<(set<string>, set<string>)>, name: string)
    requires name in f.groups && f.groups[name].missingCycles == 0
    ensures name in RetainedAll(f, cycles).groups <==> forall i | 2 <= i < |cycles| :: Spared(cycles, i, name)
  {
    if cycles != [] {
      var before, last := cycles[..|cycles| - 1], |cycles| - 1;
      StaysExactly(f, before, name);
      OneCycle(RetainedAll(f, before), cycles[last].0, cycles[last].1, name);
      SparedSoFar(cycles, name);
      hide Retained, Spared;
      if name in RetainedAll(f, before).groups { AbsencesCounted(f, before, name); }
    }
  }

  lemma SparedSoFar(cycles: seq<(set<string>, set<string>)>, name: string)
    requires cycles != []
    ensures var last := |cycles| - 1;
            && (forall i | 2 <= i < last :: Spared(cycles, i, name) <==> Spared(cycles[..last], i, name))
            && (2 <= last ==> (Spared(cycles, last, name) <==>
                  name in cycles[last].0 || name in cycles[last].1 || name in cycles[last - 1].0
                  || name in cycles[last - 2].0))
  {}

  predicate Spared(cycles: seq<(set<string>, set<string>)>, i: nat, name: string)
    requires 2 <= i < |cycles|
  {
    name in cycles[i].0 || name in cycles[i].1 || name in cycles[i - 1].0 || name in cycles[i - 2].0
  }

  /** A cycle touches no pending run, and a record that is gone does not come back. */
  lemma {:induction false} OnlyRecordsAge(f: ScheduleFile, cycles: seq<(set<string>, set<string>)>)
    ensures RetainedAll(f, cycles).pending == f.pending && RetainedAll(f, cycles).groups.Keys <= f.groups.Keys
  {
    if cycles != [] { OnlyRecordsAge(f, cycles[..|cycles| - 1]); }
  }

  /** A group the cache protects keeps its record however long it is away. */
  lemma {:induction false} ProtectedStays(f: ScheduleFile, cycles: seq<(set<string>, set<string>)>, name: string)
    requires name in f.groups
    requires forall c | c in cycles :: name in c.0 || name in c.1
    ensures name in RetainedAll(f, cycles).groups
    ensures var r := RetainedAll(f, cycles).groups[name]; r.(missingCycles := 0) == f.groups[name].(missingCycles := 0)
  {
    if cycles != [] {
      var before := cycles[..|cycles| - 1];
      assert cycles[|cycles| - 1] in cycles;
      assert forall c | c in before :: c in cycles;
      ProtectedStays(f, before, name);
    }
  }
}
