/**
 Who may run what at the same time. Backups and restores, any number of them in any number
 of processes, take in-process semaphores (waiting, in one order) and then file locks
 (never waiting). A caller advances one acquisition or release at a time, and a process may
 die between any two steps, which drops its file locks and its semaphores.
 */
module RunLocks {
  // ---- Keys and their order -----------------------------------------------------------------

  /** Lock keys; the name of a lock file is an injective function of the key. */
  datatype Key = GroupKey(group: string) | SnapshotKey | RepoKey(repo: string)

  predicate StringLess(a: string, b: string) {
    b != "" && (a == "" || a[0] < b[0] || (a[0] == b[0] && StringLess(a[1..], b[1..])))
  }

  /** After n characters in common a ends, or has the smaller character. */
  predicate ComesFirst(a: string, b: string, n: nat) {
    n <= |a| && n < |b| && a[..n] == b[..n] && (n == |a| || a[n] < b[n])
  }

  /** Strings compare by the first character in which they differ; a prefix comes first. */
  lemma {:induction false} StringLessExactly(a: string, b: string)
    ensures StringLess(a, b) <==> exists n: nat :: ComesFirst(a, b, n)
  {
    if a != "" && b != "" && a[0] == b[0] {
      StringLessExactly(a[1..], b[1..]);
      if m: nat :| ComesFirst(a[1..], b[1..], m) {
        assert a[..m + 1] == [a[0]] + a[1..][..m] && b[..m + 1] == [b[0]] + b[1..][..m];
        assert ComesFirst(a, b, m + 1);
      }
      if n: nat :| ComesFirst(a, b, n) {
        assert a[1..][..n - 1] == a[..n][1..] && b[1..][..n - 1] == b[..n][1..];
        assert ComesFirst(a[1..], b[1..], n - 1);
      }
    } else if a == "" && b != "" {
      assert ComesFirst(a, b, 0);
    } else if b != "" {
      assert a[0] < b[0] ==> ComesFirst(a, b, 0);
      forall n: nat | ComesFirst(a, b, n) ensures n == 0 {}
    }
  }

  lemma {:induction false} StringLessTransitive(a: string, b: string, c: string)
    requires StringLess(a, b) && StringLess(b, c)
    ensures StringLess(a, c)
  {
    if a != "" && a[0] == b[0] == c[0] { StringLessTransitive(a[1..], b[1..], c[1..]); }
  }

  lemma {:induction false} StringLessTotal(a: string, b: string)
    ensures !StringLess(a, a)
    ensures StringLess(a, b) || a == b || StringLess(b, a)
  {
    if a != "" {
      StringLessTotal(a[1..], if b == "" then b else b[1..]);
      if b != "" && a[0] == b[0] && a[1..] == b[1..] { assert a == [a[0]] + a[1..] && b == [b[0]] + b[1..]; }
    }
  }

  /** The order semaphores are waited for: snapshots first, then repositories by name. */
  predicate KeyLess(a: Key, b: Key) {
    match (a, b)
    case (SnapshotKey, RepoKey(_)) => true
    case (RepoKey(x), RepoKey(y)) => StringLess(x, y)
    case _ => false
  }

  lemma KeyLessTransitive(a: Key, b: Key, c: Key)
    requires KeyLess(a, b) && KeyLess(b, c)
    ensures KeyLess(a, c)
  {
    if a.RepoKey? { StringLessTransitive(a.repo, b.repo, c.repo); }
  }

  lemma KeyLessIrreflexive(a: Key)
    ensures !KeyLess(a, a)
  {
    if a.RepoKey? { StringLessTotal(a.repo, a.repo); }
  }

  predicate NoDup<T(==)>(s: seq<T>) { forall i, j :: 0 <= i < j < |s| ==> s[i] != s[j] }

  predicate Ascending(keys: seq<Key>) { forall i, j :: 0 <= i < j < |keys| ==> KeyLess(keys[i], keys[j]) }

  // ---- The keys of a backup -----------------------------------------------------------------

  /** Repository keys of a group: one per distinct canonical destination, in order of first
      mention; entries without a path do not count. */
  method ExtractRepoKeys(paths: seq<string>, canonical: string -> string) returns (keys: seq<string>)
    ensures NoDup(keys)
    ensures forall k :: k in keys <==> exists i :: 0 <= i < |paths| && paths[i] != "" && canonical(paths[i]) == k
  {
    keys := [];
    for i := 0 to |paths|
      invariant NoDup(keys)
      invariant forall k :: k in keys <==> exists j :: 0 <= j < i && paths[j] != "" && canonical(paths[j]) == k
    {
      if paths[i] == "" { continue; }
      var key := canonical(paths[i]);
      if key !in keys { keys := keys + [key]; }
    }
  }

  function Insert(x: string, s: seq<string>): (r: seq<string>)
    ensures multiset(r) == multiset(s) + multiset{x}
  {
    if s == [] || !StringLess(s[0], x) then [x] + s
    else
      assert s == [s[0]] + s[1..];
      [s[0]] + Insert(x, s[1..])
  }

  function SortStrings(s: seq<string>): (r: seq<string>)
    ensures multiset(r) == multiset(s)
  {
    if s == [] then []
    else
      assert s == [s[0]] + s[1..];
      Insert(s[0], SortStrings(s[1..]))
  }

  predicate AscendingStrings(s: seq<string>) { forall i, j :: 0 <= i < j < |s| ==> StringLess(s[i], s[j]) }

  lemma {:induction false} InsertAscending(x: string, s: seq<string>)
    requires AscendingStrings(s) && x !in s
    ensures AscendingStrings(Insert(x, s))
  {
    if s == [] {
    } else if !StringLess(s[0], x) {
      StringLessTotal(s[0], x);
      forall j | 0 <= j < |s| ensures StringLess(x, s[j]) {
        if j > 0 { StringLessTransitive(x, s[0], s[j]); }
      }
    } else {
      InsertAscending(x, s[1..]);
      var r := Insert(x, s[1..]);
      forall j | 0 <= j < |r| ensures StringLess(s[0], r[j]) {
        assert r[j] in multiset(r);
        assert r[j] == x || r[j] in s[1..];
      }
    }
  }

  lemma {:induction false} SortAscending(s: seq<string>)
    requires NoDup(s)
    ensures AscendingStrings(SortStrings(s))
  {
    if s != [] {
      SortAscending(s[1..]);
      var t := SortStrings(s[1..]);
      assert s[0] in t <==> s[0] in multiset(s[1..]);
      InsertAscending(s[0], t);
    }
  }

  datatype Meta = Meta(group: string, snapshotHooks: bool, repos: seq<string>)

  function RepoKeys(repos: seq<string>): (r: seq<Key>) {
    seq(|repos|, i requires 0 <= i < |repos| => RepoKey(repos[i]))
  }

  /** What a backup waits for, in the order it waits. */
  function SemaphoreKeys(m: Meta): seq<Key> {
    (if m.snapshotHooks then [SnapshotKey] else []) + RepoKeys(SortStrings(m.repos))
  }

  lemma SemaphoreKeysAscend(m: Meta)
    requires NoDup(m.repos)
    ensures Ascending(SemaphoreKeys(m))
    ensures m.snapshotHooks ==> SemaphoreKeys(m)[0] == SnapshotKey
    ensures forall i, j | 0 <= i < j < |SemaphoreKeys(m)| && SemaphoreKeys(m)[i].RepoKey? ::
              SemaphoreKeys(m)[j].RepoKey? && StringLess(SemaphoreKeys(m)[i].repo, SemaphoreKeys(m)[j].repo)
  {
    SortAscending(m.repos);
  }

  lemma SemaphoreKeysCover(m: Meta)
    ensures SnapshotKey in SemaphoreKeys(m) <==> m.snapshotHooks
    ensures forall r :: RepoKey(r) in SemaphoreKeys(m) <==> r in m.repos
    ensures forall g :: GroupKey(g) !in SemaphoreKeys(m)
  {
    var sorted := SortStrings(m.repos);
    forall r: string ensures RepoKey(r) in RepoKeys(sorted) <==> r in m.repos {
      RepoKeyIn(r, sorted);
      assert r in multiset(sorted) <==> r in multiset(m.repos);
    }
    hide SortStrings;
  }

  lemma RepoKeyIn(r: string, repos: seq<string>)
    ensures RepoKey(r) in RepoKeys(repos) <==> r in multiset(repos)
    ensures r in multiset(repos) <==> r in repos
  {
    if i :| 0 <= i < |repos| && repos[i] == r { assert RepoKeys(repos)[i] == RepoKey(r); }
  }

  // ---- The keys of a restore ----------------------------------------------------------------

  /** Every lock a restore of `volume` from `source`'s archive must hold: the group key of
      the source and of every group that backs up the volume, and the repository keys of
      those of them this generation knows. */
  predicate RestoreNeeds(members: map<string, set<string>>, meta: map<string, Meta>, source: string, volume: string,
                         k: Key)
  {
    match k
    case GroupKey(g) => Involved(members, source, volume, g)
    case RepoKey(r) => exists g :: g in meta && Involved(members, source, volume, g) && r in meta[g].repos
    case SnapshotKey => false
  }

  predicate Involved(members: map<string, set<string>>, source: string, volume: string, g: string) {
    g == source || (g in members && volume in members[g])
  }

  method RestoreLockKeys(members: map<string, set<string>>, meta: map<string, Meta>, source: string, volume: string)
    returns (keys: seq<Key>)
    ensures NoDup(keys)
    ensures forall k :: k in keys <==> RestoreNeeds(members, meta, source, volume, k)
    ensures forall g :: GroupKey(g) in keys <==> g == source || (g in members && volume in members[g])
    ensures forall i, j :: 0 <= i < |keys| && 0 <= j < |keys| && keys[i].RepoKey? && keys[j].GroupKey? ==> j < i
  {
    var groups := InvolvedGroups(members, source, volume);
    var groupKeys: seq<Key>, repoKeys: seq<Key> := [], [];
    assert NoDup(groupKeys);
    hide NoDup;
    var left := groups;
    while left != {}
      invariant left <= groups
      invariant NoDup(groupKeys) && NoDup(repoKeys)
      invariant forall k :: k in groupKeys <==> k.GroupKey? && k.group in groups && k.group !in left
      invariant forall k :: k in repoKeys ==> k.RepoKey? && RestoreNeeds(members, meta, source, volume, k)
      invariant forall g | g in groups && g !in left && g in meta :: forall r | r in meta[g].repos ::
                RepoKey(r) in repoKeys
      decreases left
    {
      var g :| g in left;
      left := left - {g};
      OneMoreKey(groupKeys, GroupKey(g));
      groupKeys := groupKeys + [GroupKey(g)];
      if g in meta { repoKeys := AddRepoKeys(repoKeys, meta[g].repos); }
    }
    keys := groupKeys + repoKeys;
    GroupsFirst(groupKeys, repoKeys);
  }

  lemma GroupsFirst(groupKeys: seq<Key>, repoKeys: seq<Key>)
    requires NoDup(groupKeys) && NoDup(repoKeys)
    requires (forall k | k in groupKeys :: k.GroupKey?) && (forall k | k in repoKeys :: k.RepoKey?)
    ensures var keys := groupKeys + repoKeys;
            && NoDup(keys)
            && forall i, j :: 0 <= i < |keys| && 0 <= j < |keys| && keys[i].RepoKey? && keys[j].GroupKey? ==> j < i
  {
    assert forall i | 0 <= i < |groupKeys| :: groupKeys[i] in groupKeys;
    assert forall i | 0 <= i < |repoKeys| :: repoKeys[i] in repoKeys;
  }

  lemma OneMoreKey(keys: seq<Key>, k: Key)
    requires NoDup(keys) && k !in keys
    ensures NoDup(keys + [k])
  {}

  method InvolvedGroups(members: map<string, set<string>>, source: string, volume: string) returns (groups: set<string>)
    ensures groups == {source} + set g | g in members && volume in members[g]
  {
    groups := {source};
    var todo := members.Keys;
    while todo != {}
      invariant todo <= members.Keys
      invariant groups == {source} + set g | g in members && g !in todo && volume in members[g]
      decreases todo
    {
      var g :| g in todo;
      todo := todo - {g};
      if volume in members[g] { groups := groups + {g}; }
    }
  }

  method AddRepoKeys(before: seq<Key>, repos: seq<string>) returns (keys: seq<Key>)
    requires NoDup(before)
    ensures NoDup(keys)
    ensures forall k :: k in keys <==> k in before || (k.RepoKey? && k.repo in repos)
  {
    keys := before;
    for i := 0 to |repos|
      invariant NoDup(keys)
      invariant forall k :: k in keys <==> k in before || (k.RepoKey? && k.repo in repos[..i])
    {
      assert repos[..i + 1] == repos[..i] + [repos[i]];
      if RepoKey(repos[i]) !in keys { keys := keys + [RepoKey(repos[i])]; }
    }
    assert repos[..|repos|] == repos;
  }

  // ---- Callers and steps ----------------------------------------------------------------------

  datatype Job = Backup(meta: Meta) | Restore(keys: seq<Key>)

  function Semaphores(j: Job): seq<Key> { if j.Backup? then SemaphoreKeys(j.meta) else [] }

  function Flocks(j: Job): seq<Key> { if j.Backup? then [GroupKey(j.meta.group)] + SemaphoreKeys(j.meta) else j.keys }

  datatype Stage = Starting | Waiting | Locking | Running | Unwinding | Over

  /** How far a caller has got: whether it holds its group's semaphore, how many of its other
      semaphores and how many of its file locks it holds. */
  datatype Caller = Caller(proc: nat, job: Job, stage: Stage, groupSem: bool, sems: nat, flocks: nat)

  datatype System = System(callers: map<nat, Caller>, sems: map<(nat, Key), nat>, flocks: map<Key, nat>)

  const INIT := System(map[], map[], map[])

  /** Starting: a backup tries its group's semaphore and gives up at once if it is held. */
  ghost predicate Begin(s: System, id: nat, s': System) {
    && id in s.callers && s.callers[id].stage == Starting
    && var c := s.callers[id];
       if c.job.Restore? then s' == s.(callers := s.callers[id := c.(stage := Locking)])
       else
         var k := (c.proc, GroupKey(c.job.meta.group));
         if k in s.sems then s' == s.(callers := s.callers[id := c.(stage := Over)])
         else s' == s.(callers := s.callers[id := c.(stage := Waiting, groupSem := true)], sems := s.sems[k := id])
  }

  /** Waiting: the next semaphore, once it is free. */
  ghost predicate Wait(s: System, id: nat, s': System) {
    && id in s.callers && s.callers[id].stage == Waiting
    && var c := s.callers[id];
       var keys := Semaphores(c.job);
       if c.sems < |keys| then
         && (c.proc, keys[c.sems]) !in s.sems
         && s' == s.(callers := s.callers[id := c.(sems := c.sems + 1)], sems := s.sems[(c.proc, keys[c.sems]) := id])
       else s' == s.(callers := s.callers[id := c.(stage := Locking)])
  }

  /** Waiting: the context is cancelled instead. */
  ghost predicate Cancel(s: System, id: nat, s': System) {
    && id in s.callers && s.callers[id].stage == Waiting && s.callers[id].sems < |Semaphores(s.callers[id].job)|
    && s' == s.(callers := s.callers[id := s.callers[id].(stage := Unwinding)])
  }

  /** Locking: the next file lock if nobody holds it; held, or an error, means giving up. */
  ghost predicate Lock(s: System, id: nat, s': System) {
    && id in s.callers && s.callers[id].stage == Locking
    && var c := s.callers[id];
       var keys := Flocks(c.job);
       if c.flocks < |keys| then
         || s' == s.(callers := s.callers[id := c.(stage := Unwinding)])
         || (keys[c.flocks] !in s.flocks
             && s' == s.(callers := s.callers[id := c.(flocks := c.flocks + 1)],
                 flocks := s.flocks[keys[c.flocks] := id]))
       else s' == s.(callers := s.callers[id := c.(stage := Running)])
  }

  ghost predicate Finish(s: System, id: nat, s': System) {
    && id in s.callers && s.callers[id].stage == Running
    && s' == s.(callers := s.callers[id := s.callers[id].(stage := Unwinding)])
  }

  /** Unwinding: file locks last to first, then semaphores last to first, then the group's. */
  ghost predicate Unwind(s: System, id: nat, s': System) {
    && id in s.callers && s.callers[id].stage == Unwinding
    && var c := s.callers[id];
       if 0 < c.flocks <= |Flocks(c.job)| then
         s' == s.(callers := s.callers[id := c.(flocks := c.flocks - 1)],
             flocks := s.flocks - {Flocks(c.job)[c.flocks - 1]})
       else if 0 < c.sems <= |Semaphores(c.job)| then
         s' == s.(callers := s.callers[id := c.(sems := c.sems - 1)],
             sems := s.sems - {(c.proc, Semaphores(c.job)[c.sems - 1])})
       else if c.groupSem && c.job.Backup? then
         s' == s.(callers := s.callers[id := c.(groupSem := false)],
             sems := s.sems - {(c.proc, GroupKey(c.job.meta.group))})
       else s' == s.(callers := s.callers[id := c.(stage := Over)])
  }

  /** A new call, of a backup whose repository keys came from ExtractRepoKeys or a restore. */
  ghost predicate Call(s: System, id: nat, s': System) {
    && id !in s.callers && id in s'.callers
    && (s'.callers[id].job.Backup? ==> NoDup(s'.callers[id].job.meta.repos))
    && s'.callers[id] == Caller(s'.callers[id].proc, s'.callers[id].job, Starting, false, 0, 0)
    && s' == s.(callers := s.callers[id := s'.callers[id]])
  }

  predicate OfProcess(s: System, p: nat, id: nat) { id in s.callers && s.callers[id].proc == p }

  /** A process dies: its callers and semaphores are gone and the kernel drops its locks. */
  ghost predicate Crash(s: System, p: nat, s': System) {
    s' == System(map id | id in s.callers && s.callers[id].proc != p :: s.callers[id],
                 map k | k in s.sems && k.0 != p :: s.sems[k],
                 map k | k in s.flocks && !OfProcess(s, p, s.flocks[k]) :: s.flocks[k])
  }

  ghost predicate Next(s: System, s': System) {
    exists x: nat :: Call(s, x, s') || Advance(s, x, s') || Cancel(s, x, s') || Crash(s, x, s')
  }

  ghost predicate Advance(s: System, id: nat, s': System) {
    Begin(s, id, s') || Wait(s, id, s') || Lock(s, id, s') || Finish(s, id, s') || Unwind(s, id, s')
  }

  /** A run of the whole system, from nothing. */
  ghost predicate Execution(run: seq<System>) {
    && run != [] && run[0] == INIT
    && forall i :: 0 <= i < |run| - 1 ==> Next(run[i], run[i + 1])
  }

  // ---- What every step keeps -------------------------------------------------------------------

  function Paired(p: nat, keys: seq<Key>): set<(nat, Key)> { set k | k in keys :: (p, k) }

  /** What a caller has taken and not yet released. */
  function SemsHeld(c: Caller): set<(nat, Key)> {
    (if c.groupSem && c.job.Backup? then {(c.proc, GroupKey(c.job.meta.group))} else {})
    + Paired(c.proc, Taken(Semaphores(c.job), c.sems))
  }

  function FlocksHeld(c: Caller): set<Key> { set k | k in Taken(Flocks(c.job), c.flocks) }

  function Taken(keys: seq<Key>, n: nat): seq<Key> { if n <= |keys| then keys[..n] else keys }

  lemma TakenOneMore(keys: seq<Key>, n: nat)
    requires n < |keys|
    ensures Taken(keys, n + 1) == Taken(keys, n) + [keys[n]]
  {}

  predicate Staged(c: Caller) {
    && c.sems <= |Semaphores(c.job)| && c.flocks <= |Flocks(c.job)|
    && NoDup(Taken(Flocks(c.job), c.flocks))
    && (c.job.Backup? ==> NoDup(c.job.meta.repos))
    && (c.job.Restore? ==> !c.groupSem && c.stage != Waiting)
    && (c.sems > 0 ==> c.groupSem)
    && (c.flocks > 0 ==> c.sems == |Semaphores(c.job)| && (c.job.Backup? ==> c.groupSem))
    && match c.stage
       case Starting => !c.groupSem && c.sems == 0 && c.flocks == 0
       case Waiting => c.groupSem && c.flocks == 0
       case Locking => c.sems == |Semaphores(c.job)| && (c.job.Backup? ==> c.groupSem)
       case Running => c.sems == |Semaphores(c.job)| && c.flocks == |Flocks(c.job)| && (c.job.Backup? ==> c.groupSem)
       case Unwinding => true
       case Over => !c.groupSem && c.sems == 0 && c.flocks == 0
  }

  /** A table names, for every key that somebody holds and for no other, its one holder. */
  ghost predicate Agrees<K(!new)>(held: map<nat, set<K>>, table: map<K, nat>) {
    && (forall k | k in table :: table[k] in held && k in held[table[k]])
    && (forall id, k | id in held && k in held[id] :: k in table && table[k] == id)
  }

  lemma AgreesTaking<K(!new)>(held: map<nat, set<K>>, table: map<K, nat>, id: nat, k: K)
    requires Agrees(held, table) && id in held && k !in table
    ensures Agrees(held[id := held[id] + {k}], table[k := id])
  {}

  lemma AgreesReleasing<K(!new)>(held: map<nat, set<K>>, table: map<K, nat>, id: nat, k: K)
    requires Agrees(held, table) && id in held && k in held[id]
    ensures Agrees(held[id := held[id] - {k}], table - {k})
  {
    var held', table' := held[id := held[id] - {k}], table - {k};
    forall x, y | x in held' && y in held'[x] ensures y in table' && table'[y] == x {
      assert y in held[x];
      assert y in table && table[y] == x;
    }
  }

  lemma AgreesAdding<K(!new)>(held: map<nat, set<K>>, table: map<K, nat>, id: nat)
    requires Agrees(held, table) && id !in held
    ensures Agrees(held[id := {}], table)
  {}

  /** Dropping some holders and exactly the keys they hold. */
  lemma AgreesDropping<K(!new)>(held: map<nat, set<K>>, table: map<K, nat>, gone: set<nat>, table': map<K, nat>)
    requires Agrees(held, table)
    requires forall k | k in table' :: k in table && table'[k] == table[k] && table[k] !in gone
    requires forall k | k in table && table[k] !in gone :: k in table'
    ensures Agrees(held - gone, table')
  {}

  ghost function SemHoldings(s: System): map<nat, set<(nat, Key)>> {
    map id | id in s.callers :: SemsHeld(s.callers[id])
  }

  ghost function FlockHoldings(s: System): map<nat, set<Key>> { map id | id in s.callers :: FlocksHeld(s.callers[id]) }

  /** The lock tables hold exactly what the callers have taken and not yet released. */
  ghost predicate Consistent(s: System) {
    && (forall id | id in s.callers :: Staged(s.callers[id]))
    && Agrees(SemHoldings(s), s.sems)
    && Agrees(FlockHoldings(s), s.flocks)
  }

  lemma StepKeeps(s: System, s': System)
    requires Consistent(s) && Next(s, s')
    ensures Consistent(s')
  {
    hide Consistent, Call, Crash, Cancel, Begin, Wait, Lock, Finish, Unwind;
    var x: nat :| Call(s, x, s') || Advance(s, x, s') || Cancel(s, x, s') || Crash(s, x, s');
    if Call(s, x, s') { CallKeeps(s, x, s'); }
    else if Crash(s, x, s') { CrashKeeps(s, x, s'); }
    else if Cancel(s, x, s') { CancelKeeps(s, x, s'); }
    else if Begin(s, x, s') { BeginKeeps(s, x, s'); }
    else if Wait(s, x, s') { WaitKeeps(s, x, s'); }
    else if Lock(s, x, s') { LockKeeps(s, x, s'); }
    else if Finish(s, x, s') { FinishKeeps(s, x, s'); }
    else { UnwindKeeps(s, x, s'); }
  }

  lemma Build(s: System)
    requires forall id | id in s.callers :: Staged(s.callers[id])
    requires Agrees(SemHoldings(s), s.sems) && Agrees(FlockHoldings(s), s.flocks)
    ensures Consistent(s)
  {}

  lemma TablesAgree(s: System)
    requires Consistent(s)
    ensures Agrees(SemHoldings(s), s.sems) && Agrees(FlockHoldings(s), s.flocks)
  {
    hide Staged, SemsHeld, FlocksHeld;
  }

  lemma StagedOf(s: System, id: nat)
    requires Consistent(s) && id in s.callers
    ensures Staged(s.callers[id])
  {
    hide Staged;
  }

  lemma HeldIsTabled(s: System, id: nat)
    requires Consistent(s) && id in s.callers
    ensures forall k | k in SemsHeld(s.callers[id]) :: k in s.sems && s.sems[k] == id
    ensures forall k | k in FlocksHeld(s.callers[id]) :: k in s.flocks && s.flocks[k] == id
  {
    hide Staged, SemsHeld, FlocksHeld;
    assert id in SemHoldings(s) && id in FlockHoldings(s);
  }

  lemma TabledIsHeld(s: System)
    requires Consistent(s)
    ensures forall k | k in s.sems :: s.sems[k] in s.callers && k in SemsHeld(s.callers[s.sems[k]])
    ensures forall k | k in s.flocks :: s.flocks[k] in s.callers && k in FlocksHeld(s.callers[s.flocks[k]])
  {
    hide Staged, SemsHeld, FlocksHeld;
  }

  lemma CallKeeps(s: System, id: nat, s': System)
    requires Consistent(s) && Call(s, id, s')
    ensures Consistent(s')
  {
    hide Staged, SemsHeld, FlocksHeld, Agrees, NoDup;
    FreshCaller(s'.callers[id]);
    HoldingsUpdated(s, id, s');
    AgreesAdding(SemHoldings(s), s.sems, id);
    AgreesAdding(FlockHoldings(s), s.flocks, id);
    Build(s');
  }

  lemma HoldingsUpdated(s: System, id: nat, s': System)
    requires id in s'.callers && s'.callers == s.callers[id := s'.callers[id]]
    ensures SemHoldings(s') == SemHoldings(s)[id := SemsHeld(s'.callers[id])]
    ensures FlockHoldings(s') == FlockHoldings(s)[id := FlocksHeld(s'.callers[id])]
  {
    hide SemsHeld, FlocksHeld;
  }

  lemma FreshCaller(c: Caller)
    requires c == Caller(c.proc, c.job, Starting, false, 0, 0) && (c.job.Backup? ==> NoDup(c.job.meta.repos))
    ensures Staged(c) && SemsHeld(c) == {} && FlocksHeld(c) == {}
  {
    hide Semaphores, Flocks;
  }

  lemma CrashKeeps(s: System, p: nat, s': System)
    requires Consistent(s) && Crash(s, p, s')
    ensures Consistent(s')
  {
    TablesAgree(s);
    SurvivorsHoldings(s, p, s');
    forall id | id in s'.callers ensures Staged(s'.callers[id]) { StagedOf(s, id); }
    hide Staged, SemsHeld, FlocksHeld, Agrees, SemHoldings, FlockHoldings;
    var gone := set id | id in s.callers && s.callers[id].proc == p;
    CrashDrops(s, p, s', gone);
    AgreesDropping(SemHoldings(s), s.sems, gone, s'.sems);
    AgreesDropping(FlockHoldings(s), s.flocks, gone, s'.flocks);
    hide Consistent;
    Build(s');
  }

  lemma SurvivorsHoldings(s: System, p: nat, s': System)
    requires Crash(s, p, s')
    ensures var gone := set id | id in s.callers && s.callers[id].proc == p;
            SemHoldings(s') == SemHoldings(s) - gone && FlockHoldings(s') == FlockHoldings(s) - gone
  {
    hide SemsHeld, FlocksHeld;
  }

  lemma CrashDrops(s: System, p: nat, s': System, gone: set<nat>)
    requires Consistent(s) && Crash(s, p, s') && gone == set id | id in s.callers && s.callers[id].proc == p
    ensures forall k | k in s'.sems :: k in s.sems && s'.sems[k] == s.sems[k] && s.sems[k] !in gone
    ensures forall k | k in s.sems && s.sems[k] !in gone :: k in s'.sems
    ensures forall k | k in s'.flocks :: k in s.flocks && s'.flocks[k] == s.flocks[k] && s.flocks[k] !in gone
    ensures forall k | k in s.flocks && s.flocks[k] !in gone :: k in s'.flocks
  {
    TabledIsHeld(s);
    SemsAreOwnProcess(s);
    hide Consistent, SemsHeld, FlocksHeld;
  }

  lemma SemsAreOwnProcess(s: System)
    ensures forall id, k | id in s.callers && k in SemsHeld(s.callers[id]) :: k.0 == s.callers[id].proc
  {
    hide Semaphores;
  }

  /** A step that moves a caller without taking or releasing anything. */
  lemma Moved(s: System, id: nat, c': Caller)
    requires Consistent(s) && id in s.callers && Staged(c')
    requires SemsHeld(c') == SemsHeld(s.callers[id]) && FlocksHeld(c') == FlocksHeld(s.callers[id])
    ensures Consistent(s.(callers := s.callers[id := c']))
  {
    hide Staged, SemsHeld, FlocksHeld;
    var s' := s.(callers := s.callers[id := c']);
    assert SemHoldings(s') == SemHoldings(s) && FlockHoldings(s') == FlockHoldings(s);
  }

  lemma CancelKeeps(s: System, id: nat, s': System)
    requires Consistent(s) && Cancel(s, id, s')
    ensures Consistent(s')
  {
    hide Semaphores, Flocks;
    Moved(s, id, s'.callers[id]);
  }

  lemma FinishKeeps(s: System, id: nat, s': System)
    requires Consistent(s) && Finish(s, id, s')
    ensures Consistent(s')
  {
    hide Semaphores, Flocks;
    Moved(s, id, s'.callers[id]);
  }

  lemma SemTaken(s: System, id: nat, c': Caller, k: (nat, Key))
    requires Consistent(s) && id in s.callers && Staged(c') && k !in s.sems
    requires SemsHeld(c') == SemsHeld(s.callers[id]) + {k} && FlocksHeld(c') == FlocksHeld(s.callers[id])
    ensures Consistent(s.(callers := s.callers[id := c'], sems := s.sems[k := id]))
  {
    hide Staged, SemsHeld, FlocksHeld;
    var s' := s.(callers := s.callers[id := c'], sems := s.sems[k := id]);
    assert SemHoldings(s') == SemHoldings(s)[id := SemHoldings(s)[id] + {k}] && FlockHoldings(s') == FlockHoldings(s);
    AgreesTaking(SemHoldings(s), s.sems, id, k);
    hide Agrees;
  }

  lemma SemReleased(s: System, id: nat, c': Caller, k: (nat, Key))
    requires Consistent(s) && id in s.callers && Staged(c') && k in SemsHeld(s.callers[id])
    requires SemsHeld(c') == SemsHeld(s.callers[id]) - {k} && FlocksHeld(c') == FlocksHeld(s.callers[id])
    ensures Consistent(s.(callers := s.callers[id := c'], sems := s.sems - {k}))
  {
    hide Staged, SemsHeld, FlocksHeld;
    var s' := s.(callers := s.callers[id := c'], sems := s.sems - {k});
    assert SemHoldings(s') == SemHoldings(s)[id := SemHoldings(s)[id] - {k}] && FlockHoldings(s') == FlockHoldings(s);
    AgreesReleasing(SemHoldings(s), s.sems, id, k);
    hide Agrees;
  }

  lemma FlockTaken(s: System, id: nat, c': Caller, k: Key)
    requires Consistent(s) && id in s.callers && Staged(c') && k !in s.flocks
    requires FlocksHeld(c') == FlocksHeld(s.callers[id]) + {k} && SemsHeld(c') == SemsHeld(s.callers[id])
    ensures Consistent(s.(callers := s.callers[id := c'], flocks := s.flocks[k := id]))
  {
    hide Staged, SemsHeld, FlocksHeld;
    var s' := s.(callers := s.callers[id := c'], flocks := s.flocks[k := id]);
    assert FlockHoldings(s') == FlockHoldings(s)[id := FlockHoldings(s)[id] + {k}] && SemHoldings(s') == SemHoldings(s);
    AgreesTaking(FlockHoldings(s), s.flocks, id, k);
    hide Agrees;
  }

  lemma FlockReleased(s: System, id: nat, c': Caller, k: Key)
    requires Consistent(s) && id in s.callers && Staged(c') && k in FlocksHeld(s.callers[id])
    requires FlocksHeld(c') == FlocksHeld(s.callers[id]) - {k} && SemsHeld(c') == SemsHeld(s.callers[id])
    ensures Consistent(s.(callers := s.callers[id := c'], flocks := s.flocks - {k}))
  {
    hide Staged, SemsHeld, FlocksHeld;
    var s' := s.(callers := s.callers[id := c'], flocks := s.flocks - {k});
    assert FlockHoldings(s') == FlockHoldings(s)[id := FlockHoldings(s)[id] - {k}] && SemHoldings(s') == SemHoldings(s);
    AgreesReleasing(FlockHoldings(s), s.flocks, id, k);
    hide Agrees;
  }

  lemma BeginKeeps(s: System, id: nat, s': System)
    requires Consistent(s) && Begin(s, id, s')
    ensures Consistent(s')
  {
    hide SemaphoreKeys, Agrees;
    var c, c' := s.callers[id], s'.callers[id];
    if c.job.Backup? && c'.stage == Waiting {
      SemTaken(s, id, c', (c.proc, GroupKey(c.job.meta.group)));
    } else {
      Moved(s, id, c');
    }
  }

  lemma WaitKeeps(s: System, id: nat, s': System)
    requires Consistent(s) && Wait(s, id, s')
    ensures Consistent(s')
  {
    hide Semaphores, Flocks, Agrees;
    var c, c', keys := s.callers[id], s'.callers[id], Semaphores(s.callers[id].job);
    if c.sems < |keys| {
      TakenOneMore(keys, c.sems);
      SemTaken(s, id, c', (c.proc, keys[c.sems]));
    } else {
      Moved(s, id, c');
    }
  }

  lemma LockKeeps(s: System, id: nat, s': System)
    requires Consistent(s) && Lock(s, id, s')
    ensures Consistent(s')
  {
    StagedOf(s, id);
    HeldIsTabled(s, id);
    hide Semaphores, Flocks, Consistent, SemsHeld, FlocksHeld, Staged;
    var c, c', keys := s.callers[id], s'.callers[id], Flocks(s.callers[id].job);
    SameHoldings(c, c');
    LeavingLocking(c, c');
    if c.flocks < |keys| && c'.stage == Locking {
      OneMoreFlock(c, c');
      FlockTaken(s, id, c', keys[c.flocks]);
    } else {
      Moved(s, id, c');
    }
  }

  lemma LeavingLocking(c: Caller, c': Caller)
    requires Staged(c) && c.stage == Locking
    ensures c' == c.(stage := Unwinding) ==> Staged(c')
    ensures c.flocks >= |Flocks(c.job)| && c' == c.(stage := Running) ==> Staged(c')
  {
    hide Semaphores, Flocks;
  }

  lemma SameHoldings(c: Caller, c': Caller)
    requires c'.proc == c.proc && c'.job == c.job && c'.groupSem == c.groupSem && c'.sems == c.sems
    ensures SemsHeld(c') == SemsHeld(c) && (c'.flocks == c.flocks ==> FlocksHeld(c') == FlocksHeld(c))
  {
    hide Semaphores, Flocks;
  }

  lemma OneMoreFlock(c: Caller, c': Caller)
    requires Staged(c) && c.stage == Locking && c.flocks < |Flocks(c.job)| && c' == c.(flocks := c.flocks + 1)
    requires Flocks(c.job)[c.flocks] !in FlocksHeld(c)
    ensures Staged(c') && FlocksHeld(c') == FlocksHeld(c) + {Flocks(c.job)[c.flocks]}
  {
    hide Semaphores, Flocks;
    TakenOneMore(Flocks(c.job), c.flocks);
  }

  lemma UnwindKeeps(s: System, id: nat, s': System)
    requires Consistent(s) && Unwind(s, id, s')
    ensures Consistent(s')
  {
    StagedOf(s, id);
    hide Semaphores, Flocks, Consistent, SemsHeld, FlocksHeld, NoDup;
    var c, c' := s.callers[id], s'.callers[id];
    var sems, flocks := Semaphores(c.job), Flocks(c.job);
    ReleasingKeepsStage(c, c');
    if c.flocks > 0 {
      LastFlock(c, c');
      FlockReleased(s, id, c', flocks[c.flocks - 1]);
    } else if c.sems > 0 {
      LastSem(c, c');
      SemReleased(s, id, c', (c.proc, sems[c.sems - 1]));
    } else if c.groupSem {
      GroupSemLast(c, c');
      SemReleased(s, id, c', (c.proc, GroupKey(c.job.meta.group)));
    } else {
      Nothing(c, c');
      Moved(s, id, c');
    }
  }

  lemma ReleasingKeepsStage(c: Caller, c': Caller)
    requires Staged(c) && c.stage == Unwinding
    requires c' == if c.flocks > 0 then c.(flocks := c.flocks - 1) else if c.sems > 0 then c.(sems := c.sems - 1)
                   else if c.groupSem then c.(groupSem := false) else c.(stage := Over)
    ensures Staged(c')
  {
    hide Semaphores, Flocks;
    var keys := Flocks(c.job);
    if c.flocks > 0 { TakenOneMore(keys, c.flocks - 1); }
  }

  lemma LastFlock(c: Caller, c': Caller)
    requires Staged(c) && c.flocks > 0 && c' == c.(flocks := c.flocks - 1)
    ensures Flocks(c.job)[c.flocks - 1] in FlocksHeld(c)
    ensures FlocksHeld(c') == FlocksHeld(c) - {Flocks(c.job)[c.flocks - 1]} && SemsHeld(c') == SemsHeld(c)
  {
    hide Semaphores, Flocks;
    TakenOneMore(Flocks(c.job), c.flocks - 1);
  }

  lemma LastSem(c: Caller, c': Caller)
    requires Staged(c) && c.sems > 0 && c' == c.(sems := c.sems - 1)
    ensures (c.proc, Semaphores(c.job)[c.sems - 1]) in SemsHeld(c)
    ensures SemsHeld(c') == SemsHeld(c) - {(c.proc, Semaphores(c.job)[c.sems - 1])} && FlocksHeld(c') == FlocksHeld(c)
  {
    hide Semaphores, Flocks, Ascending, NoDup, Taken, Paired, Staged;
    StagedSems(c);
    SemaphoresDistinct(c.job);
    var keys := Semaphores(c.job);
    var k := keys[c.sems - 1];
    NotTakenYet(keys, c.sems - 1);
    TakenOneMore(keys, c.sems - 1);
    PairedOneMore(c.proc, Taken(keys, c.sems - 1), k);
    assert !k.GroupKey?;
  }

  lemma StagedSems(c: Caller)
    requires Staged(c)
    ensures c.sems <= |Semaphores(c.job)| && (c.job.Backup? ==> NoDup(c.job.meta.repos))
  {
    hide Semaphores, NoDup;
  }

  lemma NotTakenYet(keys: seq<Key>, n: nat)
    requires NoDup(keys) && n < |keys|
    ensures keys[n] in keys && keys[n] !in Taken(keys, n)
  {}

  lemma PairedOneMore(p: nat, keys: seq<Key>, last: Key)
    ensures Paired(p, keys + [last]) == Paired(p, keys) + {(p, last)}
    ensures last !in keys ==> (p, last) !in Paired(p, keys)
  {
    assert last in keys + [last];
  }

  lemma GroupSemLast(c: Caller, c': Caller)
    requires Staged(c) && c.sems == 0 && c.groupSem && c' == c.(groupSem := false)
    ensures (c.proc, GroupKey(c.job.meta.group)) in SemsHeld(c)
    ensures SemsHeld(c') == SemsHeld(c) - {(c.proc, GroupKey(c.job.meta.group))} && FlocksHeld(c') == FlocksHeld(c)
  {
    hide Semaphores, Flocks;
  }

  lemma Nothing(c: Caller, c': Caller)
    requires c' == c.(stage := Over)
    ensures SemsHeld(c') == SemsHeld(c) && FlocksHeld(c') == FlocksHeld(c)
  {
    hide Semaphores, Flocks;
  }

  lemma SemaphoresDistinct(j: Job)
    requires j.Backup? ==> NoDup(j.meta.repos)
    ensures NoDup(Semaphores(j)) && Ascending(Semaphores(j))
    ensures forall g :: GroupKey(g) !in Semaphores(j)
  {
    if j.Backup? {
      SemaphoreKeysAscend(j.meta);
      SemaphoreKeysCover(j.meta);
      hide SemaphoreKeys;
      var keys := SemaphoreKeys(j.meta);
      forall a, b | 0 <= a < b < |keys| ensures keys[a] != keys[b] { KeyLessIrreflexive(keys[a]); }
    }
  }

  /** In every state of every execution the tables hold exactly what was taken, so a caller
      that has returned, by whatever path, holds nothing, and no release ever fails. */
  lemma {:induction false} AlwaysConsistent(run: seq<System>, n: nat)
    requires Execution(run) && n < |run|
    ensures Consistent(run[n])
  {
    if n > 0 {
      AlwaysConsistent(run, n - 1);
      assert Next(run[n - 1], run[n]);
      StepKeeps(run[n - 1], run[n]);
    }
  }

  lemma ReturnedHoldsNothing(run: seq<System>, n: nat, id: nat)
    requires Execution(run) && n < |run| && id in run[n].callers && run[n].callers[id].stage == Over
    ensures id !in run[n].sems.Values && id !in run[n].flocks.Values
  {
    AlwaysConsistent(run, n);
    hide Semaphores, Flocks;
    assert SemHoldings(run[n])[id] == {} && FlockHoldings(run[n])[id] == {};
  }

  // ---- Mutual exclusion ------------------------------------------------------------------------

  ghost predicate Excluded(a: Job, b: Job) {
    match (a, b)
    case (Backup(m), Backup(n)) =>
      m.group == n.group || (m.snapshotHooks && n.snapshotHooks) || (exists r :: r in m.repos && r in n.repos)
    case (Backup(m), Restore(keys)) => GroupKey(m.group) in keys || (exists r :: r in m.repos && RepoKey(r) in keys)
    case (Restore(keys), Backup(n)) => GroupKey(n.group) in keys || (exists r :: r in n.repos && RepoKey(r) in keys)
    case (Restore(j), Restore(k)) => exists x :: x in j && x in k
  }

  lemma ExcludedShareAKey(a: Job, b: Job)
    requires Excluded(a, b)
    ensures exists k :: k in Flocks(a) && k in Flocks(b)
  {
    if a.Backup? { SemaphoreKeysCover(a.meta); }
    if b.Backup? { SemaphoreKeysCover(b.meta); }
    hide SemaphoreKeys;
    if a.Backup? && b.Backup? {
      if a.meta.group == b.meta.group {
        assert GroupKey(a.meta.group) in Flocks(a) && GroupKey(a.meta.group) in Flocks(b);
      } else if a.meta.snapshotHooks && b.meta.snapshotHooks {
        assert SnapshotKey in Flocks(a) && SnapshotKey in Flocks(b);
      } else {
        var r :| r in a.meta.repos && r in b.meta.repos;
        assert RepoKey(r) in Flocks(a) && RepoKey(r) in Flocks(b);
      }
    } else if a.Restore? && b.Restore? {
      var x :| x in a.keys && x in b.keys;
      assert x in Flocks(a) && x in Flocks(b);
    } else {
      var m, keys := if a.Backup? then a.meta else b.meta, if a.Backup? then b.keys else a.keys;
      if GroupKey(m.group) in keys {
        assert GroupKey(m.group) in Flocks(a) && GroupKey(m.group) in Flocks(b);
      } else {
        var r :| r in m.repos && RepoKey(r) in keys;
        assert RepoKey(r) in Flocks(a) && RepoKey(r) in Flocks(b);
      }
    }
  }

  lemma RunningHolds(s: System, id: nat, k: Key)
    requires Consistent(s) && id in s.callers && s.callers[id].stage == Running && k in Flocks(s.callers[id].job)
    ensures k in s.flocks && s.flocks[k] == id
  {
    hide Flocks, Semaphores, Consistent, SemsHeld;
    StagedOf(s, id);
    HeldIsTabled(s, id);
    assert k in FlocksHeld(s.callers[id]);
  }

  /** No two running jobs share a group, a repository or, as backups, the snapshot hooks. */
  lemma RunningJobsExclude(run: seq<System>, n: nat, a: nat, b: nat)
    requires Execution(run) && n < |run|
    requires a in run[n].callers && b in run[n].callers && a != b
    requires run[n].callers[a].stage == Running && run[n].callers[b].stage == Running
    ensures !Excluded(run[n].callers[a].job, run[n].callers[b].job)
  {
    AlwaysConsistent(run, n);
    var s := run[n];
    if Excluded(s.callers[a].job, s.callers[b].job) {
      ExcludedShareAKey(s.callers[a].job, s.callers[b].job);
      hide Flocks, Semaphores, Excluded, Consistent, SemsHeld, FlocksHeld;
      var k :| k in Flocks(s.callers[a].job) && k in Flocks(s.callers[b].job);
      RunningHolds(s, a, k);
      RunningHolds(s, b, k);
    }
  }

  /** While a restore runs with the keys it computed, no backup of its source group, of any
      group that backs up its target volume, or into any of their repositories does. */
  lemma RestoreKeepsBackupsOut(run: seq<System>, n: nat, r: nat, b: nat,
                               members: map<string, set<string>>, meta: map<string, Meta>, source: string,
                               volume: string)
    requires Execution(run) && n < |run| && r in run[n].callers && b in run[n].callers
    requires run[n].callers[r].stage == Running && run[n].callers[r].job.Restore?
    requires forall k :: k in run[n].callers[r].job.keys <==> RestoreNeeds(members, meta, source, volume, k)
    requires run[n].callers[b].stage == Running && run[n].callers[b].job.Backup?
    ensures var m := run[n].callers[b].job.meta;
            && m.group != source && (m.group in members ==> volume !in members[m.group])
            && forall g | g in meta && (g == source || (g in members && volume in members[g])) ::
                 forall x | x in meta[g].repos :: x !in m.repos
  {
    RunningJobsExclude(run, n, b, r);
    var m, keys := run[n].callers[b].job.meta, run[n].callers[r].job.keys;
    assert GroupKey(m.group) !in keys;
    forall g, x | g in meta && Involved(members, source, volume, g) && x in meta[g].repos
      ensures x !in m.repos
    {
      assert RestoreNeeds(members, meta, source, volume, RepoKey(x));
    }
  }

  // ---- No deadlock --------------------------------------------------------------------------------

  /** Caller a cannot move until caller b releases a semaphore. */
  ghost predicate WaitsFor(s: System, a: nat, b: nat) {
    && Blocked(s, a) && b in s.callers
    && s.sems[(s.callers[a].proc, WaitKey(s, a))] == b
  }

  ghost predicate Blocked(s: System, a: nat) {
    && a in s.callers && s.callers[a].stage == Waiting && s.callers[a].sems < |Semaphores(s.callers[a].job)|
    && (s.callers[a].proc, WaitKey(s, a)) in s.sems
  }

  ghost function WaitKey(s: System, a: nat): Key
    requires a in s.callers && s.callers[a].sems < |Semaphores(s.callers[a].job)|
  {
    Semaphores(s.callers[a].job)[s.callers[a].sems]
  }

  /** Along a chain of waits the key waited for only grows. */
  lemma WaitsGrow(s: System, a: nat, b: nat)
    requires Consistent(s) && WaitsFor(s, a, b) && Blocked(s, b)
    ensures KeyLess(WaitKey(s, a), WaitKey(s, b))
  {
    var ja, jb := s.callers[a].job, s.callers[b].job;
    StagedOf(s, a);
    StagedOf(s, b);
    TabledIsHeld(s);
    hide Semaphores, KeyLess, Flocks, SemsHeld, FlocksHeld, Consistent, NoDup, Ascending;
    SemaphoresDistinct(jb);
    SemaphoresDistinct(ja);
    var k := WaitKey(s, a);
    assert k in Semaphores(ja);
    EarlierThanWaited(s.callers[b], (s.callers[a].proc, k));
  }

  /** The non-group semaphores a waiting caller holds come before the one it waits for. */
  lemma EarlierThanWaited(c: Caller, k: (nat, Key))
    requires Staged(c) && c.sems < |Semaphores(c.job)| && k in SemsHeld(c) && !k.1.GroupKey?
    ensures KeyLess(k.1, Semaphores(c.job)[c.sems])
  {
    SemaphoresDistinct(c.job);
    hide Semaphores, KeyLess, Flocks, NoDup;
    assert k.1 in Taken(Semaphores(c.job), c.sems);
  }

  /** a waits for a caller that waits for ... that waits for b. */
  ghost predicate WaitChain(s: System, chain: seq<nat>) {
    |chain| >= 2 && forall i :: 0 <= i < |chain| - 1 ==> WaitsFor(s, chain[i], chain[i + 1])
  }

  lemma {:induction false} ChainGrows(s: System, chain: seq<nat>)
    requires Consistent(s) && WaitChain(s, chain) && Blocked(s, chain[|chain| - 1])
    ensures Blocked(s, chain[0]) && KeyLess(WaitKey(s, chain[0]), WaitKey(s, chain[|chain| - 1]))
  {
    hide KeyLess;
    assert WaitsFor(s, chain[0], chain[0 + 1]);
    if |chain| == 2 {
      WaitsGrow(s, chain[0], chain[1]);
    } else {
      var rest := chain[1..];
      forall i | 0 <= i < |rest| - 1 ensures WaitsFor(s, rest[i], rest[i + 1]) {
        assert WaitsFor(s, chain[i + 1], chain[i + 1 + 1]);
      }
      ChainGrows(s, rest);
      WaitsGrow(s, chain[0], chain[1]);
      KeyLessTransitive(WaitKey(s, chain[0]), WaitKey(s, chain[1]), WaitKey(s, chain[|chain| - 1]));
    }
  }

  /** No circle of callers waiting for one another, of any length, in any execution. */
  lemma NoCyclicWait(run: seq<System>, n: nat, chain: seq<nat>)
    requires Execution(run) && n < |run| && WaitChain(run[n], chain)
    ensures chain[0] != chain[|chain| - 1]
  {
    AlwaysConsistent(run, n);
    if chain[0] == chain[|chain| - 1] {
      assert WaitsFor(run[n], chain[0], chain[0 + 1]);
      ChainGrows(run[n], chain);
      KeyLessIrreflexive(WaitKey(run[n], chain[0]));
    }
  }

  /** Every wait is in the end for somebody who can move. */
  lemma {:induction false} SomebodyCanMove(s: System, a: nat, blocked: set<nat>)
    requires Consistent(s) && Blocked(s, a)
    requires forall x | x in s.callers && Blocked(s, x) && KeyLess(WaitKey(s, a), WaitKey(s, x)) :: x in blocked
    ensures exists b :: b in s.callers && b in s.sems.Values && !Blocked(s, b)
    decreases blocked
  {
    hide KeyLess, Consistent, Semaphores, SemsHeld, FlocksHeld;
    TabledIsHeld(s);
    var k := (s.callers[a].proc, WaitKey(s, a));
    var b := s.sems[k];
    assert b in s.sems.Values && b in s.callers;
    if Blocked(s, b) {
      WaitsGrow(s, a, b);
      KeyLessIrreflexive(WaitKey(s, b));
      forall x | x in s.callers && Blocked(s, x) && KeyLess(WaitKey(s, b), WaitKey(s, x))
        ensures x in blocked - {b}
      {
        KeyLessTransitive(WaitKey(s, a), WaitKey(s, b), WaitKey(s, x));
      }
      assert b in blocked;
      SomebodyCanMove(s, b, blocked - {b});
    }
  }

  /** Nobody stands still: whenever a caller is blocked, the holder of some semaphore is not
      and has a step to take, without anything being cancelled or dying. */
  lemma NeverStuck(run: seq<System>, n: nat, a: nat)
    requires Execution(run) && n < |run| && Blocked(run[n], a)
    ensures exists b, s' :: b in run[n].sems.Values && !Blocked(run[n], b) && Advance(run[n], b, s')
  {
    AlwaysConsistent(run, n);
    var s := run[n];
    SomebodyCanMove(s, a, s.callers.Keys);
    var b :| b in s.callers && b in s.sems.Values && !Blocked(s, b);
    var k :| k in s.sems && s.sems[k] == b;
    NotOver(s, b, k);
    CanMove(s, b);
    hide Consistent;
  }

  lemma NotOver(s: System, b: nat, k: (nat, Key))
    requires Consistent(s) && b in s.callers && k in s.sems && s.sems[k] == b
    ensures s.callers[b].stage != Over
  {
    StagedOf(s, b);
    TabledIsHeld(s);
    hide Semaphores, Flocks, Consistent;
  }

  lemma CanMove(s: System, b: nat)
    requires Consistent(s) && b in s.callers && !Blocked(s, b) && s.callers[b].stage != Over
    ensures exists s' :: Advance(s, b, s')
  {
    hide Semaphores, Flocks;
    var c := s.callers[b];
    match c.stage
    case Starting =>
      var k := (c.proc, GroupKey(if c.job.Backup? then c.job.meta.group else ""));
      MovesTo(s, b, if c.job.Restore? then s.(callers := s.callers[b := c.(stage := Locking)])
                    else if k in s.sems then s.(callers := s.callers[b := c.(stage := Over)])
                    else s.(callers := s.callers[b := c.(stage := Waiting, groupSem := true)], sems := s.sems[k := b]));
    case Waiting =>
      var keys := Semaphores(c.job);
      MovesTo(s, b, if c.sems < |keys|
                    then s.(callers := s.callers[b := c.(sems := c.sems + 1)],
                        sems := s.sems[(c.proc, keys[c.sems]) := b])
                    else s.(callers := s.callers[b := c.(stage := Locking)]));
    case Locking =>
      MovesTo(s, b, if c.flocks < |Flocks(c.job)| then s.(callers := s.callers[b := c.(stage := Unwinding)])
                    else s.(callers := s.callers[b := c.(stage := Running)]));
    case Running =>
      MovesTo(s, b, s.(callers := s.callers[b := c.(stage := Unwinding)]));
    case Unwinding =>
      var keys, sems := Flocks(c.job), Semaphores(c.job);
      MovesTo(s, b,
        if 0 < c.flocks
            then s.(callers := s.callers[b := c.(flocks := c.flocks - 1)], flocks := s.flocks - {keys[c.flocks - 1]})
        else if 0 < c.sems
            then s.(callers := s.callers[b := c.(sems := c.sems - 1)], sems := s.sems - {(c.proc, sems[c.sems - 1])})
        else if c.groupSem && c.job.Backup? then
          s.(callers := s.callers[b := c.(groupSem := false)], sems := s.sems - {(c.proc, GroupKey(c.job.meta.group))})
        else s.(callers := s.callers[b := c.(stage := Over)]));
  }

  lemma MovesTo(s: System, b: nat, s': System)
    requires Advance(s, b, s')
    ensures exists t :: Advance(s, b, t)
  {}
}
