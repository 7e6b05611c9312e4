/**
 What a group contains, remembered across cycles. Discovery only sees containers that are
 there; the cache keeps the members of those that are not, and drops a volume only when its
 path is gone or when every container that claimed it is back and claims it no longer.
 */
module GroupCache {
  import opened Wrappers

  datatype Volume = Volume(name: string, path: string)

  datatype Database = Database(kind: string, container: string, name: string, settings: string)

  function DbKey(db: Database): string { db.kind + "/" + db.container + "/" + db.name }

  datatype LiveGroup = LiveGroup(volumes: seq<Volume>, databases: seq<Database>, labels: seq<string>, period: int)

  /** What one discovery found. The container list may be unknown. */
  datatype Discovery = Discovery(groups: map<string, LiveGroup>, containers: Option<set<string>>,
                                 claims: map<string, map<string, seq<string>>>)

  datatype CachedGroup = CachedGroup(volumes: seq<Volume>, claims: map<string, seq<string>>, databases: seq<Database>,
                                     labels: seq<string>, period: int, lastSeen: int)

  const NOTHING := CachedGroup([], map[], [], [], 0, 0)

  type CacheFile = map<string, CachedGroup>

  // ---- Reading maps that may lack the key -------------------------------------------------------

  function Claimers(claims: map<string, seq<string>>, volume: string): seq<string> {
    if volume in claims then claims[volume] else []
  }

  function LiveClaims(live: Discovery, group: string): map<string, seq<string>> {
    if group in live.claims then live.claims[group] else map[]
  }

  function Cached(f: CacheFile, group: string): CachedGroup { if group in f then f[group] else NOTHING }

  function LiveVolumes(live: Discovery, group: string): seq<Volume> {
    if group in live.groups then live.groups[group].volumes else []
  }

  function LiveDatabases(live: Discovery, group: string): seq<Database> {
    if group in live.groups then live.groups[group].databases else []
  }

  predicate IsPresent(containers: Option<set<string>>, c: string) { containers.Some? && c in containers.value }

  predicate Names(volumes: seq<Volume>, name: string) { exists i :: 0 <= i < |volumes| && volumes[i].name == name }

  predicate HasKey(dbs: seq<Database>, key: string) { exists i :: 0 <= i < |dbs| && DbKey(dbs[i]) == key }

  // ---- Claims ---------------------------------------------------------------------------------

  /** Who claims a volume after a cycle: those that do now, and those recorded that are away. */
  predicate StillClaims(live: seq<string>, cached: seq<string>, containers: Option<set<string>>, c: string) {
    c in live || (c in cached && !IsPresent(containers, c))
  }

  lemma NoElements<T>(s: seq<T>)
    ensures s == [] || exists x :: x in s
  {
    if s != [] { assert s[0] in s; }
  }

  method MergeClaims(live: map<string, seq<string>>, cached: map<string, seq<string>>, containers: Option<set<string>>)
    returns (out: map<string, seq<string>>)
    ensures forall v, c :: c in Claimers(out, v) <==> StillClaims(Claimers(live, v), Claimers(cached, v), containers, c)
  {
    out := map[];
    var todo := cached.Keys;
    while todo != {}
      invariant todo <= cached.Keys
      invariant forall v, c :: c in Claimers(out, v) <==>
                v !in todo && StillClaims([], Claimers(cached, v), containers, c)
      decreases todo
    {
      var vol :| vol in todo;
      todo := todo - {vol};
      var away := [];
      for i := 0 to |cached[vol]|
        invariant forall c :: c in away <==> c in cached[vol][..i] && !IsPresent(containers, c)
      {
        assert cached[vol][..i + 1] == cached[vol][..i] + [cached[vol][i]];
        if !IsPresent(containers, cached[vol][i]) { away := away + [cached[vol][i]]; }
      }
      assert cached[vol][..|cached[vol]|] == cached[vol];
      NoElements(Claimers(out, vol));
      ghost var before := out;
      if away != [] { out := out[vol := away]; }
      assert Claimers(out, vol) == away && forall v | v != vol :: Claimers(out, v) == Claimers(before, v);
    }
    todo := live.Keys;
    while todo != {}
      invariant todo <= live.Keys
      invariant forall v, c :: c in Claimers(out, v) <==>
                  StillClaims(if v in todo then [] else Claimers(live, v), Claimers(cached, v), containers, c)
      decreases todo
    {
      var vol :| vol in todo;
      todo := todo - {vol};
      var now := Claimers(out, vol);
      for i := 0 to |live[vol]|
        invariant forall c :: c in now <==> c in Claimers(out, vol) || c in live[vol][..i]
      {
        assert live[vol][..i + 1] == live[vol][..i] + [live[vol][i]];
        if live[vol][i] !in now { now := now + [live[vol][i]]; }
      }
      assert live[vol][..|live[vol]|] == live[vol];
      ghost var before := out;
      if now != [] { out := out[vol := now]; }
      if now == [] { NoElements(Claimers(before, vol)); }
      assert Claimers(out, vol) == now && forall v | v != vol :: Claimers(out, v) == Claimers(before, v);
    }
  }

  /** Unknown claimers, or an unknown container list, answer no. */
  predicate ClaimersAllPresent(claimers: seq<string>, containers: Option<set<string>>) {
    claimers != [] && containers.Some? && forall c | c in claimers :: c in containers.value
  }

  predicate Deselected(live: seq<string>, recorded: seq<string>, containers: Option<set<string>>) {
    live == [] && ClaimersAllPresent(recorded, containers)
  }

  // ---- Members --------------------------------------------------------------------------------

  /** A cached volume stays although discovery did not find it. */
  predicate Stays(v: Volume, live: Discovery, g: string, cached: CachedGroup, paths: set<string>) {
    && !Names(LiveVolumes(live, g), v.name)
    && v.path in paths
    && !Deselected(Claimers(LiveClaims(live, g), v.name), Claimers(cached.claims, v.name), live.containers)
  }

  method MergeVolumes(live: Discovery, g: string, cached: CachedGroup, paths: set<string>)
    returns (out: seq<Volume>, offline: set<string>)
    ensures forall v :: v in out <==>
            v in LiveVolumes(live, g) || (v in cached.volumes && Stays(v, live, g, cached, paths))
    ensures LiveVolumes(live, g) <= out
    ensures offline == set v | v in cached.volumes && Stays(v, live, g, cached, paths) :: v.name
  {
    out, offline := LiveVolumes(live, g), {};
    var remembered := cached.volumes;
    for i := 0 to |remembered|
      invariant LiveVolumes(live, g) <= out
      invariant forall v :: v in out <==>
                v in LiveVolumes(live, g) || (v in remembered[..i] && Stays(v, live, g, cached, paths))
      invariant offline == set v | v in remembered[..i] && Stays(v, live, g, cached, paths) :: v.name
    {
      assert remembered[..i + 1] == remembered[..i] + [remembered[i]];
      if Stays(remembered[i], live, g, cached, paths) {
        out := out + [remembered[i]];
        offline := offline + {remembered[i].name};
      }
    }
    assert remembered[..|remembered|] == remembered;
  }

  method MergeDatabases(live: seq<Database>, cached: seq<Database>) returns (out: seq<Database>, offline: set<string>)
    ensures forall d :: d in out <==> d in live || (d in cached && !HasKey(live, DbKey(d)))
    ensures live <= out
    ensures offline == set d | d in cached && !HasKey(live, DbKey(d)) :: DbKey(d)
  {
    out, offline := live, {};
    for i := 0 to |cached|
      invariant live <= out
      invariant forall d :: d in out <==> d in live || (d in cached[..i] && !HasKey(live, DbKey(d)))
      invariant offline == set d | d in cached[..i] && !HasKey(live, DbKey(d)) :: DbKey(d)
    {
      assert cached[..i + 1] == cached[..i] + [cached[i]];
      if !HasKey(live, DbKey(cached[i])) {
        out := out + [cached[i]];
        offline := offline + {DbKey(cached[i])};
      }
    }
    assert cached[..|cached|] == cached;
  }

  // ---- One cycle --------------------------------------------------------------------------------

  /** What a cycle makes of one group. */
  ghost predicate GroupReconciled(cached: CachedGroup, live: Discovery, g: string, paths: set<string>, now: int,
                                  after: CachedGroup)
  {
    && (forall v :: v in after.volumes <==>
        v in LiveVolumes(live, g) || (v in cached.volumes && Stays(v, live, g, cached, paths)))
    && (forall d :: d in after.databases <==> (d in LiveDatabases(live, g)
                                               || (d in cached.databases && !HasKey(LiveDatabases(live, g), DbKey(d)))))
    && (forall v, c :: c in Claimers(after.claims, v) <==>
          !(Names(cached.volumes, v) && !Names(after.volumes, v))
          && StillClaims(Claimers(LiveClaims(live, g), v), Claimers(cached.claims, v), live.containers, c))
    && (if g in live.groups
        then after.labels == live.groups[g].labels && after.period == live.groups[g].period && after.lastSeen == now
        else after.labels == cached.labels && after.period == cached.period && after.lastSeen == cached.lastSeen)
  }

  /** Nothing found and nothing of what is remembered stays. */
  ghost predicate Emptied(cached: CachedGroup, live: Discovery, g: string, paths: set<string>) {
    && LiveVolumes(live, g) == [] && LiveDatabases(live, g) == [] && cached.databases == []
    && forall v | v in cached.volumes :: !Stays(v, live, g, cached, paths)
  }

  ghost predicate Reconciled(f: CacheFile, live: Discovery, paths: set<string>, now: int, f': CacheFile) {
    && f'.Keys <= f.Keys + live.groups.Keys
    && forall g | g in f.Keys + live.groups.Keys :: Settled(f, live, paths, now, f', g)
  }

  ghost predicate Settled(f: CacheFile, live: Discovery, paths: set<string>, now: int, f': CacheFile, g: string) {
    if g in f'
    then (f'[g].volumes != [] || f'[g].databases != []) && GroupReconciled(Cached(f, g), live, g, paths, now, f'[g])
    else Emptied(Cached(f, g), live, g, paths)
  }

  datatype Offline = Offline(volumes: map<string, set<string>>, databases: map<string, set<string>>)

  function OfflineVolumes(off: Offline, g: string): set<string> { if g in off.volumes then off.volumes[g] else {} }

  function OfflineDatabases(off: Offline, g: string): set<string> {
    if g in off.databases then off.databases[g] else {}
  }

  /** The members of a group that are only remembered. */
  ghost predicate MarksOffline(live: Discovery, f': CacheFile, off: Offline, g: string) {
    && (forall v :: v in OfflineVolumes(off, g) <==>
        g in f' && Names(f'[g].volumes, v) && !Names(LiveVolumes(live, g), v))
    && (forall d :: d in OfflineDatabases(off, g) <==>
        g in f' && HasKey(f'[g].databases, d) && !HasKey(LiveDatabases(live, g), d))
  }

  method ReconcileGroup(cached: CachedGroup, live: Discovery, g: string, paths: set<string>, now: int)
    returns (after: CachedGroup, offVolumes: set<string>, offDatabases: set<string>)
    ensures GroupReconciled(cached, live, g, paths, now, after)
    ensures forall v :: v in offVolumes <==> Names(after.volumes, v) && !Names(LiveVolumes(live, g), v)
    ensures forall d :: d in offDatabases <==> HasKey(after.databases, d) && !HasKey(LiveDatabases(live, g), d)
    ensures after.volumes == [] && after.databases == [] ==> Emptied(cached, live, g, paths)
    ensures after.volumes == [] ==> offVolumes == {}
    ensures after.databases == [] ==> offDatabases == {}
  {
    hide StillClaims, Deselected, DbKey;
    var claims := MergeClaims(LiveClaims(live, g), cached.claims, live.containers);
    var vols, offVols := MergeVolumes(live, g, cached, paths);
    var kept := ForgetClaims(claims, cached.volumes, vols);
    var dbs, offDBs := MergeDatabases(LiveDatabases(live, g), cached.databases);
    var labels, period, lastSeen := cached.labels, cached.period, cached.lastSeen;
    if g in live.groups { labels, period, lastSeen := live.groups[g].labels, live.groups[g].period, now; }
    after, offVolumes, offDatabases := CachedGroup(vols, kept, dbs, labels, period, lastSeen), offVols, offDBs;
    OfflineVolumesAreTheRest(live, g, cached, paths, vols, offVols);
    OfflineDatabasesAreTheRest(LiveDatabases(live, g), cached.databases, dbs, offDBs);
    assert vols == [] ==> forall v | v in cached.volumes :: Stays(v, live, g, cached, paths) ==> v in vols;
    if dbs == [] { NoElements(cached.databases); }
  }

  /** The claims of volumes that left the group go with them. */
  method ForgetClaims(claims: map<string, seq<string>>, before: seq<Volume>, after: seq<Volume>)
    returns (kept: map<string, seq<string>>)
    ensures forall v :: Claimers(kept, v) == if Names(before, v) && !Names(after, v) then [] else Claimers(claims, v)
  {
    kept := claims;
    for i := 0 to |before|
      invariant forall v :: Claimers(kept, v) == if Names(before[..i], v) && !Names(after, v) then []
                else Claimers(claims, v)
    {
      OneMoreName(before, i);
      if !Names(after, before[i].name) { kept := kept - {before[i].name}; }
    }
    assert before[..|before|] == before;
  }

  lemma OneMoreName(vs: seq<Volume>, i: nat)
    requires i < |vs|
    ensures forall v :: Names(vs[..i + 1], v) <==> Names(vs[..i], v) || v == vs[i].name
  {
    forall v ensures Names(vs[..i + 1], v) <==> Names(vs[..i], v) || v == vs[i].name {
      if Names(vs[..i], v) {
        var k :| 0 <= k < i && vs[..i][k].name == v;
        assert vs[..i + 1][k].name == v;
      }
      if v == vs[i].name { assert vs[..i + 1][i].name == v; }
      if Names(vs[..i + 1], v) && v != vs[i].name {
        var k :| 0 <= k < i + 1 && vs[..i + 1][k].name == v;
        assert vs[..i][k].name == v;
      }
    }
  }

  lemma InNames(vs: seq<Volume>, name: string)
    ensures Names(vs, name) <==> exists v :: v in vs && v.name == name
  {
    if v :| v in vs && v.name == name { var i :| 0 <= i < |vs| && vs[i] == v; }
  }

  lemma InKeys(dbs: seq<Database>, key: string)
    ensures HasKey(dbs, key) <==> exists d :: d in dbs && DbKey(d) == key
  {
    hide DbKey;
    if d :| d in dbs && DbKey(d) == key { var i :| 0 <= i < |dbs| && dbs[i] == d; }
  }

  lemma OfflineVolumesAreTheRest(live: Discovery, g: string, cached: CachedGroup, paths: set<string>,
                                 out: seq<Volume>, offline: set<string>)
    requires forall v :: v in out <==>
             v in LiveVolumes(live, g) || (v in cached.volumes && Stays(v, live, g, cached, paths))
    requires offline == set v | v in cached.volumes && Stays(v, live, g, cached, paths) :: v.name
    ensures forall n :: n in offline <==> Names(out, n) && !Names(LiveVolumes(live, g), n)
  {
    hide Deselected, Names;
    forall n ensures n in offline <==> Names(out, n) && !Names(LiveVolumes(live, g), n) {
      InNames(out, n);
      InNames(LiveVolumes(live, g), n);
    }
  }

  lemma OfflineDatabasesAreTheRest(live: seq<Database>, cached: seq<Database>, out: seq<Database>, offline: set<string>)
    requires forall d :: d in out <==> d in live || (d in cached && !HasKey(live, DbKey(d)))
    requires offline == set d | d in cached && !HasKey(live, DbKey(d)) :: DbKey(d)
    ensures forall n :: n in offline <==> HasKey(out, n) && !HasKey(live, n)
  {
    hide DbKey, HasKey;
    forall n ensures n in offline <==> HasKey(out, n) && !HasKey(live, n) {
      InKeys(out, n);
      InKeys(live, n);
    }
  }

  class Cache {
    var file: CacheFile       // groups.json, shared by every process
    var groups: CacheFile     // this process's copy

    constructor (file: CacheFile)
      ensures this.file == file && groups == file
    {
      this.file, groups := file, file;
    }

    /** Unions what was found into what is remembered. When the file cannot be locked or read
        the file is left alone and only what was found is returned. */
    method Reconcile(live: Discovery, paths: set<string>, now: int, usable: bool)
      returns (merged: CacheFile, off: Offline)
      modifies this
      ensures !usable ==> file == old(file) && groups == old(groups) && off == Offline(map[], map[])
      ensures !usable ==> merged.Keys == live.groups.Keys
      ensures !usable ==> forall g | g in live.groups ::
                && merged[g].volumes == live.groups[g].volumes && merged[g].databases == live.groups[g].databases
                && merged[g].labels == live.groups[g].labels && merged[g].period == live.groups[g].period
                && merged[g].lastSeen == now && merged[g].claims == map[]
      ensures usable ==> Reconciled(old(file), live, paths, now, file) && groups == file && merged == file
      ensures usable ==> forall g :: MarksOffline(live, file, off, g)
    {
      hide GroupReconciled, Emptied, Names, HasKey, DbKey;
      off := Offline(map[], map[]);
      if !usable {
        merged := map g | g in live.groups :: FoundOnly(live.groups[g], now);
        return;
      }
      var f := file;
      merged := map[];
      var names := f.Keys + live.groups.Keys;
      var todo := names;
      while todo != {}
        invariant todo <= names && merged.Keys <= names - todo
        invariant forall g | g in names - todo :: Settled(f, live, paths, now, merged, g)
        invariant forall g :: MarksOffline(live, merged, off, g)
        decreases todo
      {
        var g :| g in todo;
        todo := todo - {g};
        assert MarksOffline(live, merged, off, g);
        ghost var merged0, off0 := merged, off;
        assert g !in merged0;
        assert forall v :: v !in OfflineVolumes(off0, g);
        assert forall d :: d !in OfflineDatabases(off0, g);
        var after, offVols, offDBs := ReconcileGroup(Cached(f, g), live, g, paths, now);
        if after.volumes == [] && after.databases == [] { continue; }
        merged := merged[g := after];
        if offVols != {} { off := off.(volumes := off.volumes[g := offVols]); }
        if offDBs != {} { off := off.(databases := off.databases[g := offDBs]); }
        assert OfflineVolumes(off, g) == if offVols != {} then offVols else OfflineVolumes(off0, g);
        assert OfflineDatabases(off, g) == if offDBs != {} then offDBs else OfflineDatabases(off0, g);
        assert forall v :: v in OfflineVolumes(off, g) <==> v in offVols;
        assert forall d :: d in OfflineDatabases(off, g) <==> d in offDBs;
        forall h ensures MarksOffline(live, merged, off, h) { OfflineAfter(live, merged0, off0, merged, off, g, h); }
        forall h | h in names - todo ensures Settled(f, live, paths, now, merged, h) {
          if h != g { assert Settled(f, live, paths, now, merged0, h); }
        }
      }
      file := merged;
      groups := merged;
    }
  }

  lemma OfflineAfter(live: Discovery, merged0: CacheFile, off0: Offline, merged: CacheFile, off: Offline, g: string,
                     h: string)
    requires MarksOffline(live, merged0, off0, h) && g !in merged0 && g in merged && merged == merged0[g := merged[g]]
    requires h == g ==> MarksOffline(live, merged, off, g)
    requires h != g ==>
             OfflineVolumes(off, h) == OfflineVolumes(off0, h) && OfflineDatabases(off, h) == OfflineDatabases(off0, h)
    ensures MarksOffline(live, merged, off, h)
  {
    hide Names, HasKey;
  }

  function FoundOnly(g: LiveGroup, now: int): CachedGroup {
    CachedGroup(g.volumes, map[], g.databases, g.labels, g.period, now)
  }

  // ---- Over any number of cycles -------------------------------------------------------------------

  datatype Cycle = Cycle(live: Discovery, paths: set<string>, now: int)

  /** The cache file after each of a run of cycles that could all use it. */
  ghost predicate History(files: seq<CacheFile>, cycles: seq<Cycle>) {
    && |files| == |cycles| + 1
    && forall i :: 0 <= i < |cycles| ==>
        Reconciled(files[i], cycles[i].live, cycles[i].paths, cycles[i].now, files[i + 1])
  }

  predicate InView(f: CacheFile, g: string, v: string) { g in f && Names(f[g].volumes, v) }

  predicate Claiming(c: Cycle, g: string, v: string, container: string) {
    container in Claimers(LiveClaims(c.live, g), v)
  }

  /** The container was there and let the volume go. */
  predicate LetGo(c: Cycle, g: string, v: string, container: string) {
    IsPresent(c.live.containers, container) && !Claiming(c, g, v, container)
  }

  /** The group lists a volume of this name. */
  predicate Lists(volumes: seq<Volume>, v: string) { exists m :: m in volumes && m.name == v }

  /** Nobody claims the volume any more, somebody is recorded to have, the containers that are
      there are known, and all who are recorded are among them. */
  ghost predicate Released(f: CacheFile, c: Cycle, g: string, v: string) {
    && (g in c.live.claims && v in c.live.claims[g] ==> c.live.claims[g][v] == [])
    && g in f && v in f[g].claims && f[g].claims[v] != []
    && c.live.containers.Some?
    && forall container | container in f[g].claims[v] :: container in c.live.containers.value
  }

  /** Why a volume is in the group's view after a cycle, exactly: it was found, or it was in
      view with a path that is still there and has not been released. */
  lemma ViewAfter(f: CacheFile, c: Cycle, f': CacheFile, g: string, v: string)
    requires Reconciled(f, c.live, c.paths, c.now, f')
    ensures (g in f' && Lists(f'[g].volumes, v)) <==>
              || (g in c.live.groups && Lists(c.live.groups[g].volumes, v))
              || (g in f && (exists m :: m in f[g].volumes && m.name == v && m.path in c.paths)
                  && !Released(f, c, g, v))
  {
    if g in f { ReleasedIsDeselected(f, c, g, v); }
    hide Deselected, Names, Released;
    InNames(LiveVolumes(c.live, g), v);
    if g in f { InNames(f[g].volumes, v); }
    if g in f' { InNames(f'[g].volumes, v); }
    if g in f.Keys + c.live.groups.Keys { assert Settled(f, c.live, c.paths, c.now, f', g); }
    hide HasKey, Claimers;
  }

  lemma ReleasedIsDeselected(f: CacheFile, c: Cycle, g: string, v: string)
    requires g in f
    ensures Released(f, c, g, v) <==>
            Deselected(Claimers(LiveClaims(c.live, g), v), Claimers(f[g].claims, v), c.live.containers)
  {}

  /** What was found is recorded as it was found: a remembered path gives way. */
  lemma FoundWins(f: CacheFile, c: Cycle, f': CacheFile, g: string, m: Volume)
    requires Reconciled(f, c.live, c.paths, c.now, f') && g in c.live.groups && Lists(c.live.groups[g].volumes, m.name)
    ensures (g in f' && m in f'[g].volumes) <==> m in c.live.groups[g].volumes
  {
    InNames(c.live.groups[g].volumes, m.name);
    assert Settled(f, c.live, c.paths, c.now, f', g);
    hide Deselected, Names, HasKey, Claimers;
  }

  /** Who is on record after a cycle as claiming a volume that is in view, exactly: who claims
      it now, and who was on record and is not seen to be there. */
  lemma ClaimsAfter(f: CacheFile, c: Cycle, f': CacheFile, g: string, v: string, container: string)
    requires Reconciled(f, c.live, c.paths, c.now, f') && g in f' && Lists(f'[g].volumes, v)
    ensures (v in f'[g].claims && container in f'[g].claims[v]) <==>
              || (g in c.live.claims && v in c.live.claims[g] && container in c.live.claims[g][v])
              || (g in f && v in f[g].claims && container in f[g].claims[v]
                  && !(c.live.containers.Some? && container in c.live.containers.value))
  {
    InNames(f'[g].volumes, v);
    assert Settled(f, c.live, c.paths, c.now, f', g);
    assert (v in f'[g].claims && container in f'[g].claims[v]) <==> container in Claimers(f'[g].claims, v);
    hide Names, HasKey;
  }

  /** A claim stays on record for as long as the volume is in view and the claimer is not
      seen to let it go. */
  lemma {:induction false} ClaimRemembered(files: seq<CacheFile>, cycles: seq<Cycle>, g: string, v: string,
                                           container: string, i: nat, n: nat)
    requires History(files, cycles) && i < n <= |cycles|
    requires Claiming(cycles[i], g, v, container)
    requires forall k :: i < k <= n ==> InView(files[k], g, v)
    requires forall k :: i < k < n ==> !LetGo(cycles[k], g, v, container)
    ensures container in Claimers(Cached(files[n], g).claims, v)
  {
    hide Reconciled, Claimers, LiveClaims, Names, LetGo, InView;
    if n > i + 1 { ClaimRemembered(files, cycles, g, v, container, i, n - 1); }
    assert InView(files[n], g, v);
    InViewCached(files[n], g, v);
    assert Reconciled(files[n - 1], cycles[n - 1].live, cycles[n - 1].paths, cycles[n - 1].now, files[n - 1 + 1]);
    ClaimKept(files[n - 1], cycles[n - 1], files[n], g, v, container);
  }

  lemma InViewCached(f: CacheFile, g: string, v: string)
    requires InView(f, g, v)
    ensures g in f && Cached(f, g) == f[g]
  {
    hide Names;
  }

  lemma ClaimKept(f: CacheFile, c: Cycle, f': CacheFile, g: string, v: string, container: string)
    requires Reconciled(f, c.live, c.paths, c.now, f') && InView(f', g, v)
    requires Claiming(c, g, v, container)
             || (container in Claimers(Cached(f, g).claims, v) && !LetGo(c, g, v, container))
    ensures container in Claimers(f'[g].claims, v)
  {
    assert Settled(f, c.live, c.paths, c.now, f', g);
    hide Names, HasKey, Claimers;
  }

  /** Membership never shrinks silently: a volume that was in a group's view after every cycle
      from `start` to n and is not after the next was not found, and either every path it was
      recorded under is gone, or its claimers are on record and every container that claimed
      it since `start` was, since that claim, seen there without claiming it. */
  lemma NoSilentLoss(files: seq<CacheFile>, cycles: seq<Cycle>, g: string, v: string, start: nat, n: nat)
    requires History(files, cycles) && start <= n < |cycles|
    requires forall k :: start < k <= n ==> InView(files[k], g, v)
    requires InView(files[n], g, v) && !InView(files[n + 1], g, v)
    ensures !Names(LiveVolumes(cycles[n].live, g), v)
    ensures (forall m | m in files[n][g].volumes && m.name == v :: m.path !in cycles[n].paths)
            || (Claimers(files[n][g].claims, v) != []
                && forall container, i | start <= i < n && Claiming(cycles[i], g, v, container) ::
                     exists j :: i < j <= n && LetGo(cycles[j], g, v, container))
  {
    var c := cycles[n];
    ViewAfter(files[n], c, files[n + 1], g, v);
    ReleasedIsDeselected(files[n], c, g, v);
    InNames(files[n][g].volumes, v);
    InNames(LiveVolumes(c.live, g), v);
    if g in files[n + 1] { InNames(files[n + 1][g].volumes, v); }
    hide Names, Reconciled, Released;
    if exists m :: m in files[n][g].volumes && m.name == v && m.path in c.paths {
      assert Deselected(Claimers(LiveClaims(c.live, g), v), Claimers(files[n][g].claims, v), c.live.containers);
      forall container, i | start <= i < n && Claiming(cycles[i], g, v, container)
        ensures exists j :: i < j <= n && LetGo(cycles[j], g, v, container)
      {
        if !exists j :: i < j < n && LetGo(cycles[j], g, v, container) {
          ClaimRemembered(files, cycles, g, v, container, i, n);
          assert LetGo(cycles[n], g, v, container);
        }
      }
    }
  }

  lemma {:induction false} ClaimHasOrigin(files: seq<CacheFile>, cycles: seq<Cycle>, g: string, v: string,
                                          container: string, start: nat, n: nat)
    requires History(files, cycles) && start <= n <= |cycles|
    requires container in Claimers(Cached(files[n], g).claims, v)
    ensures container in Claimers(Cached(files[start], g).claims, v)
            || exists i :: start <= i < n && Claiming(cycles[i], g, v, container)
  {
    if n > start {
      var m := n - 1;
      assert Reconciled(files[m], cycles[m].live, cycles[m].paths, cycles[m].now, files[m + 1]);
      ClaimFrom(files[m], cycles[m], files[n], g, v, container);
      if !Claiming(cycles[m], g, v, container) { ClaimHasOrigin(files, cycles, g, v, container, start, m); }
    }
  }

  lemma ClaimFrom(f: CacheFile, c: Cycle, f': CacheFile, g: string, v: string, container: string)
    requires Reconciled(f, c.live, c.paths, c.now, f') && container in Claimers(Cached(f', g).claims, v)
    ensures Claiming(c, g, v, container) || container in Claimers(Cached(f, g).claims, v)
  {
    if g in f' { assert Settled(f, c.live, c.paths, c.now, f', g); }
    hide Names, HasKey;
  }

  /** And a volume that everybody let go does leave. It was in view since `start`; somebody who
      claimed it meanwhile was not seen to let it go before; now nobody claims it, and all who
      were on record at `start` or have claimed it since are there. */
  lemma ReleasedIsDropped(files: seq<CacheFile>, cycles: seq<Cycle>, g: string, v: string, start: nat, n: nat,
                          last: string, i: nat)
    requires History(files, cycles) && start <= i < n < |cycles|
    requires forall k :: start < k <= n ==> InView(files[k], g, v)
    requires Claiming(cycles[i], g, v, last) && forall j :: i < j < n ==> !LetGo(cycles[j], g, v, last)
    requires var live := cycles[n].live;
             && (g in live.groups ==> !Lists(live.groups[g].volumes, v))
             && (g in live.claims && v in live.claims[g] ==> live.claims[g][v] == [])
             && live.containers.Some?
             && forall container |
                  container in Claimers(Cached(files[start], g).claims, v)
                  || exists k :: start <= k < n && Claiming(cycles[k], g, v, container)
                :: container in live.containers.value
    ensures !InView(files[n + 1], g, v)
  {
    var c := cycles[n];
    assert Reconciled(files[n], c.live, c.paths, c.now, files[n + 1]);
    ClaimRemembered(files, cycles, g, v, last, i, n);
    InViewCached(files[n], g, v);
    forall container | container in Claimers(files[n][g].claims, v) ensures container in c.live.containers.value {
      ClaimHasOrigin(files, cycles, g, v, container, start, n);
    }
    ViewAfter(files[n], c, files[n + 1], g, v);
    if g in files[n + 1] { InNames(files[n + 1][g].volumes, v); }
    hide Names, Reconciled;
  }

  /** A database once remembered is never forgotten. */
  lemma {:induction false} DatabasesStay(files: seq<CacheFile>, cycles: seq<Cycle>, g: string, key: string, i: nat,
                                         n: nat)
    requires History(files, cycles) && i <= n <= |cycles|
    requires g in files[i] && HasKey(files[i][g].databases, key)
    ensures g in files[n] && HasKey(files[n][g].databases, key)
  {
    if i < n {
      DatabasesStay(files, cycles, g, key, i, n - 1);
      assert Reconciled(files[n - 1], cycles[n - 1].live, cycles[n - 1].paths, cycles[n - 1].now, files[n - 1 + 1]);
      DatabaseStays(files[n - 1], cycles[n - 1], files[n], g, key);
    }
  }

  lemma DatabaseStays(f: CacheFile, c: Cycle, f': CacheFile, g: string, key: string)
    requires Reconciled(f, c.live, c.paths, c.now, f') && g in f && HasKey(f[g].databases, key)
    ensures g in f' && HasKey(f'[g].databases, key)
  {
    hide DbKey, Names, Claimers, Stays;
    InKeys(f[g].databases, key);
    InKeys(LiveDatabases(c.live, g), key);
    assert Settled(f, c.live, c.paths, c.now, f', g);
    if g in f' { InKeys(f'[g].databases, key); }
  }

  // ---- Which database is which ----------------------------------------------------------------------

  /** Only the last part of a key may hold the separator. */
  predicate Plain(d: Database) { '/' !in d.kind && '/' !in d.container }

  predicate SameDatabase(a: Database, b: Database) {
    a.kind == b.kind && a.container == b.container && a.name == b.name
  }

  lemma StartsWithSlash(a: string, x: string)
    requires '/' !in a
    ensures (a + "/" + x)[0] == '/' <==> a == ""
  {
    if a != "" { assert a[0] in a; }
  }

  lemma {:induction false} FirstPart(a: string, x: string, b: string, y: string)
    requires '/' !in a && '/' !in b && a + "/" + x == b + "/" + y
    ensures a == b && x == y
    decreases |a|
  {
    var s, t := a + "/" + x, b + "/" + y;
    StartsWithSlash(a, x);
    StartsWithSlash(b, y);
    if a == "" {
      assert s[1..] == x && t[1..] == y;
    } else {
      assert s[0] == a[0] && t[0] == b[0];
      assert s[1..] == a[1..] + "/" + x && t[1..] == b[1..] + "/" + y;
      FirstPart(a[1..], x, b[1..], y);
      assert a == [a[0]] + a[1..] && b == [b[0]] + b[1..];
    }
  }

  /** The key tells apart databases of one name in two containers. */
  lemma KeyIsIdentity(a: Database, b: Database)
    requires Plain(a) && Plain(b)
    ensures DbKey(a) == DbKey(b) <==> SameDatabase(a, b)
  {
    if DbKey(a) == DbKey(b) {
      assert DbKey(a) == a.kind + "/" + (a.container + "/" + a.name);
      assert DbKey(b) == b.kind + "/" + (b.container + "/" + b.name);
      FirstPart(a.kind, a.container + "/" + a.name, b.kind, b.container + "/" + b.name);
      FirstPart(a.container, a.name, b.container, b.name);
    }
  }

  /** Which databases a group has after a cycle, exactly: those found, and those remembered
      of which nothing by the same type, container and name was found. */
  lemma DatabasesAfter(f: CacheFile, c: Cycle, f': CacheFile, g: string, d: Database)
    requires Reconciled(f, c.live, c.paths, c.now, f') && Plain(d)
    requires g in c.live.groups ==> forall x | x in c.live.groups[g].databases :: Plain(x)
    ensures (g in f' && d in f'[g].databases) <==>
              || (g in c.live.groups && d in c.live.groups[g].databases)
              || (g in f && d in f[g].databases
                  && (g in c.live.groups ==> forall x | x in c.live.groups[g].databases :: !SameDatabase(x, d)))
  {
    var live := LiveDatabases(c.live, g);
    InKeys(live, DbKey(d));
    forall x | x in live ensures DbKey(x) == DbKey(d) <==> SameDatabase(x, d) { KeyIsIdentity(x, d); }
    hide DbKey, HasKey, Names, Claimers, Stays, SameDatabase;
    if g in f.Keys + c.live.groups.Keys { assert Settled(f, c.live, c.paths, c.now, f', g); }
  }
}
