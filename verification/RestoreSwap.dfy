/**
 The staged restore: extract beside the volume, then swap. Until the extracted data is on
 disk every state keeps the volume where it is and leaves every volume a power loss could
 bring back alone. From then on every method keeps the stake of the swap, two inodes with a
 complete tree each, held in every state of the open window. So a death of the process or a
 power loss at any moment leaves a complete tree recoverable; the same bookkeeping gives
 what each outcome promises about where the trees are.
 */
module RestoreSwap {
  import opened Wrappers
  import opened ScratchNames
  import opened RestoreDisk

  // ---- Keeping the stake -------------------------------------------------------------------------

  /** The stake is held throughout the window, and the promise was kept until it was opened. */
  ghost predicate Guarded(d: Disk, k: Stake, p: Promise)
    reads d
  {
    && d.Sound() && HeldAll(k, d.window)
    && k.target == d.target && (k.marks ==> d.holdsMarks) && Spared(k, d.world)
    && (k.marks ==> Promising(k, p, d.epochs, d.trail, d.start))
  }

  ghost predicate Promising(k: Stake, p: Promise, epochs: seq<seq<World>>, trail: seq<World>, start: nat) {
    k.orig in p.trees && k.full in p.trees && Kept(epochs, trail, start, k.target, p)
  }

  lemma StillPromising(k: Stake, p: Promise, epochs: seq<seq<World>>, trail: seq<World>, start: nat, trail': seq<World>)
    requires Promising(k, p, epochs, trail, start) && trail <= trail'
    ensures Promising(k, p, epochs, trail', start)
  {
    hide Kept;
    StillKept(epochs, trail, start, k.target, p, trail');
  }

  lemma HeldSafe(d: Disk, k: Stake, p: Promise)
    requires Guarded(d, k, p) && k.marks
    ensures d.Safe(p)
  {
    hide Held, PowerSafe, Kept;
    HeldIsSafe(k, d.window);
    SafeWithMore(d.window, d.target, {k.orig, k.full}, p.trees);
  }

  ghost predicate InPlace(d: Disk, k: Stake)
    reads d
  {
    k.target in d.world.names
  }

  /** The new tree has never been the volume in this window. */
  ghost predicate StillOld(k: Stake, window: seq<World>) {
    forall i :: 0 <= i < |window| ==> k.target in window[i].names ==> window[i].names[k.target] == k.o
  }

  /** Inode id is not one whose contents are at stake. */
  predicate Expendable(k: Stake, id: Id) {
    (k.oldOk ==> id != k.o) && (k.newOk ==> id != k.s)
  }

  lemma Recorded(k: Stake, window0: seq<World>, w0: World, window1: seq<World>, w1: World)
    requires HeldAll(k, window0) && window0 != [] && window0[|window0| - 1] == w0
    requires window1 == window0 + [w1]
    requires k.target in w0.names && k.target in w1.names && w1.names[k.target] == w0.names[k.target]
    requires Injective(w1.names)
    requires forall id :: !Expendable(k, id) ==> TreeOf(w1, id) == TreeOf(w0, id)
    ensures HeldAll(k, window1)
    ensures StillOld(k, window0) ==> StillOld(k, window1)
  {
    assert Held(k, w0);
    Undisturbed(k, w0, w1);
  }

  /** One more state in which the stake is held. */
  lemma Continued(k: Stake, window0: seq<World>, w1: World, window1: seq<World>)
    requires HeldAll(k, window0) && Held(k, w1) && window1 == window0 + [w1]
    ensures HeldAll(k, window1)
    ensures StillOld(k, window0) && (k.target in w1.names ==> w1.names[k.target] == k.o) ==> StillOld(k, window1)
  {}

  /** A run of states each of which disturbs nothing at stake. */
  lemma RecordedRun(k: Stake, window0: seq<World>, w0: World, window1: seq<World>)
    requires HeldAll(k, window0) && window0 != [] && window0[|window0| - 1] == w0
    requires |window0| <= |window1| && window1[..|window0|] == window0
    requires k.target in w0.names
    requires forall i :: |window0| <= i < |window1| ==> Calm(k, w0, window1[i])
    ensures HeldAll(k, window1)
  {
    assert Held(k, w0);
    forall i | 0 <= i < |window1| ensures Held(k, window1[i]) {
      if i < |window0| {
        assert window1[i] == window1[..|window0|][i];
      } else {
        assert Calm(k, w0, window1[i]);
        Undisturbed(k, w0, window1[i]);
      }
    }
  }

  ghost predicate Calm(k: Stake, w0: World, w: World) {
    && k.target in w0.names && k.target in w.names && w.names[k.target] == w0.names[k.target]
    && Injective(w.names)
    && forall id :: !Expendable(k, id) ==> TreeOf(w, id) == TreeOf(w0, id)
  }

  lemma RemovingIsCalm(k: Stake, w0: World, name: string, w: World)
    requires name in w0.names && Removing(w0, name, w) && Injective(w0.names)
    requires k.target in w0.names && name != k.target && Expendable(k, w0.names[name])
    ensures Calm(k, w0, w)
  {}

  /** fsync on the parent pins names and marks; mixing the present ones with earlier
      contents loses nothing. */
  lemma PinnedWindow(k: Stake, window0: seq<World>, w: World, window1: seq<World>)
    requires HeldAll(k, window0) && Held(k, w) && |window1| == |window0|
    requires forall i :: 0 <= i < |window1| ==> window1[i] == Mix(w, window0[i])
    ensures HeldAll(k, window1)
  {
    forall i | 0 <= i < |window1| ensures Held(k, window1[i]) {
      var m := Mix(w, window0[i]);
      assert Held(k, window0[i]);
      if k.target !in m.names {
        var d :| d in w.names && w.names[d] == k.o && (k.marks ==> Ours(w, k.target, REPLACED) == {d});
        assert Ours(m, k.target, REPLACED) == Ours(w, k.target, REPLACED);
      }
    }
  }

  /** Closing a safe window keeps the promise. */
  lemma CloseWindow(epochs: seq<seq<World>>, trail: seq<World>, start: nat, window: seq<World>, target: string,
                    p: Promise)
    requires Kept(epochs, trail, start, target, p) && PowerSafe(window, target, p.trees)
    requires forall i | start <= i < |trail| :: trail[i] in window
    ensures Kept(epochs + [window], trail, |trail|, target, p)
  {
    hide Recoverable, PowerSafe;
    forall i | p.moment <= i < |trail| ensures Recoverable(trail[i], target, p.trees) {
      if i >= start { SafeNow(window, trail[i], target, p.trees); }
    }
  }

  /** The states of the open window count among those passed through. */
  lemma SafeAllAlong(d: Disk, p: Promise)
    requires d.Safe(p)
    ensures AllAlong(d.trail, p.moment, d.target, p.trees)
  {
    hide Recoverable, PowerSafe;
    forall i | p.moment <= i < |d.trail| ensures Recoverable(d.trail[i], d.target, p.trees) {
      if i >= d.start { SafeNow(d.window, d.trail[i], d.target, p.trees); }
    }
  }

  // ---- System calls that leave the volume alone -----------------------------------------------------

  /** MkdirTemp for one of the purposes. */
  method Reserve(d: Disk, prefix: string, ghost k: Stake, ghost p: Promise) returns (r: Option<string>)
    requires Guarded(d, k, p) && InPlace(d, k) && Purpose(prefix)
    modifies d
    ensures old(d.trail) <= d.trail
    ensures Guarded(d, k, p) && InPlace(d, k) && (StillOld(k, old(d.window)) ==> StillOld(k, d.window))
    ensures r.None? ==> d.world == old(d.world)
    ensures r.Some? ==>
      && r.value !in old(d.world.names) && MadeByMkdirTemp(r.value, d.target + prefix) && r.value != d.target
      && !Bystander(k, r.value)
      && old(d.next) !in old(d.world.marks) && old(d.next) !in old(d.world.trees)
      && d.world == old(d.world).(names := old(d.world.names)[r.value := old(d.next)],
                                  trees := old(d.world.trees)[old(d.next) := map[]])
    ensures d.Counted(old(d.faults), r.Some?)
    ensures d.gap == old(d.gap)
  {
    hide Promising, Kept, MadeByMkdirTemp, Purpose, HeldAll, StillOld, Spared, Bystander;
    ghost var w0, window0, trail0 := d.world, d.window, d.trail;
    NotTheVolume(d.target, prefix);
    r := d.MkdirTemp(prefix);
    if r.Some? {
      Recorded(k, window0, w0, d.window, d.world);
      NewIsNoBystander(k, w0, r.value);
      StillSpared(k, w0, d.world, {r.value});
    }
    if k.marks { StillPromising(k, p, d.epochs, trail0, d.start, d.trail); }
  }

  lemma NewIsNoBystander(k: Stake, w: World, name: string)
    requires Spared(k, w) && name !in w.names
    ensures !Bystander(k, name)
  {}

  method Claim(d: Disk, name: string, ghost k: Stake, ghost p: Promise) returns (ok: bool)
    requires Guarded(d, k, p) && InPlace(d, k) && name in d.world.names
    modifies d
    ensures old(d.trail) <= d.trail
    ensures Guarded(d, k, p) && InPlace(d, k) && (StillOld(k, old(d.window)) ==> StillOld(k, d.window))
    ensures ok == d.holdsMarks
    ensures d.world == if ok then old(d.world).(marks := old(d.world.marks) + {old(d.world.names)[name]})
            else old(d.world)
    ensures d.faults == old(d.faults)
    ensures d.gap == old(d.gap)
  {
    hide Promising, Kept, HeldAll, StillOld, Spared, Bystander;
    ghost var w0, window0, trail0 := d.world, d.window, d.trail;
    ok := d.MarkAsOurs(name);
    if ok {
      Recorded(k, window0, w0, d.window, d.world);
      StillSpared(k, w0, d.world, {});
    }
    if k.marks { StillPromising(k, p, d.epochs, trail0, d.start, d.trail); }
  }

  method Disclaim(d: Disk, name: string, ghost k: Stake, ghost p: Promise) returns (ok: bool)
    requires Guarded(d, k, p) && InPlace(d, k) && name in d.world.names
    modifies d
    ensures old(d.trail) <= d.trail
    ensures Guarded(d, k, p) && InPlace(d, k) && (StillOld(k, old(d.window)) ==> StillOld(k, d.window))
    ensures d.world == if ok then old(d.world).(marks := old(d.world.marks) - {old(d.world.names)[name]})
            else old(d.world)
    ensures d.Counted(old(d.faults), ok)
    ensures d.gap == old(d.gap)
  {
    hide Promising, Kept, HeldAll, StillOld, Spared, Bystander;
    ghost var w0, window0, trail0 := d.world, d.window, d.trail;
    ok := d.RemoveMark(name);
    if ok {
      Recorded(k, window0, w0, d.window, d.world);
      StillSpared(k, w0, d.world, {});
    }
    if k.marks { StillPromising(k, p, d.epochs, trail0, d.start, d.trail); }
  }

  method RemoveEmpty(d: Disk, name: string, ghost k: Stake, ghost p: Promise) returns (ok: bool)
    requires Guarded(d, k, p) && InPlace(d, k) && name in d.world.names && name != d.target && !Bystander(k, name)
    modifies d
    ensures old(d.trail) <= d.trail
    ensures Guarded(d, k, p) && InPlace(d, k) && (StillOld(k, old(d.window)) ==> StillOld(k, d.window))
    ensures d.world == if ok then old(d.world).(names := old(d.world.names) - {name}) else old(d.world)
    ensures old(d.faults) <= d.faults
    ensures d.gap == old(d.gap)
    ensures ok ==> d.faults == old(d.faults)
    ensures !ok && TreeOf(old(d.world), old(d.world.names)[name]) == map[] ==> old(d.faults) < d.faults
  {
    hide Promising, Kept, HeldAll, StillOld, Spared, Bystander;
    ghost var w0, window0, trail0 := d.world, d.window, d.trail;
    ok := d.Rmdir(name);
    if ok {
      Recorded(k, window0, w0, d.window, d.world);
      StillSpared(k, w0, d.world, {name});
    }
    if k.marks { StillPromising(k, p, d.epochs, trail0, d.start, d.trail); }
  }

  method RenameBeside(d: Disk, from: string, to: string, ghost k: Stake, ghost p: Promise) returns (moved: bool)
    requires Guarded(d, k, p) && InPlace(d, k) && from in d.world.names && to in d.world.names && from != to
    requires from != d.target && to != d.target && !Bystander(k, from) && !Bystander(k, to)
    modifies d
    ensures old(d.trail) <= d.trail
    ensures Guarded(d, k, p) && InPlace(d, k)
    ensures d.world == if moved
            then old(d.world).(names := (old(d.world.names) - {from})[to := old(d.world.names)[from]])
                       else old(d.world)
    ensures old(d.faults) <= d.faults
    ensures d.gap == old(d.gap)
    ensures moved ==> d.faults == old(d.faults)
    ensures !moved && TreeOf(old(d.world), old(d.world.names)[to]) == map[] ==> old(d.faults) < d.faults
  {
    hide Promising, Kept, HeldAll, StillOld, Spared, Bystander;
    ghost var w0, window0, trail0 := d.world, d.window, d.trail;
    moved := d.Renameat(from, to);
    if moved {
      Recorded(k, window0, w0, d.window, d.world);
      StillSpared(k, w0, d.world, {from, to});
    }
    if k.marks { StillPromising(k, p, d.epochs, trail0, d.start, d.trail); }
  }

  // ---- Beside the volume -------------------------------------------------------------------------

  /** Between w0 and w1 only directories named in `gone` were removed, wholly or in part, and
      nothing else was touched. */
  ghost predicate OnlyRemoved(w0: World, w1: World, gone: set<string>) {
    && gone <= w0.names.Keys
    && (forall n | n in w1.names :: n in w0.names && w1.names[n] == w0.names[n])
    && (forall n | n in w0.names && n !in w1.names :: n in gone)
    && w1.marks == w0.marks
    && (forall id :: (forall n | n in gone :: w0.names[n] != id) ==> TreeOf(w1, id) == TreeOf(w0, id))
    && (forall id :: Part(TreeOf(w1, id), TreeOf(w0, id)))
  }

  lemma NothingRemoved(w: World, gone: set<string>)
    requires gone <= w.names.Keys
    ensures OnlyRemoved(w, w, gone)
  {}

  lemma RemovedOne(w0: World, w1: World, gone: set<string>, name: string, w2: World)
    requires OnlyRemoved(w0, w1, gone) && name in gone && name in w1.names && Removing(w1, name, w2)
    ensures OnlyRemoved(w0, w2, gone)
  {
    assert forall id :: Part(TreeOf(w2, id), TreeOf(w1, id));
  }

  method SiblingsWithPrefix(d: Disk, prefix: string) returns (siblings: set<string>, enumerable: bool, ok: bool)
    requires d.Sound()
    modifies d`faults
    ensures d.Sound()
    ensures d.Counted(old(d.faults), ok)
    ensures ok && enumerable ==> siblings == set n | n in d.world.names && MadeByMkdirTemp(n, d.target + prefix)
    ensures ok ==> enumerable == d.canList
    ensures !d.canList ==> ok && !enumerable
  {
    // A parent that may not be listed is no error; any other failure is.
    if !d.canList { return {}, false, true; }
    var listed := d.Attempt();
    if !listed { return {}, false, false; }
    siblings := {};
    var todo := d.world.names.Keys;
    while todo != {}
      invariant todo <= d.world.names.Keys
      invariant siblings == set n | n in d.world.names && n !in todo && MadeByMkdirTemp(n, d.target + prefix)
      decreases todo
    {
      var n :| n in todo;
      todo := todo - {n};
      if MadeByMkdirTemp(n, d.target + prefix) { siblings := siblings + {n}; }
    }
    return siblings, true, true;
  }

  lemma StagingIsNotVolume(d: Disk, name: string)
    requires MadeByMkdirTemp(name, d.target + STAGING)
    ensures name != d.target
  {
    NotTheVolume(d.target, STAGING);
  }

  /** Removes leftovers of earlier runs: only staging directories carrying the mark, and of
      everything else neither name nor contents change, at any moment. */
  method ClearStagingLeftovers(d: Disk) returns (ok: bool)
    requires d.Sound()
    modifies d
    ensures d.Sound() && d.Passed(old(d.window), old(d.trail)) && d.epochs == old(d.epochs) && d.start == old(d.start)
    ensures forall i :: |old(d.window)| <= i < |d.window| ==>
              OnlyRemoved(old(d.world), d.window[i], Ours(old(d.world), d.target, STAGING))
    ensures OnlyRemoved(old(d.world), d.world, Ours(old(d.world), d.target, STAGING))
    ensures !(d.canList && d.canRead) ==> d.world == old(d.world) && d.window == old(d.window)
    ensures ok && d.canList && d.canRead ==> Ours(d.world, d.target, STAGING) == {}
    ensures d.Counted(old(d.faults), ok)
    ensures d.target in d.world.names ==> d.gap == old(d.gap)
  {
    hide Disk.Sound, TreeOf, MadeByMkdirTemp;
    ghost var w0, gone := d.world, Ours(d.world, d.target, STAGING);
    NothingRemoved(w0, gone);
    var matches, enumerable, listed := SiblingsWithPrefix(d, STAGING);
    if !listed { return false; }
    if !enumerable { return true; }
    var todo := matches;
    hide OnlyRemoved;
    while todo != {}
      invariant todo <= matches && d.Sound() && d.Passed(old(d.window), old(d.trail))
      invariant d.target in d.world.names ==> d.gap == old(d.gap)
      invariant d.epochs == old(d.epochs) && d.start == old(d.start) && d.faults == old(d.faults)
      invariant forall n | n in todo :: n in d.world.names && d.world.names[n] == w0.names[n]
      invariant d.world.marks == w0.marks && OnlyRemoved(w0, d.world, gone)
      invariant forall i :: |old(d.window)| <= i < |d.window| ==> OnlyRemoved(w0, d.window[i], gone)
      invariant !d.canRead ==> d.world == w0 && d.window == old(d.window)
      invariant d.canRead ==> Ours(d.world, d.target, STAGING) <= todo
      decreases todo
    {
      var stale :| stale in todo;
      todo := todo - {stale};
      var owner := d.ProvablyOurs(stale);
      if owner == ReadError { return false; }
      if owner != Known(true) { continue; }
      var removed := ClearOne(d, stale, w0, gone, old(d.window), old(d.trail));
      if !removed { return false; }
    }
    return true;
  }

  /** One leftover, in the course of clearing all of them. */
  method ClearOne(d: Disk, stale: string, ghost w0: World, ghost gone: set<string>, ghost window0: seq<World>,
                  ghost trail0: seq<World>)
    returns (ok: bool)
    requires d.Sound() && d.Passed(window0, trail0) && stale in d.world.names && stale in gone
    requires OnlyRemoved(w0, d.world, gone)
    requires forall i :: |window0| <= i < |d.window| ==> OnlyRemoved(w0, d.window[i], gone)
    modifies d
    ensures d.Sound() && d.Passed(window0, trail0) && d.epochs == old(d.epochs) && d.start == old(d.start)
    ensures OnlyRemoved(w0, d.world, gone)
    ensures forall i :: |window0| <= i < |d.window| ==> OnlyRemoved(w0, d.window[i], gone)
    ensures d.world.marks == old(d.world.marks)
    ensures d.world.names == if ok then old(d.world.names) - {stale} else old(d.world.names)
    ensures d.Counted(old(d.faults), ok)
    ensures d.target in d.world.names ==> d.gap == old(d.gap)
  {
    hide Injective, OnlyRemoved;
    ghost var w1, window1 := d.world, d.window;
    ok := d.RemoveScratchDir(stale);
    RemovedOne(w0, w1, gone, stale, d.world);
    forall i | |window0| <= i < |d.window| ensures OnlyRemoved(w0, d.window[i], gone) {
      if i < |window1| {
        assert d.window[i] == window1[i];
      } else {
        RemovedOne(w0, w1, gone, stale, d.window[i]);
      }
    }
  }

  // ---- What clearing can lose ----------------------------------------------------------------------

  /** A tree that removal can leave in a state that is none of these. */
  ghost predicate Spoils(whole: Tree, trees: set<Tree>) { exists part: Tree :: Part(part, whole) && part !in trees }

  /** What is the volume in some state a power loss could bring back now lies under the name
      of a marked staging directory. */
  ghost predicate Exposed(window: seq<World>, w: World, target: string, trees: set<Tree>) {
    exists i, n :: 0 <= i < |window| && n in Ours(w, target, STAGING)
      && VolumeAt(window[i], target, w.names[n]) && Spoils(TreeOf(w, w.names[n]), trees)
  }

  /** And clearing would get to it. */
  ghost predicate AtRisk(d: Disk, trees: set<Tree>)
    reads d
  {
    d.target in d.world.names && d.canList && d.canRead && Exposed(d.window, d.world, d.target, trees)
  }

  lemma RemovedKeepsVolume(w0: World, w: World, target: string)
    requires OnlyRemoved(w0, w, Ours(w0, target, STAGING)) && Injective(w0.names)
    ensures SameVolume(w0, w, target)
    ensures Ours(w, target, REPLACED) == Ours(w0, target, REPLACED)
    ensures target in w.names <==> target in w0.names
    ensures target in w0.names ==> w.names[target] == w0.names[target]
  {
    NotTheVolume(target, STAGING);
    forall n | n in w0.names && MadeByMkdirTemp(n, target + REPLACED) ensures n !in Ours(w0, target, STAGING) {
      if MadeByMkdirTemp(n, target + STAGING) { MadeForStaging(target, n); }
    }
    hide MadeByMkdirTemp;
    assert Ours(w, target, REPLACED) == Ours(w0, target, REPLACED);
  }

  /** Removing marked staging directories, in whole or in part, is safe when none of them is
      exposed. */
  lemma RemovedIsSteady(window: seq<World>, w0: World, w: World, target: string, trees: set<Tree>)
    requires PowerSafe(window, target, trees) && window != [] && window[|window| - 1] == w0
    requires OnlyRemoved(w0, w, Ours(w0, target, STAGING)) && Injective(w0.names) && !Exposed(window, w0, target, trees)
    ensures Steady(window, w0, w, target, trees)
  {
    hide VolumeAt, SameVolume, PowerSafe, TreeOf, MadeByMkdirTemp, OnlyRemoved, Spoils, Ours, Injective, Exposed;
    RemovedKeepsVolume(w0, w, target);
    OursNamed(w0, target, STAGING);
    forall i, o | 0 <= i < |window| && VolumeAt(window[i], target, o) ensures TreeOf(w, o) in trees {
      VolumeIntact(window, i, o, |window| - 1, target, trees);
      Unspoiled(window, w0, target, trees, i, o);
      RemovedTree(w0, w, Ours(w0, target, STAGING), o, trees);
    }
  }

  lemma Unspoiled(window: seq<World>, w: World, target: string, trees: set<Tree>, i: nat, o: Id)
    requires !Exposed(window, w, target, trees) && i < |window| && VolumeAt(window[i], target, o)
    ensures forall n | n in Ours(w, target, STAGING) && w.names[n] == o :: !Spoils(TreeOf(w, o), trees)
  {
    hide VolumeAt, Spoils;
  }

  /** What removal can leave of a tree is none of these only if it can spoil it. */
  lemma RemovedTree(w0: World, w: World, gone: set<string>, o: Id, trees: set<Tree>)
    requires OnlyRemoved(w0, w, gone) && TreeOf(w0, o) in trees
    requires forall n | n in gone && w0.names[n] == o :: !Spoils(TreeOf(w0, o), trees)
    ensures TreeOf(w, o) in trees
  {
    if n :| n in gone && w0.names[n] == o {
      assert Part(TreeOf(w, o), TreeOf(w0, o));
    }
  }

  lemma ClearingIsSafe(window0: seq<World>, w0: World, window1: seq<World>, target: string, trees: set<Tree>)
    requires PowerSafe(window0, target, trees) && window0 != [] && window0[|window0| - 1] == w0 && window0 <= window1
    requires Injective(w0.names) && !Exposed(window0, w0, target, trees)
    requires forall i :: |window0| <= i < |window1| ==> OnlyRemoved(w0, window1[i], Ours(w0, target, STAGING))
    ensures PowerSafe(window1, target, trees)
  {
    hide Exposed, OnlyRemoved, Steady, PowerSafe, Ours;
    forall i | |window0| <= i < |window1| ensures Steady(window0, w0, window1[i], target, trees) {
      RemovedIsSteady(window0, w0, window1[i], target, trees);
    }
    SteadyOn(window0, w0, window1, target, trees);
  }

  lemma RemovingIsRemoved(w0: World, n: string, w: World, gone: set<string>)
    requires n in gone && gone <= w0.names.Keys && Removing(w0, n, w)
    ensures OnlyRemoved(w0, w, gone)
  {
    NothingRemoved(w0, gone);
    RemovedOne(w0, w0, gone, n, w);
  }

  /** Exactly then: from a safe window, every moment of every removal of a marked staging
      directory is safe if and only if none of them is exposed. */
  lemma ClearingIsSafeExactlyWhenUnexposed(window: seq<World>, w: World, target: string, trees: set<Tree>)
    requires PowerSafe(window, target, trees) && window != [] && window[|window| - 1] == w
    ensures (forall n, w' | n in Ours(w, target, STAGING) && Removing(w, n, w') ::
            PowerSafe(window + [w'], target, trees))
       <==> !Exposed(window, w, target, trees)
  {
    OursNamed(w, target, STAGING);
    hide PowerSafe, VolumeAt, Injective, Ours, OnlyRemoved;
    if Exposed(window, w, target, trees) {
      var i, n :| 0 <= i < |window| && n in Ours(w, target, STAGING)
        && VolumeAt(window[i], target, w.names[n]) && Spoils(TreeOf(w, w.names[n]), trees);
      var w' := ExposedIsLost(window, w, target, trees, i, n);
    } else {
      InjectiveWhenSafe(window, w, target, trees);
      forall n, w' | n in Ours(w, target, STAGING) && Removing(w, n, w')
        ensures PowerSafe(window + [w'], target, trees)
      {
        RemovingIsRemoved(w, n, w', Ours(w, target, STAGING));
        ClearingIsSafe(window, w, window + [w'], target, trees);
      }
    }
  }

  lemma OursNamed(w: World, target: string, prefix: string)
    ensures Ours(w, target, prefix) <= w.names.Keys
  {}

  lemma InjectiveWhenSafe(window: seq<World>, w: World, target: string, trees: set<Tree>)
    requires PowerSafe(window, target, trees) && w in window
    ensures Injective(w.names)
  {
    SafeNow(window, w, target, trees);
    hide PowerSafe;
  }

  /** A moment of the removal of an exposed directory after which a power loss leaves nothing. */
  lemma ExposedIsLost(window: seq<World>, w: World, target: string, trees: set<Tree>, i: nat, n: string)
    returns (w': World)
    requires i < |window| && n in Ours(w, target, STAGING)
    requires VolumeAt(window[i], target, w.names[n]) && Spoils(TreeOf(w, w.names[n]), trees)
    ensures Removing(w, n, w') && !Recoverable(Mix(window[i], w'), target, trees)
            && !PowerSafe(window + [w'], target, trees)
  {
    hide VolumeAt;
    var x := w.names[n];
    var part: Tree :| Part(part, TreeOf(w, x)) && part !in trees;
    w' := if x in w.trees then w.(trees := w.trees[x := part]) else w;
    assert TreeOf(w', x) == part;
    RecoverableMix(window[i], w', target, trees);
    forall o | VolumeAt(window[i], target, o) ensures TreeOf(w', o) !in trees {
      OneVolumeEach(window[i], target, o, x);
    }
    var longer := window + [w'];
    assert longer[i] == window[i] && longer[|window|] == w';
  }

  /** Removing a directory that is no bystander. */
  lemma RemovingSpares(k: Stake, w: World, name: string, w': World)
    requires Spared(k, w) && Injective(w.names) && name in w.names && !Bystander(k, name) && Removing(w, name, w')
    ensures Spared(k, w')
  {
    hide Spared, Bystander;
    StillSpared(k, w, w', {name});
  }

  lemma WritingSpares(k: Stake, w: World, name: string, w': World)
    requires Spared(k, w) && Injective(w.names) && name in w.names && !Bystander(k, name) && Writing(w, name, w')
    ensures Spared(k, w')
  {
    hide Spared, Bystander;
    StillSpared(k, w, w', {name});
  }

  /** Removing a directory other than the volume, with the stake in the volume alone. */
  lemma StakeKept(k: Stake, w0: World, window0: seq<World>, name: string, window1: seq<World>)
    requires HeldAll(k, window0) && window0 != [] && window0[|window0| - 1] == w0
    requires k.target in w0.names && name in w0.names && name != k.target
    requires k.newOk ==> k.oldOk ==> false
    requires |window0| <= |window1| && window1[..|window0|] == window0
    requires forall i :: |window0| <= i < |window1| ==> Removing(w0, name, window1[i])
    ensures HeldAll(k, window1)
  {
    assert Held(k, w0);
    forall i | |window0| <= i < |window1| ensures Calm(k, w0, window1[i]) {
      RemovingIsCalm(k, w0, name, window1[i]);
    }
    RecordedRun(k, window0, w0, window1);
  }

  // ---- Before the extracted data is on disk ------------------------------------------------------------

  ghost predicate NothingReplaced(k: Stake, w: World) {
    k.marks ==> Ours(w, k.target, REPLACED) == {}
  }

  lemma MadeForStaging(target: string, name: string)
    requires MadeByMkdirTemp(name, target + STAGING)
    ensures !MadeByMkdirTemp(name, target + REPLACED)
  {
    if MadeByMkdirTemp(name, target + REPLACED) { OneOwner(name, target, STAGING, target, REPLACED); }
  }

  lemma VolumeNotReplaced(target: string)
    ensures !MadeByMkdirTemp(target, target + REPLACED)
  {
    NotTheVolume(target, REPLACED);
  }

  /** The volume is where and what it was, bystanders are spared, and on a filesystem that
      holds marks the promise is kept. */
  ghost predicate Waiting(d: Disk, k: Stake, p: Promise)
    reads d
  {
    && d.Sound() && k.target == d.target && Spared(k, d.world)
    && k.target in d.world.names && d.world.names[k.target] == k.o && TreeOf(d.world, k.o) == k.orig
    && (k.marks ==> d.holdsMarks && k.orig in p.trees && k.full in p.trees && d.Safe(p))
  }

  /** The inode is not the volume in any state a power loss could bring back. */
  ghost predicate Unused(window: seq<World>, target: string, id: Id) {
    forall i | 0 <= i < |window| :: !VolumeAt(window[i], target, id)
  }

  /** And beside it is a staging directory, of no bearing on any volume. */
  ghost predicate Staged(d: Disk, k: Stake, p: Promise, staging: string)
    reads d
  {
    && Waiting(d, k, p)
    && staging in d.world.names && staging != k.target && !Bystander(k, staging)
    && d.world.names[staging] != k.o && (k.marks ==> Unused(d.window, k.target, d.world.names[staging]))
  }

  /** The volume stays, and no contents change but those of inode id. */
  ghost predicate Beside(target: string, w0: World, w: World, id: Id) {
    && Injective(w.names) && target in w0.names && target in w.names && w.names[target] == w0.names[target]
    && forall x :: x != id ==> TreeOf(w, x) == TreeOf(w0, x)
  }

  lemma BesideIsSteady(window: seq<World>, w0: World, w: World, id: Id, target: string, trees: set<Tree>)
    requires PowerSafe(window, target, trees) && window != [] && window[|window| - 1] == w0 && Injective(w0.names)
    requires Beside(target, w0, w, id) && Unused(window, target, id)
    ensures Steady(window, w0, w, target, trees)
  {
    hide VolumeAt, SameVolume, PowerSafe, TreeOf, Injective;
    VolumeByName(w0, w, target);
    forall i, o | 0 <= i < |window| && VolumeAt(window[i], target, o) ensures TreeOf(w, o) in trees {
      VolumeIntact(window, i, o, |window| - 1, target, trees);
    }
  }

  lemma BesideIsUnused(window0: seq<World>, w0: World, window1: seq<World>, id: Id, target: string)
    requires Unused(window0, target, id) && window0 <= window1 && target in w0.names && w0.names[target] != id
    requires forall i :: |window0| <= i < |window1| ==> Beside(target, w0, window1[i], id)
    ensures Unused(window1, target, id)
  {
    forall i | 0 <= i < |window1| ensures !VolumeAt(window1[i], target, id) {
      if i >= |window0| {
        assert Beside(target, w0, window1[i], id);
      } else {
        assert window1[i] == window0[i];
      }
    }
  }

  /** Steps beside the volume keep everything as it is waited for. */
  lemma BesideSteps(d: Disk, k: Stake, p: Promise, w0: World, window0: seq<World>, trail0: seq<World>, id: Id)
    requires d.Sound() && d.Passed(window0, trail0) && k.target == d.target && Spared(k, d.world)
    requires window0 != [] && window0[|window0| - 1] == w0 && Injective(w0.names)
    requires k.target in w0.names && w0.names[k.target] == k.o && TreeOf(w0, k.o) == k.orig && id != k.o
    requires forall i :: |window0| <= i < |d.window| ==> Beside(k.target, w0, d.window[i], id)
    requires Beside(k.target, w0, d.world, id)
    requires k.marks ==>
      && d.holdsMarks && k.orig in p.trees && k.full in p.trees
      && PowerSafe(window0, d.target, p.trees) && Kept(d.epochs, trail0, d.start, d.target, p)
      && Unused(window0, k.target, id)
    ensures Waiting(d, k, p) && (k.marks ==> Unused(d.window, k.target, id))
  {
    hide PowerSafe, Kept, Spared, Unused, Steady;
    if k.marks {
      forall i | |window0| <= i < |d.window| ensures Steady(window0, w0, d.window[i], k.target, p.trees) {
        BesideIsSteady(window0, w0, d.window[i], id, k.target, p.trees);
      }
      SteadyOn(window0, w0, d.window, k.target, p.trees);
      BesideIsUnused(window0, w0, d.window, id, k.target);
      StillKept(d.epochs, trail0, d.start, d.target, p, d.trail);
    }
  }

  /** An inode not yet given out is no volume. */
  lemma NewIsUnused(window: seq<World>, target: string, next: Id)
    requires forall w | w in window :: Below(w.names, next)
    ensures Unused(window, target, next)
  {
    forall i | 0 <= i < |window| ensures !VolumeAt(window[i], target, next) {
      assert window[i] in window;
    }
  }

  /** A new, empty, claimed directory beside the volume, carrying the volume's identity.
      Half-built ones are taken away again. */
  method CreateStagingLike(d: Disk, ghost k: Stake, ghost p: Promise) returns (staging: Option<string>)
    requires Waiting(d, k, p) && NothingReplaced(k, d.world)
    modifies d
    ensures old(d.trail) <= d.trail
    ensures Waiting(d, k, p) && NothingReplaced(k, d.world)
    ensures staging.Some? ==> Staged(d, k, p, staging.value)
    ensures d.Counted(old(d.faults), staging.Some?)
    ensures staging.Some? ==> OneMoreName(old(d.world), d.world, staging.value)
    ensures d.gap == old(d.gap)
    ensures staging.None? && d.faults == old(d.faults) + 1 ==> d.world.names.Keys == old(d.world.names.Keys)
  {
    hide Kept, PowerSafe, MadeByMkdirTemp, Spared, Bystander, Unused, Injective, Below, Ours;
    staging := ReserveStaging(d, k, p);
    if staging.None? { return; }
    var claimed := ClaimStaging(d, staging.value, k, p);
    // Owner, mode, label and attributes are copied here; any of it may fail.
    var copied := d.Attempt();
    if !copied {
      DiscardStaging(d, staging.value, k, p);
      return None;
    }
    StagedWaits(d, k, p, staging.value);
  }

  lemma StagedWaits(d: Disk, k: Stake, p: Promise, staging: string)
    requires Staged(d, k, p, staging)
    ensures Waiting(d, k, p) && d.Sound() && staging in d.world.names
  {
    hide Waiting, Unused;
    assert d.Sound() by { WaitingSound(d, k, p); }
  }

  lemma WaitingSound(d: Disk, k: Stake, p: Promise)
    requires Waiting(d, k, p)
    ensures d.Sound()
  {}

  lemma StagingAdded(w0: World, w: World, target: string, name: string)
    requires MadeByMkdirTemp(name, target + STAGING) && name !in w0.names && name in w.names
    requires w.names == w0.names[name := w.names[name]] && w.marks == w0.marks
    ensures Ours(w, target, REPLACED) == Ours(w0, target, REPLACED)
  {
    MadeForStaging(target, name);
    hide MadeByMkdirTemp;
  }

  method ReserveStaging(d: Disk, ghost k: Stake, ghost p: Promise) returns (staging: Option<string>)
    requires Waiting(d, k, p) && NothingReplaced(k, d.world)
    modifies d
    ensures old(d.trail) <= d.trail
    ensures NothingReplaced(k, d.world)
    ensures staging.None? ==> Waiting(d, k, p)
    ensures staging.Some? ==> Staged(d, k, p, staging.value) && MadeByMkdirTemp(staging.value, d.target + STAGING)
    ensures d.Counted(old(d.faults), staging.Some?)
    ensures staging.Some? ==> OneMoreName(old(d.world), d.world, staging.value)
    ensures d.gap == old(d.gap)
    ensures staging.None? ==> d.world == old(d.world)
  {
    hide Kept, PowerSafe, MadeByMkdirTemp, Spared, Bystander, Unused, Ours;
    ghost var w0, window0, trail0, id := d.world, d.window, d.trail, d.next;
    staging := d.MkdirTemp(STAGING);
    if staging.None? {
      assert d.trail == trail0;
      return;
    }
    var name := staging.value;
    StagingIsNotVolume(d, name);
    NewIsUnused(window0, k.target, id);
    NewIsNoBystander(k, w0, name);
    StillSpared(k, w0, d.world, {name});
    StagingAdded(w0, d.world, d.target, name);
    BesideSteps(d, k, p, w0, window0, trail0, id);
  }

  method ClaimStaging(d: Disk, staging: string, ghost k: Stake, ghost p: Promise) returns (ok: bool)
    requires Staged(d, k, p, staging) && NothingReplaced(k, d.world) && MadeByMkdirTemp(staging, d.target + STAGING)
    modifies d
    ensures old(d.trail) <= d.trail
    ensures Staged(d, k, p, staging) && NothingReplaced(k, d.world)
    ensures d.faults == old(d.faults) && d.world.names == old(d.world.names)
    ensures d.gap == old(d.gap)
  {
    MadeForStaging(d.target, staging);
    hide Kept, PowerSafe, MadeByMkdirTemp, Spared, Bystander, Unused;
    ghost var w0, window0, trail0 := d.world, d.window, d.trail;
    ok := d.MarkAsOurs(staging);
    StillSpared(k, w0, d.world, {});
    assert Ours(d.world, d.target, REPLACED) == Ours(w0, d.target, REPLACED);
    BesideSteps(d, k, p, w0, window0, trail0, w0.names[staging]);
  }

  lemma RemovingIsBeside(target: string, w0: World, name: string, w: World)
    requires name in w0.names && Removing(w0, name, w) && Injective(w0.names) && target in w0.names && name != target
    ensures Beside(target, w0, w, w0.names[name]) && Ours(w, target, REPLACED) <= Ours(w0, target, REPLACED)
  {
    hide MadeByMkdirTemp;
  }

  lemma WritingIsBeside(target: string, w0: World, name: string, w: World)
    requires name in w0.names && Writing(w0, name, w) && Injective(w0.names) && target in w0.names && name != target
    ensures Beside(target, w0, w, w0.names[name]) && Ours(w, target, REPLACED) == Ours(w0, target, REPLACED)
  {
    hide MadeByMkdirTemp;
  }

  /** Removes staging after a failure; the volume was never touched. */
  method DiscardStaging(d: Disk, staging: string, ghost k: Stake, ghost p: Promise)
    requires Staged(d, k, p, staging)
    modifies d
    ensures old(d.trail) <= d.trail
    ensures Waiting(d, k, p) && (old(NothingReplaced(k, d.world)) ==> NothingReplaced(k, d.world))
    ensures old(d.faults) <= d.faults
    ensures d.faults == old(d.faults) ==> OneNameLess(old(d.world), d.world, staging)
    ensures d.gap == old(d.gap)
  {
    hide Kept, PowerSafe, Spared, Bystander, Unused, Removing, Beside;
    ghost var w0, window0, trail0 := d.world, d.window, d.trail;
    var removed := d.RemoveScratchDir(staging);
    forall i | |window0| <= i < |d.window| ensures Beside(k.target, w0, d.window[i], w0.names[staging]) {
      RemovingIsBeside(k.target, w0, staging, d.window[i]);
    }
    RemovingIsBeside(k.target, w0, staging, d.world);
    RemovingSpares(k, w0, staging, d.world);
    BesideSteps(d, k, p, w0, window0, trail0, w0.names[staging]);
  }

  method ExtractInto(d: Disk, staging: string, full: Tree, ghost k: Stake, ghost p: Promise) returns (ok: bool)
    requires Staged(d, k, p, staging) && NothingReplaced(k, d.world)
    modifies d
    ensures old(d.trail) <= d.trail
    ensures Staged(d, k, p, staging) && NothingReplaced(k, d.world)
    ensures ok ==> TreeOf(d.world, d.world.names[staging]) == full
    ensures d.Counted(old(d.faults), ok) && d.world.names == old(d.world.names)
    ensures d.gap == old(d.gap)
  {
    hide Kept, PowerSafe, Spared, Bystander, Unused, Beside;
    ghost var w0, window0, trail0 := d.world, d.window, d.trail;
    ok := d.Extract(staging, full);
    forall i | |window0| <= i < |d.window| ensures Beside(k.target, w0, d.window[i], w0.names[staging]) {
      WritingIsBeside(k.target, w0, staging, d.window[i]);
    }
    WritingIsBeside(k.target, w0, staging, d.world);
    WritingSpares(k, w0, staging, d.world);
    BesideSteps(d, k, p, w0, window0, trail0, w0.names[staging]);
  }

  /** Puts both trees on disk. From here on the stake is both of them. */
  method FlushStaged(d: Disk, staging: string, ghost k: Stake, ghost both: Stake, ghost p: Promise) returns (ok: bool)
    requires Staged(d, k, p, staging) && NothingReplaced(k, d.world)
             && TreeOf(d.world, d.world.names[staging]) == k.full
    requires k.oldOk && both == k.(s := d.world.names[staging], newOk := true)
    modifies d
    ensures d.trail == old(d.trail) && d.world == old(d.world)
    ensures if ok then ReadyToSwap(d, both, p, staging) else Staged(d, k, p, staging)
    ensures d.Counted(old(d.faults), ok)
    ensures d.gap == old(d.gap)
  {
    hide Kept, PowerSafe, Spared, Bystander, Unused;
    ghost var epochs0, window0, start0 := d.epochs, d.window, d.start;
    SameBystanders(k, both);
    ok := d.SyncStagedData();
    if ok && k.marks { CloseWindow(epochs0, d.trail, start0, window0, d.target, p); }
  }

  // ---- The swap ----------------------------------------------------------------------------------

  datatype SwapResult = Swapped(displaced: string) | Unswapped | LeftStranded(displaced: string)

  /** Where the two inodes are after each result of the swap. */
  ghost predicate Landed(k: Stake, w: World, staging: string, r: SwapResult) {
    match r
    case Swapped(displaced) =>
      && k.target in w.names && w.names[k.target] == k.s
      && displaced != k.target && displaced in w.names && w.names[displaced] == k.o && !Bystander(k, displaced)
    case Unswapped =>
      && k.target in w.names && w.names[k.target] == k.o
      && staging in w.names && w.names[staging] == k.s
    case LeftStranded(displaced) =>
      && k.target !in w.names
      && staging in w.names && w.names[staging] == k.s
      && displaced in w.names && w.names[displaced] == k.o && !Bystander(k, displaced)
  }

  /** Both trees complete and on disk, the volume still the old one. */
  ghost predicate ReadyToSwap(d: Disk, k: Stake, p: Promise, staging: string)
    reads d
  {
    && Guarded(d, k, p) && k.oldOk && k.newOk && k.o != k.s
    && NothingReplaced(k, d.world) && StillOld(k, d.window)
    && k.target in d.world.names && d.world.names[k.target] == k.o
    && staging in d.world.names && d.world.names[staging] == k.s && staging != k.target && !Bystander(k, staging)
  }

  ghost predicate OneMoreName(w0: World, w: World, name: string) {
    name !in w0.names && w.names.Keys == w0.names.Keys + {name}
  }

  ghost predicate OneNameLess(w0: World, w: World, name: string) { w.names.Keys == w0.names.Keys - {name} }

  /** The name `to` is there in place of `from`. */
  ghost predicate NameSwapped(w0: World, w: World, from: string, to: string) {
    (to == from || to !in w0.names) && w.names.Keys == w0.names.Keys - {from} + {to}
  }

  /** The names are as they were, and the volume's inode is marked only if it was before. */
  ghost predicate Undone(k: Stake, w0: World, w: World) {
    w.names.Keys == w0.names.Keys && (k.o in w.marks ==> k.o in w0.marks)
  }

  /** No name has come that a later run would take for a leftover of this one. */
  ghost predicate NoneStaged(names0: set<string>, w: World, target: string) {
    forall n | n in w.names && n !in names0 :: !MadeByMkdirTemp(n, target + STAGING)
  }

  /** What clearing takes away when nothing fails. */
  ghost function Clearable(d: Disk): set<string>
    reads d
  {
    if d.canList && d.canRead then Ours(d.world, d.target, STAGING) else {}
  }

  lemma AllRemoved(w0: World, w: World, target: string)
    requires OnlyRemoved(w0, w, Ours(w0, target, STAGING))
    ensures w.names.Keys <= w0.names.Keys
    ensures Ours(w, target, STAGING) == {} ==> w.names.Keys == w0.names.Keys - Ours(w0, target, STAGING)
  {
    hide MadeByMkdirTemp;
    if Ours(w, target, STAGING) == {} {
      forall n | n in Ours(w0, target, STAGING) ensures n !in w.names {
        assert n !in Ours(w, target, STAGING);
      }
    }
  }

  /** An extract of nothing at all, where the archive holds something. */
  predicate Refused(allowEmpty: bool, full: Tree) { full == map[] && !allowEmpty }

  /** What is found outside the directory between the extract and the swap: whether staging
      could be made read-only where the volume is, and whether nothing has come to use the
      volume since. */
  datatype Checks = Checks(readOnlyMatched: bool, stillSafe: bool)

  /** How a restore ends when no call fails. */
  ghost predicate Wanted(allowEmpty: bool, full: Tree, checks: Checks, r: Outcome) {
    if Refused(allowEmpty, full) || !checks.readOnlyMatched then r == Untouched(None)
    else if !checks.stillSafe then r.Untouched? && r.kept.Some?
    else r == Restored
  }

  /** The copy that the outcome says is kept. */
  function KeptBy(r: Outcome): set<string> { if r.Untouched? && r.kept.Some? then {r.kept.value} else {} }

  lemma FewerMarks(w: World, w': World, target: string)
    requires w'.names == w.names && w'.marks <= w.marks
    ensures Ours(w', target, REPLACED) <= Ours(w, target, REPLACED)
  {
    hide MadeByMkdirTemp;
  }

  lemma MarkVolume(w: World, w': World, target: string)
    requires target in w.names && Injective(w.names)
    requires w' == w || w' == w.(marks := w.marks + {w.names[target]})
    ensures Ours(w', target, REPLACED) == Ours(w, target, REPLACED)
    ensures forall id :: TreeOf(w', id) == TreeOf(w, id)
  {
    VolumeNotReplaced(target);
    hide MadeByMkdirTemp;
  }

  lemma SoundNames(d: Disk)
    requires d.Sound()
    ensures Injective(d.world.names)
  {}

  lemma SameTrees(w: World, w': World)
    requires w'.trees == w.trees
    ensures forall id :: TreeOf(w', id) == TreeOf(w, id)
  {}

  /** Makes staging the volume and says where the old data went. */
  method SwapIntoPlace(d: Disk, staging: string, ghost k: Stake, ghost p: Promise) returns (r: SwapResult)
    requires ReadyToSwap(d, k, p, staging)
    modifies d
    ensures old(d.trail) <= d.trail
    ensures Guarded(d, k, p) && Landed(k, d.world, staging, r)
    ensures r.Unswapped? ==> StillOld(k, d.window)
    ensures old(d.faults) <= d.faults && (!r.Swapped? ==> old(d.faults) < d.faults)
    ensures r.Swapped? ==> NameSwapped(old(d.world), d.world, staging, r.displaced)
    ensures d.exchanges ==> d.gap == old(d.gap)
    ensures r.Unswapped? && d.faults == old(d.faults) + 1 ==> Undone(k, old(d.world), d.world)
    ensures r.LeftStranded? ==> !d.exchanges && old(d.faults) + 2 <= d.faults
  {
    hide Promising, Kept, MadeByMkdirTemp, HeldAll, Held, StillOld, Ours, Spared, Bystander, Disk.Sound;
    ghost var w0 := d.world;
    SoundNames(d);
    var claimed := Claim(d, d.target, k, p);
    MarkVolume(w0, d.world, d.target);
    ghost var w1 := d.world;
    var exchanged := ExchangeIn(d, staging, k, p);
    if exchanged == Exchanged { return Swapped(staging); }
    if claimed {
      var cleared := Disclaim(d, d.target, k, p);
      FewerMarks(w1, d.world, d.target);
    }
    if exchanged == RestoreDisk.Failed { return Unswapped; }
    r := SwapByRenamePair(d, staging, k, p);
  }

  method ExchangeIn(d: Disk, staging: string, ghost k: Stake, ghost p: Promise) returns (r: ExchangeResult)
    requires Guarded(d, k, p) && k.oldOk && k.newOk && StillOld(k, d.window)
    requires InPlace(d, k) && d.world.names[k.target] == k.o
    requires staging in d.world.names && d.world.names[staging] == k.s && staging != k.target && !Bystander(k, staging)
    modifies d
    ensures old(d.trail) <= d.trail
    ensures Guarded(d, k, p) && (!r.Exchanged? ==> d.world == old(d.world) && StillOld(k, d.window))
    ensures r.Exchanged? ==> Landed(k, d.world, staging, Swapped(staging))
    ensures d.Counted(old(d.faults), !r.Failed?) && (r.Unsupported? <==> !d.exchanges)
    ensures r.Exchanged? ==> d.world.names.Keys == old(d.world.names.Keys)
    ensures d.gap == old(d.gap)
  {
    hide Promising, Kept, MadeByMkdirTemp, HeldAll, Held, StillOld, Ours, Spared, Bystander;
    ghost var w0, window0, trail0 := d.world, d.window, d.trail;
    r := d.Exchange(staging, d.target);
    if k.marks { StillPromising(k, p, d.epochs, trail0, d.start, d.trail); }
    if r.Exchanged? {
      LastHeld(k, window0, w0);
      NewVolume(k, w0, d.world);
      Continued(k, window0, d.world, d.window);
      VolumeNoBystander(k);
      StillSpared(k, w0, d.world, {staging, d.target});
    }
  }

  /** The pair of renames for filesystems without the exchange. */
  method SwapByRenamePair(d: Disk, staging: string, ghost k: Stake, ghost p: Promise) returns (r: SwapResult)
    requires ReadyToSwap(d, k, p, staging)
    modifies d
    ensures old(d.trail) <= d.trail
    ensures Guarded(d, k, p) && Landed(k, d.world, staging, r)
    ensures r.Swapped? ==> MadeByMkdirTemp(r.displaced, d.target + REPLACED)
    ensures r.Unswapped? ==> StillOld(k, d.window)
    ensures d.Counted(old(d.faults), r.Swapped?)
    ensures r.Swapped? ==> NameSwapped(old(d.world), d.world, staging, r.displaced)
    ensures r.Unswapped? && d.faults == old(d.faults) + 1 ==> Undone(k, old(d.world), d.world)
    ensures r.LeftStranded? ==> old(d.faults) + 2 <= d.faults
  {
    hide Promising, Injective, Below, Kept, MadeByMkdirTemp, HeldAll, Held, StillOld, Ours, Spared, Bystander,
        Disk.Sound;
    ghost var w0, next0 := d.world, d.next;
    var reserved := Reserve(d, REPLACED, k, p);
    if reserved.None? { return Unswapped; }
    var displaced := reserved.value;
    ReserveUnmarked(k, w0, displaced, next0, d.world);
    ghost var w1 := d.world;
    SoundNames(d);
    var marked := Claim(d, displaced, k, p);
    if marked { ReserveMarked(k, w1, displaced, d.world); }
    r := MoveAside(d, displaced, staging, k, p);
  }

  /** The first rename, onto the reserved name and with the volume claimed beforehand. */
  method MoveAside(d: Disk, displaced: string, staging: string, ghost k: Stake, ghost p: Promise)
    returns (r: SwapResult)
    requires Guarded(d, k, p) && k.oldOk && k.newOk && k.o != k.s && StillOld(k, d.window)
    requires InPlace(d, k) && d.world.names[k.target] == k.o && displaced in d.world.names && displaced != d.target
    requires staging in d.world.names && d.world.names[staging] == k.s && staging != k.target && staging != displaced
    requires !Bystander(k, staging) && !Bystander(k, displaced)
    requires TreeOf(d.world, d.world.names[displaced]) == map[]
    requires k.marks ==> Ours(d.world, k.target, REPLACED) == {displaced}
    modifies d
    ensures old(d.trail) <= d.trail
    ensures Guarded(d, k, p) && Landed(k, d.world, staging, r)
    ensures r.Swapped? ==> r.displaced == displaced
    ensures r.Unswapped? ==> StillOld(k, d.window)
    ensures d.Counted(old(d.faults), r.Swapped?)
    ensures r.Swapped? ==> d.world.names.Keys == old(d.world.names.Keys) - {staging}
    ensures r.Unswapped? && d.faults == old(d.faults) + 1 ==>
              d.world.names.Keys == old(d.world.names.Keys) - {displaced} && k.o !in d.world.marks
    ensures r.LeftStranded? ==> old(d.faults) + 2 <= d.faults
  {
    hide Promising, Kept, Injective, Below, TreeOf, MadeByMkdirTemp, HeldAll, Held, StillOld, Ours, Spared, Bystander,
        Disk.Sound;
    ghost var w2 := d.world;
    SoundNames(d);
    var claimed := Claim(d, d.target, k, p);
    MarkVolume(w2, d.world, d.target);
    var moved := RenameAside(d, displaced, k, p);
    if !moved {
      StayPut(d, displaced, k, p);
      return Unswapped;
    }
    r := MoveIn(d, displaced, staging, k, p);
  }

  /** The volume did not move: neither the claim on it nor the reserved name is wanted. */
  method StayPut(d: Disk, displaced: string, ghost k: Stake, ghost p: Promise)
    requires Guarded(d, k, p) && StillOld(k, d.window)
    requires InPlace(d, k) && d.world.names[k.target] == k.o && displaced in d.world.names && displaced != d.target
    requires !Bystander(k, displaced) && TreeOf(d.world, d.world.names[displaced]) == map[]
    modifies d
    ensures old(d.trail) <= d.trail && old(d.faults) <= d.faults
    ensures Guarded(d, k, p) && StillOld(k, d.window) && InPlace(d, k)
    ensures d.world.names == old(d.world.names) || d.world.names == old(d.world.names) - {displaced}
    ensures d.faults == old(d.faults) ==>
              d.world.names == old(d.world.names) - {displaced} && k.o !in d.world.marks
  {
    hide Promising, Kept, Injective, Below, TreeOf, MadeByMkdirTemp, HeldAll, Held, StillOld, Ours, Spared, Bystander,
         Disk.Sound;
    ghost var w3 := d.world;
    var cleared := Disclaim(d, d.target, k, p);
    SameTrees(w3, d.world);
    var removed := RemoveEmpty(d, displaced, k, p);
  }

  method RenameAside(d: Disk, displaced: string, ghost k: Stake, ghost p: Promise) returns (moved: bool)
    requires Guarded(d, k, p) && k.oldOk && StillOld(k, d.window)
    requires InPlace(d, k) && d.world.names[k.target] == k.o && displaced in d.world.names && displaced != d.target
    requires !Bystander(k, displaced)
    requires k.marks ==> Ours(d.world, k.target, REPLACED) == {displaced} && k.o in d.world.marks
    modifies d
    ensures old(d.trail) <= d.trail
    ensures Guarded(d, k, p) && StillOld(k, d.window)
    ensures d.world == if moved then old(d.world).(names := (old(d.world.names) - {k.target})[displaced := k.o])
                       else old(d.world)
    ensures old(d.faults) <= d.faults && (moved ==> d.faults == old(d.faults))
    ensures !moved && TreeOf(old(d.world), old(d.world.names)[displaced]) == map[] ==> old(d.faults) < d.faults
  {
    hide Promising, Kept, MadeByMkdirTemp, HeldAll, Held, StillOld, Ours, Spared, Bystander;
    ghost var w0, window0, trail0 := d.world, d.window, d.trail;
    moved := d.Renameat(d.target, displaced);
    if k.marks { StillPromising(k, p, d.epochs, trail0, d.start, d.trail); }
    if !moved { return; }
    LastHeld(k, window0, w0);
    MovedAside(k, w0, displaced, d.world);
    Continued(k, window0, d.world, d.window);
    VolumeNoBystander(k);
    StillSpared(k, w0, d.world, {displaced, d.target});
  }

  /** The second rename, undone by a third when it fails. */
  method MoveIn(d: Disk, displaced: string, staging: string, ghost k: Stake, ghost p: Promise) returns (r: SwapResult)
    requires Guarded(d, k, p) && k.oldOk && k.newOk && StillOld(k, d.window)
    requires Landed(k, d.world, staging, LeftStranded(displaced)) && displaced != d.target && staging != displaced
             && !Bystander(k, staging)
    modifies d
    ensures old(d.trail) <= d.trail
    ensures Guarded(d, k, p) && Landed(k, d.world, staging, r)
    ensures r.Swapped? ==> r.displaced == displaced
    ensures r.Unswapped? ==> StillOld(k, d.window)
    ensures d.Counted(old(d.faults), r.Swapped?)
    ensures r.Swapped? ==> d.world.names.Keys == old(d.world.names.Keys) - {staging} + {d.target}
    ensures r.Unswapped? && d.faults == old(d.faults) + 1 ==>
              d.world.names.Keys == old(d.world.names.Keys) - {displaced} + {d.target} && k.o !in d.world.marks
    ensures r.LeftStranded? ==> old(d.faults) + 2 <= d.faults
  {
    hide Promising, Kept, MadeByMkdirTemp, HeldAll, Held, StillOld, Ours, Spared, Bystander, Disk.Sound;
    var promoted := RenameIn(d, staging, k, p);
    if promoted { return Swapped(displaced); }
    var back := RenameBack(d, displaced, k, p);
    if !back { return LeftStranded(displaced); }
    var cleared := Disclaim(d, d.target, k, p);
    return Unswapped;
  }

  method RenameIn(d: Disk, staging: string, ghost k: Stake, ghost p: Promise) returns (moved: bool)
    requires Guarded(d, k, p) && k.oldOk && k.newOk && !InPlace(d, k)
    requires staging in d.world.names && d.world.names[staging] == k.s && staging != d.target && !Bystander(k, staging)
    modifies d
    ensures old(d.trail) <= d.trail
    ensures Guarded(d, k, p) && (!moved ==> d.window == old(d.window))
    ensures d.world == if moved then old(d.world).(names := (old(d.world.names) - {staging})[k.target := k.s])
                       else old(d.world)
    ensures d.Counted(old(d.faults), moved)
  {
    hide Promising, Kept, MadeByMkdirTemp, HeldAll, Held, StillOld, Ours, Spared, Bystander;
    ghost var w0, window0, trail0 := d.world, d.window, d.trail;
    moved := d.Rename(staging, d.target);
    if k.marks { StillPromising(k, p, d.epochs, trail0, d.start, d.trail); }
    if moved {
      LastHeld(k, window0, w0);
      VolumeNoBystander(k);
      NewVolume(k, w0, d.world);
      Continued(k, window0, d.world, d.window);
      StillSpared(k, w0, d.world, {staging, d.target});
    }
  }

  method RenameBack(d: Disk, displaced: string, ghost k: Stake, ghost p: Promise) returns (moved: bool)
    requires Guarded(d, k, p) && k.oldOk && StillOld(k, d.window) && !InPlace(d, k)
    requires displaced in d.world.names && d.world.names[displaced] == k.o && displaced != d.target
             && !Bystander(k, displaced)
    modifies d
    ensures old(d.trail) <= d.trail
    ensures Guarded(d, k, p) && StillOld(k, d.window)
    ensures d.world == if moved then old(d.world).(names := (old(d.world.names) - {displaced})[k.target := k.o])
                       else old(d.world)
    ensures d.Counted(old(d.faults), moved)
  {
    hide Promising, Kept, MadeByMkdirTemp, HeldAll, Held, StillOld, Ours, Spared, Bystander;
    ghost var w0, window0, trail0 := d.world, d.window, d.trail;
    moved := d.Rename(displaced, d.target);
    if k.marks { StillPromising(k, p, d.epochs, trail0, d.start, d.trail); }
    if moved {
      LastHeld(k, window0, w0);
      VolumeNoBystander(k);
      OldVolume(k, w0, d.world);
      Continued(k, window0, d.world, d.window);
      StillSpared(k, w0, d.world, {displaced, d.target});
    }
  }

  lemma VolumeNoBystander(k: Stake)
    ensures !Bystander(k, k.target)
  {}

  lemma LastHeld(k: Stake, window: seq<World>, w: World)
    requires HeldAll(k, window) && window != [] && window[|window| - 1] == w
    ensures Held(k, w)
  {}

  lemma NewVolume(k: Stake, w0: World, w: World)
    requires Held(k, w0) && k.oldOk && k.newOk && w.trees == w0.trees && Injective(w.names)
    requires k.target in w.names && w.names[k.target] == k.s
    ensures Held(k, w)
  {}

  lemma OldVolume(k: Stake, w0: World, w: World)
    requires Held(k, w0) && k.oldOk && w.trees == w0.trees && Injective(w.names)
    requires k.target in w.names && w.names[k.target] == k.o
    ensures Held(k, w)
  {}

  lemma ReserveUnmarked(k: Stake, w0: World, displaced: string, reserved: Id, w1: World)
    requires NothingReplaced(k, w0) && displaced !in w0.names
    requires reserved !in w0.marks && w1.names == w0.names[displaced := reserved] && w1.marks == w0.marks
    ensures NothingReplaced(k, w1)
  {
    hide MadeByMkdirTemp;
    assert Ours(w1, k.target, REPLACED) == Ours(w0, k.target, REPLACED);
  }

  lemma ReserveMarked(k: Stake, w1: World, displaced: string, w2: World)
    requires NothingReplaced(k, w1) && displaced in w1.names && Injective(w1.names)
    requires MadeByMkdirTemp(displaced, k.target + REPLACED)
    requires w2 == w1.(marks := w1.marks + {w1.names[displaced]})
    ensures k.marks ==> Ours(w2, k.target, REPLACED) == {displaced}
  {
    hide MadeByMkdirTemp;
  }

  /** The volume's inode, claimed beforehand, is now the one marked replaced directory. */
  lemma MovedAside(k: Stake, w3: World, displaced: string, w: World)
    requires Held(k, w3) && k.oldOk && k.target in w3.names && w3.names[k.target] == k.o
    requires displaced in w3.names && displaced != k.target
    requires k.marks ==> Ours(w3, k.target, REPLACED) == {displaced} && k.o in w3.marks
    requires w == w3.(names := (w3.names - {k.target})[displaced := k.o])
    ensures Held(k, w)
  {
    hide MadeByMkdirTemp;
    if k.marks {
      assert displaced in Ours(w3, k.target, REPLACED);
      assert Ours(w, k.target, REPLACED) == {displaced};
    }
    assert w.names[displaced] == k.o;
  }

  // ---- Keeping a copy ------------------------------------------------------------------------------

  lemma SomeStamp()
    ensures exists stamp: string :: Stamp(stamp)
  {
    assert Stamp("20060102-150405");
  }

  lemma KeptIsNoStaging(target: string, stamp: string, name: string)
    requires Stamp(stamp) && MadeByMkdirTemp(name, target + KeptPrefix(stamp))
    ensures !MadeByMkdirTemp(name, target + STAGING)
  {
    KeptIsPurpose(stamp);
    if MadeByMkdirTemp(name, target + STAGING) { OneOwner(name, target, STAGING, target, KeptPrefix(stamp)); }
  }

  /** Moves a copy that must outlive the run to a kept name. Returns where it is. */
  method RetainOrWarn(d: Disk, from: string, ghost k: Stake, ghost p: Promise) returns (kept: string)
    requires Guarded(d, k, p) && InPlace(d, k)
    requires from in d.world.names && from != d.target && !Bystander(k, from)
    modifies d
    ensures old(d.trail) <= d.trail
    ensures Guarded(d, k, p) && InPlace(d, k)
    ensures d.world.names[d.target] == old(d.world.names)[d.target]
    ensures kept in d.world.names && kept != d.target && d.world.names[kept] == old(d.world.names)[from]
    ensures forall id | id in old(d.world.trees) :: TreeOf(d.world, id) == TreeOf(old(d.world), id)
    ensures old(d.faults) <= d.faults
    ensures d.gap == old(d.gap)
    ensures d.faults == old(d.faults) ==> kept !in old(d.world.names) && !MadeByMkdirTemp(kept, d.target + STAGING)
    ensures d.faults <= old(d.faults) + 1 ==> d.world.names.Keys == old(d.world.names.Keys) - {from} + {kept}
  {
    hide Injective, Below, Held, Ours, Promising, Kept, MadeByMkdirTemp, Stamp, Purpose, KeptPrefix, HeldAll, StillOld,
        Spared, Bystander, Disk.Sound;
    SomeStamp();
    var stamp: string :| Stamp(stamp);
    KeptIsPurpose(stamp);
    var reserved := Reserve(d, KeptPrefix(stamp), k, p);
    if reserved.None? { return from; }
    KeptIsNoStaging(d.target, stamp, reserved.value);
    var moved := RenameBeside(d, from, reserved.value, k, p);
    if !moved {
      var removed := RemoveEmpty(d, reserved.value, k, p);
      return from;
    }
    var _ := Flush(d, k, p);
    return reserved.value;
  }

  /** syncDir where its failure only draws a warning. */
  method Flush(d: Disk, ghost k: Stake, ghost p: Promise) returns (ok: bool)
    requires Guarded(d, k, p)
    modifies d
    ensures old(d.trail) <= d.trail
    ensures Guarded(d, k, p) && d.world == old(d.world)
    ensures ok ==> forall i :: 0 <= i < |d.window| ==> d.window[i].names == d.world.names
    ensures d.Counted(old(d.faults), ok)
    ensures d.gap == old(d.gap)
  {
    hide Kept, PowerSafe, Spared, Bystander, Ours, Held;
    ghost var epochs0, window0, start0 := d.epochs, d.window, d.start;
    if k.marks { HeldSafe(d, k, p); }
    ok := d.SyncDir();
    if ok {
      if k.marks { CloseWindow(epochs0, d.trail, start0, window0, d.target, p); }
      LastHeld(k, window0, d.world);
      PinnedWindow(k, window0, d.world, d.window);
    }
  }

  // ---- The restore -----------------------------------------------------------------------------------

  datatype Outcome =
    | Restored                                        // no error
    | Untouched(kept: Option<string>)                 // an error; a completed extract may be kept
    | StrandedSwap(displaced: string, staging: string)

  /** What each outcome promises about the trees. */
  ghost predicate Delivered(w: World, target: string, orig: Tree, full: Tree, r: Outcome) {
    match r
    case Restored => target in w.names && TreeOf(w, w.names[target]) == full
    case Untouched(kept) =>
      && target in w.names && TreeOf(w, w.names[target]) == orig
      && (kept.Some? ==> kept.value in w.names && kept.value != target && TreeOf(w, w.names[kept.value]) == full)
    case StrandedSwap(displaced, staging) =>
      && target !in w.names
      && displaced in w.names && TreeOf(w, w.names[displaced]) == orig
      && staging in w.names && TreeOf(w, w.names[staging]) == full
  }

  /** The swap did not happen: the extracted tree is a staging directory like any other. */
  lemma GoBack(d: Disk, k: Stake, p: Promise, staging: string)
    requires Guarded(d, k, p) && k.oldOk && k.newOk && k.o != k.s && StillOld(k, d.window)
    requires InPlace(d, k) && d.world.names[k.target] == k.o
    requires staging in d.world.names && d.world.names[staging] == k.s && staging != k.target && !Bystander(k, staging)
    ensures Staged(d, k, p, staging)
  {
    hide Kept, Spared, Bystander, PowerSafe;
    LastHeld(k, d.window, d.world);
    if k.marks {
      HeldSafe(d, k, p);
      forall i | 0 <= i < |d.window| ensures !VolumeAt(d.window[i], k.target, k.s) {
        assert Held(k, d.window[i]);
        if k.target !in d.window[i].names && VolumeAt(d.window[i], k.target, k.s) {
          AwayIsOld(k, d.window[i], k.s);
        }
      }
    }
  }

  /** While the volume is away it is the old inode that was displaced. */
  lemma AwayIsOld(k: Stake, w: World, x: Id)
    requires Held(k, w) && k.marks && k.target !in w.names && VolumeAt(w, k.target, x)
    ensures x == k.o
  {
    HeldVolume(k.(newOk := false), w, x) by { SameStake(k, k.(newOk := false), w); }
  }

  /** With the volume away only the old inode counts. */
  lemma SameStake(j: Stake, k: Stake, w: World)
    requires Held(j, w) && j.oldOk && k == j.(newOk := false) && j.target !in w.names
    ensures Held(k, w)
  {
    SameDisplaced(j, k, w);
  }

  lemma SameDisplaced(k: Stake, back: Stake, w: World)
    requires Displaced(k, w) && back.o == k.o && back.marks == k.marks && back.target == k.target
    ensures Displaced(back, w)
  {
    var d :| d in w.names && w.names[d] == k.o && (k.marks ==> Ours(w, k.target, REPLACED) == {d});
    assert d in w.names && w.names[d] == back.o;
  }

  /** Once the swap itself is on disk, only the new tree is at stake. */
  lemma OnlyNew(d: Disk, k: Stake, p: Promise)
    requires Guarded(d, k, p) && k.newOk && InPlace(d, k) && d.world.names[k.target] == k.s
    requires forall i :: 0 <= i < |d.window| ==> d.window[i].names == d.world.names
    ensures Guarded(d, k.(oldOk := false), p)
  {
    hide Kept, MadeByMkdirTemp;
    SameBystanders(k, k.(oldOk := false));
    forall i | 0 <= i < |d.window| ensures Held(k.(oldOk := false), d.window[i]) {
      assert Held(k, d.window[i]);
    }
  }

  /** Takes the mark off the new volume, makes the swap durable, and only then removes the
      copy it replaced; what cannot be flushed or removed is kept instead. */
  method FinishSwap(d: Disk, displaced: string, ghost k: Stake, ghost p: Promise)
    requires Guarded(d, k, p) && k.oldOk && k.newOk && k.o != k.s
    requires InPlace(d, k) && d.world.names[k.target] == k.s
    requires displaced != k.target && displaced in d.world.names && !Bystander(k, displaced)
    modifies d
    ensures old(d.trail) <= d.trail
    ensures d.Sound() && Spared(k, d.world) && Delivered(d.world, d.target, k.orig, k.full, Restored)
    ensures k.marks ==> d.Safe(p)
    ensures old(d.faults) <= d.faults
    ensures d.faults == old(d.faults) ==> OneNameLess(old(d.world), d.world, displaced)
    ensures d.faults == old(d.faults) ==> d.world.names[d.target] !in d.world.marks
    ensures d.gap == old(d.gap)
    ensures d.faults <= old(d.faults) + 1 ==> NoneStaged(old(d.world.names.Keys) - {displaced}, d.world, d.target)
  {
    hide Promising, Kept, MadeByMkdirTemp, PowerSafe, Spared, Bystander, HeldAll, Disk.Sound;
    var unmarked := Disclaim(d, d.target, k, p);
    var flushed := Flush(d, k, p);
    if !flushed {
      var kept := RetainOrWarn(d, displaced, k, p);
      EndNew(d, k, p);
      return;
    }
    OnlyNew(d, k, p);
    ghost var settled := k.(oldOk := false);
    SameBystanders(k, settled);
    RemoveReplaced(d, displaced, settled, p);
    assert Spared(settled, d.world);
  }

  method RemoveReplaced(d: Disk, displaced: string, ghost k: Stake, ghost p: Promise)
    requires Guarded(d, k, p) && !k.oldOk && k.newOk && InPlace(d, k) && d.world.names[k.target] == k.s
    requires displaced != k.target && displaced in d.world.names && !Bystander(k, displaced)
    modifies d
    ensures old(d.trail) <= d.trail
    ensures d.Sound() && Spared(k, d.world) && Delivered(d.world, d.target, k.orig, k.full, Restored)
    ensures k.marks ==> d.Safe(p)
    ensures old(d.faults) <= d.faults
    ensures d.faults == old(d.faults) ==> OneNameLess(old(d.world), d.world, displaced)
    ensures d.faults == old(d.faults) ==> d.world.marks == old(d.world.marks)
    ensures d.faults == old(d.faults) ==> d.world.names[d.target] == old(d.world.names[d.target])
    ensures d.gap == old(d.gap)
    ensures d.faults <= old(d.faults) + 1 ==> NoneStaged(old(d.world.names.Keys) - {displaced}, d.world, d.target)
  {
    hide Promising, Kept, MadeByMkdirTemp, PowerSafe, Spared, Bystander, HeldAll;
    ghost var w0, window0, trail0 := d.world, d.window, d.trail;
    var removed := d.RemoveScratchDir(displaced);
    if k.marks { StillPromising(k, p, d.epochs, trail0, d.start, d.trail); }
    StakeKept(k, w0, window0, displaced, d.window);
    RemovingSpares(k, w0, displaced, d.world);
    if !removed {
      var kept := RetainOrWarn(d, displaced, k, p);
    }
    EndNew(d, k, p);
  }

  lemma SameBystanders(k: Stake, k': Stake)
    requires k'.beside == k.beside && k'.target == k.target
    ensures forall n :: Bystander(k', n) <==> Bystander(k, n)
    ensures forall w :: Spared(k', w) <==> Spared(k, w)
  {}

  lemma EndNew(d: Disk, k: Stake, p: Promise)
    requires Guarded(d, k, p) && InPlace(d, k) && d.world.names[k.target] == k.s && k.newOk
    ensures Delivered(d.world, d.target, k.orig, k.full, Restored)
    ensures k.marks ==> d.Safe(p)
  {
    LastHeld(k, d.window, d.world);
    if k.marks { HeldSafe(d, k, p); }
    hide Kept, HeldAll;
  }

  /** Extracts beside the volume and swaps. Whatever happens, the outcome tells where the
      complete trees are. On a filesystem that holds marks, with nothing marked left over,
      every state passed through is recoverable; and so is whatever a power loss leaves at any
      moment, if that was so at the start and clearing puts nothing at risk. */
  method RestoreWithSwap(d: Disk, allowEmpty: bool, full: Tree, checks: Checks, ghost p: Promise)
    returns (r: Outcome)
    requires d.Sound() && d.target in d.world.names
    modifies d
    ensures old(d.trail) <= d.trail
    ensures d.Sound()
    ensures Delivered(d.world, d.target, old(TreeOf(d.world, d.world.names[d.target])), full, r)
    ensures forall n | n in old(d.world.names) && n != d.target && n !in old(Ours(d.world, d.target, STAGING)) ::
              n in d.world.names && d.world.names[n] == old(d.world.names)[n]
              && TreeOf(d.world, d.world.names[n]) == old(TreeOf(d.world, d.world.names[n]))
    ensures d.holdsMarks && old(Ours(d.world, d.target, REPLACED)) == {}
            && old(TreeOf(d.world, d.world.names[d.target])) in p.trees
            && (full in p.trees || (full == map[] && !allowEmpty)) ==>
              && AllAlong(d.trail, |old(d.trail)|, d.target, p.trees)
              && (old(d.Safe(p) && !AtRisk(d, p.trees)) ==> d.Safe(p))
    ensures full == map[] && !allowEmpty ==> r == Untouched(None)
    ensures !checks.readOnlyMatched || !checks.stillSafe ==> r.Untouched?
    ensures Ended(old(d.world.names.Keys), old(Clearable(d)), old(d.faults), d, allowEmpty, full, checks, r)
    ensures d.exchanges ==> forall i | |old(d.trail)| <= i < |d.trail| :: d.target in d.trail[i].names
  {
    hide Kept, PowerSafe, MadeByMkdirTemp, HeldAll, Exposed, AllAlong, Spared, Disk.Sound, AtRisk, Ended;
    ghost var o, trail0 := d.world.names[d.target], d.trail;
    ghost var orig := TreeOf(d.world, o);
    // An extract that would be refused never comes to be at stake.
    ghost var stake := if full == map[] && !allowEmpty then orig else full;
    ghost var marks := d.holdsMarks && Ours(d.world, d.target, REPLACED) == {} && orig in p.trees && stake in p.trees;
    NeverMissing(d, |trail0|);
    ghost var k := Stake(d.target, marks, o, o, orig, stake, true, false, d.world);
    ghost var q := p;
    if d.Safe(p) { SafeSince(d, p); }
    if marks && !(d.Safe(p) && !AtRisk(d, p.trees)) {
      q := Promise(|d.epochs|, |d.trail|, p.trees);
      d.StartAfresh();
      BeginsSafe(d, p.trees);
    }
    assert Spared(k, d.world) by { NobodyTouched(k); }
    assert Waiting(d, k, q);
    r := ClearAndRestore(d, allowEmpty, full, checks, k, q);
    if marks { Concluded(d, q, |trail0|); }
    SparedMeans(k, d.world);
    NeverMissing(d, |trail0|);
  }

  lemma NeverMissing(d: Disk, since: nat)
    requires d.Sound()
    ensures d.gap <= |d.trail|
    ensures d.gap <= since ==> forall i | since <= i < |d.trail| :: d.target in d.trail[i].names
  {}

  /** What is kept was neither there nor among what was cleared. */
  lemma ClearableIsStaging(w0: World, target: string, gone: set<string>, names: set<string>)
    requires gone <= Ours(w0, target, STAGING)
    requires forall n | n in names :: n !in w0.names.Keys - gone && !MadeByMkdirTemp(n, target + STAGING)
    ensures forall n | n in names :: n !in w0.names
  {}

  lemma NobodyTouched(k: Stake)
    ensures Spared(k, k.beside)
  {}

  lemma SparedMeans(k: Stake, w: World)
    requires Spared(k, w)
    ensures forall n | n in k.beside.names && n != k.target && n !in Ours(k.beside, k.target, STAGING) ::
              n in w.names && w.names[n] == k.beside.names[n] && TreeOf(w, w.names[n]) == TreeOf(k.beside, w.names[n])
  {
    hide MadeByMkdirTemp;
  }

  lemma SafeSince(d: Disk, p: Promise)
    requires d.Safe(p)
    ensures p.moment <= |d.trail|
  {}

  lemma Concluded(d: Disk, p: Promise, since: nat)
    requires d.Safe(p) && p.moment <= since
    ensures AllAlong(d.trail, since, d.target, p.trees)
  {
    SafeAllAlong(d, p);
    hide Kept, PowerSafe, Recoverable;
  }

  /** A directory just looked at, with nothing followed of what came before, is a safe place
      to begin, and clearing puts nothing at risk. */
  lemma BeginsSafe(d: Disk, trees: set<Tree>)
    requires d.Sound() && d.window == [d.world] && d.start == |d.trail| && Recoverable(d.world, d.target, trees)
    ensures d.Safe(Promise(|d.epochs|, |d.trail|, trees)) && !AtRisk(d, trees)
  {
    NothingYet(d.epochs, d.trail, d.start, d.target, trees);
    assert Mix(d.world, d.world) == d.world;
    NotTheVolume(d.target, STAGING);
    hide MadeByMkdirTemp, Kept, Recoverable, Spoils;
  }

  /** Clearing, with the volume in place. */
  method ClearBeside(d: Disk, ghost k: Stake, ghost p: Promise) returns (ok: bool)
    requires Waiting(d, k, p) && NothingReplaced(k, d.world) && k.beside == d.world
    requires k.marks ==> !AtRisk(d, p.trees)
    modifies d
    ensures old(d.trail) <= d.trail
    ensures Waiting(d, k, p) && NothingReplaced(k, d.world)
    ensures d.Counted(old(d.faults), ok)
    ensures ok ==> d.world.names.Keys == old(d.world.names.Keys - Clearable(d))
    ensures d.gap == old(d.gap)
    ensures d.world.names.Keys <= old(d.world.names.Keys)
  {
    hide Kept, PowerSafe, MadeByMkdirTemp, OnlyRemoved, Exposed, Spared, Ours;
    ghost var w0, window0, trail0 := d.world, d.window, d.trail;
    ok := ClearStagingLeftovers(d);
    RemovedKeepsVolume(w0, d.world, d.target);
    AllRemoved(w0, d.world, d.target);
    VolumeUnremoved(w0, d.world, k);
    if k.marks {
      if d.canList && d.canRead { ClearingIsSafe(window0, w0, d.window, d.target, p.trees); }
      StillKept(d.epochs, trail0, d.start, d.target, p, d.trail);
    }
  }

  /** Removing marked staging directories touches neither the volume nor a bystander. */
  lemma VolumeUnremoved(w0: World, w: World, k: Stake)
    requires OnlyRemoved(w0, w, Ours(w0, k.target, STAGING)) && Injective(w0.names) && k.beside == w0
    requires k.target in w0.names
    ensures TreeOf(w, w0.names[k.target]) == TreeOf(w0, w0.names[k.target])
    ensures Spared(k, w)
  {
    NotTheVolume(k.target, STAGING);
    hide MadeByMkdirTemp;
  }

  /** What a restore adds to the names: with no failing call nothing, unless a copy is kept,
      under a name of its own, and the new volume carries no mark. One failing call that alone
      stops the restore leaves nothing behind either, and one that comes after the swap
      nothing that looks like a leftover. A stranded swap takes two. */
  ghost predicate Settled(names0: set<string>, faults0: nat, d: Disk, agreed: bool, r: Outcome)
    reads d
  {
    && (d.faults == faults0 || (d.faults == faults0 + 1 && agreed && r.Untouched?) ==>
          d.world.names.Keys == names0 + KeptBy(r))
    && (d.faults == faults0 && r.Restored? ==>
          d.target in d.world.names && d.world.names[d.target] !in d.world.marks)
    && (d.faults == faults0 ==>
          forall n | n in KeptBy(r) :: n !in names0 && !MadeByMkdirTemp(n, d.target + STAGING))
    && (r.StrandedSwap? ==> !d.exchanges && faults0 + 2 <= d.faults)
    && (d.faults <= faults0 + 1 && r.Restored? ==> NoneStaged(names0, d.world, d.target))
  }

  /** Nothing but a failing call stands in the way of the restore. */
  predicate Agreed(allowEmpty: bool, full: Tree, checks: Checks) {
    !Refused(allowEmpty, full) && checks.readOnlyMatched && checks.stillSafe
  }

  /** How many calls failed, and what that made of the outcome and of the names beside the
      volume. */
  ghost predicate Ended(names0: set<string>, stale: set<string>, faults0: nat, d: Disk, allowEmpty: bool, full: Tree,
                        checks: Checks, r: Outcome)
    reads d
  {
    && faults0 <= d.faults
    && (d.faults == faults0 ==>
          && Wanted(allowEmpty, full, checks, r)
          && d.world.names.Keys == names0 - stale + KeptBy(r)
          && (forall n | n in KeptBy(r) :: n !in names0 && !MadeByMkdirTemp(n, d.target + STAGING))
          && (r.Restored? ==> d.target in d.world.names && d.world.names[d.target] !in d.world.marks))
    && (d.faults == faults0 + 1 && Agreed(allowEmpty, full, checks) && r.Untouched? ==>
          d.world.names.Keys <= names0 + KeptBy(r))
    && (r.StrandedSwap? ==> !d.exchanges && faults0 + 2 <= d.faults)
    && (d.faults <= faults0 + 1 && r.Restored? ==> NoneStaged(names0, d.world, d.target))
  }

  /** A restore with its leftovers cleared first. */
  method ClearAndRestore(d: Disk, allowEmpty: bool, full: Tree, checks: Checks, ghost k: Stake, ghost p: Promise)
    returns (r: Outcome)
    requires Waiting(d, k, p) && NothingReplaced(k, d.world) && k.beside == d.world
    requires (k.full == full || Refused(allowEmpty, full)) && k.oldOk && !k.newOk
    requires k.marks ==> !AtRisk(d, p.trees)
    modifies d
    ensures old(d.trail) <= d.trail
    ensures d.Sound() && Spared(k, d.world) && Delivered(d.world, d.target, k.orig, full, r)
    ensures k.marks ==> d.Safe(p)
    ensures full == map[] && !allowEmpty ==> r == Untouched(None)
    ensures !checks.readOnlyMatched || !checks.stillSafe ==> r.Untouched?
    ensures Ended(old(d.world.names.Keys), old(Clearable(d)), old(d.faults), d, allowEmpty, full, checks, r)
    ensures d.exchanges ==> d.gap == old(d.gap)
  {
    hide Kept, PowerSafe, MadeByMkdirTemp, Spared, Ours, Waiting, AtRisk, Disk.Sound, NothingReplaced, Delivered;
    var cleared := ClearBeside(d, k, p);
    r := FromCleared(d, cleared, allowEmpty, full, checks, k, p);
    if cleared && d.faults == old(d.faults) {
      ClearableIsStaging(old(d.world), d.target, old(Clearable(d)), KeptBy(r));
    }
  }

  method FromCleared(d: Disk, cleared: bool, allowEmpty: bool, full: Tree, checks: Checks, ghost k: Stake,
                     ghost p: Promise)
    returns (r: Outcome)
    requires Waiting(d, k, p) && NothingReplaced(k, d.world) && (k.full == full || Refused(allowEmpty, full))
             && k.oldOk && !k.newOk
    modifies d
    ensures old(d.trail) <= d.trail
    ensures d.Sound() && Spared(k, d.world) && Delivered(d.world, d.target, k.orig, full, r)
    ensures k.marks ==> d.Safe(p)
    ensures full == map[] && !allowEmpty ==> r == Untouched(None)
    ensures old(d.faults) <= d.faults
    ensures !cleared ==> r == Untouched(None) && d.world == old(d.world)
    ensures cleared && d.faults == old(d.faults) ==> Wanted(allowEmpty, full, checks, r)
    ensures Settled(old(d.world.names.Keys), old(d.faults), d, Agreed(allowEmpty, full, checks), r)
    ensures !(checks.readOnlyMatched && checks.stillSafe) ==> r.Untouched?
    ensures d.exchanges ==> d.gap == old(d.gap)
  {
    hide Kept, PowerSafe, MadeByMkdirTemp, Spared, Bystander, Unused, Ours, Disk.Sound;
    if !cleared { return Untouched(None); }
    var staging := CreateStagingLike(d, k, p);
    if staging.None? { return Untouched(None); }
    r := StageAndSwap(d, staging.value, allowEmpty, full, checks, k, p);
  }


  /** Everything from the extract on, with its cleanup. */
  method StageAndSwap(d: Disk, staging: string, allowEmpty: bool, full: Tree, checks: Checks, ghost k: Stake,
                      ghost p: Promise)
    returns (r: Outcome)
    requires Staged(d, k, p, staging) && NothingReplaced(k, d.world) && (k.full == full || Refused(allowEmpty, full))
             && k.oldOk && !k.newOk
    modifies d
    ensures old(d.trail) <= d.trail
    ensures d.Sound() && Spared(k, d.world) && Delivered(d.world, d.target, k.orig, full, r)
    ensures k.marks ==> d.Safe(p)
    ensures full == map[] && !allowEmpty ==> r == Untouched(None)
    ensures old(d.faults) <= d.faults
    ensures d.faults == old(d.faults) ==> Wanted(allowEmpty, full, checks, r)
    ensures Settled(old(d.world.names.Keys) - {staging}, old(d.faults), d, Agreed(allowEmpty, full, checks), r)
    ensures !(checks.readOnlyMatched && checks.stillSafe) ==> r.Untouched?
    ensures d.exchanges ==> d.gap == old(d.gap)
  {
    hide Kept, PowerSafe, MadeByMkdirTemp, Spared, Bystander, Unused, Ours, Disk.Sound;
    var extracted := ExtractInto(d, staging, full, k, p);
    if !extracted || (TreeOf(d.world, d.world.names[staging]) == map[] && !allowEmpty) {
      DiscardStaging(d, staging, k, p);
      return Untouched(None);
    }
    ghost var both := k.(s := d.world.names[staging], newOk := true);
    var flushed := FlushStaged(d, staging, k, both, p);
    if !flushed {
      DiscardStaging(d, staging, k, p);
      return Untouched(None);
    }
    SameBystanders(k, both);
    r := SwapStaged(d, staging, checks, both, p);
  }

  /** With both trees on disk: the last checks, the swap and what follows it. */
  method SwapStaged(d: Disk, staging: string, checks: Checks, ghost k: Stake, ghost p: Promise) returns (r: Outcome)
    requires ReadyToSwap(d, k, p, staging)
    modifies d
    ensures old(d.trail) <= d.trail
    ensures d.Sound() && Spared(k, d.world) && Delivered(d.world, d.target, k.orig, k.full, r)
    ensures k.marks ==> d.Safe(p)
    ensures old(d.faults) <= d.faults
    ensures d.faults == old(d.faults) ==>
              && (if checks.readOnlyMatched && checks.stillSafe then r.Restored? else r.Untouched?)
              && (r.Untouched? ==> (r.kept.Some? <==> checks.readOnlyMatched))
    ensures Settled(old(d.world.names.Keys) - {staging}, old(d.faults), d,
                    checks.readOnlyMatched && checks.stillSafe, r)
    ensures !(checks.readOnlyMatched && checks.stillSafe) ==> r.Untouched?
    ensures d.exchanges ==> d.gap == old(d.gap)
  {
    hide Kept, PowerSafe, MadeByMkdirTemp, Spared, Bystander, Unused, Ours, HeldAll, StillOld, Disk.Sound;
    if !checks.readOnlyMatched {
      GoBack(d, k, p, staging);
      DiscardStaging(d, staging, k, p);
      return Untouched(None);
    }
    if !checks.stillSafe {
      var kept := RetainOrWarn(d, staging, k, p);
      EndKept(d, k, p, kept);
      return Untouched(Some(kept));
    }
    var swap := SwapIntoPlace(d, staging, k, p);
    match swap
    case Unswapped =>
      GoBack(d, k, p, staging);
      DiscardStaging(d, staging, k, p);
      return Untouched(None);
    case LeftStranded(displaced) =>
      EndStranded(d, k, p, displaced, staging);
      return StrandedSwap(displaced, staging);
    case Swapped(displaced) =>
      FinishSwap(d, displaced, k, p);
      return Restored;
  }

  lemma EndKept(d: Disk, k: Stake, p: Promise, kept: string)
    requires Guarded(d, k, p) && InPlace(d, k) && d.world.names[k.target] == k.o && k.oldOk && k.newOk
    requires kept in d.world.names && kept != d.target && d.world.names[kept] == k.s
    ensures Delivered(d.world, d.target, k.orig, k.full, Untouched(Some(kept)))
    ensures k.marks ==> d.Safe(p)
  {
    LastHeld(k, d.window, d.world);
    if k.marks { HeldSafe(d, k, p); }
    hide Kept, HeldAll;
  }

  lemma EndStranded(d: Disk, k: Stake, p: Promise, displaced: string, staging: string)
    requires Guarded(d, k, p) && k.oldOk && k.newOk && Landed(k, d.world, staging, LeftStranded(displaced))
    ensures Delivered(d.world, d.target, k.orig, k.full, StrandedSwap(displaced, staging))
    ensures k.marks ==> d.Safe(p)
  {
    LastHeld(k, d.window, d.world);
    if k.marks { HeldSafe(d, k, p); }
    hide Kept, HeldAll;
  }
}
