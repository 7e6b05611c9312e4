/**
 What a later run does first: put back a volume displaced by an interrupted swap, then
 clear the leftovers. Whatever state of the directory it starts from, it touches only
 directories that carry the mark; and from any state a restore cut short can leave, it ends
 with one of the complete trees in the volume's place, and loses none of them on the way.
 */
module RestoreRecovery {
  import opened Wrappers
  import opened ScratchNames
  import opened RestoreDisk
  import opened RestoreSwap

  /** All that recovery may do. Contents never change. A name disappears only if it was a
      marked replaced directory that was empty or that became the volume; a name appears
      only if it is the volume's, was missing, and now leads to such a directory; and a
      mark comes off only the directory put back. */
  ghost predicate Repaired(w0: World, w1: World, target: string) {
    && w1.trees == w0.trees
    && (forall n | n in w1.names && n in w0.names :: w1.names[n] == w0.names[n])
    && (forall n | n in w0.names && n !in w1.names ::
          n in Ours(w0, target, REPLACED) && (TreeOf(w0, w0.names[n]) == map[] || PutBackAs(w0, w1, target, n)))
    && (forall n | n in w1.names && n !in w0.names ::
          n == target && exists m :: m in Ours(w0, target, REPLACED) && PutBackAs(w0, w1, target, m))
    && w1.marks <= w0.marks
    && (forall id | id in w0.marks && id !in w1.marks ::
        target !in w0.names && target in w1.names && w1.names[target] == id)
  }

  ghost predicate PutBackAs(w0: World, w1: World, target: string, n: string) {
    target !in w0.names && target in w1.names && n in w0.names && w1.names[target] == w0.names[n]
  }

  lemma RepairedMore(w0: World, w1: World, target: string, m: string, w2: World)
    requires Repaired(w0, w1, target) && m in Ours(w0, target, REPLACED) && m != target
    requires m in w1.names && TreeOf(w1, w1.names[m]) == map[] && w2 == w1.(names := w1.names - {m})
    ensures Repaired(w0, w2, target)
  {
    hide MadeByMkdirTemp;
    assert m in w0.names && TreeOf(w0, w0.names[m]) == map[];
    forall n | n in w0.names && n !in w2.names
      ensures n in Ours(w0, target, REPLACED) && (TreeOf(w0, w0.names[n]) == map[] || PutBackAs(w0, w2, target, n))
    {
      assert n == m || n !in w1.names;
    }
    forall n | n in w2.names && n !in w0.names
      ensures n == target && exists x :: x in Ours(w0, target, REPLACED) && PutBackAs(w0, w2, target, x)
    {
      var x :| x in Ours(w0, target, REPLACED) && PutBackAs(w0, w1, target, x);
      assert PutBackAs(w0, w2, target, x);
    }
  }

  lemma NothingRepaired(w: World, target: string)
    ensures Repaired(w, w, target)
  {}

  /** Two displaced copies that both hold data. */
  ghost predicate Ambiguous(w: World, target: string) {
    exists m, n :: m in Ours(w, target, REPLACED) && n in Ours(w, target, REPLACED) && m != n
      && TreeOf(w, w.names[m]) != map[] && TreeOf(w, w.names[n]) != map[]
  }

  lemma MovedBack(w0: World, w: World, target: string, displaced: string)
    requires target !in w0.names && displaced in Ours(w0, target, REPLACED)
    requires w.names == (w0.names - {displaced})[target := w0.names[displaced]] && w.trees == w0.trees
    requires w.marks == w0.marks || w.marks == w0.marks - {w0.names[displaced]}
    ensures Repaired(w0, w, target)
  {
    hide MadeByMkdirTemp;
    assert PutBackAs(w0, w, target, displaced);
  }

  lemma ReplacedIsNotVolume(target: string, name: string)
    requires MadeByMkdirTemp(name, target + REPLACED)
    ensures name != target
  {
    NotTheVolume(target, REPLACED);
  }

  lemma MadeIsReplaced(w: World, target: string, name: string)
    requires name in Ours(w, target, REPLACED)
    ensures name != target && name in w.names
  {
    ReplacedIsNotVolume(target, name);
  }

  // ---- Keeping the promise ------------------------------------------------------------------------

  /** A step that moves names or marks and leaves the volume where it is. */
  lemma StillSafe(d: Disk, p: Promise, w0: World, window0: seq<World>, trail0: seq<World>)
    requires d.Sound() && d.Passed(window0, trail0) && d.window == window0 + [d.world]
    requires window0 != [] && window0[|window0| - 1] == w0 && SameVolume(w0, d.world, d.target)
    requires forall id :: TreeOf(d.world, id) == TreeOf(w0, id)
    requires PowerSafe(window0, d.target, p.trees) && Kept(d.epochs, trail0, d.start, d.target, p)
    ensures d.Safe(p)
  {
    hide PowerSafe, Kept, SameVolume, Steady;
    SteadyNames(window0, w0, d.world, d.target, p.trees);
    SteadyOn(window0, w0, d.window, d.target, p.trees);
    StillKept(d.epochs, trail0, d.start, d.target, p, d.trail);
  }

  /** The name of the volume leads to inode x. */
  ghost predicate PresentAt(w: World, target: string, x: Id) {
    Injective(w.names) && target in w.names && w.names[target] == x
  }

  /** Beside a volume that is in place in every state, nothing is exposed. */
  lemma SettledIsUnexposed(window: seq<World>, w: World, target: string, trees: set<Tree>, x: Id)
    requires PresentAt(w, target, x) && forall i | 0 <= i < |window| :: PresentAt(window[i], target, x)
    ensures !Exposed(window, w, target, trees)
  {
    NotTheVolume(target, STAGING);
    hide MadeByMkdirTemp, Spoils;
    forall i, n | 0 <= i < |window| && n in Ours(w, target, STAGING) ensures !VolumeAt(window[i], target, w.names[n]) {
      assert PresentAt(window[i], target, x) && n != target;
    }
  }

  /** Steps that leave the volume in place and the staging directories alone expose nothing
      and hide nothing. */
  lemma SameExposure(window0: seq<World>, w0: World, window1: seq<World>, w1: World, target: string, trees: set<Tree>,
                     x: Id)
    requires window0 <= window1 && PresentAt(w0, target, x)
    requires forall i | |window0| <= i < |window1| :: PresentAt(window1[i], target, x)
    requires forall n | n in Ours(w0, target, STAGING) || n in Ours(w1, target, STAGING) ::
               n in Ours(w0, target, STAGING) && n in Ours(w1, target, STAGING)
               && n in w0.names && n in w1.names && w1.names[n] == w0.names[n] && w0.names[n] != x
    requires w1.trees == w0.trees
    ensures Exposed(window1, w1, target, trees) <==> Exposed(window0, w0, target, trees)
  {
    hide Ours, Spoils, Injective;
    forall i, n | |window0| <= i < |window1| && n in Ours(w1, target, STAGING)
      ensures !VolumeAt(window1[i], target, w1.names[n])
    {
      assert PresentAt(window1[i], target, x);
    }
    if Exposed(window1, w1, target, trees) {
      var i, n :| 0 <= i < |window1| && n in Ours(w1, target, STAGING)
        && VolumeAt(window1[i], target, w1.names[n]) && Spoils(TreeOf(w1, w1.names[n]), trees);
      assert i < |window0| && window1[i] == window0[i] && n in Ours(w0, target, STAGING);
    }
    if Exposed(window0, w0, target, trees) {
      var i, n :| 0 <= i < |window0| && n in Ours(w0, target, STAGING)
        && VolumeAt(window0[i], target, w0.names[n]) && Spoils(TreeOf(w0, w0.names[n]), trees);
      assert window1[i] == window0[i] && n in Ours(w1, target, STAGING);
    }
  }

  /** What recovery removes is never a staging directory. */
  lemma StagingUnrepaired(w0: World, w1: World, target: string)
    requires Repaired(w0, w1, target) && target in w0.names && w1.marks == w0.marks && Injective(w0.names)
    ensures forall n | n in Ours(w0, target, STAGING) || n in Ours(w1, target, STAGING) ::
              n in Ours(w0, target, STAGING) && n in Ours(w1, target, STAGING)
              && n in w0.names && n in w1.names && w1.names[n] == w0.names[n] && w0.names[n] != w0.names[target]
  {
    NotTheVolume(target, STAGING);
    forall n | MadeByMkdirTemp(n, target + STAGING) ensures !MadeByMkdirTemp(n, target + REPLACED) {
      MadeForStaging(target, n);
    }
    hide MadeByMkdirTemp;
  }

  // ---- While the volume is there ------------------------------------------------------------------

  /** Removes one reservation, which only goes if it is empty. */
  method RemoveReservation(d: Disk, m: string, ghost w0: World, ghost p: Promise) returns (ok: bool)
    requires d.Sound() && m in Ours(w0, d.target, REPLACED) && m in d.world.names
    requires Repaired(w0, d.world, d.target) && d.target in d.world.names
    modifies d
    ensures d.Sound() && Repaired(w0, d.world, d.target)
    ensures d.world == if ok then old(d.world).(names := old(d.world.names) - {m}) else old(d.world)
    ensures d.target in d.world.names && PresentAt(d.world, d.target, old(d.world.names[d.target]))
    ensures d.window == if ok then old(d.window) + [d.world] else old(d.window)
    ensures d.Passed(old(d.window), old(d.trail)) && d.epochs == old(d.epochs) && d.start == old(d.start)
    ensures old(d.Safe(p)) ==> d.Safe(p)
    ensures old(d.faults) <= d.faults && (ok ==> d.faults == old(d.faults))
    ensures !ok && TreeOf(old(d.world), old(d.world.names)[m]) == map[] ==> old(d.faults) < d.faults
    ensures d.target in old(d.world.names) ==> d.gap == old(d.gap)
  {
    hide Kept, PowerSafe, MadeByMkdirTemp, Ours, Repaired, SameVolume, Injective, Below;
    MadeIsReplaced(w0, d.target, m);
    ghost var w1, window1, trail1, guarded := d.world, d.window, d.trail, d.Safe(p);
    ok := d.Rmdir(m);
    if ok {
      RepairedMore(w0, w1, d.target, m, d.world);
      VolumeByName(w1, d.world, d.target);
      if guarded { StillSafe(d, p, w1, window1, trail1); }
    } else {
      assert d.trail == trail1;
    }
  }

  /** Every marked displaced directory is a reservation nothing was renamed onto. */
  ghost predicate OnlyReservations(w: World, target: string) {
    forall n | n in Ours(w, target, REPLACED) :: TreeOf(w, w.names[n]) == map[]
  }

  /** Every one of them holds data. */
  ghost predicate OnlyCopies(w: World, target: string) {
    forall n | n in Ours(w, target, REPLACED) :: TreeOf(w, w.names[n]) != map[]
  }

  /** Removes reservations an interrupted swap never renamed onto, all of them when it
      succeeds and marks can be read. */
  method RemoveAbandoned(d: Disk, matches: set<string>, ghost p: Promise) returns (ok: bool)
    requires d.Sound() && d.target in d.world.names
    requires matches == set n | n in d.world.names && MadeByMkdirTemp(n, d.target + REPLACED)
    modifies d
    ensures d.Sound() && Repaired(old(d.world), d.world, d.target) && d.target in d.world.names
            && old(d.trail) <= d.trail
    ensures ok && d.canRead ==> OnlyCopies(d.world, d.target)
    ensures old(d.Safe(p)) ==> d.Safe(p)
    ensures Exposed(d.window, d.world, d.target, p.trees) <==> old(Exposed(d.window, d.world, d.target, p.trees))
    ensures d.Counted(old(d.faults), ok)
    ensures d.target in old(d.world.names) ==> d.gap == old(d.gap)
  {
    hide Kept, PowerSafe, MadeByMkdirTemp, Repaired, Exposed, Injective;
    ghost var w0, window0, guarded, x := d.world, d.window, d.Safe(p), d.world.names[d.target];
    NothingRepaired(w0, d.target);
    ok := true;
    var todo := matches;
    assert CopiesBut(w0, d.target, todo);
    hide CopiesBut, OnlyCopies;
    while ok && todo != {}
      invariant todo <= matches && d.Sound() && d.Passed(window0, old(d.trail)) && d.epochs == old(d.epochs)
      invariant d.Counted(old(d.faults), ok) && d.gap == old(d.gap)
      invariant forall n | n in todo :: n in d.world.names && d.world.names[n] == w0.names[n]
      invariant d.target in d.world.names && d.world.names[d.target] == x && d.world.marks == w0.marks
      invariant Repaired(w0, d.world, d.target)
      invariant forall i | |window0| <= i < |d.window| :: PresentAt(d.window[i], d.target, x)
      invariant guarded ==> d.Safe(p)
      invariant ok && d.canRead ==> CopiesBut(d.world, d.target, todo)
      decreases todo
    {
      var m :| m in todo;
      todo := todo - {m};
      ghost var before := d.world;
      ok := RemoveIfAbandoned(d, m, w0, p);
      if ok && d.canRead { OneLess(before, d.world, d.target, todo, m); }
    }
    CopiesButNone(d.world, d.target);
    StagingUnrepaired(w0, d.world, d.target);
    SameTrees(w0, d.world, d.target);
    SameExposure(window0, w0, d.window, d.world, d.target, p.trees, x);
  }

  ghost predicate CopiesBut(w: World, target: string, todo: set<string>) {
    forall n | n in Ours(w, target, REPLACED) && n !in todo :: TreeOf(w, w.names[n]) != map[]
  }

  lemma OneLess(w: World, w': World, target: string, todo: set<string>, m: string)
    requires CopiesBut(w, target, todo + {m}) && (w' == w || w' == w.(names := w.names - {m}))
    requires m in w'.names && w'.names[m] in w'.marks ==> TreeOf(w', w'.names[m]) != map[]
    ensures CopiesBut(w', target, todo)
  {
    hide MadeByMkdirTemp;
    forall n | n in Ours(w', target, REPLACED) && n !in todo ensures TreeOf(w', w'.names[n]) != map[] {
      if n != m { assert n in Ours(w, target, REPLACED); }
    }
  }

  lemma CopiesButNone(w: World, target: string)
    ensures CopiesBut(w, target, {}) ==> OnlyCopies(w, target)
  {}

  lemma SameTrees(w0: World, w1: World, target: string)
    requires Repaired(w0, w1, target)
    ensures w1.trees == w0.trees
  {}

  /** One match: it goes if it is provably this tool's and empty. */
  method RemoveIfAbandoned(d: Disk, m: string, ghost w0: World, ghost p: Promise) returns (ok: bool)
    requires d.Sound() && m in d.world.names && m in w0.names && d.world.names[m] == w0.names[m]
    requires MadeByMkdirTemp(m, d.target + REPLACED) && d.world.marks == w0.marks
    requires Repaired(w0, d.world, d.target) && d.target in d.world.names
    modifies d
    ensures d.Sound() && Repaired(w0, d.world, d.target) && old(d.window) <= d.window
    ensures d.world == old(d.world) || d.world == old(d.world).(names := old(d.world.names) - {m})
    ensures d.target in d.world.names && d.world.names[d.target] == old(d.world.names[d.target])
    ensures forall i | |old(d.window)| <= i < |d.window| ::
            PresentAt(d.window[i], d.target, old(d.world.names[d.target]))
    ensures d.Passed(old(d.window), old(d.trail)) && d.epochs == old(d.epochs) && d.start == old(d.start)
    ensures ok && d.canRead && m in d.world.names && d.world.names[m] in d.world.marks ==>
              TreeOf(d.world, d.world.names[m]) != map[]
    ensures old(d.Safe(p)) ==> d.Safe(p)
    ensures d.Counted(old(d.faults), ok)
    ensures d.target in old(d.world.names) ==> d.gap == old(d.gap)
  {
    hide Kept, PowerSafe, MadeByMkdirTemp, Repaired, Injective;
    var owner := d.ProvablyOurs(m);
    if owner == ReadError { return false; }
    if owner != Known(true) { return true; }
    var empty := d.IsEmptyDir(m);
    if empty.None? { return false; }
    if !empty.value { return true; }
    ok := RemoveReservation(d, m, w0, p);
  }

  // ---- While the volume is missing ----------------------------------------------------------------

  /** The candidates: only directories that carry the mark. */
  method CollectOurs(d: Disk, matches: set<string>) returns (ours: set<string>, ok: bool)
    requires d.Sound()
    requires matches == set n | n in d.world.names && MadeByMkdirTemp(n, d.target + REPLACED)
    modifies d`faults
    ensures d.Counted(old(d.faults), ok)
    ensures ours <= Ours(d.world, d.target, REPLACED)
    ensures ok && d.canRead ==> ours == Ours(d.world, d.target, REPLACED)
  {
    hide MadeByMkdirTemp;
    ours := {};
    var todo := matches;
    while todo != {}
      invariant todo <= matches && d.faults == old(d.faults)
      invariant ours <= Ours(d.world, d.target, REPLACED)
      invariant d.canRead ==> forall n | n in Ours(d.world, d.target, REPLACED) :: n in ours || n in todo
      decreases todo
    {
      var m :| m in todo;
      todo := todo - {m};
      var owner := d.ProvablyOurs(m);
      if owner == ReadError { return ours, false; }
      if owner == Known(true) { ours := ours + {m}; }
    }
    return ours, true;
  }

  /** Two of these directories hold data. */
  ghost predicate TwoHoldData(w: World, ours: set<string>)
    requires forall n | n in ours :: n in w.names
  {
    exists m, n :: m in ours && n in ours && m != n && TreeOf(w, w.names[m]) != map[] && TreeOf(w, w.names[n]) != map[]
  }

  /** The candidate to put back: the one that holds data when one does, any otherwise, and
      none when more than one holds data or it cannot be told. */
  method PickDisplaced(d: Disk, ours: set<string>) returns (r: Option<string>)
    requires ours != {} && forall n | n in ours :: n in d.world.names
    modifies d`faults
    ensures r.Some? ==> r.value in ours
    ensures r.Some? ==> forall n | n in ours && TreeOf(d.world, d.world.names[n]) != map[] :: n == r.value
    ensures old(d.faults) <= d.faults
    ensures r.None? && d.faults == old(d.faults) ==> TwoHoldData(d.world, ours)
    ensures (exists n :: ours == {n}) ==> r.Some? && d.faults == old(d.faults)
  {
    var displaced :| displaced in ours;
    assert forall n | ours == {n} :: displaced in {n};
    if ours == {displaced} { return Some(displaced); }
    var withData: set<string> := {};
    var todo := ours;
    while todo != {}
      invariant todo <= ours
      invariant d.faults == old(d.faults)
      invariant withData == set n | n in ours && n !in todo && TreeOf(d.world, d.world.names[n]) != map[]
      decreases todo
    {
      var m :| m in todo;
      todo := todo - {m};
      var empty := d.IsEmptyDir(m);
      if empty.None? { return None; }
      if !empty.value { withData := withData + {m}; }
    }
    assert forall n | n in ours && TreeOf(d.world, d.world.names[n]) != map[] :: n in withData;
    if withData == {} { return Some(displaced); }
    var only :| only in withData;
    if withData != {only} {
      ghost var other :| other in withData && other != only;
      return None;
    }
    return Some(only);
  }

  lemma RecoverableIsUnambiguous(w: World, target: string, trees: set<Tree>)
    requires Recoverable(w, target, trees)
    ensures target !in w.names ==> !Ambiguous(w, target)
  {
    hide MadeByMkdirTemp, Ours;
    if target !in w.names {
      var o :| VolumeAt(w, target, o) && TreeOf(w, o) in trees;
      var x :| Ours(w, target, REPLACED) == {x} && x in w.names && w.names[x] == o;
      forall m, n | m in Ours(w, target, REPLACED) && n in Ours(w, target, REPLACED) ensures m == n {
        assert m in {x} && n in {x};
      }
    }
  }

  lemma TwoWithData(w: World, target: string, ours: set<string>)
    requires (forall n | n in ours :: n in w.names) && ours <= Ours(w, target, REPLACED) && TwoHoldData(w, ours)
    ensures Ambiguous(w, target)
  {
    hide Ours;
  }

  lemma NoneIsUnambiguous(w: World, target: string)
    ensures Ours(w, target, REPLACED) == {} ==> !Ambiguous(w, target)
  {
    hide MadeByMkdirTemp;
  }

  lemma PickedIsUnambiguous(w: World, target: string, ours: set<string>, displaced: string)
    requires forall n | n in ours :: n in w.names
    requires forall n | n in ours && TreeOf(w, w.names[n]) != map[] :: n == displaced
    ensures ours == Ours(w, target, REPLACED) ==> !Ambiguous(w, target)
  {
    hide Ours;
  }

  /** The volume carries no mark, and no marked displaced directory lies beside it. */
  ghost predicate Tidied(w: World, target: string) {
    target in w.names && w.names[target] !in w.marks && Ours(w, target, REPLACED) == {}
  }

  lemma NothingLeft(w0: World, w: World, target: string, displaced: string)
    requires displaced in w0.names && Repaired(w0, w, target)
    requires w.names == w0.names - {displaced} - (Ours(w0, target, REPLACED) - {displaced})
                        + map[target := w0.names[displaced]]
    requires w.names[target] !in w.marks
    ensures Tidied(w, target)
  {
    NotTheVolume(target, REPLACED);
    hide MadeByMkdirTemp;
  }

  lemma OthersEmpty(w: World, ours: set<string>, displaced: string)
    requires forall n | n in ours :: n in w.names
    requires forall n | n in ours && TreeOf(w, w.names[n]) != map[] :: n == displaced
    ensures AllEmpty(w, ours - {displaced})
  {}

  /** Puts the displaced directory back as the volume. */
  method PutBack(d: Disk, matches: set<string>, ghost p: Promise) returns (ok: bool)
    requires d.Sound() && d.target !in d.world.names
    requires matches == set n | n in d.world.names && MadeByMkdirTemp(n, d.target + REPLACED)
    modifies d
    ensures d.Sound() && Repaired(old(d.world), d.world, d.target) && old(d.trail) <= d.trail
    ensures old(d.Safe(p)) ==> d.Safe(p)
    ensures ok && d.target in d.world.names ==> !Exposed(d.window, d.world, d.target, p.trees)
    ensures ok && d.canRead ==> (d.target in d.world.names <==> old(Ours(d.world, d.target, REPLACED)) != {})
    ensures ok && d.canRead ==> !Ambiguous(old(d.world), d.target)
    ensures old(d.faults) <= d.faults && (!ok && d.faults == old(d.faults) ==> Ambiguous(old(d.world), d.target))
    ensures ok && d.canRead && d.faults == old(d.faults) && d.target in d.world.names ==> Tidied(d.world, d.target)
  {
    hide Kept, PowerSafe, MadeByMkdirTemp, Repaired, Ambiguous, Ours, Exposed, Injective, Tidied, AllEmpty, TwoHoldData;
    NothingRepaired(d.world, d.target);
    NoneIsUnambiguous(d.world, d.target);
    ghost var w0 := d.world;
    OursNamed(w0, d.target, REPLACED);
    var ours, collected := CollectOurs(d, matches);
    if !collected { return false; }
    if ours == {} { return true; }
    ghost var faults1 := d.faults;
    var picked := PickDisplaced(d, ours);
    if picked.None? {
      if d.faults == faults1 { TwoWithData(d.world, d.target, ours); }
      return false;
    }
    var displaced := picked.value;
    PickedIsUnambiguous(d.world, d.target, ours, displaced);
    ok := RenameToVolume(d, displaced, p);
    if !ok { return; }
    MovedBack(w0, d.world, d.target, displaced);
    ok := SyncPromised(d, p);
    if ok {
      RemoveOtherReservations(d, ours - {displaced}, w0, displaced, p);
      if d.canRead && d.faults == faults1 {
        OthersEmpty(w0, ours, displaced);
        NothingLeft(w0, d.world, d.target, displaced);
      }
    }
  }

  method RenameToVolume(d: Disk, displaced: string, ghost p: Promise) returns (ok: bool)
    requires d.Sound() && d.target !in d.world.names && displaced in Ours(d.world, d.target, REPLACED)
    modifies d
    ensures d.Sound() && old(d.trail) <= d.trail && (old(d.Safe(p)) ==> d.Safe(p))
    ensures displaced in old(d.world.names)
    ensures d.world == if ok
            then old(d.world).(names := (old(d.world.names) - {displaced})[d.target := old(d.world.names)[displaced]])
                       else old(d.world)
    ensures d.Counted(old(d.faults), ok)
  {
    hide Kept, PowerSafe, Ours, SameVolume, Injective, Below;
    MadeIsReplaced(d.world, d.target, displaced);
    ghost var w0, window0, trail0, guarded := d.world, d.window, d.trail, d.Safe(p);
    ok := d.Rename(displaced, d.target);
    if !ok {
      assert d.trail == trail0;
    } else if guarded {
      assert window0[|window0| - 1] in window0;
      TheDisplaced(window0, w0, d.target, p.trees, displaced, d.world);
      StillSafe(d, p, w0, window0, trail0);
    }
  }

  /** The only marked replaced directory is the volume's, so it comes back as the volume. */
  lemma TheDisplaced(window0: seq<World>, w0: World, target: string, trees: set<Tree>, displaced: string, w: World)
    requires PowerSafe(window0, target, trees) && w0 in window0 && target !in w0.names
    requires displaced in Ours(w0, target, REPLACED) && displaced in w0.names
    requires w == w0.(names := (w0.names - {displaced})[target := w0.names[displaced]]) && Injective(w.names)
    ensures SameVolume(w0, w, target)
  {
    SafeNow(window0, w0, target, trees);
    hide PowerSafe, Ours, Injective;
    var o :| VolumeAt(w0, target, o);
    var x :| Ours(w0, target, REPLACED) == {x} && x in w0.names && w0.names[x] == o;
    assert displaced == x;
    forall o' | VolumeAt(w0, target, o') ensures o' == o { OneVolumeEach(w0, target, o, o'); }
  }

  method SyncPromised(d: Disk, ghost p: Promise) returns (ok: bool)
    requires d.Sound()
    modifies d
    ensures d.Sound() && d.world == old(d.world) && d.trail == old(d.trail) && (old(d.Safe(p)) ==> d.Safe(p))
    ensures ok ==> forall i | 0 <= i < |d.window| :: d.window[i].names == d.world.names
    ensures d.Counted(old(d.faults), ok)
    ensures d.target in old(d.world.names) ==> d.gap == old(d.gap)
  {
    hide Kept, PowerSafe, Injective;
    ghost var epochs0, window0, start0, guarded := d.epochs, d.window, d.start, d.Safe(p);
    ok := d.SyncDir();
    if ok && guarded {
      CloseWindow(epochs0, d.trail, start0, window0, d.target, p);
      PinnedSafe(window0, d.world, d.window, d.target, p.trees);
    }
  }

  /** Unmarks the volume and removes the reservations left beside it, both best effort. */
  method RemoveOtherReservations(d: Disk, others: set<string>, ghost w0: World, displaced: string, ghost p: Promise)
    requires d.Sound() && d.target !in w0.names && displaced in Ours(w0, d.target, REPLACED)
    requires others <= Ours(w0, d.target, REPLACED) && displaced !in others
    requires displaced in w0.names
    requires d.world == w0.(names := (w0.names - {displaced})[d.target := w0.names[displaced]])
    requires forall i | 0 <= i < |d.window| :: d.window[i].names == d.world.names
    modifies d
    ensures d.Sound() && Repaired(w0, d.world, d.target) && d.target in d.world.names && old(d.trail) <= d.trail
    ensures old(d.Safe(p)) ==> d.Safe(p)
    ensures !Exposed(d.window, d.world, d.target, p.trees)
    ensures old(d.faults) <= d.faults
    ensures d.target in old(d.world.names) ==> d.gap == old(d.gap)
    ensures d.faults == old(d.faults) && AllEmpty(w0, others) ==>
              && d.world.names == w0.names - {displaced} - others + map[d.target := w0.names[displaced]]
              && d.world.names[d.target] !in d.world.marks
  {
    hide *;
    ghost var x := UnclaimPutBack(d, others, w0, displaced, p);
    PresentMeans(d.world, d.target, x);
    ghost var w1 := d.world;
    RemoveReservations(d, others, w0, x, p);
    SettledIsUnexposed(d.window, d.world, d.target, p.trees, x);
    PresentMeans(d.world, d.target, x);
    AfterPutBack(w0, w1, d.world, d.target, displaced, others);
  }

  /** The names after putting back and tidying up, from those before. */
  lemma AfterPutBack(w0: World, w1: World, w2: World, target: string, displaced: string, others: set<string>)
    requires target !in w0.names && others <= Ours(w0, target, REPLACED) && displaced !in others
    requires displaced in w0.names && w1.trees == w0.trees
    requires w1.names == (w0.names - {displaced})[target := w0.names[displaced]]
    ensures AllEmpty(w0, others) ==> AllEmpty(w1, others)
    ensures w2.names == w1.names - others ==>
              w2.names == w0.names - {displaced} - others + map[target := w0.names[displaced]]
  {
    OursNamed(w0, target, REPLACED);
    hide Ours;
  }

  lemma PresentMeans(w: World, target: string, x: Id)
    requires PresentAt(w, target, x)
    ensures target in w.names && w.names[target] == x
  {}

  method UnclaimPutBack(d: Disk, ghost others: set<string>, ghost w0: World, ghost displaced: string, ghost p: Promise)
    returns (ghost x: Id)
    requires d.Sound() && d.target !in w0.names && displaced in Ours(w0, d.target, REPLACED)
    requires others <= Ours(w0, d.target, REPLACED) && displaced !in others
    requires displaced in w0.names
    requires d.world == w0.(names := (w0.names - {displaced})[d.target := w0.names[displaced]])
    requires forall i | 0 <= i < |d.window| :: d.window[i].names == d.world.names
    modifies d
    ensures d.Sound() && Repaired(w0, d.world, d.target) && old(d.trail) <= d.trail
    ensures forall n | n in others :: n in d.world.names
    ensures PresentAt(d.world, d.target, x) && forall i | 0 <= i < |d.window| :: PresentAt(d.window[i], d.target, x)
    ensures old(d.Safe(p)) ==> d.Safe(p)
    ensures old(d.faults) <= d.faults
    ensures d.target in old(d.world.names) ==> d.gap == old(d.gap)
    ensures d.world.names == old(d.world.names) && d.world.trees == old(d.world.trees)
    ensures d.faults == old(d.faults) ==> x !in d.world.marks
  {
    forall n | n in others ensures n in d.world.names { MadeIsReplaced(w0, d.target, n); }
    hide Kept, PowerSafe, MadeByMkdirTemp, Repaired, Ours, Injective, Below;
    ghost var names, window0 := d.world.names, d.window;
    x := names[d.target];
    Unclaim(d, p);
    MovedBack(w0, d.world, d.target, displaced);
    AllPresent(names, window0, d.window, d.target);
    assert d.world.names == names;
  }

  lemma AllPresent(names: map<string, Id>, window0: seq<World>, window1: seq<World>, target: string)
    requires target in names && Injective(names) && window0 <= window1
    requires forall i | 0 <= i < |window0| :: window0[i].names == names
    requires forall i | |window0| <= i < |window1| :: window1[i].names == names
    ensures forall i | 0 <= i < |window1| :: PresentAt(window1[i], target, names[target])
  {
    hide Injective;
    forall i | 0 <= i < |window1| ensures PresentAt(window1[i], target, names[target]) {
      if i < |window0| { assert window1[i] == window0[i]; }
    }
  }

  method Unclaim(d: Disk, ghost p: Promise)
    requires d.Sound() && d.target in d.world.names
    modifies d
    ensures d.Sound() && d.Passed(old(d.window), old(d.trail)) && (old(d.Safe(p)) ==> d.Safe(p))
    ensures d.world == old(d.world)
            || d.world == old(d.world).(marks := old(d.world.marks) - {old(d.world.names)[d.target]})
    ensures forall i | |old(d.window)| <= i < |d.window| :: d.window[i].names == old(d.world.names)
    ensures old(d.faults) <= d.faults
    ensures d.target in old(d.world.names) ==> d.gap == old(d.gap)
    ensures d.faults == old(d.faults) ==> d.world.names[d.target] !in d.world.marks
  {
    hide Kept, PowerSafe, SameVolume;
    ghost var w0, window0, trail0, guarded := d.world, d.window, d.trail, d.Safe(p);
    var unmarked := d.RemoveMark(d.target);
    if !unmarked {
      assert d.trail == trail0;
    } else if guarded {
      VolumeByName(w0, d.world, d.target);
      StillSafe(d, p, w0, window0, trail0);
    }
  }

  /** Every one of these directories is there, and empty. */
  ghost predicate AllEmpty(w: World, names: set<string>) {
    forall n | n in names :: n in w.names && TreeOf(w, w.names[n]) == map[]
  }

  method RemoveReservations(d: Disk, others: set<string>, ghost w0: World, ghost x: Id, ghost p: Promise)
    requires d.Sound() && others <= Ours(w0, d.target, REPLACED) && (forall n | n in others :: n in d.world.names)
    requires Repaired(w0, d.world, d.target) && PresentAt(d.world, d.target, x)
    requires forall i | 0 <= i < |d.window| :: PresentAt(d.window[i], d.target, x)
    modifies d
    ensures d.Sound() && Repaired(w0, d.world, d.target) && old(d.trail) <= d.trail
    ensures PresentAt(d.world, d.target, x) && forall i | 0 <= i < |d.window| :: PresentAt(d.window[i], d.target, x)
    ensures old(d.Safe(p)) ==> d.Safe(p)
    ensures old(d.faults) <= d.faults
    ensures d.target in old(d.world.names) ==> d.gap == old(d.gap)
    ensures d.world.marks == old(d.world.marks)
    ensures d.faults == old(d.faults) && old(AllEmpty(d.world, others)) ==> d.world.names == old(d.world.names) - others
  {
    hide Kept, PowerSafe, MadeByMkdirTemp, Repaired, Ours, Injective;
    ghost var guarded := d.Safe(p);
    var todo := others;
    while todo != {}
      invariant todo <= others && d.Sound() && (forall n | n in todo :: n in d.world.names)
      invariant Repaired(w0, d.world, d.target) && PresentAt(d.world, d.target, x)
      invariant forall i | 0 <= i < |d.window| :: PresentAt(d.window[i], d.target, x)
      invariant guarded ==> d.Safe(p)
      invariant old(d.trail) <= d.trail && old(d.faults) <= d.faults
      invariant d.target in old(d.world.names) ==> d.gap == old(d.gap)
      invariant d.world.marks == old(d.world.marks) && (old(AllEmpty(d.world, others)) ==> AllEmpty(d.world, todo))
      invariant d.faults == old(d.faults) && old(AllEmpty(d.world, others)) ==>
                  d.world.names == old(d.world.names) - (others - todo)
      decreases todo
    {
      var m :| m in todo;
      todo := todo - {m};
      var removed := RemoveReservation(d, m, w0, p);
    }
  }

  // ---- The run ------------------------------------------------------------------------------------

  method RecoverInterruptedSwap(d: Disk, ghost p: Promise) returns (ok: bool)
    requires d.Sound()
    modifies d
    ensures d.Sound() && Repaired(old(d.world), d.world, d.target) && old(d.trail) <= d.trail
    ensures old(d.Safe(p)) ==> d.Safe(p)
    ensures ok ==> (AtRisk(d, p.trees) <==> old(AtRisk(d, p.trees)))
    ensures ok && d.canList && d.canRead ==>
              (d.target in d.world.names <==>
                  d.target in old(d.world.names) || old(Ours(d.world, d.target, REPLACED)) != {})
    ensures ok && d.canList && d.canRead && d.target !in old(d.world.names) ==> !Ambiguous(old(d.world), d.target)
    ensures ok && d.canList && d.canRead && d.target in old(d.world.names) ==> OnlyCopies(d.world, d.target)
    ensures old(d.faults) <= d.faults
    ensures !ok && d.faults == old(d.faults) ==> old(d.target !in d.world.names && Ambiguous(d.world, d.target))
    ensures d.target in old(d.world.names) ==> d.target in d.world.names
    ensures d.target in old(d.world.names) ==> d.gap == old(d.gap)
    ensures ok && d.canList && d.canRead && d.faults == old(d.faults) && d.target !in old(d.world.names)
            && d.target in d.world.names ==>
              Tidied(d.world, d.target)
  {
    hide Kept, PowerSafe, MadeByMkdirTemp, Exposed, Injective, Tidied;
    var matches, enumerable, listed := SiblingsWithPrefix(d, REPLACED);
    if !listed { return false; }
    if !enumerable { return true; }
    if matches == {} {
      assert Ours(d.world, d.target, REPLACED) == {};
      return true;
    }
    if d.target in d.world.names {
      ok := RemoveAbandoned(d, matches, p);
    } else {
      ok := PutBack(d, matches, p);
    }
  }

  /** The next run. It touches marked scratch directories only. From any recoverable state,
      every state it passes through is recoverable, and one that gets through ends with the
      volume holding one of the trees. And if whatever a power loss could leave was
      recoverable at its start, and clearing would put nothing at risk, so it is at every
      moment of the run. */
  method NextRun(d: Disk, ghost p: Promise) returns (ok: bool)
    requires d.Sound()
    modifies d
    ensures d.Sound() && old(d.trail) <= d.trail
    ensures Ours(d.world, d.target, REPLACED) <= old(Ours(d.world, d.target, REPLACED))
    ensures ok && d.canList && d.canRead ==> Ours(d.world, d.target, STAGING) == {}
    ensures old(Recoverable(d.world, d.target, p.trees)) ==>
              && AllAlong(d.trail, |old(d.trail)|, d.target, p.trees) && Recoverable(d.world, d.target, p.trees)
              && (d.target in d.world.names ==> TreeOf(d.world, d.world.names[d.target]) in p.trees)
              && (ok && d.canList && d.canRead ==> d.target in d.world.names)
              && (d.target !in old(d.world.names) && d.target in d.world.names ==>
                  Ours(d.world, d.target, REPLACED) == {})
              && (ok && d.canList && d.canRead ==> OnlyCopies(d.world, d.target))
    ensures ok && d.canList && d.canRead
            && old(OnlyReservations(d.world, d.target) && Recoverable(d.world, d.target, p.trees)) ==>
              Ours(d.world, d.target, REPLACED) == {}
    ensures old(d.Safe(p) && !AtRisk(d, p.trees)) ==> d.Safe(p)
    ensures old(d.faults) <= d.faults
    ensures !ok && d.faults == old(d.faults) ==> old(d.target !in d.world.names && Ambiguous(d.world, d.target))
    ensures d.target in old(d.world.names) ==> d.target in d.world.names
    ensures d.target in old(d.world.names) ==> d.gap == old(d.gap)
    ensures ok && d.canList && d.canRead && d.faults == old(d.faults) && d.target !in old(d.world.names)
            && d.target in d.world.names ==>
              Tidied(d.world, d.target)
  {
    hide Kept, PowerSafe, MadeByMkdirTemp, Exposed, AllAlong, Ours, Injective, Recoverable, AtRisk, OnlyCopies;
    hide OnlyReservations, Ambiguous, Tidied;
    ghost var trail0, recoverable := d.trail, Recoverable(d.world, d.target, p.trees);
    ghost var q := Follow(d, p);
    ok := RecoverThenClear(d, q);
    if recoverable {
      Concluded(d, q, |trail0|);
      EndRecoverable(d, q);
    }
  }

  /** The promise to keep from here on: the one given where it can be, or else a new one. */
  ghost method Follow(d: Disk, p: Promise) returns (q: Promise)
    requires d.Sound()
    modifies d`window, d`start
    ensures d.Sound() && q.trees == p.trees && (Recoverable(d.world, d.target, p.trees) ==> q.moment <= |d.trail|)
    ensures Recoverable(d.world, d.target, p.trees) ==> d.Safe(q) && !AtRisk(d, q.trees)
    ensures old(d.Safe(p) && !AtRisk(d, p.trees)) ==> q == p && Recoverable(d.world, d.target, p.trees)
  {
    hide Kept, PowerSafe, MadeByMkdirTemp, Exposed, Ours, Injective, Recoverable, AtRisk;
    q := p;
    if d.Safe(p) {
      SafeSince(d, p);
      EndRecoverable(d, p);
    }
    if Recoverable(d.world, d.target, p.trees) && !(d.Safe(p) && !AtRisk(d, p.trees)) {
      q := Promise(|d.epochs|, |d.trail|, p.trees);
      d.StartAfresh();
      BeginsSafe(d, p.trees);
    }
  }

  method RecoverThenClear(d: Disk, ghost p: Promise) returns (ok: bool)
    requires d.Sound()
    modifies d
    ensures d.Sound() && old(d.trail) <= d.trail && old(d.faults) <= d.faults
    ensures Ours(d.world, d.target, REPLACED) <= old(Ours(d.world, d.target, REPLACED))
    ensures ok && d.canList && d.canRead ==> Ours(d.world, d.target, STAGING) == {}
    ensures !ok && d.faults == old(d.faults) ==> old(d.target !in d.world.names && Ambiguous(d.world, d.target))
    ensures d.target in old(d.world.names) ==> d.target in d.world.names
    ensures old(d.Safe(p) && !AtRisk(d, p.trees)) ==>
              && d.Safe(p)
              && (ok && d.canList && d.canRead ==> d.target in d.world.names && OnlyCopies(d.world, d.target))
              && (d.target !in old(d.world.names) && d.target in d.world.names ==>
                  Ours(d.world, d.target, REPLACED) == {})
              && (ok && d.canList && d.canRead && old(OnlyReservations(d.world, d.target)) ==>
                  Ours(d.world, d.target, REPLACED) == {})
    ensures d.target in old(d.world.names) ==> d.gap == old(d.gap)
    ensures ok && d.canList && d.canRead && d.faults == old(d.faults) && d.target !in old(d.world.names)
            && d.target in d.world.names ==>
              Tidied(d.world, d.target)
  {
    hide Kept, PowerSafe, MadeByMkdirTemp, Exposed, Ours, Injective, Recoverable, AtRisk, Repaired, Ambiguous, Tidied;
    ghost var w0, safe := d.world, d.Safe(p) && !AtRisk(d, p.trees);
    if safe { EndRecoverable(d, p); }
    ok := RecoverInterruptedSwap(d, p);
    ReplacedAfterRepair(w0, d.world, d.target);
    if safe { PutBackAlone(w0, d.world, d.target, p.trees); }
    if ok {
      ghost var w1 := d.world;
      ok := ClearUnexposed(d, p);
      ClearedAfterRepair(w1, d.world, d.target);
      if Tidied(w1, d.target) { StillTidied(w1, d.world, d.target); }
      if safe && d.canList && d.canRead { CopiesLeft(w0, w1, d.world, d.target); }
    }
  }

  lemma StillTidied(w1: World, w2: World, target: string)
    requires OnlyRemoved(w1, w2, Ours(w1, target, STAGING)) && Injective(w1.names) && Tidied(w1, target)
    ensures Tidied(w2, target)
  {
    RemovedKeepsVolume(w1, w2, target);
  }

  /** Recovery marks nothing. */
  lemma ReplacedAfterRepair(w0: World, w1: World, target: string)
    requires Repaired(w0, w1, target)
    ensures Ours(w1, target, REPLACED) <= Ours(w0, target, REPLACED)
  {
    NotTheVolume(target, REPLACED);
    hide MadeByMkdirTemp;
  }

  /** A recoverable volume that is missing is beside its name, and once it is back nothing is. */
  lemma PutBackAlone(w0: World, w1: World, target: string, trees: set<Tree>)
    requires Repaired(w0, w1, target) && Recoverable(w0, target, trees) && Injective(w1.names)
    ensures target !in w0.names ==> Ours(w0, target, REPLACED) != {}
    ensures target !in w0.names && target in w1.names ==> Ours(w1, target, REPLACED) == {}
  {
    NotTheVolume(target, REPLACED);
    ReplacedAfterRepair(w0, w1, target);
    hide MadeByMkdirTemp, Ours;
    if target !in w0.names {
      var o :| VolumeAt(w0, target, o) && TreeOf(w0, o) in trees;
      var x :| Ours(w0, target, REPLACED) == {x} && x in w0.names && w0.names[x] == o;
      assert x in Ours(w0, target, REPLACED);
      if target in w1.names {
        MadeIsReplaced(w0, target, x);
        assert x !in w1.names;
        OursNamed(w1, target, REPLACED);
      }
    }
  }

  /** Neither step touches the contents of a displaced directory. */
  lemma CopiesLeft(w0: World, w1: World, w2: World, target: string)
    requires Repaired(w0, w1, target) && OnlyRemoved(w1, w2, Ours(w1, target, STAGING)) && Injective(w1.names)
    requires OnlyCopies(w1, target) || Ours(w1, target, REPLACED) == {}
    ensures OnlyCopies(w2, target)
    ensures OnlyReservations(w0, target) ==> Ours(w2, target, REPLACED) == {}
  {
    ClearedAfterRepair(w1, w2, target);
    ReplacedAfterRepair(w0, w1, target);
    NotTheVolume(target, REPLACED);
    forall n | n in Ours(w2, target, REPLACED)
      ensures TreeOf(w2, w2.names[n]) == TreeOf(w1, w1.names[n]) == TreeOf(w0, w0.names[n])
    {
      assert n in Ours(w1, target, REPLACED) && n in Ours(w0, target, REPLACED) && n != target;
      if n in Ours(w1, target, STAGING) { MadeForStaging(target, n); }
    }
  }

  lemma ClearedAfterRepair(w1: World, w2: World, target: string)
    requires OnlyRemoved(w1, w2, Ours(w1, target, STAGING)) && Injective(w1.names)
    ensures Ours(w2, target, REPLACED) == Ours(w1, target, REPLACED)
    ensures target in w2.names <==> target in w1.names
  {
    RemovedKeepsVolume(w1, w2, target);
  }

  /** Clearing after recovery. */
  method ClearUnexposed(d: Disk, ghost p: Promise) returns (ok: bool)
    requires d.Sound()
    modifies d
    ensures d.Sound() && old(d.trail) <= d.trail
    ensures OnlyRemoved(old(d.world), d.world, Ours(old(d.world), d.target, STAGING))
    ensures ok && d.canList && d.canRead ==> Ours(d.world, d.target, STAGING) == {}
    ensures old(d.Safe(p) && !AtRisk(d, p.trees) && (d.canList && d.canRead ==> d.target in d.world.names)) ==>
            d.Safe(p)
    ensures d.Counted(old(d.faults), ok)
    ensures d.target in old(d.world.names) ==> d.gap == old(d.gap)
  {
    hide Kept, PowerSafe, MadeByMkdirTemp, OnlyRemoved, Exposed, Ours, Injective;
    ghost var w0, window0, trail0 := d.world, d.window, d.trail;
    ghost var guarded := d.Safe(p) && !AtRisk(d, p.trees) && (d.canList && d.canRead ==> d.target in d.world.names);
    SoundNames(d);
    ok := ClearStagingLeftovers(d);
    RemovedKeepsVolume(w0, d.world, d.target);
    if guarded {
      if d.canList && d.canRead { ClearingIsSafe(window0, w0, d.window, d.target, p.trees); }
      StillKept(d.epochs, trail0, d.start, d.target, p, d.trail);
    }
  }

  lemma EndRecoverable(d: Disk, p: Promise)
    requires d.Safe(p)
    ensures Recoverable(d.world, d.target, p.trees)
    ensures d.target in d.world.names ==> TreeOf(d.world, d.world.names[d.target]) in p.trees
  {
    hide Kept, PowerSafe, Ours, Injective;
    SafeNow(d.window, d.world, d.target, p.trees);
  }

  // ---- Restore after restore --------------------------------------------------------------------------

  /** No marked displaced directory lies beside a present volume, or none that recovery would
      not take away. */
  ghost predicate Uncluttered(d: Disk)
    reads d
  {
    d.target in d.world.names ==>
      || Ours(d.world, d.target, REPLACED) == {}
      || (d.canList && d.canRead && OnlyReservations(d.world, d.target))
  }

  /** A whole restore, from whatever an earlier one left: recovery, clearing, and the staged
      swap. Its outcome is told in terms of the tree that was recovered. From an
      uncluttered directory every state passed through is recoverable, to an earlier tree or to
      the new one; and so is whatever a power loss leaves at any moment, if that was so at the
      start and clearing puts nothing at risk. */
  method RestoreRun(d: Disk, allowEmpty: bool, extracted: Tree, checks: Checks, ghost p: Promise)
    returns (r: Option<Outcome>)
    requires d.Sound()
    modifies d
    ensures d.Sound() && old(d.trail) <= d.trail
    ensures r.Some? && old(Recoverable(d.world, d.target, p.trees)) ==>
              exists orig :: orig in p.trees && Delivered(d.world, d.target, orig, extracted, r.value)
    ensures d.holdsMarks && (extracted in p.trees || (extracted == map[] && !allowEmpty))
            && old(Recoverable(d.world, d.target, p.trees)) && old(Uncluttered(d)) ==>
              && AllAlong(d.trail, |old(d.trail)|, d.target, p.trees)
              && (old(d.Safe(p) && !AtRisk(d, p.trees)) ==> d.Safe(p))
    ensures extracted == map[] && !allowEmpty && r.Some? ==> r.value == Untouched(None)
    ensures old(d.faults) <= d.faults
    ensures d.faults == old(d.faults) && old(Recoverable(d.world, d.target, p.trees))
            && (d.target in old(d.world.names) || (d.canList && d.canRead)) ==>
              r.Some? && Wanted(allowEmpty, extracted, checks, r.value)
    ensures r.Some? && (!checks.readOnlyMatched || !checks.stillSafe) ==> r.value.Untouched?
    ensures d.exchanges && d.target in old(d.world.names) ==>
              forall i | |old(d.trail)| <= i < |d.trail| :: d.target in d.trail[i].names
  {
    hide Kept, PowerSafe, MadeByMkdirTemp, Exposed, AllAlong, Ours, Injective, Recoverable, Delivered;
    ghost var trail0 := d.trail;
    NeverMissing(d, |trail0|);
    if Recoverable(d.world, d.target, p.trees) { RecoverableIsUnambiguous(d.world, d.target, p.trees); }
    var ok := NextRun(d, p);
    NeverMissing(d, |trail0|);
    if !ok || d.target !in d.world.names { return None; }
    ghost var orig, trail1 := TreeOf(d.world, d.world.names[d.target]), d.trail;
    NothingStaged(d, p.trees);
    var outcome := RestoreWithSwap(d, allowEmpty, extracted, checks, p);
    AlongBoth(trail0, trail1, d.trail, d.target, p.trees);
    return Some(outcome);
  }

  /** With no staging leftovers clearing puts nothing at risk. */
  lemma NothingStaged(d: Disk, trees: set<Tree>)
    ensures d.canList && d.canRead && Ours(d.world, d.target, STAGING) == {} ==> !AtRisk(d, trees)
  {
    hide Ours, Spoils, VolumeAt;
  }

  lemma AlongBoth(trail0: seq<World>, trail1: seq<World>, trail2: seq<World>, target: string, trees: set<Tree>)
    requires trail0 <= trail1 <= trail2
    ensures AllAlong(trail1, |trail0|, target, trees) && AllAlong(trail2, |trail1|, target, trees)
            ==> AllAlong(trail2, |trail0|, target, trees)
  {
    hide Recoverable;
  }

  // ---- A copy left beside the volume ------------------------------------------------------------------------

  /** The first rename of a pair, with the volume claimed beforehand: what it leaves is
      recoverable exactly when there was no marked displaced directory but the one it reserved. */
  lemma MovedAsideExactly(w: World, target: string, displaced: string, trees: set<Tree>)
    requires Injective(w.names) && target in w.names && w.names[target] in w.marks
    requires TreeOf(w, w.names[target]) in trees
    requires displaced in w.names && MadeByMkdirTemp(displaced, target + REPLACED)
    ensures var aside := w.(names := (w.names - {target})[displaced := w.names[target]]);
            Recoverable(aside, target, trees) <==> Ours(w, target, REPLACED) <= {displaced}
  {
    NotTheVolume(target, REPLACED);
    hide MadeByMkdirTemp;
    var aside := w.(names := (w.names - {target})[displaced := w.names[target]]);
    assert Ours(aside, target, REPLACED) == Ours(w, target, REPLACED) + {displaced};
    if Ours(w, target, REPLACED) <= {displaced} {
      assert Ours(aside, target, REPLACED) == {displaced};
      assert VolumeAt(aside, target, w.names[target]);
    }
    if Recoverable(aside, target, trees) {
      var o :| VolumeAt(aside, target, o) && TreeOf(aside, o) in trees;
      var x :| Ours(aside, target, REPLACED) == {x} && x in aside.names && aside.names[x] == o;
      assert displaced in {x};
    }
  }

  /** The volume gone and two marked copies with data: recovery has no way to choose. */
  lemma TwoCopiesAreStuck(w: World, target: string, trees: set<Tree>, m: string, n: string)
    requires target !in w.names && m != n && m in Ours(w, target, REPLACED) && n in Ours(w, target, REPLACED)
    requires TreeOf(w, w.names[m]) != map[] && TreeOf(w, w.names[n]) != map[]
    ensures !Recoverable(w, target, trees) && Ambiguous(w, target)
  {
    hide MadeByMkdirTemp, Ours;
    forall x | m in {x} ensures Ours(w, target, REPLACED) != {x} { assert n !in {x}; }
  }

  // ---- A run cut short ------------------------------------------------------------------------------------

  /** What the next run may find after the process died, or power was lost, while this was the
      open window: all the states up to some moment, or one mix of two of them. */
  ghost predicate LeftBy(window: seq<World>, unflushed: seq<World>) {
    || (unflushed != [] && unflushed <= window)
    || exists i, j :: 0 <= i < |window| && 0 <= j < |window| && unflushed == [Mix(window[i], window[j])]
  }

  /** Cut short at some moment since the promise was made. */
  ghost predicate CutShort(d: Disk, p: Promise, unflushed: seq<World>)
    reads d
  {
    LeftBy(d.window, unflushed) || exists e :: p.epoch <= e < |d.epochs| && LeftBy(d.epochs[e], unflushed)
  }

  lemma LeftIsSafe(window: seq<World>, target: string, trees: set<Tree>, unflushed: seq<World>)
    requires PowerSafe(window, target, trees) && LeftBy(window, unflushed)
    ensures PowerSafe(unflushed, target, trees)
  {
    hide Recoverable, Mix;
    if unflushed != [] && unflushed <= window {
      forall i, j | 0 <= i < |unflushed| && 0 <= j < |unflushed|
        ensures Recoverable(Mix(unflushed[i], unflushed[j]), target, trees)
      {
        assert unflushed[i] == window[i] && unflushed[j] == window[j];
      }
    } else {
      var i, j :| 0 <= i < |window| && 0 <= j < |window| && unflushed == [Mix(window[i], window[j])];
      OneStateSafe(Mix(window[i], window[j]), target, trees);
    }
  }

  lemma OneStateSafe(w: World, target: string, trees: set<Tree>)
    requires Recoverable(w, target, trees)
    ensures PowerSafe([w], target, trees)
  {
    hide Recoverable;
    assert Mix(w, w) == w;
  }

  lemma CutShortIsSafe(d: Disk, p: Promise, unflushed: seq<World>)
    requires d.Safe(p) && CutShort(d, p, unflushed)
    ensures PowerSafe(unflushed, d.target, p.trees)
  {
    hide PowerSafe, LeftBy;
    if LeftBy(d.window, unflushed) {
      LeftIsSafe(d.window, d.target, p.trees, unflushed);
    } else {
      var e :| p.epoch <= e < |d.epochs| && LeftBy(d.epochs[e], unflushed);
      LeftIsSafe(d.epochs[e], d.target, p.trees, unflushed);
    }
  }

  /** A restore cut short anywhere, by a death or a power loss, and the run after it: that run
      passes through recoverable states only and, once it gets through, the volume holds a tree
      from before the restore or the extracted one. If clearing would put nothing at risk
      even a power loss during that second run loses nothing; after a power loss it never
      does. */
  method InterruptedRestore(d: Disk, allowEmpty: bool, full: Tree, checks: Checks, ghost p: Promise, found: World,
                            next: Id, ghost unflushed: seq<World>)
    returns (later: Disk, ok: bool)
    requires d.holdsMarks && Uncluttered(d) && d.Safe(p) && !AtRisk(d, p.trees)
    requires full in p.trees || (full == map[] && !allowEmpty)
    requires Injective(found.names) && (forall n | n in found.names :: found.names[n] in found.trees)
    requires forall id | id in found.trees :: id < next
    requires forall id | id in found.marks :: id < next
    requires unflushed != [] && unflushed[|unflushed| - 1] == found && forall w | w in unflushed :: Below(w.names, next)
    modifies d
    ensures fresh(later) && later.Sound() && later.target == d.target && later.canList == d.canList
            && later.canRead == d.canRead
    ensures CutShort(d, p, unflushed) ==>
              && AllAlong(later.trail, 0, d.target, p.trees)
              && Recoverable(later.world, d.target, p.trees)
              && (later.faults == 0 ==> ok)
              && (ok && d.canList && d.canRead ==>
                    d.target in later.world.names && TreeOf(later.world, later.world.names[d.target]) in p.trees)
              && (|unflushed| == 1 || !Exposed(unflushed, found, d.target, p.trees) ==>
                    later.Safe(Promise(0, 0, p.trees)))
  {
    hide Kept, PowerSafe, MadeByMkdirTemp, Exposed, AllAlong, Ours, Injective, Recoverable, Delivered, CutShort;
    hide Uncluttered;
    EndRecoverable(d, p);
    var outcome := RestoreRun(d, allowEmpty, full, checks, p);
    later := new Disk(d.target, d.holdsMarks, d.canList, d.canRead, d.exchanges, found, next, unflushed);
    ghost var q := Promise(0, 0, p.trees);
    if CutShort(d, p, unflushed) {
      CutShortIsSafe(d, p, unflushed);
      NothingYet(later.epochs, later.trail, later.start, d.target, p.trees);
      EndRecoverable(later, q);
      RecoverableIsUnambiguous(found, d.target, p.trees);
      if |unflushed| == 1 {
        assert unflushed == [found];
        OneStateUnexposed(found, d.target, p.trees);
      }
    }
    ok := NextRun(later, q);
  }

  /** In a single state no staging directory is the volume. */
  lemma OneStateUnexposed(w: World, target: string, trees: set<Tree>)
    requires Injective(w.names)
    ensures !Exposed([w], w, target, trees)
  {
    NotTheVolume(target, STAGING);
    forall n | MadeByMkdirTemp(n, target + STAGING) ensures !MadeByMkdirTemp(n, target + REPLACED) {
      MadeForStaging(target, n);
    }
    hide MadeByMkdirTemp, Spoils;
    forall n | n in Ours(w, target, STAGING) ensures !VolumeAt(w, target, w.names[n]) {
      assert n !in Ours(w, target, REPLACED);
    }
  }

  // ---- Which interrupted swaps are exposed ----------------------------------------------------------------

  /** A run killed between the exchange and its flush: the old tree lies under the staging
      name, and before the exchange it was the volume. */
  lemma ExchangeExposes(window: seq<World>, i: nat, after: World, target: string, staging: string, trees: set<Tree>)
    requires i < |window| && Injective(window[i].names) && target in window[i].names
             && staging in Ours(after, target, STAGING)
    requires after.names[staging] == window[i].names[target] && map[] !in trees
    ensures Exposed(window, after, target, trees)
  {
    NotTheVolume(target, STAGING);
    hide MadeByMkdirTemp;
    var o := after.names[staging];
    assert VolumeAt(window[i], target, o);
    assert Part(map[], TreeOf(after, o));
    assert Spoils(TreeOf(after, o), trees);
  }

  /** A run killed after the pair of renames: the old tree lies under a replaced name, which
      clearing does not touch. */
  lemma RenamePairUnexposed(k: Stake, window: seq<World>, w: World, displaced: string, trees: set<Tree>)
    requires HeldAll(k, window) && k.marks && window != [] && window[|window| - 1] == w
    requires k.target in w.names && w.names[k.target] == k.s && k.o != k.s
    requires displaced in w.names && w.names[displaced] == k.o && MadeByMkdirTemp(displaced, k.target + REPLACED)
    ensures !Exposed(window, w, k.target, trees)
  {
    NotTheVolume(k.target, STAGING);
    forall n | MadeByMkdirTemp(n, k.target + STAGING) ensures n != displaced { MadeForStaging(k.target, n); }
    hide MadeByMkdirTemp, VolumeAt, Spoils;
    LastHeld(k, window, w);
    forall i, n | 0 <= i < |window| && n in Ours(w, k.target, STAGING)
      ensures !VolumeAt(window[i], k.target, w.names[n])
    {
      if VolumeAt(window[i], k.target, w.names[n]) { HeldVolume(k, window[i], w.names[n]); }
    }
  }
}
