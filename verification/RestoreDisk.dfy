/**
 The directory a volume's data lives in, one system call at a time, and what a later run
 may find in it.

 A name leads to an inode; the ownership mark and the contents belong to the inode, so a
 rename carries both. `window` holds every state since the last time the directory was
 known to be on disk. A run that merely dies leaves the last of them. A power loss may
 leave the names and marks of one and the contents of another, so nothing is lost in any
 combination only if the flushes are where they have to be.
 */
module RestoreDisk {
  import opened Wrappers
  import opened ScratchNames

  type Id = nat

  /** A directory's contents, by relative path. */
  type Tree = map<string, string>

  datatype World = World(names: map<string, Id>, marks: set<Id>, trees: map<Id, Tree>)

  /** The contents of an inode; one that was never written to is empty. */
  function TreeOf(w: World, id: Id): Tree {
    if id in w.trees then w.trees[id] else map[]
  }

  predicate Below(names: map<string, Id>, next: Id) { forall n | n in names :: names[n] < next }

  ghost predicate Injective(names: map<string, Id>) {
    forall m, n :: m in names && n in names && names[m] == names[n] ==> m == n
  }

  /** What a power loss may leave: the names and marks of one moment, the contents of
      another. */
  function Mix(a: World, b: World): (w: World)
    ensures w.names == a.names && w.marks == a.marks
    ensures forall id :: TreeOf(w, id) == TreeOf(b, id)
    ensures a == b ==> w == a
  {
    World(a.names, a.marks, map id | id in a.trees.Keys + b.trees.Keys :: TreeOf(b, id))
  }

  /** The scratch directories of one purpose beside the volume that carry the mark. */
  function Ours(w: World, target: string, prefix: string): set<string> {
    set n | n in w.names && MadeByMkdirTemp(n, target + prefix) && w.names[n] in w.marks
  }

  // ---- What has to survive ---------------------------------------------------------------------

  /** Inode o is the volume, or is the one displaced directory that can be proved to be this
      tool's. */
  ghost predicate VolumeAt(w: World, target: string, o: Id) {
    && Injective(w.names)
    && if target in w.names then w.names[target] == o
       else exists d :: Ours(w, target, REPLACED) == {d} && d in w.names && w.names[d] == o
  }

  /** The next run can end with the volume holding one of the trees. */
  ghost predicate Recoverable(w: World, target: string, trees: set<Tree>) {
    exists o :: VolumeAt(w, target, o) && TreeOf(w, o) in trees
  }

  /** So it is after a crash or a power loss at any moment of the window. */
  ghost predicate PowerSafe(window: seq<World>, target: string, trees: set<Tree>) {
    forall i, j :: 0 <= i < |window| && 0 <= j < |window| ==> Recoverable(Mix(window[i], window[j]), target, trees)
  }

  /** The volume of state i holds one of the trees in the contents of every state. */
  ghost predicate Anchored(window: seq<World>, i: nat, target: string, trees: set<Tree>)
    requires i < |window|
  {
    exists o :: VolumeAt(window[i], target, o) && forall j | 0 <= j < |window| :: TreeOf(window[j], o) in trees
  }

  lemma OneVolumeEach(w: World, target: string, o1: Id, o2: Id)
    requires VolumeAt(w, target, o1) && VolumeAt(w, target, o2)
    ensures o1 == o2
  {
    if target !in w.names {
      var d1 :| Ours(w, target, REPLACED) == {d1} && d1 in w.names && w.names[d1] == o1;
      var d2 :| Ours(w, target, REPLACED) == {d2} && d2 in w.names && w.names[d2] == o2;
      assert d1 in {d2};
    }
  }

  /** Where the volume is depends on names and marks alone. */
  lemma SameNamesSameVolume(a: World, b: World, target: string, o: Id)
    requires a.names == b.names && a.marks == b.marks
    ensures VolumeAt(a, target, o) <==> VolumeAt(b, target, o)
  {
    assert Ours(a, target, REPLACED) == Ours(b, target, REPLACED);
  }

  lemma MixedVolume(a: World, b: World, target: string, o: Id)
    ensures VolumeAt(Mix(a, b), target, o) <==> VolumeAt(a, target, o)
  {
    SameNamesSameVolume(Mix(a, b), a, target, o);
  }

  lemma RecoverableMix(a: World, b: World, target: string, trees: set<Tree>)
    ensures Recoverable(Mix(a, b), target, trees) <==> exists o :: VolumeAt(a, target, o) && TreeOf(b, o) in trees
  {
    hide VolumeAt;
    forall o ensures VolumeAt(Mix(a, b), target, o) <==> VolumeAt(a, target, o) { MixedVolume(a, b, target, o); }
  }

  lemma AnchoredWhenSafe(window: seq<World>, i: nat, target: string, trees: set<Tree>)
    requires PowerSafe(window, target, trees) && i < |window|
    ensures Anchored(window, i, target, trees)
  {
    hide VolumeAt, Recoverable;
    RecoverableMix(window[i], window[i], target, trees);
    var o :| VolumeAt(window[i], target, o) && TreeOf(window[i], o) in trees;
    forall j | 0 <= j < |window| ensures TreeOf(window[j], o) in trees {
      RecoverableMix(window[i], window[j], target, trees);
      var x :| VolumeAt(window[i], target, x) && TreeOf(window[j], x) in trees;
      OneVolumeEach(window[i], target, o, x);
    }
  }

  /** A window is safe exactly when every state's volume is intact in every state. */
  lemma SafeExactlyWhenAnchored(window: seq<World>, target: string, trees: set<Tree>)
    ensures PowerSafe(window, target, trees) <==> forall i | 0 <= i < |window| :: Anchored(window, i, target, trees)
  {
    hide VolumeAt, Recoverable;
    if PowerSafe(window, target, trees) {
      forall i | 0 <= i < |window| ensures Anchored(window, i, target, trees) {
        AnchoredWhenSafe(window, i, target, trees);
      }
    }
    if forall i | 0 <= i < |window| :: Anchored(window, i, target, trees) {
      forall i, j | 0 <= i < |window| && 0 <= j < |window|
        ensures Recoverable(Mix(window[i], window[j]), target, trees)
      {
        assert Anchored(window, i, target, trees);
        RecoverableMix(window[i], window[j], target, trees);
      }
    }
  }

  lemma SafeNow(window: seq<World>, w: World, target: string, trees: set<Tree>)
    requires PowerSafe(window, target, trees) && w in window
    ensures Recoverable(w, target, trees)
  {
    var i :| 0 <= i < |window| && window[i] == w;
    assert Mix(window[i], window[i]) == w;
  }

  lemma SafeWithMore(window: seq<World>, target: string, trees: set<Tree>, more: set<Tree>)
    requires PowerSafe(window, target, trees) && trees <= more
    ensures PowerSafe(window, target, more)
  {
    hide VolumeAt;
    forall i, j | 0 <= i < |window| && 0 <= j < |window| ensures Recoverable(Mix(window[i], window[j]), target, more) {
      assert Recoverable(Mix(window[i], window[j]), target, trees);
    }
  }

  // ---- Steps that keep a window safe ----------------------------------------------------------------

  ghost predicate SameVolume(w: World, w': World, target: string) {
    forall o :: VolumeAt(w', target, o) <==> VolumeAt(w, target, o)
  }

  /** w' has the volume where w has it, and leaves every volume of the window intact. */
  ghost predicate Steady(window: seq<World>, w: World, w': World, target: string, trees: set<Tree>) {
    && SameVolume(w, w', target)
    && forall i, o | 0 <= i < |window| && VolumeAt(window[i], target, o) :: TreeOf(w', o) in trees
  }

  lemma SteadyOn(window0: seq<World>, w: World, window1: seq<World>, target: string, trees: set<Tree>)
    requires PowerSafe(window0, target, trees) && window0 != [] && window0[|window0| - 1] == w && window0 <= window1
    requires forall k :: |window0| <= k < |window1| ==> Steady(window0, w, window1[k], target, trees)
    ensures PowerSafe(window1, target, trees)
  {
    hide VolumeAt;
    var n := |window0|;
    SafeExactlyWhenAnchored(window0, target, trees);
    forall i | 0 <= i < |window1| ensures Anchored(window1, i, target, trees) {
      var base := if i < n then i else n - 1;
      assert Anchored(window0, base, target, trees);
      var o :| VolumeAt(window0[base], target, o) && forall j | 0 <= j < n :: TreeOf(window0[j], o) in trees;
      if i >= n { assert Steady(window0, w, window1[i], target, trees); }
      assert VolumeAt(window1[i], target, o);
      forall j | 0 <= j < |window1| ensures TreeOf(window1[j], o) in trees {
        if j >= n {
          assert Steady(window0, w, window1[j], target, trees);
        } else {
          assert window1[j] == window0[j];
        }
      }
    }
    SafeExactlyWhenAnchored(window1, target, trees);
  }

  /** A step that moves names or marks only, and not the volume. */
  lemma SteadyNames(window: seq<World>, w: World, w': World, target: string, trees: set<Tree>)
    requires PowerSafe(window, target, trees) && window != [] && window[|window| - 1] == w
    requires SameVolume(w, w', target) && forall id :: TreeOf(w', id) == TreeOf(w, id)
    ensures Steady(window, w, w', target, trees)
  {
    hide VolumeAt, SameVolume, PowerSafe, TreeOf;
    forall i, o | 0 <= i < |window| && VolumeAt(window[i], target, o) ensures TreeOf(w', o) in trees {
      VolumeIntact(window, i, o, |window| - 1, target, trees);
    }
  }

  lemma VolumeIntact(window: seq<World>, i: nat, o: Id, j: nat, target: string, trees: set<Tree>)
    requires PowerSafe(window, target, trees) && i < |window| && j < |window| && VolumeAt(window[i], target, o)
    ensures TreeOf(window[j], o) in trees
  {
    AnchoredWhenSafe(window, i, target, trees);
    var x :| VolumeAt(window[i], target, x) && forall j | 0 <= j < |window| :: TreeOf(window[j], x) in trees;
    OneVolumeEach(window[i], target, o, x);
    hide VolumeAt;
  }

  lemma VolumeByName(w: World, w': World, target: string)
    requires target in w.names && target in w'.names && w'.names[target] == w.names[target]
    requires Injective(w.names) && Injective(w'.names)
    ensures SameVolume(w, w', target)
  {}

  /** fsync on the parent pins names and marks; mixing the present ones with earlier
      contents loses nothing. */
  lemma PinnedSafe(window0: seq<World>, w: World, window1: seq<World>, target: string, trees: set<Tree>)
    requires PowerSafe(window0, target, trees) && window0 != [] && window0[|window0| - 1] == w
    requires |window1| == |window0| && forall i :: 0 <= i < |window1| ==> window1[i] == Mix(w, window0[i])
    ensures PowerSafe(window1, target, trees)
  {
    hide VolumeAt;
    AnchoredWhenSafe(window0, |window0| - 1, target, trees);
    var o :| VolumeAt(w, target, o) && forall j | 0 <= j < |window0| :: TreeOf(window0[j], o) in trees;
    forall i | 0 <= i < |window1| ensures Anchored(window1, i, target, trees) {
      MixedVolume(w, window0[i], target, o);
      forall j | 0 <= j < |window1| ensures TreeOf(window1[j], o) in trees {}
    }
    SafeExactlyWhenAnchored(window1, target, trees);
  }

  // ---- What is promised of a run --------------------------------------------------------------------

  /** That from the given moment on, every window closed is safe, and every state passed
      through is recoverable, to one of the trees. */
  datatype Promise = Promise(epoch: nat, moment: nat, trees: set<Tree>)

  ghost predicate Kept(epochs: seq<seq<World>>, trail: seq<World>, start: nat, target: string, p: Promise) {
    && p.epoch <= |epochs| && p.moment <= |trail| && start <= |trail|
    && (forall e | p.epoch <= e < |epochs| :: PowerSafe(epochs[e], target, p.trees))
    && (forall i | p.moment <= i < start :: Recoverable(trail[i], target, p.trees))
  }

  lemma StillKept(epochs: seq<seq<World>>, trail: seq<World>, start: nat, target: string, p: Promise,
                  trail': seq<World>)
    requires Kept(epochs, trail, start, target, p) && trail <= trail'
    ensures Kept(epochs, trail', start, target, p)
  {
    hide PowerSafe, Recoverable;
  }

  lemma NothingYet(epochs: seq<seq<World>>, trail: seq<World>, start: nat, target: string, trees: set<Tree>)
    requires start <= |trail|
    ensures Kept(epochs, trail, start, target, Promise(|epochs|, |trail|, trees))
  {}

  /** Every state passed through since `since`. */
  ghost predicate AllAlong(trail: seq<World>, since: nat, target: string, trees: set<Tree>) {
    forall i | since <= i < |trail| :: Recoverable(trail[i], target, trees)
  }

  // ---- The stake of a swap ----------------------------------------------------------------------------

  /** What one restore has at stake: inode o with the original tree, inode s with the
      extracted one. While `oldOk` the volume may still be o, while `newOk` it may be s.
      `beside` is the directory as the restore found it. */
  datatype Stake = Stake(target: string, marks: bool, o: Id, s: Id, orig: Tree, full: Tree, oldOk: bool, newOk: bool,
                         beside: World)

  /** A name that was there before and is neither the volume nor a marked staging leftover. */
  predicate Bystander(k: Stake, n: string) {
    n in k.beside.names && n != k.target && n !in Ours(k.beside, k.target, STAGING)
  }

  /** Every bystander is where and what it was. */
  ghost predicate Spared(k: Stake, w: World) {
    forall n | Bystander(k, n) ::
      n in w.names && w.names[n] == k.beside.names[n] && TreeOf(w, w.names[n]) == TreeOf(k.beside, w.names[n])
  }

  /** A step that changes only names that are no bystanders, and contents of such or of none. */
  lemma StillSpared(k: Stake, w: World, w': World, touched: set<string>)
    requires Spared(k, w) && Injective(w.names)
    requires forall n | n in touched :: !Bystander(k, n)
    requires forall n | n in w.names && n !in touched :: n in w'.names && w'.names[n] == w.names[n]
    requires forall n | n in w.names && n !in touched :: TreeOf(w', w.names[n]) == TreeOf(w, w.names[n])
    ensures Spared(k, w')
  {
    hide Bystander;
  }

  ghost predicate Held(k: Stake, w: World) {
    && Injective(w.names)
    && (k.oldOk ==> TreeOf(w, k.o) == k.orig)
    && (k.newOk ==> TreeOf(w, k.s) == k.full)
    && (k.target in w.names ==> (k.oldOk && w.names[k.target] == k.o) || (k.newOk && w.names[k.target] == k.s))
    && (k.target !in w.names ==> k.oldOk && Displaced(k, w))
  }

  ghost predicate Displaced(k: Stake, w: World) {
    exists d :: d in w.names && w.names[d] == k.o && (k.marks ==> Ours(w, k.target, REPLACED) == {d})
  }

  ghost predicate HeldAll(k: Stake, window: seq<World>) {
    forall i :: 0 <= i < |window| ==> Held(k, window[i])
  }

  lemma HeldIsSafe(k: Stake, window: seq<World>)
    requires HeldAll(k, window) && k.marks
    ensures PowerSafe(window, k.target, {k.orig, k.full})
  {
    hide Ours;
    forall i | 0 <= i < |window| ensures Anchored(window, i, k.target, {k.orig, k.full}) {
      var w := window[i];
      assert Held(k, w);
      var o := if k.target in w.names then w.names[k.target] else k.o;
      assert VolumeAt(w, k.target, o);
      forall j | 0 <= j < |window| ensures TreeOf(window[j], o) in {k.orig, k.full} { assert Held(k, window[j]); }
    }
    SafeExactlyWhenAnchored(window, k.target, {k.orig, k.full});
  }

  /** The volume of a held state is one of the two inodes. */
  lemma HeldVolume(k: Stake, w: World, x: Id)
    requires Held(k, w) && k.marks && VolumeAt(w, k.target, x)
    ensures (k.oldOk && x == k.o) || (k.newOk && x == k.s)
  {
    hide Ours;
    if k.target !in w.names {
      var d :| d in w.names && w.names[d] == k.o && Ours(w, k.target, REPLACED) == {d};
      var e :| Ours(w, k.target, REPLACED) == {e} && e in w.names && w.names[e] == x;
      assert d in {e};
    }
  }

  /** A step that leaves the volume's name and the trees at stake alone keeps what is held. */
  lemma Undisturbed(k: Stake, w: World, w': World)
    requires Held(k, w) && k.target in w.names
    requires k.target in w'.names && w'.names[k.target] == w.names[k.target] && Injective(w'.names)
    requires k.oldOk ==> TreeOf(w', k.o) == TreeOf(w, k.o)
    requires k.newOk ==> TreeOf(w', k.s) == TreeOf(w, k.s)
    ensures Held(k, w')
  {}

  // ---- System calls -----------------------------------------------------------------------------

  datatype ExchangeResult = Exchanged | Unsupported | Failed

  datatype Ownership = Known(ours: bool) | Unreadable | ReadError

  class Disk {
    const target: string
    const holdsMarks: bool   // the filesystem keeps user extended attributes
    const canList: bool      // the parent directory may be listed
    const canRead: bool      // scratch directories may be read
    const exchanges: bool    // the kernel and the filesystem can exchange two names in one step
    var world: World
    var next: Id
    ghost var window: seq<World>        // since the directory was last known to be on disk
    ghost var epochs: seq<seq<World>>   // the windows before this one
    ghost var trail: seq<World>         // every state passed through
    ghost var start: nat               // how long the trail was when the window was opened
    ghost var gap: nat                 // how long the trail was when the volume was last missing
    ghost var faults: nat              // how many calls have failed

    ghost predicate Sound()
      reads this
    {
      && Injective(world.names)
      && (forall n | n in world.names :: world.names[n] in world.trees)
      && (forall id | id in world.trees :: id < next)
      && (forall id | id in world.marks :: id < next)
      && window != [] && window[|window| - 1] == world
      && (forall w | w in window :: Below(w.names, next))
      && start <= |trail| && (forall i | start <= i < |trail| :: trail[i] in window)
      && gap <= |trail| && (forall i | gap <= i < |trail| :: target in trail[i].names)
    }

    /** What was added to the window was added to the trail. */
    ghost predicate Passed(window0: seq<World>, trail0: seq<World>)
      reads this
    {
      window0 <= window && trail == trail0 + window[|window0|..]
    }

    /** What a run may rely on after a death or a power loss, and has kept to since it began. */
    ghost predicate Safe(p: Promise)
      reads this
    {
      Sound() && PowerSafe(window, target, p.trees) && Kept(epochs, trail, start, target, p)
    }

    /** The directory as a run finds it, with the states a power loss could still bring back. */
    constructor (target: string, holdsMarks: bool, canList: bool, canRead: bool, exchanges: bool, world: World,
                 next: Id, ghost unflushed: seq<World>)
      requires Injective(world.names)
      requires forall n | n in world.names :: world.names[n] in world.trees
      requires forall id | id in world.trees :: id < next
      requires forall id | id in world.marks :: id < next
      requires unflushed != [] && unflushed[|unflushed| - 1] == world && forall w | w in unflushed ::
               Below(w.names, next)
      ensures Sound() && this.target == target && this.holdsMarks == holdsMarks
      ensures this.canList == canList && this.canRead == canRead && this.exchanges == exchanges
      ensures this.world == world && window == unflushed && epochs == [] && trail == [] && faults == 0
    {
      this.target, this.holdsMarks, this.canList, this.canRead := target, holdsMarks, canList, canRead;
      this.exchanges, this.world, this.next := exchanges, world, next;
      window, epochs, trail, start, gap, faults := unflushed, [], [], 0, 0, 0;
    }

    /** A call that succeeded, or one more that failed. */
    ghost predicate Counted(before: nat, ok: bool)
      reads this
    {
      if ok then faults == before else before < faults
    }

    /** A call fails for a reason of its own. */
    ghost method Fault()
      modifies `faults
      ensures faults == old(faults) + 1 && (old(Sound()) ==> Sound())
    {
      faults := faults + 1;
    }

    /** A state passed through. */
    ghost method Pass()
      requires window != [] && Injective(world.names)
      requires forall n | n in world.names :: world.names[n] in world.trees
      requires forall id | id in world.trees :: id < next
      requires forall id | id in world.marks :: id < next
      requires forall w | w in window :: Below(w.names, next)
      requires start <= |trail| && forall i | start <= i < |trail| :: trail[i] in window
      requires gap <= |trail| && forall i | gap <= i < |trail| :: target in trail[i].names
      modifies `window, `trail, `gap
      ensures Sound() && window == old(window) + [world] && trail == old(trail) + [world]
      ensures target in world.names ==> gap == old(gap)
    {
      window, trail := window + [world], trail + [world];
      if target !in world.names { gap := |trail|; }
      forall w | w in window ensures Below(w.names, next) {
        assert w in old(window) || w == world;
      }
    }

    /** What came before is no longer followed; nothing is claimed of it from here on. */
    ghost method StartAfresh()
      requires Sound()
      modifies `window, `start
      ensures Sound() && window == [world] && start == |trail|
    {
      assert world in window;
      window, start := [world], |trail|;
    }

    method MkdirTemp(prefix: string) returns (r: Option<string>)
      requires Sound()
      modifies this
      ensures Sound() && Passed(old(window), old(trail)) && epochs == old(epochs) && start == old(start)
      ensures r.None? ==> world == old(world) && window == old(window)
      ensures r.Some? ==>
        && r.value !in old(world.names) && MadeByMkdirTemp(r.value, target + prefix)
        && old(next) !in old(world.trees) && next == old(next) + 1
        && world == old(world).(names := old(world.names)[r.value := old(next)],
            trees := old(world.trees)[old(next) := map[]])
        && window == old(window) + [world]
      ensures Counted(old(faults), r.Some?)
      ensures target in world.names ==> gap == old(gap)
    {
      if * {
        Fault();
        return None;
      }
      hide MadeByMkdirTemp, MkdirTempName, ScratchPattern, Sound;
      assert Digits("0");
      var random: string :| Digits(random);
      var name := MkdirTempName(ScratchPattern(target, prefix), random);
      CreatedIsRecognised(target, prefix, random);
      if name in world.names {
        Fault();
        return None;
      }
      AddDirectory(name);
      return Some(name);
    }

    method AddDirectory(name: string)
      requires Sound() && name !in world.names
      modifies this
      ensures Sound() && window == old(window) + [world] && trail == old(trail) + [world]
      ensures epochs == old(epochs) && start == old(start) && faults == old(faults) && next == old(next) + 1
      ensures old(next) !in old(world.trees)
      ensures world == old(world).(names := old(world.names)[name := old(next)],
                                   trees := old(world.trees)[old(next) := map[]])
      ensures target in world.names ==> gap == old(gap)
    {
      world := world.(names := world.names[name := next], trees := world.trees[next := map[]]);
      next := next + 1;
      Pass();
    }

    /** Claims a directory; only a filesystem without user attributes refuses. */
    method MarkAsOurs(name: string) returns (ok: bool)
      requires Sound() && name in world.names
      modifies this
      ensures Sound() && Passed(old(window), old(trail)) && epochs == old(epochs) && start == old(start)
              && next == old(next) && ok == holdsMarks
      ensures world == if ok then old(world).(marks := old(world.marks) + {old(world.names)[name]}) else old(world)
      ensures window == if ok then old(window) + [world] else old(window)
      ensures faults == old(faults)
      ensures target in world.names ==> gap == old(gap)
    {
      ok := holdsMarks;
      if ok {
        world := world.(marks := world.marks + {world.names[name]});
        Pass();
      }
    }

    method RemoveMark(name: string) returns (ok: bool)
      requires Sound() && name in world.names
      modifies this
      ensures Sound() && Passed(old(window), old(trail)) && epochs == old(epochs) && start == old(start)
              && next == old(next)
      ensures world == if ok then old(world).(marks := old(world.marks) - {old(world.names)[name]}) else old(world)
      ensures window == if ok then old(window) + [world] else old(window)
      ensures Counted(old(faults), ok)
      ensures target in world.names ==> gap == old(gap)
    {
      if * {
        Fault();
        return false;
      }
      world := world.(marks := world.marks - {world.names[name]});
      Pass();
      return true;
    }

    /** Anything else that may fail and leaves the directory as it is. */
    method Attempt() returns (ok: bool)
      modifies `faults
      ensures old(Sound()) ==> Sound()
      ensures Counted(old(faults), ok)
    {
      if * {
        Fault();
        return false;
      }
      return true;
    }

    /** Whether the mark says the directory is this tool's, and whether it could be asked. */
    method ProvablyOurs(name: string) returns (r: Ownership)
      requires name in world.names
      modifies `faults
      ensures r.Known? ==> r.ours == (world.names[name] in world.marks)
      ensures canRead ==> !r.Unreadable?
      ensures r.Known? ==> canRead
      ensures old(Sound()) ==> Sound()
      ensures Counted(old(faults), !r.ReadError?)
    {
      if * {
        Fault();
        return ReadError;
      }
      if !canRead { return Unreadable; }
      return Known(world.names[name] in world.marks);
    }

    /** Whether a directory has no entries; None when it could not be read. */
    method IsEmptyDir(name: string) returns (r: Option<bool>)
      requires name in world.names
      modifies `faults
      ensures r.Some? ==> r.value == (TreeOf(world, world.names[name]) == map[])
      ensures old(Sound()) ==> Sound()
      ensures Counted(old(faults), r.Some?)
    {
      if * {
        Fault();
        return None;
      }
      return Some(TreeOf(world, world.names[name]) == map[]);
    }

    /** RENAME_EXCHANGE. */
    method Exchange(a: string, b: string) returns (r: ExchangeResult)
      requires Sound() && a in world.names && b in world.names && a != b
      modifies this
      ensures Sound() && Passed(old(window), old(trail)) && epochs == old(epochs) && start == old(start)
              && next == old(next)
      ensures world == if r.Exchanged?
                       then old(world).(names := old(world.names)[a := old(world.names)[b]][b := old(world.names)[a]])
                       else old(world)
      ensures window == if r.Exchanged? then old(window) + [world] else old(window)
      ensures Counted(old(faults), !r.Failed?) && (r.Unsupported? <==> !exchanges)
      ensures target in world.names ==> gap == old(gap)
    {
      if !exchanges { return Unsupported; }
      if * {
        Fault();
        return Failed;
      }
      world := world.(names := world.names[a := world.names[b]][b := world.names[a]]);
      Pass();
      return Exchanged;
    }

    /** renameat: replaces an empty directory, refuses any other. */
    method Renameat(from: string, to: string) returns (ok: bool)
      requires Sound() && from in world.names && from != to
      modifies this
      ensures Sound() && Passed(old(window), old(trail)) && epochs == old(epochs) && start == old(start)
              && next == old(next)
      ensures ok ==> to in old(world.names) ==> TreeOf(old(world), old(world.names)[to]) == map[]
      ensures world == if ok then old(world).(names := (old(world.names) - {from})[to := old(world.names)[from]])
              else old(world)
      ensures window == if ok then old(window) + [world] else old(window)
      ensures old(faults) <= faults && (ok ==> faults == old(faults))
      ensures !ok && (to in old(world.names) ==> TreeOf(old(world), old(world.names)[to]) == map[]) ==>
              old(faults) < faults
      ensures target in world.names ==> gap == old(gap)
    {
      if * {
        Fault();
        return false;
      }
      if to in world.names && TreeOf(world, world.names[to]) != map[] { return false; }
      world := world.(names := (world.names - {from})[to := world.names[from]]);
      Pass();
      return true;
    }

    /** os.Rename: refuses any directory already there. */
    method Rename(from: string, to: string) returns (ok: bool)
      requires Sound() && from in world.names && from != to
      modifies this
      ensures Sound() && Passed(old(window), old(trail)) && epochs == old(epochs) && start == old(start)
              && next == old(next)
      ensures ok ==> to !in old(world.names)
      ensures world == if ok then old(world).(names := (old(world.names) - {from})[to := old(world.names)[from]])
              else old(world)
      ensures window == if ok then old(window) + [world] else old(window)
      ensures old(faults) <= faults && (ok ==> faults == old(faults))
      ensures !ok && to !in old(world.names) ==> old(faults) < faults
      ensures target in world.names ==> gap == old(gap)
    {
      if to in world.names { return false; }
      ok := Renameat(from, to);
    }

    /** os.Remove on a directory: only an empty one goes. */
    method Rmdir(name: string) returns (ok: bool)
      requires Sound() && name in world.names
      modifies this
      ensures Sound() && Passed(old(window), old(trail)) && epochs == old(epochs) && start == old(start)
              && next == old(next)
      ensures ok ==> TreeOf(old(world), old(world.names)[name]) == map[]
      ensures world == if ok then old(world).(names := old(world.names) - {name}) else old(world)
      ensures window == if ok then old(window) + [world] else old(window)
      ensures old(faults) <= faults && (ok ==> faults == old(faults))
      ensures !ok && TreeOf(old(world), old(world.names)[name]) == map[] ==> old(faults) < faults
      ensures target in world.names ==> gap == old(gap)
    {
      if * {
        Fault();
        return false;
      }
      if TreeOf(world, world.names[name]) != map[] { return false; }
      world := world.(names := world.names - {name});
      Pass();
      return true;
    }

    /** os.RemoveAll, entry by entry, with btrfs subvolume deletion where the root of an
        emptied directory cannot be removed. It can stop anywhere. */
    method RemoveScratchDir(name: string) returns (ok: bool)
      requires Sound() && name in world.names
      modifies this
      ensures Sound() && Passed(old(window), old(trail)) && epochs == old(epochs) && start == old(start)
              && next == old(next)
      ensures forall i :: |old(window)| <= i < |window| ==> Removing(old(world), name, window[i])
      ensures Removing(old(world), name, world)
      ensures world.names == if ok then old(world.names) - {name} else old(world.names)
      ensures Counted(old(faults), ok)
      ensures target in world.names ==> gap == old(gap)
    {
      hide Sound;
      RemoveEntries(name);
      if * {
        Fault();
        return false;
      }
      ghost var w1 := world;
      RemoveRoot(name);
      RemovingOn(old(world), w1, name, world);
      return true;
    }

    method RemoveRoot(name: string)
      requires Sound() && name in world.names
      modifies this
      ensures Sound() && window == old(window) + [world] && trail == old(trail) + [world]
      ensures epochs == old(epochs) && start == old(start) && next == old(next)
      ensures Removing(old(world), name, world) && world.names == old(world.names) - {name}
      ensures faults == old(faults)
      ensures target in world.names ==> gap == old(gap)
    {
      world := world.(names := world.names - {name}, trees := world.trees[world.names[name] := map[]]);
      Pass();
    }

    method RemoveEntries(name: string)
      requires Sound() && name in world.names
      modifies this
      ensures Sound() && Passed(old(window), old(trail)) && epochs == old(epochs) && start == old(start)
              && next == old(next)
      ensures forall i :: |old(window)| <= i < |window| ==> Removing(old(world), name, window[i])
      ensures Removing(old(world), name, world) && world.names == old(world.names)
      ensures faults == old(faults)
      ensures target in world.names ==> gap == old(gap)
    {
      ghost var w0 := world;
      var steps: nat := *;
      while steps > 0
        invariant Sound() && Passed(old(window), old(trail)) && epochs == old(epochs) && start == old(start)
        invariant next == old(next) && faults == old(faults)
        invariant target in world.names ==> gap == old(gap)
        invariant forall i :: |old(window)| <= i < |window| ==> Removing(w0, name, window[i])
        invariant Removing(w0, name, world) && world.names == w0.names
        decreases steps
      {
        ghost var before := world;
        RemoveEntry(name);
        RemovingOn(w0, before, name, world);
        steps := steps - 1;
      }
    }

    method RemoveEntry(name: string)
      requires Sound() && name in world.names
      modifies this
      ensures Sound() && window == old(window) + [world] && trail == old(trail) + [world]
      ensures epochs == old(epochs) && start == old(start) && next == old(next)
      ensures Removing(old(world), name, world) && world.names == old(world.names)
      ensures faults == old(faults)
      ensures target in world.names ==> gap == old(gap)
    {
      var id, gone: string := world.names[name], *;
      world := world.(trees := world.trees[id := TreeOf(world, id) - {gone}]);
      Pass();
    }

    /** The extract callback: it writes into the directory as it goes, and reports success
        only once the whole archived tree is there. */
    method Extract(name: string, full: Tree) returns (ok: bool)
      requires Sound() && name in world.names
      modifies this
      ensures Sound() && Passed(old(window), old(trail)) && epochs == old(epochs) && start == old(start)
              && next == old(next)
      ensures forall i :: |old(window)| <= i < |window| ==> Writing(old(world), name, window[i])
      ensures Writing(old(world), name, world)
      ensures ok ==> TreeOf(world, world.names[name]) == full
      ensures Counted(old(faults), ok)
      ensures target in world.names ==> gap == old(gap)
    {
      hide Sound;
      ghost var w0 := world;
      var steps: nat := *;
      while steps > 0
        invariant Sound() && Passed(old(window), old(trail)) && epochs == old(epochs) && start == old(start)
        invariant next == old(next) && faults == old(faults)
        invariant target in world.names ==> gap == old(gap)
        invariant forall i :: |old(window)| <= i < |window| ==> Writing(w0, name, window[i])
        invariant Writing(w0, name, world)
        decreases steps
      {
        ghost var before := world;
        var partial: Tree := *;
        Write(name, partial);
        WritingOn(w0, before, name, world);
        steps := steps - 1;
      }
      if * {
        Fault();
        return false;
      }
      ghost var before := world;
      Write(name, full);
      WritingOn(w0, before, name, world);
      return true;
    }

    method Write(name: string, contents: Tree)
      requires Sound() && name in world.names
      modifies this
      ensures Sound() && window == old(window) + [world] && trail == old(trail) + [world]
      ensures epochs == old(epochs) && start == old(start) && next == old(next)
      ensures Writing(old(world), name, world) && TreeOf(world, world.names[name]) == contents
      ensures faults == old(faults)
      ensures target in world.names ==> gap == old(gap)
    {
      world := world.(trees := world.trees[world.names[name] := contents]);
      Pass();
    }

    /** syncfs on the directory's filesystem: everything so far is on disk. */
    method SyncStagedData() returns (ok: bool)
      requires Sound()
      modifies this
      ensures Sound() && world == old(world) && next == old(next) && trail == old(trail)
      ensures ok ==> window == [world] && epochs == old(epochs) + [old(window)] && start == |trail|
      ensures !ok ==> window == old(window) && epochs == old(epochs) && start == old(start)
      ensures Counted(old(faults), ok)
      ensures gap == old(gap)
    {
      if * {
        Fault();
        return false;
      }
      assert world in window;
      epochs := epochs + [window];
      window, start := [world], |trail|;
      return true;
    }

    /** fsync on the parent directory: names and marks are on disk, contents may lag. */
    method SyncDir() returns (ok: bool)
      requires Sound()
      modifies this
      ensures Sound() && world == old(world) && next == old(next) && trail == old(trail)
      ensures ok ==> |window| == |old(window)| && forall i :: 0 <= i < |window| ==>
              window[i] == Mix(world, old(window)[i])
      ensures ok ==> epochs == old(epochs) + [old(window)] && start == |trail|
      ensures !ok ==> window == old(window) && epochs == old(epochs) && start == old(start)
      ensures Counted(old(faults), ok)
      ensures gap == old(gap)
    {
      if * {
        Fault();
        return false;
      }
      assert world in window;
      epochs := epochs + [window];
      ghost var now, before := world, window;
      window := seq(|before|, i requires 0 <= i < |before| => Mix(now, before[i]));
      start := |trail|;
      assert Mix(now, before[|before| - 1]) == now;
      return true;
    }
  }

  /** A moment while the directory `name` is being removed. */
  ghost predicate Removing(w0: World, name: string, w: World)
    requires name in w0.names
  {
    && (w.names == w0.names || w.names == w0.names - {name})
    && w.marks == w0.marks
    && w0.trees.Keys <= w.trees.Keys && w.trees.Keys <= w0.trees.Keys + {w0.names[name]}
    && (forall id :: id != w0.names[name] ==> TreeOf(w, id) == TreeOf(w0, id))
    && Part(TreeOf(w, w0.names[name]), TreeOf(w0, w0.names[name]))
  }

  lemma RemovingOn(w0: World, w1: World, name: string, w2: World)
    requires name in w0.names && w1.names == w0.names && Removing(w0, name, w1) && Removing(w1, name, w2)
    ensures Removing(w0, name, w2)
  {}

  /** What is left of a tree while it is being removed. */
  predicate Part(t: Tree, whole: Tree) { forall path | path in t :: path in whole && t[path] == whole[path] }

  /** A moment while something writes into the directory `name`. */
  ghost predicate Writing(w0: World, name: string, w: World)
    requires name in w0.names
  {
    && w.names == w0.names
    && w.marks == w0.marks
    && w0.trees.Keys <= w.trees.Keys && w.trees.Keys <= w0.trees.Keys + {w0.names[name]}
    && forall id :: id != w0.names[name] ==> TreeOf(w, id) == TreeOf(w0, id)
  }

  lemma WritingOn(w0: World, w1: World, name: string, w2: World)
    requires name in w0.names && Writing(w0, name, w1) && Writing(w1, name, w2)
    ensures Writing(w0, name, w2)
  {}
}
