/**
 The managed toolchain: version directories, and a `current` link to one of them. Any number
 of processes ensure it, one at a time under a lock; each builds a fresh directory, tries
 it, flips the link by renaming a new one over it, and clears away what is superseded. A
 process may die at any point, and the kernel then drops its lock.
 */
module Toolchain {
  import opened Wrappers

  type Name = string

  /** Finished means downloaded, installed, smoke-tested and with its manifest; a removal that
      stops half-way leaves a broken directory. */
  datatype Version = Building | Finished | Broken

  /** What is at `current`. */
  datatype Entry = Absent | Link(target: Name) | Malformed

  datatype Stage =
    | Deciding
    | Cleaning(keep: set<Name>, todo: set<Name>, prev: set<Name>, last: bool)
    | Preparing(prev: set<Name>)
    | Making(name: Name, prev: set<Name>)
    | Ready(name: Name, prev: set<Name>)
    | Staged(name: Name, prev: set<Name>)
    | Discarding(name: Name)
    | Leaving

  /** `temp` is the link being staged beside `current`. */
  datatype System = System(versions: map<Name, Version>, current: Entry, temp: Option<Name>, lock: Option<nat>,
                           procs: map<nat, Stage>)

  /** The version `current` names, read under the lock. */
  function Target(e: Entry): set<Name> { if e.Link? then {e.target} else {} }

  predicate Good(s: System) {
    s.current.Link? && s.current.target in s.versions && s.versions[s.current.target] == Finished
  }

  function At(s: System, p: nat, stage: Stage): System { s.(procs := s.procs[p := stage]) }

  ghost predicate Enter(s: System, p: nat, s': System) {
    && p !in s.procs && s.lock == None
    && s' == At(s.(lock := Some(p)), p, Deciding)
  }

  /** Fresh and healthy: retire old versions, or just return; otherwise provision, which
      first clears away what earlier attempts left. */
  ghost predicate Decide(s: System, p: nat, s': System) {
    && p in s.procs && s.procs[p].Deciding?
    && var keep := Target(s.current);
       || s' == At(s, p, Leaving)
       || s' == At(s, p, Cleaning(keep, s.versions.Keys - keep, keep, true))
       || s' == At(s, p, Cleaning(keep, s.versions.Keys - keep, keep, false))
  }

  /** One directory: skipped while a running borgmatic uses it, removed, or left broken. */
  ghost predicate Clean(s: System, p: nat, s': System) {
    && p in s.procs && s.procs[p].Cleaning?
    && var c := s.procs[p];
       if c.todo == {} then s' == At(s, p, if c.last then Leaving else Preparing(c.prev))
       else exists n :: n in c.todo && Removal(s, n, At(s, p, c.(todo := c.todo - {n})), s')
  }

  ghost predicate Removal(s: System, n: Name, after: System, s': System) {
    || s' == after
    || s' == after.(versions := s.versions[n := Broken])
    || s' == after.(versions := s.versions - {n})
  }

  /** A fresh randomly named directory: no name is made twice. */
  ghost predicate Prepare(s: System, p: nat, s': System) {
    && p in s.procs && s.procs[p].Preparing?
    && (s' == At(s, p, Leaving)
        || exists n :: n !in s.versions && s.current != Link(n)
             && s' == At(s.(versions := s.versions[n := Building]), p, Making(n, s.procs[p].prev)))
  }

  /** Download, install and smoke test, as one step that may fail. */
  ghost predicate Build(s: System, p: nat, s': System) {
    && p in s.procs && s.procs[p].Making?
    && var m := s.procs[p];
       || s' == At(s.(versions := s.versions[m.name := Finished]), p, Ready(m.name, m.prev))
       || s' == At(s, p, Discarding(m.name))
  }

  ghost predicate StageLink(s: System, p: nat, s': System) {
    && p in s.procs && s.procs[p].Ready?
    && var r := s.procs[p];
       || s' == At(s.(temp := Some(r.name)), p, Staged(r.name, r.prev))
       || s' == At(s.(temp := None), p, Discarding(r.name))
       || s' == At(s, p, Discarding(r.name))
  }

  /** The rename is refused while something other than a link is there; that is cleared first. */
  ghost predicate Flip(s: System, p: nat, s': System) {
    && p in s.procs && s.procs[p].Staged?
    && var f := s.procs[p];
       || s' == At(s, p, Discarding(f.name))
       || (if s.current.Malformed? then s' == s.(current := Absent)
           else s.temp.Some? &&
                s' == At(s.(current := Link(s.temp.value), temp := None), p,
                         Cleaning({f.name} + f.prev, s.versions.Keys - {f.name} - f.prev, f.prev, true)))
  }

  ghost predicate Discard(s: System, p: nat, s': System) {
    && p in s.procs && s.procs[p].Discarding?
    && Removal(s, s.procs[p].name, At(s, p, Leaving), s')
  }

  ghost predicate Leave(s: System, p: nat, s': System) {
    && p in s.procs && s.procs[p].Leaving?
    && s' == s.(lock := None, procs := s.procs - {p})
  }

  ghost predicate Crash(s: System, p: nat, s': System) {
    && p in s.procs
    && s' == s.(lock := if s.lock == Some(p) then None else s.lock, procs := s.procs - {p})
  }

  ghost predicate Next(s: System, s': System) {
    exists p: nat ::
      || Enter(s, p, s') || Decide(s, p, s') || Clean(s, p, s') || Prepare(s, p, s') || Build(s, p, s')
      || StageLink(s, p, s') || Flip(s, p, s') || Discard(s, p, s') || Leave(s, p, s') || Crash(s, p, s')
  }

  /** From any state of the disk, with nobody at work yet. */
  ghost predicate Execution(trace: seq<System>) {
    && trace != [] && trace[0].lock == None && trace[0].procs == map[]
    && forall i :: 0 <= i < |trace| - 1 ==> Next(trace[i], trace[i + 1])
  }

  // ---- What every step keeps ------------------------------------------------------------------------

  predicate IsVersion(s: System, n: Name, v: Version) { n in s.versions && s.versions[n] == v }

  /** What the process at work knows: what it is clearing is not what `current` names, and
      nor is what it is building, which is finished once it is ready. */
  predicate Sound(s: System, stage: Stage) {
    match stage
    case Cleaning(keep, todo, _, _) => todo !! keep && Target(s.current) <= keep
    case Making(n, _) => n in s.versions && s.current != Link(n)
    case Ready(n, _) => IsVersion(s, n, Finished) && s.current != Link(n)
    case Staged(n, _) => IsVersion(s, n, Finished) && s.temp == Some(n) && s.current != Link(n)
    case Discarding(n) => s.current != Link(n)
    case _ => true
  }

  ghost predicate Inv(s: System) {
    && (forall p | p in s.procs :: s.lock == Some(p))
    && (forall p | p in s.procs :: Sound(s, s.procs[p]))
  }

  lemma CleanKeeps(s: System, p: nat, s': System)
    requires Inv(s) && Clean(s, p, s')
    ensures Inv(s')
  {
    assert Sound(s, s.procs[p]);
  }

  lemma StepKeeps(s: System, s': System)
    requires Inv(s) && Next(s, s')
    ensures Inv(s')
  {
    var p: nat :|
      || Enter(s, p, s') || Decide(s, p, s') || Clean(s, p, s') || Prepare(s, p, s') || Build(s, p, s')
      || StageLink(s, p, s') || Flip(s, p, s') || Discard(s, p, s') || Leave(s, p, s') || Crash(s, p, s');
    if Clean(s, p, s') {
      CleanKeeps(s, p, s');
    } else if p in s.procs {
      assert Sound(s, s.procs[p]);
      hide Clean;
    }
  }

  lemma {:induction false} AlwaysInv(trace: seq<System>, n: nat)
    requires Execution(trace) && n < |trace|
    ensures Inv(trace[n])
  {
    if n > 0 {
      AlwaysInv(trace, n - 1);
      assert Next(trace[n - 1], trace[n]);
      StepKeeps(trace[n - 1], trace[n]);
    }
  }

  /** One step: a good pointer stays good, the version it names is left exactly as it is
      unless the pointer itself moves, and it moves only to a finished version. */
  lemma StepSparesCurrent(s: System, s': System)
    requires Inv(s) && Next(s, s')
    ensures Good(s) ==> Good(s')
    ensures s'.current.Link? && s'.current != s.current ==> Good(s')
    ensures s'.current == s.current && s.current.Link? && s.current.target in s.versions ==>
              s.current.target in s'.versions && s'.versions[s.current.target] == s.versions[s.current.target]
  {
    var p: nat :|
      || Enter(s, p, s') || Decide(s, p, s') || Clean(s, p, s') || Prepare(s, p, s') || Build(s, p, s')
      || StageLink(s, p, s') || Flip(s, p, s') || Discard(s, p, s') || Leave(s, p, s') || Crash(s, p, s');
    if p in s.procs { assert Sound(s, s.procs[p]); }
  }

  /** The pointer is always good: once `current` links to a finished version it does in every
      later state, however many processes provision, clean and die. */
  lemma {:induction false} PointerStaysGood(trace: seq<System>, i: nat, j: nat)
    requires Execution(trace) && i <= j < |trace| && Good(trace[i])
    ensures Good(trace[j])
  {
    if i < j {
      PointerStaysGood(trace, i, j - 1);
      AlwaysInv(trace, j - 1);
      assert Next(trace[j - 1], trace[j]);
      StepSparesCurrent(trace[j - 1], trace[j]);
    }
  }

  /** No pass ever removes or breaks the version `current` names. */
  lemma CleanupSparesCurrent(trace: seq<System>, n: nat)
    requires Execution(trace) && n + 1 < |trace| && trace[n].current.Link?
             && trace[n].current.target in trace[n].versions
    ensures trace[n + 1].current == trace[n].current ==>
              trace[n].current.target in trace[n + 1].versions
              && trace[n + 1].versions[trace[n].current.target] == trace[n].versions[trace[n].current.target]
    ensures trace[n + 1].current != trace[n].current ==> Good(trace[n + 1])
  {
    AlwaysInv(trace, n);
    assert Next(trace[n], trace[n + 1]);
    StepSparesCurrent(trace[n], trace[n + 1]);
    StepKeepsLink(trace[n], trace[n + 1]);
  }

  lemma StepKeepsLink(s: System, s': System)
    requires Next(s, s') && s.current.Link?
    ensures s'.current.Link?
  {}

  // ---- What an update is for ------------------------------------------------------------------------

  /** Some sequence of steps leads from one state to the other. */
  ghost predicate Leads(s: System, s': System) {
    exists path: seq<System> ::
      && path != [] && path[0] == s && path[|path| - 1] == s'
      && forall i :: 0 <= i < |path| - 1 ==> Next(path[i], path[i + 1])
  }

  lemma LeadsHere(s: System)
    ensures Leads(s, s)
  {
    assert [s][0] == s;
  }

  lemma OneMore(s: System, s1: System, s2: System)
    requires Leads(s, s1) && Next(s1, s2)
    ensures Leads(s, s2)
  {
    hide Next;
    var path: seq<System> :| path != [] && path[0] == s && path[|path| - 1] == s1
        && forall i :: 0 <= i < |path| - 1 ==> Next(path[i], path[i + 1]);
    var longer := path + [s2];
    assert longer[0] == s && longer[|longer| - 1] == s2;
  }

  lemma {:induction false} ClearsAll(s0: System, s: System, p: nat)
    requires Leads(s0, s) && p in s.procs && s.procs[p].Cleaning?
    ensures Leads(s0, At(s.(versions := s.versions - s.procs[p].todo), p, s.procs[p].(todo := {})))
    decreases |s.procs[p].todo|
  {
    hide Leads, Next;
    var c := s.procs[p];
    if c.todo == {} {
      assert s.procs[p := c] == s.procs && s.versions - {} == s.versions;
      return;
    }
    var n :| n in c.todo;
    var next := ClearsOne(s, p, n);
    OneMore(s0, s, next);
    ClearsAll(s0, next, p);
    assert s.versions - {n} - (c.todo - {n}) == s.versions - c.todo;
    assert s.procs[p := c.(todo := c.todo - {n})][p := c.(todo := {})] == s.procs[p := c.(todo := {})];
  }

  lemma ClearsOne(s: System, p: nat, n: Name) returns (next: System)
    requires p in s.procs && s.procs[p].Cleaning? && n in s.procs[p].todo
    ensures Next(s, next)
    ensures next == At(s.(versions := s.versions - {n}), p, s.procs[p].(todo := s.procs[p].todo - {n}))
  {
    var c := s.procs[p];
    next := At(s.(versions := s.versions - {n}), p, c.(todo := c.todo - {n}));
    assert Removal(s, n, At(s, p, c.(todo := c.todo - {n})), next);
    assert Clean(s, p, next);
  }

  /** The lock taken and what earlier attempts left cleared away. */
  lemma Clears(s: System, p: nat) returns (cleared: System)
    requires s.lock == None && p !in s.procs
    ensures var prev := Target(s.current);
            && Leads(s, cleared)
            && cleared == At(s.(lock := Some(p), versions := s.versions - (s.versions.Keys - prev)), p,
                             Cleaning(prev, {}, prev, false))
  {
    hide Leads;
    var prev := Target(s.current);
    var entered := At(s.(lock := Some(p)), p, Deciding);
    LeadsHere(s);
    assert Enter(s, p, entered);
    OneMore(s, s, entered);
    var cleaning := At(entered, p, Cleaning(prev, s.versions.Keys - prev, prev, false));
    assert Decide(entered, p, cleaning);
    OneMore(s, entered, cleaning);
    ClearsAll(s, cleaning, p);
    cleared := At(cleaning.(versions := s.versions - (s.versions.Keys - prev)), p, Cleaning(prev, {}, prev, false));
    assert cleared.procs == s.procs[p := Cleaning(prev, {}, prev, false)];
  }

  /** And then a fresh directory. */
  lemma Begins(s: System, p: nat, n: Name) returns (made: System)
    requires s.lock == None && p !in s.procs && n !in s.versions && s.current != Link(n)
    ensures var kept := Target(s.current) * s.versions.Keys;
            && Leads(s, made)
            && made.versions == (map m | m in kept :: s.versions[m])[n := Building]
            && made.current == s.current && made.lock == Some(p)
                && made.procs == s.procs[p := Making(n, Target(s.current))]
  {
    hide Leads;
    var prev := Target(s.current);
    var cleared := Clears(s, p);
    var preparing := At(cleared, p, Preparing(prev));
    assert Clean(cleared, p, preparing);
    OneMore(s, cleared, preparing);
    made := At(preparing.(versions := preparing.versions[n := Building]), p, Making(n, prev));
    assert Prepare(preparing, p, made);
    OneMore(s, preparing, made);
    assert s.versions - (s.versions.Keys - prev) == map m | m in prev * s.versions.Keys :: s.versions[m];
    assert made.procs == s.procs[p := Making(n, prev)];
  }

  /** From the finished directory to the link over the old one. */
  lemma Installs(s: System, made: System, p: nat, n: Name, prev: set<Name>) returns (flipped: System)
    requires Leads(s, made) && p in made.procs && made.procs[p] == Making(n, prev)
    requires made.versions.Keys <= {n} + prev
    ensures Leads(s, flipped) && flipped.current == Link(n) && flipped.lock == made.lock
    ensures flipped.versions == made.versions[n := Finished]
    ensures flipped.procs == made.procs[p := Cleaning({n} + prev, {}, prev, true)]
  {
    hide Leads;
    var ready := At(made.(versions := made.versions[n := Finished]), p, Ready(n, prev));
    assert Build(made, p, ready);
    OneMore(s, made, ready);
    var staged := At(ready.(temp := Some(n)), p, Staged(n, prev));
    assert StageLink(ready, p, staged);
    OneMore(s, ready, staged);
    var free := if staged.current.Malformed? then staged.(current := Absent) else staged;
    if staged.current.Malformed? {
      assert Flip(staged, p, free);
      OneMore(s, staged, free);
    }
    assert free.versions.Keys - {n} - prev == {};
    flipped := At(free.(current := Link(n), temp := None), p, Cleaning({n} + prev, {}, prev, true));
    assert Flip(free, p, flipped);
    OneMore(s, free, flipped);
  }

  /** Whatever an earlier attempt left behind, a process that finds the lock free and meets no
      failure gets its new version installed: the link names it, it is finished, what the link
      named before is kept as it was, and nothing else is left. */
  lemma UpdateInstalls(s: System, p: nat, n: Name) returns (s': System)
    requires s.lock == None && p !in s.procs && n !in s.versions && s.current != Link(n)
    ensures Leads(s, s') && Good(s') && s'.current == Link(n) && s'.lock == None && s'.procs == s.procs
    ensures s'.versions.Keys == {n} + Target(s.current) * s.versions.Keys
    ensures forall m | m in Target(s.current) * s.versions.Keys :: s'.versions[m] == s.versions[m]
  {
    hide Leads;
    var prev := Target(s.current);
    var made := Begins(s, p, n);
    var flipped := Installs(s, made, p, n, prev);
    var leaving := At(flipped, p, Leaving);
    assert Clean(flipped, p, leaving);
    OneMore(s, flipped, leaving);
    s' := leaving.(lock := None, procs := leaving.procs - {p});
    assert Leave(leaving, p, s');
    OneMore(s, leaving, s');
    assert s'.procs == s.procs;
  }
}
