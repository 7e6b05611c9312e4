/**
 Who removes the dump helpers of a backup run. Every run reaps its own helpers when its
 child has exited; a manager that starts up reaps those of runs whose owner died. Runs,
 start-up reapers and sweepers of orphaned lock files interleave one file operation at a
 time, in any number of processes, each of which may die at any point. Taking a lock file
 (opening, creating it if absent, and locking) is one step. Run ids are unique; process
 ids are reused once their process is gone.
 */
module Reaper {
  import opened Wrappers

  type Id = nat

  /** Begun, then the liveness lock (or not), then the record, the child, and on the way out
      its own reaping, the record, the lock and the lock file. */
  datatype Phase = Begun | LockFailed | Locked | Unlocked | Recorded | Reaped | Cleared | Released | Over

  /** `exposed`: a sweeper was still to try its lock file when the run, denied its lock,
      removed the file. */
  datatype Run = Run(proc: nat, pid: nat, phase: Phase, locked: bool, exposed: bool)

  datatype Holder = ByRun(id: Id) | ByAgent(agent: nat)

  /** A run's lock file: whether the path exists, and who has it locked. */
  datatype File = File(present: bool, holder: Option<Holder>)

  const ABSENT := File(false, None)

  datatype Step =
    | Idle | Look | NoFile | Try | Sure(lock: bool) | Swept(lock: bool) | Clean(lock: bool) | Last
    | Held | Unheld

  /** A reaper or a sweeper: the records it read, what it still has to look at, and where it
      is with the one at hand. */
  datatype Agent = Agent(proc: nat, sweeper: bool, snapshot: map<Id, nat>, todo: set<Id>, cur: Id, step: Step)

  /** `born` are all processes there ever were, `procs` those alive with their process ids. */
  datatype System = System(born: set<nat>, procs: map<nat, nat>, runs: map<Id, Run>, agents: map<nat, Agent>,
                           records: map<Id, nat>, files: map<Id, File>)

  const INIT := System({}, map[], map[], map[], map[], map[])

  function FileOf(s: System, id: Id): File { if id in s.files then s.files[id] else ABSENT }

  function RecordOf(s: System, id: Id): Option<nat> { if id in s.records then Some(s.records[id]) else None }

  function WithRecord(records: map<Id, nat>, id: Id, r: Option<nat>): map<Id, nat> {
    if r.Some? then records[id := r.value] else records - {id}
  }

  predicate Done(p: Phase) { p.Reaped? || p.Cleared? || p.Released? || p.Over? }

  predicate Live(s: System, id: Id) { id in s.runs && s.runs[id].proc in s.procs }

  /** The owner died, or has done its own reaping. */
  predicate MayReap(s: System, id: Id) { id in s.runs && (!Live(s, id) || Done(s.runs[id].phase)) }

  predicate Lists(g: Agent, id: Id) { g.sweeper && (id in g.todo || (!g.step.Idle? && g.cur == id)) }

  /** A sweeper that has the run's lock file on its list and has not tried it yet. */
  predicate StillToTry(g: Agent, id: Id) { g.sweeper && (id in g.todo || (g.step.Try? && g.cur == id)) }

  ghost predicate Listed(s: System, id: Id) { exists a :: a in s.agents && StillToTry(s.agents[a], id) }

  // ---- Steps of a run ----------------------------------------------------------------------

  ghost predicate RunLocal(id: Id, r: Run, f: File, rec: Option<nat>, listed: bool, r': Run, f': File,
                           rec': Option<nat>)
  {
    match r.phase
    case Begun =>
      // The liveness lock: taken; or an error, which may leave the file there unheld; or
      // held by somebody else, and then the run goes on without it.
      && rec' == rec
      && ((f.holder.None? && r' == r.(phase := Locked, locked := true) && f' == File(true, Some(ByRun(id))))
          || (r' == r.(phase := LockFailed) && (f' == f || f' == File(true, f.holder)))
          || (f.holder.Some? && r' == r.(phase := Unlocked) && f' == f))
    case LockFailed =>
      // The file goes, so that the process id will decide.
      rec' == rec && f' == ABSENT && r' == r.(phase := Unlocked, exposed := listed)
    case Locked => f' == f && r' == r.(phase := Recorded) && (rec' == Some(r.pid) || rec' == rec)
    case Unlocked => f' == f && r' == r.(phase := Recorded) && (rec' == Some(r.pid) || rec' == rec)
    case Recorded => f' == f && r' == r.(phase := Reaped) && rec' == rec
    case Reaped => f' == f && r' == r.(phase := Cleared) && (rec' == None || rec' == rec)
    case Cleared =>
      rec' == rec && if r.locked then r' == r.(phase := Released) && f' == f.(holder := None)
          else r' == r.(phase := Over) && f' == f
    case Released => rec' == rec && r' == r.(phase := Over) && f' == ABSENT
    case Over => false
  }

  ghost predicate RunStep(s: System, id: Id, s': System) {
    && Live(s, id) && id in s'.runs
    && RunLocal(id, s.runs[id], FileOf(s, id), RecordOf(s, id), Listed(s, id), s'.runs[id], FileOf(s', id),
        RecordOf(s', id))
    && s' == s.(runs := s.runs[id := s'.runs[id]], files := s.files[id := FileOf(s', id)],
                records := WithRecord(s.records, id, RecordOf(s', id)))
  }

  // ---- Steps of reapers and sweepers -----------------------------------------------------------

  /** Releasing the lock the agent has on the file, unless the file it locked is gone. */
  function Dropped(a: nat, f: File): File { if f.holder == Some(ByAgent(a)) then f.(holder := None) else f }

  ghost predicate ReaperLocal(a: nat, g: Agent, f: File, rec: Option<nat>, pidAlive: bool, g': Agent, f': File,
                              rec': Option<nat>)
  {
    match g.step
    case Idle => g'.cur in g.todo && g' == g.(todo := g.todo - {g'.cur}, cur := g'.cur, step := Look) && f' == f
        && rec' == rec
    case Look => f' == f && rec' == rec
        && (g' == g.(step := if f.present then Try else NoFile) || g' == g.(step := Idle))
    case NoFile => f' == f && rec' == rec && g' == g.(step := if pidAlive then Idle else Sure(false))
    case Try =>
      // Held by somebody, or an error, which may leave the file there unheld; or taken.
      && rec' == rec
      && ((g' == g.(step := Idle) && (f' == f || f' == File(true, f.holder)))
          || (f.holder.None? && g' == g.(step := Sure(true)) && f' == File(true, Some(ByAgent(a)))))
    case Sure(lock) =>
      // The helpers are force-removed here; when that fails the record stays.
      && rec' == rec
      && ((g' == g.(step := Swept(lock)) && f' == f)
          || (g' == g.(step := Idle) && f' == if lock then Dropped(a, f) else f))
    case Swept(lock) => f' == f && g' == g.(step := Clean(lock)) && (rec' == None || rec' == rec)
    case Clean(lock) => rec' == rec && if lock then g' == g.(step := Last) && f' == ABSENT
        else g' == g.(step := Idle) && f' == f
    case Last => rec' == rec && g' == g.(step := Idle) && f' == Dropped(a, f)
    case _ => false
  }

  ghost predicate SweeperLocal(a: nat, g: Agent, f: File, g': Agent, f': File) {
    match g.step
    case Idle => g'.cur in g.todo && g' == g.(todo := g.todo - {g'.cur}, cur := g'.cur, step := Try) && f' == f
    case Try =>
      || (g' == g.(step := Idle) && (f' == f || f' == File(true, f.holder)))
      || (f.holder.None? && g' == g.(step := Held) && f' == File(true, Some(ByAgent(a))))
    case Held => g' == g.(step := Unheld) && f' == Dropped(a, f)
    case Unheld => g' == g.(step := Idle) && f' == ABSENT
    case _ => false
  }

  predicate PidAlive(s: System, g: Agent) { g.cur in g.snapshot && g.snapshot[g.cur] in s.procs.Values }

  ghost predicate AgentStep(s: System, a: nat, s': System) {
    && a in s.agents && s.agents[a].proc in s.procs && a in s'.agents
    && var g, g' := s.agents[a], s'.agents[a];
       var x := g'.cur;
       && (if g.sweeper then SweeperLocal(a, g, FileOf(s, x), g', FileOf(s', x)) && RecordOf(s', x) == RecordOf(s, x)
           else ReaperLocal(a, g, FileOf(s, x), RecordOf(s, x), PidAlive(s, g), g', FileOf(s', x), RecordOf(s', x)))
       && s' == s.(agents := s.agents[a := g'], files := s.files[x := FileOf(s', x)],
                   records := WithRecord(s.records, x, RecordOf(s', x)))
  }

  /** The step in which a reaper force-removes the helpers of run id. */
  ghost predicate Reaps(s: System, a: nat, id: Id, s': System) {
    AgentStep(s, a, s') && !s.agents[a].sweeper && s.agents[a].step.Sure? && s.agents[a].cur == id
  }

  // ---- Beginnings and ends ----------------------------------------------------------------------

  ghost predicate StartProcess(s: System, p: nat, s': System) {
    && p !in s.born && p in s'.procs && s'.procs[p] !in s.procs.Values
    && s' == s.(born := s.born + {p}, procs := s.procs[p := s'.procs[p]])
  }

  ghost predicate StartRun(s: System, id: Id, s': System) {
    && id !in s.runs && id in s'.runs && s'.runs[id].proc in s.procs
    && s'.runs[id] == Run(s'.runs[id].proc, s.procs[s'.runs[id].proc], Begun, false, false)
    && s' == s.(runs := s.runs[id := s'.runs[id]])
  }

  /** A reaper goes by the records as it read them; a sweeper by lock files it found. */
  ghost predicate StartAgent(s: System, a: nat, s': System) {
    && a !in s.agents && a in s'.agents && s'.agents[a].proc in s.procs
    && var g := s'.agents[a];
       && g.step == Idle
       && (if g.sweeper then g.snapshot == map[] && forall id | id in g.todo :: FileOf(s, id).present
           else g.snapshot == s.records && g.todo == s.records.Keys)
       && s' == s.(agents := s.agents[a := g])
  }

  predicate OfProcess(s: System, p: nat, h: Holder) {
    match h
    case ByRun(id) => id in s.runs && s.runs[id].proc == p
    case ByAgent(a) => a in s.agents && s.agents[a].proc == p
  }

  function AfterDeath(s: System, p: nat, f: File): File {
    if f.holder.Some? && OfProcess(s, p, f.holder.value) then f.(holder := None) else f
  }

  /** The kernel drops the locks of a process that dies. */
  ghost predicate Crash(s: System, p: nat, s': System) {
    && p in s.procs
    && s' == s.(procs := s.procs - {p},
                agents := map a | a in s.agents && s.agents[a].proc != p :: s.agents[a],
                files := map id | id in s.files :: AfterDeath(s, p, s.files[id]))
  }

  ghost predicate Next(s: System, s': System) {
    exists x: nat ::
      RunStep(s, x, s') || AgentStep(s, x, s') || StartProcess(s, x, s') || StartRun(s, x, s') || StartAgent(s, x, s')
          || Crash(s, x, s')
  }

  ghost predicate Execution(trace: seq<System>) {
    && trace != [] && trace[0] == INIT
    && forall i :: 0 <= i < |trace| - 1 ==> Next(trace[i], trace[i + 1])
  }

  // ---- What every step keeps ----------------------------------------------------------------------

  /** Dead, finished, or without a lock and exposed. */
  predicate Excused(r: Run, live: bool) { !live || Done(r.phase) || (!r.locked && r.exposed) }

  /** A run and its lock file. */
  predicate RunOk(id: Id, r: Run, live: bool, f: File) {
    && (r.phase.Begun? || r.phase.LockFailed? || r.phase.Unlocked? ==> !r.locked)
    && (r.phase.Begun? || r.phase.LockFailed? ==> !r.exposed)
    && (r.phase.Locked? || r.phase.Released? ==> r.locked)
    && (live && r.phase.Begun? ==> f == ABSENT)
    && (live && r.locked && !Done(r.phase) ==> f == File(true, Some(ByRun(id))))
    && (live && !r.locked && !r.exposed && (r.phase.Unlocked? || r.phase.Recorded?) ==> !f.present)
  }

  /** A run and a sweeper that has its file in view. */
  predicate SweptOk(g: Agent, id: Id, r: Run, live: bool) {
    Lists(g, id) && live ==>
      && !r.phase.Begun?
      && (StillToTry(g, id) && (r.phase.Unlocked? || r.phase.Recorded?) && !r.locked ==> r.exposed)
      && ((g.step.Held? || g.step.Unheld?) && g.cur == id && r.locked ==> Done(r.phase))
  }

  /** A run and a reaper that is at it. */
  predicate ReaperOk(step: Step, r: Run, live: bool) {
    match step
    case Idle => true
    case Look => true
    case NoFile => !r.locked || Excused(r, live)
    case Try => r.locked || Excused(r, live)
    case Held => false
    case Unheld => false
    case _ => Excused(r, live)
  }

  predicate Recordable(r: Run) { r.phase.Recorded? || Done(r.phase) }

  predicate Known(s: System, id: Id, pid: nat) { id in s.runs && s.runs[id].pid == pid && Recordable(s.runs[id]) }

  predicate AgentOk(s: System, g: Agent) {
    && g.proc in s.procs
    && (forall id | id in g.snapshot :: Known(s, id, g.snapshot[id]))
    && (if g.sweeper then
          && (g.step.Idle? || g.step.Try? || g.step.Held? || g.step.Unheld?)
          && g.todo <= s.runs.Keys && (!g.step.Idle? ==> g.cur in s.runs && g.cur !in g.todo)
          && (forall id | id in s.runs :: SweptOk(g, id, s.runs[id], Live(s, id)))
        else
          && g.todo <= g.snapshot.Keys
          && (!g.step.Idle? ==> g.cur in g.snapshot && ReaperOk(g.step, s.runs[g.cur], Live(s, g.cur))))
  }

  ghost predicate ProcsOk(s: System) {
    && s.procs.Keys <= s.born
    && (forall p, q | p in s.procs && q in s.procs && s.procs[p] == s.procs[q] :: p == q)
    && (forall id | id in s.runs :: s.runs[id].proc in s.born)
    && (forall id | Live(s, id) :: s.procs[s.runs[id].proc] == s.runs[id].pid)
  }

  ghost predicate Inv(s: System) {
    && ProcsOk(s)
    && (forall id | id in s.runs :: RunOk(id, s.runs[id], Live(s, id), FileOf(s, id)))
    && (forall a | a in s.agents :: AgentOk(s, s.agents[a]))
    && (forall id | id in s.records :: Known(s, id, s.records[id]))
    && (forall id | id in s.files :: id in s.runs)
  }

  lemma Parts(s: System)
    requires Inv(s)
    ensures ProcsOk(s)
    ensures forall id | id in s.runs :: RunOk(id, s.runs[id], Live(s, id), FileOf(s, id))
    ensures forall a | a in s.agents :: AgentOk(s, s.agents[a])
    ensures forall id | id in s.records :: Known(s, id, s.records[id])
    ensures forall id | id in s.files :: id in s.runs
  {
    hide ProcsOk, RunOk, AgentOk, Known, FileOf;
  }

  // ---- A run moves on ----

  lemma RunLocalKeeps(id: Id, r: Run, f: File, rec: Option<nat>, listed: bool, r': Run, f': File, rec': Option<nat>)
    requires RunLocal(id, r, f, rec, listed, r', f', rec') && RunOk(id, r, true, f)
    ensures RunOk(id, r', true, f') && r'.proc == r.proc && r'.pid == r.pid
    ensures Recordable(r) ==> Recordable(r') && r'.locked == r.locked
    ensures Excused(r, true) ==> Excused(r', true)
    ensures rec' == rec || rec' == None || (rec' == Some(r.pid) && Recordable(r'))
  {}

  lemma SweptSeesRun(g: Agent, id: Id, r: Run, f: File, rec: Option<nat>, listed: bool, r': Run, f': File,
                     rec': Option<nat>)
    requires RunLocal(id, r, f, rec, listed, r', f', rec') && RunOk(id, r, true, f) && SweptOk(g, id, r, true)
    requires StillToTry(g, id) ==> listed
    ensures SweptOk(g, id, r', true)
  {}

  lemma ReaperSeesRun(step: Step, r: Run, r': Run)
    requires ReaperOk(step, r, true) && r'.locked == r.locked && (Excused(r, true) ==> Excused(r', true))
    ensures ReaperOk(step, r', true)
  {}

  lemma RunStepKeeps(s: System, id: Id, s': System)
    requires Inv(s) && RunStep(s, id, s')
    ensures Inv(s')
  {
    Parts(s);
    hide Inv, RunLocal, AgentOk, RunOk, Listed;
    var r, r' := s.runs[id], s'.runs[id];
    RunLocalKeeps(id, r, FileOf(s, id), RecordOf(s, id), Listed(s, id), r', FileOf(s', id), RecordOf(s', id));
    forall a | a in s'.agents ensures AgentOk(s', s'.agents[a]) { AgentSeesRun(s, a, id, s'); }
    hide Excused, Recordable;
    Whole(s');
  }

  lemma Whole(s: System)
    requires ProcsOk(s)
    requires forall id | id in s.runs :: RunOk(id, s.runs[id], Live(s, id), FileOf(s, id))
    requires forall a | a in s.agents :: AgentOk(s, s.agents[a])
    requires forall id | id in s.records :: Known(s, id, s.records[id])
    requires forall id | id in s.files :: id in s.runs
    ensures Inv(s)
  {}

  lemma AgentSeesRun(s: System, a: nat, id: Id, s': System)
    requires RunStep(s, id, s') && a in s.agents && AgentOk(s, s.agents[a])
    requires RunOk(id, s.runs[id], Live(s, id), FileOf(s, id))
    ensures a in s'.agents && AgentOk(s', s'.agents[a])
  {
    var g, r, r' := s.agents[a], s.runs[id], s'.runs[id];
    var f, f', rec, rec' := FileOf(s, id), FileOf(s', id), RecordOf(s, id), RecordOf(s', id);
    assert StillToTry(g, id) ==> Listed(s, id);
    hide Listed, FileOf, RecordOf, WithRecord, RunLocal, RunOk, SweptOk, ReaperOk, Excused;
    RunLocalKeeps(id, r, f, rec, Listed(s, id), r', f', rec');
    if g.sweeper {
      SweptSeesRun(g, id, r, f, rec, Listed(s, id), r', f', rec');
    } else if !g.step.Idle? && g.cur == id {
      ReaperSeesRun(g.step, r, r');
    }
  }

  // ---- An agent moves on ----

  lemma ReaperLocalKeeps(a: nat, g: Agent, x: Id, r: Run, live: bool, f: File, rec: Option<nat>, pidAlive: bool,
                         g': Agent, f': File, rec': Option<nat>)
    requires ReaperLocal(a, g, f, rec, pidAlive, g', f', rec') && RunOk(x, r, live, f)
    requires Recordable(r) && (live ==> pidAlive) && (!g.step.Idle? ==> ReaperOk(g.step, r, live))
    ensures RunOk(x, r, live, f') && ReaperOk(g'.step, r, live)
  {}

  lemma SweeperLocalKeeps(a: nat, g: Agent, x: Id, r: Run, live: bool, f: File, g': Agent, f': File)
    requires SweeperLocal(a, g, f, g', f') && RunOk(x, r, live, f) && x == g'.cur
    requires g.sweeper && SweptOk(g, x, r, live)
    ensures RunOk(x, r, live, f') && SweptOk(g', x, r, live)
  {}

  lemma SweeperElsewhere(a: nat, g: Agent, x: Id, r: Run, live: bool, f: File, g': Agent, f': File)
    requires SweeperLocal(a, g, f, g', f') && g.sweeper && SweptOk(g, x, r, live) && x != g'.cur
    ensures SweptOk(g', x, r, live)
  {}

  lemma AgentStepKeeps(s: System, a: nat, s': System)
    requires Inv(s) && AgentStep(s, a, s')
    ensures Inv(s')
  {
    Parts(s);
    hide Inv;
    var g, g' := s.agents[a], s'.agents[a];
    var x := g'.cur;
    assert AgentOk(s, g);
    AgentFrame(s, a, s');
    AgentAfter(s, a, s');
    hide AgentStep, AgentOk, RunOk, Recordable;
    forall b | b in s'.agents ensures AgentOk(s', s'.agents[b]) {
      if b != a { SameAgent(s, s', s.agents[b]); }
    }
    Whole(s');
  }

  lemma SameAgent(s: System, s': System, g: Agent)
    requires AgentOk(s, g) && s'.runs == s.runs && s'.procs == s.procs
    ensures AgentOk(s', g)
  {
    hide SweptOk, ReaperOk, Recordable;
  }

  lemma AgentFrame(s: System, a: nat, s': System)
    requires AgentStep(s, a, s') && AgentOk(s, s.agents[a])
    ensures s'.agents == s.agents[a := s'.agents[a]] && s'.runs == s.runs && s'.procs == s.procs && s'.born == s.born
    ensures s'.agents[a].cur in s.runs
    ensures forall y | y != s'.agents[a].cur :: FileOf(s', y) == FileOf(s, y)
    ensures forall y | y in s'.files :: y in s.files || y == s'.agents[a].cur
    ensures forall y | y in s'.records :: y in s.records && s'.records[y] == s.records[y]
  {
    AgentCur(s, a, s');
    hide AgentOk, SweptOk, ReaperOk, Recordable, Excused;
  }

  /** The run at hand, and that an agent only ever takes records away. */
  lemma AgentCur(s: System, a: nat, s': System)
    requires AgentStep(s, a, s') && AgentOk(s, s.agents[a])
    ensures var x := s'.agents[a].cur;
            && x in s.runs && (!s.agents[a].step.Idle? ==> s.agents[a].cur == x)
            && (RecordOf(s', x) == RecordOf(s, x) || RecordOf(s', x) == None)
            && (!s.agents[a].sweeper ==> x in s.agents[a].snapshot && Known(s, x, s.agents[a].snapshot[x]))
  {
    hide SweptOk, ReaperOk, FileOf, RecordOf, WithRecord, Recordable, Dropped;
  }

  lemma AgentAfter(s: System, a: nat, s': System)
    requires ProcsOk(s) && AgentStep(s, a, s') && AgentOk(s, s.agents[a])
    requires s'.runs == s.runs && s'.procs == s.procs
    requires s'.agents[a].cur in s.runs
    requires var x := s'.agents[a].cur; RunOk(x, s.runs[x], Live(s, x), FileOf(s, x))
    ensures AgentOk(s', s'.agents[a])
    ensures var x := s'.agents[a].cur; RunOk(x, s'.runs[x], Live(s', x), FileOf(s', x))
  {
    var g, g' := s.agents[a], s'.agents[a];
    var x := g'.cur;
    var r, live, f, f' := s.runs[x], Live(s, x), FileOf(s, x), FileOf(s', x);
    AgentCur(s, a, s');
    if g.sweeper {
      SweeperGoesOn(a, g, f, g', f');
      SweeperLocalKeeps(a, g, x, r, live, f, g', f');
      forall y | y in s.runs ensures SweptOk(g', y, s.runs[y], Live(s, y)) {
        if y != x { SweeperElsewhere(a, g, y, s.runs[y], Live(s, y), f, g', f'); }
      }
    } else {
      ReaperGoesOn(a, g, f, RecordOf(s, x), PidAlive(s, g), g', f', RecordOf(s', x));
      if g.step.Idle? {
        ReaperBegins(a, g, r, live, f, RecordOf(s, x), PidAlive(s, g), g', f', RecordOf(s', x));
      } else {
        assert live ==> PidAlive(s, g);
        ReaperLocalKeeps(a, g, x, r, live, f, RecordOf(s, x), PidAlive(s, g), g', f', RecordOf(s', x));
      }
    }
    hide SweptOk, ReaperOk, RunOk, SweeperLocal, ReaperLocal, FileOf, RecordOf, WithRecord, Recordable, ProcsOk,
        AgentStep;
  }

  lemma SweeperGoesOn(a: nat, g: Agent, f: File, g': Agent, f': File)
    requires SweeperLocal(a, g, f, g', f')
    ensures g'.proc == g.proc && g'.sweeper == g.sweeper && g'.snapshot == g.snapshot && g'.todo <= g.todo
    ensures g'.step.Idle? || g'.step.Try? || g'.step.Held? || g'.step.Unheld?
    ensures !g'.step.Idle? && (!g.step.Idle? ==> g.cur !in g.todo) ==> g'.cur !in g'.todo
  {}

  lemma ReaperGoesOn(a: nat, g: Agent, f: File, rec: Option<nat>, pidAlive: bool, g': Agent, f': File,
                     rec': Option<nat>)
    requires ReaperLocal(a, g, f, rec, pidAlive, g', f', rec')
    ensures g'.proc == g.proc && g'.sweeper == g.sweeper && g'.snapshot == g.snapshot && g'.todo <= g.todo
  {}

  lemma ReaperBegins(a: nat, g: Agent, r: Run, live: bool, f: File, rec: Option<nat>, pidAlive: bool,
                     g': Agent, f': File, rec': Option<nat>)
    requires ReaperLocal(a, g, f, rec, pidAlive, g', f', rec') && g.step.Idle?
    ensures f' == f && ReaperOk(g'.step, r, live)
  {}

  // ---- Beginnings and ends ----

  /** Processes may come, or go; what is kept of an agent does not depend on it. */
  lemma AgentThroughChange(s: System, s': System, g: Agent)
    requires AgentOk(s, g) && g.proc in s'.procs
    requires forall id | id in s.runs :: id in s'.runs && s'.runs[id] == s.runs[id] && (Live(s', id) ==> Live(s, id))
    requires g.sweeper ==> forall id | id in s'.runs && id !in s.runs :: SweptOk(g, id, s'.runs[id], Live(s', id))
    ensures AgentOk(s', g)
  {
    forall id, step | id in s.runs && ReaperOk(step, s.runs[id], Live(s, id))
      ensures ReaperOk(step, s.runs[id], Live(s', id)) {}
    forall id | id in s.runs && SweptOk(g, id, s.runs[id], Live(s, id))
      ensures SweptOk(g, id, s.runs[id], Live(s', id)) {}
    hide SweptOk, ReaperOk, Recordable, Live;
  }

  lemma StartProcessKeeps(s: System, p: nat, s': System)
    requires Inv(s) && StartProcess(s, p, s')
    ensures Inv(s')
  {
    Parts(s);
    hide Inv, RunOk;
    forall a | a in s'.agents ensures AgentOk(s', s'.agents[a]) { AgentThroughChange(s, s', s.agents[a]); }
    hide AgentOk, Recordable;
    assert forall id | id in s.runs :: Live(s', id) == Live(s, id) && FileOf(s', id) == FileOf(s, id);
    Whole(s');
  }

  lemma StartRunKeeps(s: System, id: Id, s': System)
    requires Inv(s) && StartRun(s, id, s')
    ensures Inv(s')
  {
    Parts(s);
    hide Inv;
    forall a | a in s'.agents ensures AgentOk(s', s'.agents[a]) { AgentThroughChange(s, s', s.agents[a]); }
    assert RunOk(id, s'.runs[id], Live(s', id), FileOf(s', id));
    hide AgentOk, Recordable, RunOk;
    assert forall x | x in s.runs :: Live(s', x) == Live(s, x) && FileOf(s', x) == FileOf(s, x);
    Whole(s');
  }

  lemma StartAgentKeeps(s: System, a: nat, s': System)
    requires Inv(s) && StartAgent(s, a, s')
    ensures Inv(s')
  {
    Parts(s);
    hide Inv, RunOk;
    forall b | b in s'.agents ensures AgentOk(s', s'.agents[b]) {
      if b != a { SameAgent(s, s', s.agents[b]); } else { NewAgentOk(s, a, s'); }
    }
    hide AgentOk, Recordable;
    assert forall x | x in s.runs :: Live(s', x) == Live(s, x) && FileOf(s', x) == FileOf(s, x);
    Whole(s');
  }

  lemma NewAgentOk(s: System, a: nat, s': System)
    requires Inv(s) && StartAgent(s, a, s')
    ensures AgentOk(s', s'.agents[a])
  {
    Parts(s);
    hide Inv, AgentOk;
    var g := s'.agents[a];
    forall id | g.sweeper && id in s'.runs ensures SweptOk(g, id, s'.runs[id], Live(s', id)) {
      SweeperSees(g, id, s.runs[id], Live(s, id), FileOf(s, id));
    }
    hide SweptOk, RunOk, Recordable;
    BuildAgent(s', g);
  }

  lemma BuildAgent(s: System, g: Agent)
    requires g.proc in s.procs && g.step.Idle?
    requires forall id | id in g.snapshot :: Known(s, id, g.snapshot[id])
    requires if g.sweeper then g.todo <= s.runs.Keys
             && (forall id | id in s.runs :: SweptOk(g, id, s.runs[id], Live(s, id)))
             else g.todo <= g.snapshot.Keys
    ensures AgentOk(s, g)
  {}

  /** Files a sweeper finds are not those of runs about to lock, nor of unlocked, unexposed ones. */
  lemma SweeperSees(g: Agent, id: Id, r: Run, live: bool, f: File)
    requires RunOk(id, r, live, f) && g.step.Idle? && (id in g.todo ==> f.present)
    ensures SweptOk(g, id, r, live)
  {}

  lemma CrashKeeps(s: System, p: nat, s': System)
    requires Inv(s) && Crash(s, p, s')
    ensures Inv(s')
  {
    Parts(s);
    hide Inv;
    forall b | b in s'.agents ensures AgentOk(s', s'.agents[b]) { AgentThroughChange(s, s', s.agents[b]); }
    forall id | id in s'.runs ensures RunOk(id, s'.runs[id], Live(s', id), FileOf(s', id)) {
      RunThroughCrash(id, s.runs[id], Live(s, id), Live(s', id), FileOf(s, id), FileOf(s', id));
    }
    hide AgentOk, Recordable, RunOk;
    Whole(s');
  }

  lemma RunThroughCrash(id: Id, r: Run, live: bool, live': bool, f: File, f': File)
    requires RunOk(id, r, live, f) && (live' ==> live) && f'.present == f.present
             && (f'.holder == f.holder || f'.holder == None)
    requires live' && f.holder == Some(ByRun(id)) ==> f' == f
    ensures RunOk(id, r, live', f')
  {}

  // ---- The reaper and live runs ------------------------------------------------------------------

  lemma StepKeeps(s: System, s': System)
    requires Inv(s) && Next(s, s')
    ensures Inv(s')
  {
    hide Inv, RunStep, AgentStep, StartProcess, StartRun, StartAgent, Crash;
    var x: nat :|
      RunStep(s, x, s') || AgentStep(s, x, s') || StartProcess(s, x, s') || StartRun(s, x, s') || StartAgent(s, x, s')
          || Crash(s, x, s');
    if RunStep(s, x, s') { RunStepKeeps(s, x, s'); }
    else if AgentStep(s, x, s') { AgentStepKeeps(s, x, s'); }
    else if StartProcess(s, x, s') { StartProcessKeeps(s, x, s'); }
    else if StartRun(s, x, s') { StartRunKeeps(s, x, s'); }
    else if StartAgent(s, x, s') { StartAgentKeeps(s, x, s'); }
    else { CrashKeeps(s, x, s'); }
  }

  lemma {:induction false} AlwaysInv(trace: seq<System>, n: nat)
    requires Execution(trace) && n < |trace|
    ensures Inv(trace[n])
  {
    if n > 0 {
      AlwaysInv(trace, n - 1);
      assert Next(trace[n - 1], trace[n]);
      StepKeeps(trace[n - 1], trace[n]);
    }
  }

  /** In any interleaving, a run whose helpers a reaper removes has died or has done its own
      reaping, unless it never got its liveness lock and a sweeper was still to try its lock
      file when the run removed it. */
  lemma ReaperSparesLiveRuns(trace: seq<System>, n: nat, a: nat, id: Id, s': System)
    requires Execution(trace) && n < |trace| && Reaps(trace[n], a, id, s')
    ensures id in trace[n].runs && (MayReap(trace[n], id) || (!trace[n].runs[id].locked && trace[n].runs[id].exposed))
  {
    AlwaysInv(trace, n);
    Parts(trace[n]);
    var s := trace[n];
    assert AgentOk(s, s.agents[a]);
    hide Inv, SweptOk;
  }

  /** A run that holds its liveness lock is never reaped by anybody else while it runs. */
  lemma LockedRunIsSafe(trace: seq<System>, n: nat, a: nat, id: Id, s': System)
    requires Execution(trace) && n < |trace| && Reaps(trace[n], a, id, s')
    requires id in trace[n].runs && trace[n].runs[id].locked
    ensures MayReap(trace[n], id)
  {
    ReaperSparesLiveRuns(trace, n, a, id, s');
  }

  // ---- The exception is real -------------------------------------------------------------------

  /** Run 7 is denied its liveness lock while a sweeper has yet to try its file; the sweeper
      then recreates the file, and a reaper that starts meanwhile finds it there unheld. */
  function Race(i: nat): System {
    var r := Run(0, 10, Begun, false, false);
    var failed, unlocked := r.(phase := LockFailed), r.(phase := Unlocked, exposed := true);
    var recorded := unlocked.(phase := Recorded);
    var sweeper := Agent(1, true, map[], {7}, 0, Idle);
    var trying := sweeper.(todo := {}, cur := 7, step := Try);
    var reaper := Agent(2, false, map[7 := 10], {7}, 0, Idle);
    var looking := reaper.(todo := {}, cur := 7, step := Look);
    var there, absent := map[7 := File(true, None)], map[7 := ABSENT];
    var heldBySweeper, heldByReaper := map[7 := File(true, Some(ByAgent(0)))], map[7 := File(true, Some(ByAgent(1)))];
    var one, two, three := map[0 := 10], map[0 := 10, 1 := 11], map[0 := 10, 1 := 11, 2 := 12];
    if i == 0 then INIT
    else if i == 1 then System({0}, one, map[], map[], map[], map[])
    else if i == 2 then System({0}, one, map[7 := r], map[], map[], map[])
    else if i == 3 then System({0}, one, map[7 := failed], map[], map[], there)
    else if i == 4 then System({0, 1}, two, map[7 := failed], map[], map[], there)
    else if i == 5 then System({0, 1}, two, map[7 := failed], map[0 := sweeper], map[], there)
    else if i == 6 then System({0, 1}, two, map[7 := failed], map[0 := trying], map[], there)
    else if i == 7 then System({0, 1}, two, map[7 := unlocked], map[0 := trying], map[], absent)
    else if i == 8 then System({0, 1}, two, map[7 := recorded], map[0 := trying], map[7 := 10], absent)
    else if i == 9 then System({0, 1}, two, map[7 := recorded], map[0 := trying.(step := Held)], map[7 := 10],
        heldBySweeper)
    else if i == 10
        then System({0, 1, 2}, three, map[7 := recorded], map[0 := trying.(step := Held)], map[7 := 10], heldBySweeper)
    else if i == 11 then
      System({0, 1, 2}, three, map[7 := recorded], map[0 := trying.(step := Held), 1 := reaper], map[7 := 10],
          heldBySweeper)
    else if i == 12 then
      System({0, 1, 2}, three, map[7 := recorded], map[0 := trying.(step := Held), 1 := looking], map[7 := 10],
          heldBySweeper)
    else if i == 13 then
      System({0, 1, 2}, three, map[7 := recorded], map[0 := trying.(step := Held), 1 := looking.(step := Try)],
          map[7 := 10], heldBySweeper)
    else if i == 14 then
      System({0, 1, 2}, three, map[7 := recorded], map[0 := trying.(step := Unheld), 1 := looking.(step := Try)],
          map[7 := 10], there)
    else
      System({0, 1, 2}, three, map[7 := recorded], map[0 := trying.(step := Unheld), 1 := looking.(step := Sure(true))],
             map[7 := 10], heldByReaper)
  }

  lemma RaceBegins(i: nat)
    requires i < 6
    ensures Next(Race(i), Race(i + 1))
  {
    var s, s' := Race(i), Race(i + 1);
    if i == 0 { assert StartProcess(s, 0, s'); }
    else if i == 1 { assert StartRun(s, 7, s'); }
    else if i == 2 { assert RunStep(s, 7, s'); }
    else if i == 3 { assert StartProcess(s, 1, s'); }
    else if i == 4 { assert StartAgent(s, 0, s'); }
    else { assert AgentStep(s, 0, s'); }
  }

  lemma RaceUnlocks()
    ensures Next(Race(6), Race(7)) && Next(Race(7), Race(8))
  {
    assert StillToTry(Race(6).agents[0], 7);
    assert RunStep(Race(6), 7, Race(7));
    assert RunStep(Race(7), 7, Race(8));
  }

  lemma RaceSweeps()
    ensures Next(Race(8), Race(9))
  {
    assert AgentStep(Race(8), 0, Race(9));
  }

  lemma RaceReaperStarts()
    ensures Next(Race(9), Race(10)) && Next(Race(10), Race(11))
  {
    assert StartProcess(Race(9), 2, Race(10));
    assert StartAgent(Race(10), 1, Race(11));
  }

  lemma RaceLooks()
    ensures Next(Race(11), Race(12)) && Next(Race(12), Race(13))
  {
    assert AgentStep(Race(11), 1, Race(12));
    assert AgentStep(Race(12), 1, Race(13));
  }

  lemma RaceLetsGo()
    ensures Next(Race(13), Race(14))
  {
    assert AgentStep(Race(13), 0, Race(14));
  }

  lemma RaceEnds()
    ensures Next(Race(14), Race(15))
  {
    assert AgentStep(Race(14), 1, Race(15));
  }

  lemma RaceStart()
    ensures Race(0) == INIT
  {}

  lemma RaceSteps(i: nat)
    requires i < 15
    ensures Next(Race(i), Race(i + 1))
  {
    hide Race, Next;
    if i < 6 { RaceBegins(i); }
    else if i < 8 { RaceUnlocks(); }
    else if i < 9 { RaceSweeps(); }
    else if i < 11 { RaceReaperStarts(); }
    else if i < 13 { RaceLooks(); }
    else if i < 14 { RaceLetsGo(); }
    else { RaceEnds(); }
  }

  /** An execution at whose end a reaper removes the helpers of a live run that has not done
      its own reaping. */
  lemma ExposedRunIsReaped() returns (trace: seq<System>, s': System)
    ensures Execution(trace) && |trace| == 16
    ensures Reaps(trace[15], 1, 7, s') && !MayReap(trace[15], 7)
  {
    trace := seq(16, i requires 0 <= i < 16 => Race(i));
    forall i | 0 <= i < 15 ensures Next(Race(i), Race(i + 1)) { RaceSteps(i); }
    assert Execution(trace) by {
      hide Race, Next;
      assert Race(0) == INIT by { RaceStart(); }
    }
    s' := Race(15).(agents := Race(15).agents[1 := Race(15).agents[1].(step := Swept(true))]);
    assert AgentStep(Race(15), 1, s');
  }
}
