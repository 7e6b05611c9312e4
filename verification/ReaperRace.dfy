/**
 When exactly a run without a liveness lock can be reaped while it lives. At the moment it
 removes the lock file it was denied, either no sweeper is still to try that file and no
 continuation reaps it alive, or one is and some continuation does. And what reaping is for:
 the helpers of a run whose owner is gone can be removed, and a run that nothing disturbs
 leaves nothing to remove.
 */
module ReaperRace {
  import opened Wrappers
  import opened Reaper

  // ---- Continuations ---------------------------------------------------------------------------

  ghost predicate Steps(trace: seq<System>) { forall i :: 0 <= i < |trace| - 1 ==> Next(trace[i], trace[i + 1]) }

  ghost predicate Leads(s: System, t: System) {
    exists trace :: |trace| > 0 && trace[0] == s && trace[|trace| - 1] == t && Steps(trace)
  }

  /** Some continuation has a reaper remove the helpers of a run that lives and has not done
      its own reaping. */
  ghost predicate CanBeReapedLive(s: System, id: Id) {
    exists t, a, u :: Leads(s, t) && Reaps(t, a, id, u) && !MayReap(t, id)
  }

  lemma LeadsSelf(s: System)
    ensures Leads(s, s)
  {
    var trace := [s];
    assert Steps(trace);
  }

  lemma LeadsOn(s: System, t: System, u: System)
    requires Leads(s, t) && Next(t, u)
    ensures Leads(s, u)
  {
    var trace :| |trace| > 0 && trace[0] == s && trace[|trace| - 1] == t && Steps(trace);
    var longer := trace + [u];
    forall i | 0 <= i < |longer| - 1 ensures Next(longer[i], longer[i + 1]) {
      if i < |trace| - 1 { assert Next(trace[i], trace[i + 1]); }
    }
    assert longer[0] == s && longer[|longer| - 1] == u;
  }

  // ---- Taking a step ------------------------------------------------------------------------------

  function AfterAgent(s: System, a: nat, g': Agent, f': File): System {
    s.(agents := s.agents[a := g'], files := s.files[g'.cur := f'])
  }

  /** A step of an agent that leaves the records alone. */
  lemma AgentMoves(s: System, a: nat, g': Agent, f': File)
    requires a in s.agents && s.agents[a].proc in s.procs && g'.cur in s.runs
    requires if s.agents[a].sweeper then SweeperLocal(a, s.agents[a], FileOf(s, g'.cur), g', f')
             else ReaperLocal(a, s.agents[a], FileOf(s, g'.cur), RecordOf(s, g'.cur), PidAlive(s, s.agents[a]), g', f',
                 RecordOf(s, g'.cur))
    ensures AgentStep(s, a, AfterAgent(s, a, g', f')) && Next(s, AfterAgent(s, a, g', f'))
  {
    hide SweeperLocal, ReaperLocal;
    var s', x := AfterAgent(s, a, g', f'), g'.cur;
    assert FileOf(s', x) == f' && RecordOf(s', x) == RecordOf(s, x);
    assert s.records == WithRecord(s.records, x, RecordOf(s, x));
    assert AgentStep(s, a, s');
  }

  function AfterRecording(s: System, id: Id): System
    requires id in s.runs
  {
    var r := s.runs[id];
    s.(runs := s.runs[id := r.(phase := Recorded)], files := s.files[id := FileOf(s, id)],
        records := s.records[id := r.pid])
  }

  lemma RunRecords(s: System, id: Id)
    requires Live(s, id) && s.runs[id].phase == Unlocked
    ensures Next(s, AfterRecording(s, id))
  {
    var s' := AfterRecording(s, id);
    assert RunStep(s, id, s');
  }

  // ---- The sweeper gets to the file ------------------------------------------------------------------

  /** The run is recorded and at work, without a lock, and its file is gone. */
  ghost predicate Unguarded(s: System, id: Id) {
    && Inv(s) && Live(s, id) && s.runs[id].phase == Recorded && id in s.records
    && FileOf(s, id) == ABSENT
  }

  ghost predicate Trying(s: System, w: nat, id: Id) {
    w in s.agents && s.agents[w].sweeper && s.agents[w].step == Try && s.agents[w].cur == id
  }

  lemma AgentAlive(s: System, a: nat)
    requires Inv(s) && a in s.agents
    ensures s.agents[a].proc in s.procs
    ensures s.agents[a].sweeper ==> s.agents[a].todo <= s.runs.Keys
    ensures s.agents[a].sweeper && s.agents[a].step != Idle ==>
            s.agents[a].cur in s.runs && s.agents[a].cur !in s.agents[a].todo
    ensures s.agents[a].sweeper ==>
            s.agents[a].step.Idle? || s.agents[a].step.Try? || s.agents[a].step.Held? || s.agents[a].step.Unheld?
  {
    Parts(s);
    hide Inv, RunOk, SweptOk, ReaperOk, Known;
  }

  /** A sweeper busy with another file finishes with that one and turns to this. */
  lemma SweeperArrives(s: System, w: nat, id: Id) returns (t: System)
    requires Unguarded(s, id) && w in s.agents && StillToTry(s.agents[w], id)
    ensures Leads(s, t) && Unguarded(t, id) && Trying(t, w, id)
    decreases if s.agents[w].step.Held? then 3 else if s.agents[w].step.Unheld? then 2
              else if s.agents[w].step.Try? then 1 else 0
  {
    hide Inv, SweeperLocal, Next, Steps, Leads;
    AgentAlive(s, w);
    var g := s.agents[w];
    if g.step.Try? && g.cur == id {
      LeadsSelf(s);
      return s;
    }
    var g', f' := SweeperNext(s, w, id);
    AgentMoves(s, w, g', f');
    t := AfterAgent(s, w, g', f');
    AgentStepKeeps(s, w, t);
    LeadsSelf(s);
    LeadsOn(s, s, t);
    if !(g'.step.Try? && g'.cur == id) {
      ghost var first := t;
      t := SweeperArrives(t, w, id);
      LeadsTogether(s, first, t);
    }
  }

  /** The next step of a sweeper on its way to the file. */
  lemma SweeperNext(s: System, w: nat, id: Id) returns (g': Agent, f': File)
    requires w in s.agents && s.agents[w].sweeper && StillToTry(s.agents[w], id) && id in s.agents[w].todo
    requires s.agents[w].step.Idle? || s.agents[w].step.Try? || s.agents[w].step.Held? || s.agents[w].step.Unheld?
    requires s.agents[w].step != Idle ==> s.agents[w].cur != id
    ensures SweeperLocal(w, s.agents[w], FileOf(s, g'.cur), g', f') && g'.sweeper
    ensures if s.agents[w].step.Idle? then g'.cur == id && g'.step == Try && f' == FileOf(s, id)
            else g'.cur == s.agents[w].cur && g'.todo == s.agents[w].todo
                 && g'.step == if s.agents[w].step.Held? then Unheld else Idle
  {
    var g := s.agents[w];
    match g.step
    case Idle => g', f' := g.(todo := g.todo - {id}, cur := id, step := Try), FileOf(s, id);
    case Try => g', f' := g.(step := Idle), FileOf(s, g.cur);
    case Held => g', f' := g.(step := Unheld), Dropped(w, FileOf(s, g.cur));
    case Unheld => g', f' := g.(step := Idle), ABSENT;
  }

  lemma LeadsTogether(s: System, t: System, u: System)
    requires Leads(s, t) && Leads(t, u)
    ensures Leads(s, u)
  {
    var a :| |a| > 0 && a[0] == s && a[|a| - 1] == t && Steps(a);
    var b :| |b| > 0 && b[0] == t && b[|b| - 1] == u && Steps(b);
    var c := a + b[1..];
    forall i | 0 <= i < |c| - 1 ensures Next(c[i], c[i + 1]) {
      if i < |a| - 1 {
        assert Next(a[i], a[i + 1]);
      } else {
        assert c[i] == b[i - |a| + 1] && c[i + 1] == b[i - |a| + 2];
        assert Next(b[i - |a| + 1], b[i - |a| + 1 + 1]);
      }
    }
    assert c[0] == s && c[|c| - 1] == u;
  }

  // ---- The race --------------------------------------------------------------------------------------

  lemma {:induction false} Fresh(used: set<nat>) returns (n: nat)
    ensures n !in used && forall m | m in used :: m < n
  {
    if used == {} { return 0; }
    var m :| m in used;
    var k := Fresh(used - {m});
    n := if k <= m then m + 1 else k;
    forall x | x in used ensures x < n {
      if x != m { assert x in used - {m}; }
    }
  }

  /** A process that starts, with a reaper that goes by the records as they are. */
  lemma ReaperStarts(s: System) returns (t: System, a: nat)
    ensures Leads(s, t) && a !in s.agents && a in t.agents
    ensures t.runs == s.runs && t.records == s.records && t.files == s.files && t.agents == s.agents[a := t.agents[a]]
    ensures t.agents[a] == Agent(t.agents[a].proc, false, s.records, s.records.Keys, 0, Idle)
            && t.agents[a].proc in t.procs
    ensures forall p | p in s.procs :: p in t.procs && t.procs[p] == s.procs[p]
    ensures forall id | id in s.records && s.records[id] in t.procs.Values :: s.records[id] in s.procs.Values
  {
    hide Next, Steps, Leads;
    var p := Fresh(s.born + s.procs.Keys);
    var pid := Fresh(s.procs.Values + s.records.Values);
    a := Fresh(s.agents.Keys);
    var up := s.(born := s.born + {p}, procs := s.procs[p := pid]);
    t := up.(agents := up.agents[a := Agent(p, false, up.records, up.records.Keys, 0, Idle)]);
    Begins(s, p, up, a, t);
    LeadsSelf(s);
    LeadsOn(s, s, up);
    LeadsOn(s, up, t);
  }

  lemma Begins(s: System, p: nat, up: System, a: nat, t: System)
    requires StartProcess(s, p, up) && StartAgent(up, a, t)
    ensures Next(s, up) && Next(up, t)
  {}

  /** The sweeper takes the lock and so recreates the file; a reaper that starts now finds it;
      the sweeper lets go; the reaper takes the lock and concludes that the owner is gone. */
  lemma RaceIsLost(s: System, w: nat, id: Id)
    requires Unguarded(s, id) && Trying(s, w, id)
    ensures CanBeReapedLive(s, id)
  {
    hide Inv, Next, Steps, Leads, AgentStep;
    AgentAlive(s, w);
    var g := s.agents[w];
    AgentMoves(s, w, g.(step := Held), File(true, Some(ByAgent(w))));
    var held := AfterAgent(s, w, g.(step := Held), File(true, Some(ByAgent(w))));
    LeadsSelf(s);
    LeadsOn(s, s, held);
    var up, a := ReaperStarts(held);
    LeadsTogether(s, held, up);
    var r := up.agents[a];
    var looking := r.(todo := r.todo - {id}, cur := id, step := Look);
    AgentMoves(up, a, looking, FileOf(up, id));
    var look := AfterAgent(up, a, looking, FileOf(up, id));
    LeadsOn(s, up, look);
    AgentMoves(look, a, looking.(step := Try), FileOf(look, id));
    var trying := AfterAgent(look, a, looking.(step := Try), FileOf(look, id));
    LeadsOn(s, look, trying);
    AgentMoves(trying, w, g.(step := Unheld), File(true, None));
    var free := AfterAgent(trying, w, g.(step := Unheld), File(true, None));
    LeadsOn(s, trying, free);
    var sure := looking.(step := Sure(true));
    AgentMoves(free, a, sure, File(true, Some(ByAgent(a))));
    var lost := AfterAgent(free, a, sure, File(true, Some(ByAgent(a))));
    LeadsOn(s, free, lost);
    AgentMoves(lost, a, sure.(step := Swept(true)), FileOf(lost, id));
    var u := AfterAgent(lost, a, sure.(step := Swept(true)), FileOf(lost, id));
    assert Reaps(lost, a, id, u) && !MayReap(lost, id);
  }

  // ---- Exactly when --------------------------------------------------------------------------------

  /** Whether a run was exposed is settled once it has removed its file. */
  lemma StepKeepsExposure(s: System, s': System, id: Id)
    requires Next(s, s') && id in s.runs && !s.runs[id].phase.Begun? && !s.runs[id].phase.LockFailed?
    ensures id in s'.runs && !s'.runs[id].phase.Begun? && !s'.runs[id].phase.LockFailed?
    ensures s'.runs[id].exposed == s.runs[id].exposed && s'.runs[id].locked == s.runs[id].locked
  {
    hide AgentStep, RunStep;
    var x: nat :|
      RunStep(s, x, s') || AgentStep(s, x, s') || StartProcess(s, x, s') || StartRun(s, x, s') || StartAgent(s, x, s')
          || Crash(s, x, s');
    if AgentStep(s, x, s') { AgentLeavesRuns(s, x, s'); }
    if RunStep(s, x, s') { RunKeepsExposure(s, x, s', id); }
  }

  lemma RunKeepsExposure(s: System, x: Id, s': System, id: Id)
    requires RunStep(s, x, s') && id in s.runs && !s.runs[id].phase.Begun? && !s.runs[id].phase.LockFailed?
    ensures id in s'.runs && !s'.runs[id].phase.Begun? && !s'.runs[id].phase.LockFailed?
    ensures s'.runs[id].exposed == s.runs[id].exposed && s'.runs[id].locked == s.runs[id].locked
  {
    hide FileOf, RecordOf, WithRecord, Listed, Live;
  }

  lemma AgentLeavesRuns(s: System, a: nat, s': System)
    requires AgentStep(s, a, s')
    ensures s'.runs == s.runs
  {
    hide ReaperLocal, SweeperLocal;
  }

  lemma {:induction false} ExposureStays(trace: seq<System>, id: Id, n: nat)
    requires Steps(trace) && n < |trace|
    requires id in trace[0].runs && !trace[0].runs[id].phase.Begun? && !trace[0].runs[id].phase.LockFailed?
    ensures id in trace[n].runs && !trace[n].runs[id].phase.Begun? && !trace[n].runs[id].phase.LockFailed?
    ensures trace[n].runs[id].exposed == trace[0].runs[id].exposed
            && trace[n].runs[id].locked == trace[0].runs[id].locked
  {
    hide Next;
    if n > 0 {
      ExposureStays(trace, id, n - 1);
      assert Next(trace[n - 1], trace[n - 1 + 1]);
      StepKeepsExposure(trace[n - 1], trace[n], id);
    }
  }

  /** A continuation of an execution is an execution. */
  lemma Continues(trace: seq<System>, more: seq<System>) returns (whole: seq<System>)
    requires Execution(trace) && |more| > 0 && more[0] == trace[|trace| - 1] && Steps(more)
    ensures Execution(whole) && |whole| == |trace| + |more| - 1 && whole[|whole| - 1] == more[|more| - 1]
  {
    hide Next;
    whole := trace + more[1..];
    forall i | 0 <= i < |whole| - 1 ensures Next(whole[i], whole[i + 1]) {
      if i < |trace| - 1 {
        assert Next(trace[i], trace[i + 1]);
      } else {
        assert whole[i] == more[i - |trace| + 1] && whole[i + 1] == more[i - |trace| + 2];
        assert Next(more[i - |trace| + 1], more[i - |trace| + 1 + 1]);
      }
    }
  }

  lemma UnexposedIsSafe(trace: seq<System>, id: Id)
    requires Execution(trace) && id in trace[|trace| - 1].runs
    requires trace[|trace| - 1].runs[id].phase.Unlocked? && !trace[|trace| - 1].runs[id].exposed
    ensures !CanBeReapedLive(trace[|trace| - 1], id)
  {
    var s := trace[|trace| - 1];
    hide Next, Reaps, MayReap, Execution;
    if CanBeReapedLive(s, id) {
      var t, a, u :| Leads(s, t) && Reaps(t, a, id, u) && !MayReap(t, id);
      var more :| |more| > 0 && more[0] == s && more[|more| - 1] == t && Steps(more);
      ExposureStays(more, id, |more| - 1);
      var whole := Continues(trace, more);
      ReaperSparesLiveRuns(whole, |whole| - 1, a, id, u);
    }
  }

  /** From the moment a run removes the lock file it was denied: some continuation reaps it
      while it lives if and only if a sweeper was still to try that file. */
  lemma ReapedLiveExactlyWhenExposed(trace: seq<System>, id: Id)
    requires Execution(trace) && |trace| > 1
    requires RunStep(trace[|trace| - 2], id, trace[|trace| - 1]) && trace[|trace| - 2].runs[id].phase == LockFailed
    ensures CanBeReapedLive(trace[|trace| - 1], id)
       <==> Listed(trace[|trace| - 2], id)
  {
    var before, s := trace[|trace| - 2], trace[|trace| - 1];
    AlwaysInv(trace, |trace| - 1);
    hide Inv, Next, Execution;
    if Listed(before, id) {
      var w :| w in before.agents && StillToTry(before.agents[w], id);
      ExposedIsLost(s, w, id);
    } else {
      UnexposedIsSafe(trace, id);
    }
  }

  lemma ExposedIsLost(s: System, w: nat, id: Id)
    requires Inv(s) && Live(s, id) && s.runs[id].phase == Unlocked && FileOf(s, id) == ABSENT
    requires w in s.agents && StillToTry(s.agents[w], id)
    ensures CanBeReapedLive(s, id)
  {
    hide Inv, Next, Steps, Reaps;
    RunRecords(s, id);
    var recorded := AfterRecording(s, id);
    StepKeeps(s, recorded);
    LeadsSelf(s);
    LeadsOn(s, s, recorded);
    var arrived := SweeperArrives(recorded, w, id);
    LeadsTogether(s, recorded, arrived);
    RaceIsLost(arrived, w, id);
    var t, a, u :| Leads(arrived, t) && Reaps(t, a, id, u) && !MayReap(t, id);
    LeadsTogether(s, arrived, t);
  }

  // ---- What a reaper is for ---------------------------------------------------------------------------

  /** A step that removes the record of the run at hand. */
  lemma AgentUnrecords(s: System, a: nat, lock: bool) returns (t: System)
    requires a in s.agents && s.agents[a].proc in s.procs && !s.agents[a].sweeper && s.agents[a].step == Swept(lock)
    ensures Next(s, t) && t.procs == s.procs && t.runs == s.runs && t.records == s.records - {s.agents[a].cur}
    ensures t.agents == s.agents[a := s.agents[a].(step := Clean(lock))]
    ensures FileOf(t, s.agents[a].cur) == FileOf(s, s.agents[a].cur)
  {
    var g := s.agents[a];
    t := s.(agents := s.agents[a := g.(step := Clean(lock))], files := s.files[g.cur := FileOf(s, g.cur)],
            records := s.records - {g.cur});
    assert AgentStep(s, a, t);
  }

  /** A reaper that starts and turns to the run. */
  lemma ReaperLooks(s: System, id: Id) returns (t: System, a: nat)
    requires id in s.runs && id in s.records
    ensures Leads(s, t) && a in t.agents && t.agents[a].proc in t.procs && !t.agents[a].sweeper
    ensures t.agents[a].cur == id && t.agents[a].step == Look && t.agents[a].snapshot == s.records
    ensures t.runs == s.runs && t.records == s.records && FileOf(t, id) == FileOf(s, id)
    ensures s.records[id] in t.procs.Values ==> s.records[id] in s.procs.Values
  {
    var up;
    up, a := ReaperStarts(s);
    hide Next, Leads, Steps, AgentStep;
    var r := up.agents[a];
    var looking := r.(todo := r.todo - {id}, cur := id, step := Look);
    AgentMoves(up, a, looking, FileOf(up, id));
    t := AfterAgent(up, a, looking, FileOf(up, id));
    LeadsOn(s, up, t);
  }

  /** And concludes that its owner is gone: by taking the lock of the file that is there, or
      where there is none because no process has the id on record. */
  lemma ReaperConcludes(s: System, id: Id) returns (t: System, a: nat, lock: bool)
    requires id in s.runs && id in s.records && FileOf(s, id).holder.None?
    requires FileOf(s, id).present || s.records[id] !in s.procs.Values
    ensures Leads(s, t) && a in t.agents && t.agents[a].proc in t.procs && !t.agents[a].sweeper
    ensures t.agents[a].cur == id && t.agents[a].step == Sure(lock) && t.runs == s.runs && t.records == s.records
    ensures lock || FileOf(t, id) == ABSENT
  {
    var look;
    look, a := ReaperLooks(s, id);
    hide Next, Leads, Steps, AgentStep;
    var g := look.agents[a];
    if FileOf(s, id).present {
      AgentMoves(look, a, g.(step := Try), FileOf(look, id));
      var trying := AfterAgent(look, a, g.(step := Try), FileOf(look, id));
      LeadsOn(s, look, trying);
      AgentMoves(trying, a, g.(step := Sure(true)), File(true, Some(ByAgent(a))));
      t, lock := AfterAgent(trying, a, g.(step := Sure(true)), File(true, Some(ByAgent(a)))), true;
      LeadsOn(s, trying, t);
    } else {
      AgentMoves(look, a, g.(step := NoFile), FileOf(look, id));
      var none := AfterAgent(look, a, g.(step := NoFile), FileOf(look, id));
      LeadsOn(s, look, none);
      assert !PidAlive(none, none.agents[a]);
      AgentMoves(none, a, g.(step := Sure(false)), FileOf(none, id));
      t, lock := AfterAgent(none, a, g.(step := Sure(false)), FileOf(none, id)), false;
      LeadsOn(s, none, t);
    }
  }

  /** From the reaping on: the record goes, and the lock file with it. */
  lemma ReaperTidies(s: System, a: nat, id: Id, lock: bool) returns (v: System)
    requires a in s.agents && s.agents[a].proc in s.procs && !s.agents[a].sweeper && id in s.runs
    requires s.agents[a].cur == id && s.agents[a].step == Swept(lock) && (lock || FileOf(s, id) == ABSENT)
    ensures Leads(s, v) && id !in v.records && FileOf(v, id) == ABSENT
  {
    var clean := AgentUnrecords(s, a, lock);
    hide Next, Leads, Steps, AgentStep;
    LeadsSelf(s);
    LeadsOn(s, s, clean);
    var g := clean.agents[a];
    var g' := g.(step := if lock then Last else Idle);
    AgentMoves(clean, a, g', ABSENT);
    v := AfterAgent(clean, a, g', ABSENT);
    LeadsOn(s, clean, v);
  }

  /** A run on record whose owner is gone can be reaped, by a reaper that starts now, when
      nobody is at its lock file and either the file is there or its process id is free: its
      helpers are removed, and then its record and its file. */
  lemma OrphanIsReaped(s: System, id: Id) returns (t: System, a: nat, u: System, v: System)
    requires id in s.runs && !Live(s, id) && id in s.records && FileOf(s, id).holder.None?
    requires FileOf(s, id).present || s.records[id] !in s.procs.Values
    ensures Leads(s, t) && Reaps(t, a, id, u) && Leads(u, v)
    ensures id !in v.records && FileOf(v, id) == ABSENT
  {
    var lock;
    t, a, lock := ReaperConcludes(s, id);
    hide Next, Leads, Steps, AgentStep;
    var g := t.agents[a];
    AgentMoves(t, a, g.(step := Swept(lock)), FileOf(t, id));
    u := AfterAgent(t, a, g.(step := Swept(lock)), FileOf(t, id));
    assert Reaps(t, a, id, u);
    v := ReaperTidies(u, a, id, lock);
  }

  // ---- A run that nothing disturbs -------------------------------------------------------------------

  lemma RunMoves(s: System, id: Id, r': Run, f': File, rec': Option<nat>) returns (t: System)
    requires Live(s, id) && RunLocal(id, s.runs[id], FileOf(s, id), RecordOf(s, id), Listed(s, id), r', f', rec')
    requires r'.proc == s.runs[id].proc
    ensures Next(s, t) && t.procs == s.procs && Live(t, id)
    ensures t.runs[id] == r' && FileOf(t, id) == f' && RecordOf(t, id) == rec'
  {
    hide RunLocal, Listed;
    t := s.(runs := s.runs[id := r'], files := s.files[id := f'], records := WithRecord(s.records, id, rec'));
    assert RunStep(s, id, t);
  }

  /** A run just begun gets its liveness lock and its record, and when its child has exited it
      has reaped its own helpers and leaves neither record nor lock file behind. */
  lemma RunCleansUp(trace: seq<System>, id: Id) returns (at: System, t: System)
    requires Execution(trace)
    requires var s := trace[|trace| - 1]; Live(s, id) && s.runs[id].phase == Begun
    ensures Leads(trace[|trace| - 1], at) && id in at.runs && at.runs[id].phase == Recorded && at.runs[id].locked
    ensures id in at.records && at.records[id] == at.runs[id].pid && FileOf(at, id) == File(true, Some(ByRun(id)))
    ensures Leads(at, t) && id in t.runs && t.runs[id].phase == Over && id !in t.records && FileOf(t, id) == ABSENT
  {
    var s := trace[|trace| - 1];
    AlwaysInv(trace, |trace| - 1);
    Parts(s);
    var r := s.runs[id];
    assert RunOk(id, r, true, FileOf(s, id));
    hide Inv, Next, Leads, Steps, RunOk, AgentOk, ProcsOk, Known, Execution, Listed;
    var mine := File(true, Some(ByRun(id)));
    var locked := RunMoves(s, id, r.(phase := Locked, locked := true), mine, RecordOf(s, id));
    LeadsSelf(s);
    LeadsOn(s, s, locked);
    r := locked.runs[id];
    at := RunMoves(locked, id, r.(phase := Recorded), mine, Some(r.pid));
    LeadsOn(s, locked, at);
    t := RunEnds(at, id);
  }

  lemma RunEnds(s: System, id: Id) returns (t: System)
    requires Live(s, id) && s.runs[id].phase == Recorded && s.runs[id].locked && FileOf(s, id).present
    ensures Leads(s, t) && id in t.runs && t.runs[id].phase == Over && id !in t.records && FileOf(t, id) == ABSENT
  {
    hide Next, Leads, Steps, Listed;
    var r, f := s.runs[id], FileOf(s, id);
    var reaped := RunMoves(s, id, r.(phase := Reaped), f, RecordOf(s, id));
    LeadsSelf(s);
    LeadsOn(s, s, reaped);
    var cleared := RunMoves(reaped, id, r.(phase := Cleared), f, None);
    LeadsOn(s, reaped, cleared);
    var released := RunMoves(cleared, id, r.(phase := Released), f.(holder := None), None);
    LeadsOn(s, cleared, released);
    t := RunMoves(released, id, r.(phase := Over), ABSENT, None);
    LeadsOn(s, released, t);
  }
}
