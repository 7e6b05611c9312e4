/**
 Any number of processes changing the schedule file at once. Each change takes the file's
 lock, reads, applies, writes by renaming a whole new file into place, and releases; it may
 fail to read or to write, and its process may die between any two steps.
 */
module ScheduleUpdates {
  import opened Wrappers
  import opened Schedule

  /** What a change does to the file as read; None when there is nothing to change. */
  type Mutation = ScheduleFile -> Option<ScheduleFile>

  datatype Disk = Missing | Corrupt | Holds(file: ScheduleFile)

  /** A missing or corrupt file reads as an empty one. */
  function Contents(d: Disk): ScheduleFile { if d.Holds? then d.file else EMPTY }

  datatype Stage = Locked(m: Mutation) | HasRead(m: Mutation, seen: ScheduleFile, corrupt: bool) | Finished

  /** `log` lists the changes that completed, in the order their processes held the lock. */
  datatype System = System(disk: Disk, lock: Option<nat>, updates: map<nat, Stage>, log: seq<Mutation>)

  ghost predicate Lock(s: System, p: nat, s': System) {
    && p !in s.updates && s.lock == None && p in s'.updates && s'.updates[p].Locked?
    && s' == s.(lock := Some(p), updates := s.updates[p := s'.updates[p]])
  }

  /** A failure other than corrupt contents gives the change up. */
  ghost predicate Read(s: System, p: nat, s': System) {
    && p in s.updates && s.updates[p].Locked?
    && (s' == s.(updates := s.updates[p := HasRead(s.updates[p].m, Contents(s.disk), s.disk.Corrupt?)])
        || s' == s.(updates := s.updates[p := Finished]))
  }

  /** A change that changes nothing writes nothing, unless the file has to be healed. */
  ghost predicate Write(s: System, p: nat, s': System) {
    && p in s.updates && s.updates[p].HasRead?
    && var u := s.updates[p];
       var result := u.m(u.seen);
       var done := s.(updates := s.updates[p := Finished]);
       if result.None? && !u.corrupt then s' == done.(log := s.log + [u.m])
       else
         || s' == done.(disk := Holds(if result.Some? then result.value else u.seen), log := s.log + [u.m])
         || s' == done  // the write failed and the old file is still there
  }

  ghost predicate Release(s: System, p: nat, s': System) {
    && p in s.updates && s.updates[p].Finished?
    && s' == s.(lock := None, updates := s.updates - {p})
  }

  ghost predicate Crash(s: System, p: nat, s': System) {
    && p in s.updates
    && s' == s.(lock := if s.lock == Some(p) then None else s.lock, updates := s.updates - {p})
  }

  ghost predicate Next(s: System, s': System) {
    exists p: nat :: Lock(s, p, s') || Read(s, p, s') || Write(s, p, s') || Release(s, p, s') || Crash(s, p, s')
  }

  ghost predicate Execution(trace: seq<System>) {
    && trace != [] && trace[0].lock == None && trace[0].updates == map[] && trace[0].log == []
    && forall i :: 0 <= i < |trace| - 1 ==> Next(trace[i], trace[i + 1])
  }

  /** One change after another. */
  function ApplyAll(f: ScheduleFile, log: seq<Mutation>): ScheduleFile {
    if log == [] then f
    else
      var before := ApplyAll(f, log[..|log| - 1]);
      var result := log[|log| - 1](before);
      if result.Some? then result.value else before
  }

  /** Only the holder of the lock is at work, and what it has read is what is there. */
  ghost predicate Inv(start: ScheduleFile, s: System) {
    && (forall p | p in s.updates :: s.lock == Some(p))
    && (forall p | p in s.updates && s.updates[p].HasRead? :: s.updates[p].seen == Contents(s.disk))
    && Contents(s.disk) == ApplyAll(start, s.log)
  }

  lemma StepKeeps(start: ScheduleFile, s: System, s': System)
    requires Inv(start, s) && Next(s, s')
    ensures Inv(start, s')
  {
    var p: nat :| Lock(s, p, s') || Read(s, p, s') || Write(s, p, s') || Release(s, p, s') || Crash(s, p, s');
    if Write(s, p, s') && s'.log != s.log {
      assert s'.log[..|s'.log| - 1] == s.log;
    }
  }

  /** No lost updates: whatever the interleaving, the file is what the completed changes give
      when they are applied one after another in lock order. */
  lemma {:induction false} NoLostUpdates(trace: seq<System>, n: nat)
    requires Execution(trace) && n < |trace|
    ensures Contents(trace[n].disk) == ApplyAll(Contents(trace[0].disk), trace[n].log)
    ensures Inv(Contents(trace[0].disk), trace[n])
  {
    if n > 0 {
      NoLostUpdates(trace, n - 1);
      assert Next(trace[n - 1], trace[n]);
      StepKeeps(Contents(trace[0].disk), trace[n - 1], trace[n]);
    }
  }

  /** A change that finds the lock free and meets no failure is made, to what is there then, a
      missing or corrupt file counting as empty; and a corrupt one is replaced even by a
      change that has nothing to say. */
  lemma ChangeIsMade(s: System, p: nat, m: Mutation) returns (path: seq<System>)
    requires s.lock == None && p !in s.updates
    ensures |path| == 5 && path[0] == s && forall i | 0 <= i < 4 :: Next(path[i], path[i + 1])
    ensures var before, made, t := Contents(s.disk), m(Contents(s.disk)), path[4];
            && t.lock == None && t.updates == s.updates && t.log == s.log + [m]
            && Contents(t.disk) == (if made.Some? then made.value else before)
            && (made.Some? || s.disk.Corrupt? ==> t.disk.Holds?)
            && (made.None? && !s.disk.Corrupt? ==> t.disk == s.disk)
  {
    var seen, corrupt, result := Contents(s.disk), s.disk.Corrupt?, m(Contents(s.disk));
    var locked := s.(lock := Some(p), updates := s.updates[p := Locked(m)]);
    var read := locked.(updates := locked.updates[p := HasRead(m, seen, corrupt)]);
    var done := read.(updates := read.updates[p := Finished], log := s.log + [m]);
    var written := if result.None? && !corrupt then done
        else done.(disk := Holds(if result.Some? then result.value else seen));
    var released := written.(lock := None, updates := written.updates - {p});
    assert Lock(s, p, locked) && Read(locked, p, read) && Write(read, p, written) && Release(written, p, released);
    assert released.updates == s.updates;
    path := [s, locked, read, written, released];
  }

  // ---- The pending records -----------------------------------------------------------------------

  function RecordPending(runID: string, p: Pending): Mutation {
    (f: ScheduleFile) => Some(f.(pending := f.pending[runID := p]))
  }

  function ClearPending(runID: string): Mutation {
    (f: ScheduleFile) => if runID in f.pending then Some(f.(pending := f.pending - {runID})) else None
  }

  /** A change that leaves a run's pending record alone. */
  ghost predicate LeavesPending(m: Mutation, runID: string) {
    forall f: ScheduleFile ::
      m(f).Some? ==> (runID in m(f).value.pending <==> runID in f.pending)
                     && (runID in f.pending ==> m(f).value.pending[runID] == f.pending[runID])
  }

  /** A run's pending record is there exactly from the time it is recorded to the time it is
      cleared, whatever other changes, by whomever, come in between. */
  lemma {:induction false} PendingUntilCleared(start: ScheduleFile, log: seq<Mutation>, runID: string, p: Pending,
                                               at: nat)
    requires at < |log| && log[at] == RecordPending(runID, p)
    requires forall i | at < i < |log| :: LeavesPending(log[i], runID)
    ensures runID in ApplyAll(start, log).pending && ApplyAll(start, log).pending[runID] == p
    ensures runID !in ApplyAll(start, log + [ClearPending(runID)]).pending
  {
    assert (log + [ClearPending(runID)])[..|log|] == log;
    if at + 1 < |log| {
      PendingUntilCleared(start, log[..|log| - 1], runID, p, at);
      assert LeavesPending(log[|log| - 1], runID);
    }
  }
}
