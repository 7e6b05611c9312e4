/**
 When the scheduler runs a group and when it wakes up to do so. Times and durations are
 whole seconds; 0 is no time at all.
 */
module Wake {
  import opened Wrappers
  import opened Schedule

  const MIN_WAKE := 30
  const LOCK_RETRY_INTERVAL := 300
  const PRE_RUN_RETRY_INTERVAL := 300

  function Max(a: int, b: int): (r: int)
    ensures a <= r && b <= r && (r == a || r == b)
  {
    if a < b then b else a
  }

  datatype Dueness = Dueness(due: bool, next: int, membershipChanged: bool)

  /** Unknown groups, changed membership and a clock that went back all mean due. */
  function Due(rec: Option<GroupRecord>, fingerprint: string, period: int, now: int): (d: Dueness)
    ensures d.due <==> period <= 0 || rec.None? || rec.value.fingerprint != fingerprint
                       || now < rec.value.lastSuccess || rec.value.lastSuccess + period <= now
    ensures d.due || now < d.next == rec.value.lastSuccess + period
    ensures d.membershipChanged <==> period > 0 && rec.Some? && rec.value.fingerprint != fingerprint
    ensures d.membershipChanged ==> d.due
  {
    if period <= 0 || rec.None? then Dueness(true, now, false)
    else if rec.value.fingerprint != fingerprint then Dueness(true, now, true)
    else if rec.value.lastSuccess > now then Dueness(true, now, false)
    else
      var next := rec.value.lastSuccess + period;
      Dueness(next <= now, next, false)
  }

  datatype LiveGroup = LiveGroup(members: nat, period: int, fingerprint: string)

  /** The group's own label, then the file for groups, then the manager's period. */
  function EffectivePeriod(group: Option<LiveGroup>, filePeriod: int, global: int): (p: int)
    ensures global > 0 ==> p > 0
    ensures var cascade := [if group.Some? then group.value.period else 0, filePeriod, global];
            exists i | 0 <= i < 3 :: p == cascade[i] && (forall j | 0 <= j < i :: cascade[j] <= 0) && (i < 2 ==> p > 0)
  {
    ghost var cascade := [if group.Some? then group.value.period else 0, filePeriod, global];
    if group.Some? && group.value.period > 0 then assert cascade[0] > 0; group.value.period
    else if filePeriod > 0 then assert cascade[1] > 0; filePeriod
    else assert cascade[2] == global; global
  }

  /** What TryRunGroup came back with. */
  datatype Attempt = LockedElsewhere | AlreadyRunning | RunFailed | Succeeded(started: int)

  datatype GroupState = GroupState(record: Option<GroupRecord>, attempt: Option<int>, retry: Option<int>)

  /** A group's last success or the attempt after it. */
  function LastSeen(g: GroupState): (t: int)
    requires g.record.Some? || g.attempt.Some?
    ensures g.record.Some? ==> g.record.value.lastSuccess <= t
    ensures g.attempt.Some? ==> g.attempt.value <= t
    ensures (g.record.Some? && t == g.record.value.lastSuccess) || (g.attempt.Some? && t == g.attempt.value)
  {
    if g.record.None? then g.attempt.value
    else if g.attempt.None? then g.record.value.lastSuccess
    else Max(g.record.value.lastSuccess, g.attempt.value)
  }

  function Get<V>(m: map<string, V>, name: string): Option<V> { if name in m then Some(m[name]) else None }

  predicate DueNow(store: bool, g: GroupState, fingerprint: string, period: int, now: int) {
    !store || Due(g.record, fingerprint, period, now).due
  }

  /** What a cycle leaves of a group: unless it was not due, the mark of the try, except where
      the run in progress was this process's own; a lock retry only where another process
      held the lock; and a record changed by a success alone, which keeps its history. */
  ghost predicate Tried(store: bool, g: GroupState, fingerprint: string, period: int, now: int, outcome: Attempt,
                        after: GroupState)
  {
    var due := !store || period <= 0 || g.record.None? || g.record.value.fingerprint != fingerprint
               || now < g.record.value.lastSuccess || g.record.value.lastSuccess + period <= now;
    && after.attempt == (if due && !outcome.AlreadyRunning? then Some(now) else g.attempt)
    && after.retry == (if due && outcome.LockedElsewhere? then Some(now + 300) else None)
    && (!due || !outcome.Succeeded? || !store ==> after.record == g.record)
    && (due && outcome.Succeeded? && store ==>
          && after.record.Some?
          && after.record.value.lastSuccess == (if outcome.started != 0 then outcome.started else now)
          && after.record.value.fingerprint == fingerprint && after.record.value.missingCycles == 0
          && (g.record.Some? ==>
                && after.record.value.lastRun == g.record.value.lastRun
                && after.record.value.history == g.record.value.history
                && after.record.value.repositories == g.record.value.repositories)
          && (g.record.None? ==>
                && after.record.value.lastRun == None && after.record.value.history == []
                && after.record.value.repositories == map[]))
  }

  /** The record of a present group. */
  ghost predicate Attending(r: Option<GroupRecord>, out: Option<GroupRecord>) {
    if r.None? then out.None? else out == Some(r.value.(missingCycles := 0))
  }

  /** The present group's record says so, and is otherwise what the try left. */
  ghost predicate CameOut(store: bool, g: GroupState, fingerprint: string, period: int, now: int, outcome: Attempt,
                          out: GroupState)
  {
    exists left :: Tried(store, g, fingerprint, period, now, outcome, left)
        && out.attempt == left.attempt && out.retry == left.retry
        && (if store then Attending(left.record, out.record) else out.record == left.record)
  }

  /** An absent group keeps its record for two cycles, longer when cached, and no mark. */
  ghost predicate Aside(r: Option<GroupRecord>, cached: bool, out: GroupState) {
    && out.attempt == None && out.retry == None
    && (out.record == None <==> r == None || (!cached && 2 <= r.value.missingCycles))
    && (out.record.Some? ==> out.record.value == r.value.(missingCycles := r.value.missingCycles + 1))
  }

  class Scheduler {
    const global: int
    const hasStore: bool
    var records: map<string, GroupRecord>
    var lastAttempt: map<string, int>
    var lockedRetry: map<string, int>
    var preRunRetry: int
    var groupPeriods: map<string, int>

    constructor (global: int, hasStore: bool, records: map<string, GroupRecord>)
      ensures this.global == global && this.hasStore == hasStore && this.records == records
      ensures lastAttempt == map[] && lockedRetry == map[] && preRunRetry == 0 && groupPeriods == map[]
    {
      this.global, this.hasStore, this.records := global, hasStore, records;
      lastAttempt, lockedRetry, preRunRetry, groupPeriods := map[], map[], 0, map[];
    }

    function StateOf(name: string): GroupState
      reads this
    {
      GroupState(Get(records, name), Get(lastAttempt, name), Get(lockedRetry, name))
    }

    function PeriodOf(name: string): int
      reads this
    {
      if name in groupPeriods then groupPeriods[name] else global
    }

    /** When a group next needs looking at: a period after its last success or attempt. */
    function Deadline(name: string): int
      requires name in records || name in lastAttempt
      reads this
    {
      LastSeen(StateOf(name)) + PeriodOf(name)
    }

    /** Groups in the records and not absent, and groups only attempted so far. */
    predicate Drives(name: string)
      reads this
    {
      if name in records then records[name].missingCycles == 0 else name in lastAttempt && lastAttempt[name] > 0
    }

    /** The sleep until the earliest of a period, a retry and a deadline, and no less than
        MIN_WAKE: as late as one of them and no later than any. */
    method NextWake(now: int) returns (wake: int)
      ensures !hasStore || global <= 0 ==> wake == global
      ensures hasStore && global > 0 ==>
                && MIN_WAKE <= wake <= Max(MIN_WAKE, global)
                && (forall name | name in lockedRetry :: wake <= Max(MIN_WAKE, lockedRetry[name] - now))
                && (preRunRetry != 0 ==> wake <= Max(MIN_WAKE, preRunRetry - now))
                && (forall name | (name in records || name in lastAttempt) && Drives(name) ::
                    wake <= Max(MIN_WAKE, Deadline(name) - now))
                && (wake == Max(MIN_WAKE, global) || (preRunRetry != 0 && wake == Max(MIN_WAKE, preRunRetry - now))
                    || (exists name :: name in lockedRetry && wake == Max(MIN_WAKE, lockedRetry[name] - now))
                    || (exists name :: (name in records || name in lastAttempt) && Drives(name)
                                       && wake == Max(MIN_WAKE, Deadline(name) - now)))
    {
      if !hasStore || global <= 0 { return global; }
      wake := global;
      // Attempts since the last success stand in for it.
      var snapshot := records;
      var todo := lastAttempt.Keys;
      while todo != {}
        invariant todo <= lastAttempt.Keys
        invariant forall n :: n in snapshot <==> n in records || (n in lastAttempt && n !in todo && lastAttempt[n] > 0)
        invariant forall n | n in snapshot ::
                    var rec := if n in records then records[n] else NEW_GROUP;
                    snapshot[n] == if n in lastAttempt && n !in todo
                                   then rec.(lastSuccess := Max(rec.lastSuccess, lastAttempt[n])) else rec
        decreases todo
      {
        var name :| name in todo;
        todo := todo - {name};
        var rec := if name in snapshot then snapshot[name] else NEW_GROUP;
        if lastAttempt[name] > rec.lastSuccess { snapshot := snapshot[name := rec.(lastSuccess := lastAttempt[name])]; }
      }
      todo := lockedRetry.Keys;
      while todo != {}
        invariant todo <= lockedRetry.Keys && wake <= global
        invariant forall n | n in lockedRetry && n !in todo :: wake <= lockedRetry[n] - now
        invariant wake == global || exists n :: n in lockedRetry && wake == lockedRetry[n] - now
        decreases todo
      {
        var name :| name in todo;
        todo := todo - {name};
        if lockedRetry[name] - now < wake { wake := lockedRetry[name] - now; }
      }
      if preRunRetry != 0 && preRunRetry - now < wake { wake := preRunRetry - now; }
      ghost var retries := wake;
      todo := snapshot.Keys;
      while todo != {}
        invariant todo <= snapshot.Keys && wake <= retries
        invariant forall n | n in snapshot && n !in todo && snapshot[n].missingCycles == 0 ::
                    wake <= snapshot[n].lastSuccess + PeriodOf(n) - now
        invariant wake == retries
                  || exists n :: n in snapshot && snapshot[n].missingCycles == 0
                      && wake == snapshot[n].lastSuccess + PeriodOf(n) - now
        decreases todo
      {
        var name :| name in todo;
        todo := todo - {name};
        if snapshot[name].missingCycles > 0 { continue; }
        var d := snapshot[name].lastSuccess + PeriodOf(name) - now;
        if d < wake { wake := d; }
      }
      forall n | n in snapshot
        ensures (n in records || n in lastAttempt) && (snapshot[n].missingCycles == 0 <==> Drives(n))
        ensures snapshot[n].lastSuccess + PeriodOf(n) == Deadline(n)
      {}
      if wake < MIN_WAKE { wake := MIN_WAKE; }
    }

    /** Runs every due group that has members and a configuration, and, with a store, forgets
        the marks of groups that are gone and ages their records. */
    method RunAllGroups(now: int, groups: map<string, LiveGroup>, meta: set<string>, filePeriods: map<string, int>,
                        cached: set<string>, outcomes: string -> Attempt)
      modifies this
      ensures forall name | IsLive(groups, meta, name) ::
                CameOut(hasStore, old(StateOf(name)), groups[name].fingerprint,
                        GroupPeriod(groups, filePeriods, global, name), now, outcomes(name), StateOf(name))
      ensures hasStore ==> forall name | !IsLive(groups, meta, name) ::
                Aside(old(StateOf(name)).record, name in cached, StateOf(name))
      ensures !hasStore ==> records == old(records) && groupPeriods == old(groupPeriods)
      ensures hasStore ==> forall name ::
                name in groupPeriods <==> name in groups && groups[name].members != 0 && name in meta
      ensures hasStore ==>
              forall name | name in groupPeriods :: groupPeriods[name] == GroupPeriod(groups, filePeriods, global, name)
      ensures preRunRetry == old(preRunRetry)
    {
      hide Due, EffectivePeriod, Tried, Retained, GroupPeriod;
      var live := set name | name in groups && IsLive(groups, meta, name);
      RunLive(live, now, groups, filePeriods, outcomes);
      ghost var left := map n | n in live :: StateOf(n);
      if hasStore {
        ForgetAbsent(live, cached);
        groupPeriods := map n | n in live :: GroupPeriod(groups, filePeriods, global, n);
      }
      forall name | IsLive(groups, meta, name)
        ensures CameOut(hasStore, old(StateOf(name)), groups[name].fingerprint,
                        GroupPeriod(groups, filePeriods, global, name), now, outcomes(name), StateOf(name))
      {
        assert name in live && Tried(hasStore, old(StateOf(name)), groups[name].fingerprint,
                                     GroupPeriod(groups, filePeriods, global, name), now, outcomes(name), left[name]);
      }
    }

    method RunLive(live: set<string>, now: int, groups: map<string, LiveGroup>, filePeriods: map<string, int>,
                   outcomes: string -> Attempt)
      requires live <= groups.Keys
      modifies `records, `lastAttempt, `lockedRetry
      ensures !hasStore ==> records == old(records)
      ensures forall name | name in live ::
                Tried(hasStore, old(StateOf(name)), groups[name].fingerprint,
                      GroupPeriod(groups, filePeriods, global, name), now, outcomes(name), StateOf(name))
      ensures forall name | name !in live :: StateOf(name) == old(StateOf(name))
    {
      hide Tried, GroupPeriod;
      var todo := live;
      while todo != {}
        invariant todo <= live
        invariant !hasStore ==> records == old(records)
        invariant forall name | name in live && name !in todo ::
                    Tried(hasStore, old(StateOf(name)), groups[name].fingerprint,
                          GroupPeriod(groups, filePeriods, global, name), now, outcomes(name), StateOf(name))
        invariant forall name | name !in live || name in todo :: StateOf(name) == old(StateOf(name))
        decreases todo
      {
        var name :| name in todo;
        todo := todo - {name};
        RunGroup(name, groups[name].fingerprint, GroupPeriod(groups, filePeriods, global, name), now, outcomes(name));
      }
    }

    /** Ages the records of groups that are not live and drops their marks. */
    method ForgetAbsent(live: set<string>, cached: set<string>)
      modifies `records, `lastAttempt, `lockedRetry
      ensures forall name | name in live ::
                && StateOf(name).attempt == old(StateOf(name)).attempt
                && StateOf(name).retry == old(StateOf(name)).retry
                && Attending(old(StateOf(name)).record, StateOf(name).record)
      ensures forall name | name !in live ::
                Aside(old(StateOf(name)).record, name in cached, StateOf(name))
    {
      records := Retained(ScheduleFile(records, map[]), live, cached).groups;
      lastAttempt := map n | n in lastAttempt && n in live :: lastAttempt[n];
      lockedRetry := map n | n in lockedRetry && n in live :: lockedRetry[n];
    }

    /** One group: due or not, tried, and what came of it. */
    method RunGroup(name: string, fingerprint: string, period: int, now: int, outcome: Attempt)
      modifies `records, `lastAttempt, `lockedRetry
      ensures Tried(hasStore, old(StateOf(name)), fingerprint, period, now, outcome, StateOf(name))
      ensures forall n | n != name :: StateOf(n) == old(StateOf(n))
      ensures !hasStore ==> records == old(records)
    {
      hide Due;
      if !DueNow(hasStore, StateOf(name), fingerprint, period, now) {
        lockedRetry := lockedRetry - {name};
        return;
      }
      var prev := Get(lastAttempt, name);
      lastAttempt := lastAttempt[name := now];
      match outcome
      case LockedElsewhere =>
        lockedRetry := lockedRetry[name := now + LOCK_RETRY_INTERVAL];
      case AlreadyRunning =>
        lastAttempt := if prev.Some? then lastAttempt[name := prev.value] else lastAttempt - {name};
        lockedRetry := lockedRetry - {name};
      case RunFailed =>
        lockedRetry := lockedRetry - {name};
      case Succeeded(started) =>
        if hasStore {
          var store := new Store(ScheduleFile(records, map[]));
          store.MarkSuccess(name, fingerprint, if started == 0 then now else started);
          records := store.file.groups;
        }
        lockedRetry := lockedRetry - {name};
    }

    /** A cycle: a failed pre-run check, where there is one, puts the whole of it off for a
        while and changes nothing else. */
    method RunCycle(now: int, preRun: Option<bool>, generated: bool, groups: map<string, LiveGroup>, meta: set<string>,
                    filePeriods: map<string, int>, cached: set<string>, outcomes: string -> Attempt)
      returns (ran: bool)
      modifies this
      ensures ran <==> preRun != Some(false) && generated
      ensures !ran ==> records == old(records) && lastAttempt == old(lastAttempt) && lockedRetry == old(lockedRetry)
                       && groupPeriods == old(groupPeriods)
      ensures preRunRetry == if preRun.None? then old(preRunRetry) else if preRun.value then 0
              else now + PRE_RUN_RETRY_INTERVAL
      ensures ran ==> forall name | IsLive(groups, meta, name) ::
                CameOut(hasStore, old(StateOf(name)), groups[name].fingerprint,
                        GroupPeriod(groups, filePeriods, global, name), now, outcomes(name), StateOf(name))
      ensures ran && hasStore ==> forall name | !IsLive(groups, meta, name) ::
                Aside(old(StateOf(name)).record, name in cached, StateOf(name))
      ensures ran && hasStore ==> forall name ::
                name in groupPeriods <==> name in groups && groups[name].members != 0 && name in meta
      ensures ran && hasStore ==>
              forall name | name in groupPeriods :: groupPeriods[name] == GroupPeriod(groups, filePeriods, global, name)
    {
      hide CameOut, Aside, GroupPeriod, IsLive;
      if preRun.Some? {
        if !preRun.value {
          preRunRetry := now + PRE_RUN_RETRY_INTERVAL;
          return false;
        }
        preRunRetry := 0;
      }
      if !generated { return false; }
      assert forall name :: StateOf(name) == old(StateOf(name));
      RunAllGroups(now, groups, meta, filePeriods, cached, outcomes);
      return true;
    }

    lemma LiveIsLookedAfter(name: string, later: int, wake: int)
      requires hasStore && PeriodOf(name) > 0 && (name in records ==> records[name].missingCycles == 0)
      requires forall n | n in lastAttempt :: 0 < lastAttempt[n]
      requires forall n | n in lockedRetry :: wake <= Max(MIN_WAKE, lockedRetry[n] - later)
      requires forall n | (n in records || n in lastAttempt) && Drives(n) :: wake <= Max(MIN_WAKE, Deadline(n) - later)
      ensures LookedAfter(StateOf(name), PeriodOf(name), later, wake)
    {
      var g := StateOf(name);
      if g.record.Some? && g.record.value.lastSuccess <= later
         && (g.attempt.Some? ==> g.attempt.value <= g.record.value.lastSuccess)
      {
        WokenInTime(this, name, later, wake);
      }
      hide Due;
    }

    /** What ends a sleep after a completed cycle is a period, the postponement, or the retry
        or deadline of a live group: no other group has anything left that could. */
    lemma OnlyTheLiveWake(live: set<string>, later: int, wake: int)
      requires forall name | name !in live :: StateOf(name).attempt.None? && StateOf(name).retry.None?
      requires forall name | name in records && name !in live :: records[name].missingCycles > 0
      requires wake == Max(MIN_WAKE, global) || (preRunRetry != 0 && wake == Max(MIN_WAKE, preRunRetry - later))
               || (exists name :: name in lockedRetry && wake == Max(MIN_WAKE, lockedRetry[name] - later))
               || (exists name :: (name in records || name in lastAttempt) && Drives(name)
                                  && wake == Max(MIN_WAKE, Deadline(name) - later))
      ensures wake == Max(MIN_WAKE, global) || (preRunRetry != 0 && wake == Max(MIN_WAKE, preRunRetry - later))
              || exists name :: name in live && WokenFor(StateOf(name), PeriodOf(name), later, wake)
    {
      if name :| name in lockedRetry && wake == Max(MIN_WAKE, lockedRetry[name] - later) {
        assert StateOf(name).retry.Some?;
        assert name in live && WokenFor(StateOf(name), PeriodOf(name), later, wake);
      } else if name :| (name in records || name in lastAttempt) && Drives(name)
                        && wake == Max(MIN_WAKE, Deadline(name) - later) {
        assert name in records || StateOf(name).attempt.Some?;
        assert name in live && WokenFor(StateOf(name), PeriodOf(name), later, wake);
      }
    }

    /** A cycle and the sleep after it. Every live group is looked after, with one exception:
        nothing is known of it and its run was already in progress. And the sleep is not cut
        short: it ends for a live group, at the end of a period, or with the postponement of
        a skipped cycle. */
    method CycleThenSleep(now: int, later: int, preRun: Option<bool>, generated: bool, groups: map<string, LiveGroup>,
                          meta: set<string>, filePeriods: map<string, int>, cached: set<string>,
                          outcomes: string -> Attempt)
      returns (ran: bool, wake: int)
      requires hasStore && global > 0 && 0 < now <= later
      requires forall name | name in lastAttempt :: 0 < lastAttempt[name]
      modifies this
      ensures ran <==> preRun != Some(false) && generated
      ensures preRun == Some(false) ==> later + wake <= Max(later, now + PRE_RUN_RETRY_INTERVAL) + MIN_WAKE
      ensures ran ==> forall name | IsLive(groups, meta, name) ::
                && LookedAfter(StateOf(name), GroupPeriod(groups, filePeriods, global, name), later, wake)
                && (StateOf(name).record.None? && StateOf(name).attempt.None? ==>
                      outcomes(name).AlreadyRunning? && old(StateOf(name)).record.None?)
      ensures ran ==>
                || wake == Max(MIN_WAKE, global)
                || (preRun.None? && old(preRunRetry) != 0 && wake == Max(MIN_WAKE, old(preRunRetry) - later))
                || exists name :: IsLive(groups, meta, name)
                     && WokenFor(StateOf(name), GroupPeriod(groups, filePeriods, global, name), later, wake)
      ensures forall name | name in lastAttempt :: 0 < lastAttempt[name]
    {
      hide GroupPeriod, Due, LookedAfter, CameOut, WokenFor;
      ran := RunCycle(now, preRun, generated, groups, meta, filePeriods, cached, outcomes);
      wake := NextWake(later);
      forall name | name in lastAttempt ensures 0 < lastAttempt[name] {
        GroupPeriodPositive(groups, filePeriods, global, name);
        if ran && IsLive(groups, meta, name) {
          MarkOrBefore(old(StateOf(name)), groups[name].fingerprint,
                       GroupPeriod(groups, filePeriods, global, name), now, outcomes(name), StateOf(name));
          assert StateOf(name).attempt == Some(lastAttempt[name]);
        }
      }
      if ran {
        forall name | IsLive(groups, meta, name)
          ensures LookedAfter(StateOf(name), GroupPeriod(groups, filePeriods, global, name), later, wake)
          ensures StateOf(name).record.None? && StateOf(name).attempt.None? ==>
                    outcomes(name).AlreadyRunning? && old(StateOf(name)).record.None?
        {
          GroupPeriodPositive(groups, filePeriods, global, name);
          MarkOrBefore(old(StateOf(name)), groups[name].fingerprint,
                       GroupPeriod(groups, filePeriods, global, name), now, outcomes(name), StateOf(name));
          LiveIsLookedAfter(name, later, wake);
        }
        ghost var live := set name | name in groups && IsLive(groups, meta, name);
        OnlyTheLiveWake(live, later, wake);
      }
    }
  }

  /** What a live group may count on when the scheduler goes to sleep at `later` for `wake`
      seconds: it wakes at most MIN_WAKE after the group's lock retry, and at most MIN_WAKE
      after the end of a period from its last success or attempt; where no attempt came
      after the success, that is the first moment from then on at which it is due. */
  ghost predicate LookedAfter(g: GroupState, p: int, later: int, wake: int) {
    && p > 0
    && (g.retry.Some? ==> later + wake <= Max(later, g.retry.value) + MIN_WAKE)
    && (g.record.Some? || g.attempt.Some? ==> later + wake <= Max(later, LastSeen(g) + p) + MIN_WAKE)
    && (g.record.Some? && g.record.value.lastSuccess <= later
        && (g.attempt.Some? ==> g.attempt.value <= g.record.value.lastSuccess) ==>
          var dueAt := Max(later, g.record.value.lastSuccess + p);
          && Due(g.record, g.record.value.fingerprint, p, dueAt).due
          && (forall t | later <= t < dueAt :: !Due(g.record, g.record.value.fingerprint, p, t).due)
          && later + wake <= dueAt + MIN_WAKE)
  }

  /** The sleep ends for this group: at its lock retry or a period after its last success or
      attempt, or after MIN_WAKE where that comes later. */
  ghost predicate WokenFor(g: GroupState, p: int, later: int, wake: int) {
    || (g.retry.Some? && wake == Max(MIN_WAKE, g.retry.value - later))
    || ((g.record.Some? || g.attempt.Some?) && wake == Max(MIN_WAKE, LastSeen(g) + p - later))
  }

  /** A group tried in a cycle carries the mark of the cycle, any other the mark it had. */
  lemma MarkOrBefore(g: GroupState, fingerprint: string, period: int, now: int, outcome: Attempt, out: GroupState)
    requires CameOut(true, g, fingerprint, period, now, outcome, out) && period > 0
    ensures out.attempt == g.attempt || out.attempt == Some(now)
    ensures out.record.None? && out.attempt.None? ==> outcome.AlreadyRunning? && g.record.None?
    ensures out.record.Some? ==> out.record.value.missingCycles == 0
  {}

  lemma GroupPeriodPositive(groups: map<string, LiveGroup>, filePeriods: map<string, int>, global: int, name: string)
    requires global > 0
    ensures GroupPeriod(groups, filePeriods, global, name) > 0
  {}

  predicate IsLive(groups: map<string, LiveGroup>, meta: set<string>, name: string) {
    name in groups && groups[name].members > 0 && name in meta
  }

  function GroupPeriod(groups: map<string, LiveGroup>, filePeriods: map<string, int>, global: int,
                       name: string): (p: int)
    ensures name in groups && groups[name].period > 0 ==> p == groups[name].period
    ensures !(name in groups && groups[name].period > 0) && name in filePeriods && filePeriods[name] > 0 ==>
              p == filePeriods[name]
    ensures !(name in groups && groups[name].period > 0) && !(name in filePeriods && filePeriods[name] > 0) ==>
              p == global
  {
    EffectivePeriod(Get(groups, name), if name in filePeriods then filePeriods[name] else 0, global)
  }

  // ---- What a recorded success holds off ---------------------------------------------------------------

  datatype Change =
    | Ran(group: string, outcome: RunOutcome)
    | SucceededAt(group: string, fingerprint: string, at: int)
    | CycleEnded(active: set<string>, protected: set<string>)

  ghost predicate Makes(canonical: string -> string, before: ScheduleFile, c: Change, after: ScheduleFile) {
    match c
    case Ran(group, o) =>
      && group in after.groups && after.groups == before.groups[group := after.groups[group]]
      && RunRecorded(canonical, Group(before, group), o, after.groups[group])
    case SucceededAt(group, fingerprint, at) => after == Marked(before, group, fingerprint, at)
    case CycleEnded(active, protected) => after == Retained(before, active, protected)
  }

  /** The states the file goes through. */
  ghost predicate Became(canonical: string -> string, files: seq<ScheduleFile>, changes: seq<Change>) {
    && |files| == |changes| + 1
    && forall i | 0 <= i < |changes| :: Makes(canonical, files[i], changes[i], files[i + 1])
  }

  lemma {:induction false} SuccessStays(canonical: string -> string, files: seq<ScheduleFile>, changes: seq<Change>,
                                        name: string)
    requires Became(canonical, files, changes)
    requires forall i | 0 <= i < |files| :: name in files[i].groups
    requires forall c | c in changes && c.SucceededAt? :: c.group != name
    ensures files[|changes|].groups[name].lastSuccess == files[0].groups[name].lastSuccess
    ensures files[|changes|].groups[name].fingerprint == files[0].groups[name].fingerprint
    decreases |changes|
  {
    hide Makes;
    if changes != [] {
      var n := |changes| - 1;
      assert forall c | c in changes[..n] :: c in changes;
      SuccessStays(canonical, files[..n + 1], changes[..n], name);
      assert changes[n] in changes;
      SuccessKept(canonical, files[n], changes[n], files[n + 1], name);
    }
  }

  /** Once a group's success is recorded, and as long as its record is kept, it is due again
      only a period later, for other members, or if the clock goes back: neither the runs
      recorded meanwhile, its own included, nor other groups' successes nor absences
      change that. */
  lemma SuccessHolds(canonical: string -> string, f: ScheduleFile, files: seq<ScheduleFile>, changes: seq<Change>,
                     name: string, fingerprint: string, at: int)
    requires Became(canonical, files, changes) && files[0] == Marked(f, name, fingerprint, at)
    requires forall i | 0 <= i < |files| :: name in files[i].groups
    requires forall c | c in changes && c.SucceededAt? :: c.group != name
    ensures var rec := files[|changes|].groups[name];
            forall found, period, t ::
              Due(Some(rec), found, period, t).due <==>
                  period <= 0 || found != fingerprint || t < at || at + period <= t
  {
    SuccessStays(canonical, files, changes, name);
    hide Became;
  }

  lemma SuccessKept(canonical: string -> string, before: ScheduleFile, c: Change, after: ScheduleFile, name: string)
    requires Makes(canonical, before, c, after) && name in before.groups && name in after.groups
    requires c.SucceededAt? ==> c.group != name
    ensures after.groups[name].lastSuccess == before.groups[name].lastSuccess
    ensures after.groups[name].fingerprint == before.groups[name].fingerprint
  {}

  // ---- Lateness --------------------------------------------------------------------------------------

  /** A present group whose last success is not in the future and that has not been tried
      since: `dueAt` is the first moment from now on at which the period makes it due, and any
      sleep that NextWake allows ends at most MIN_WAKE after it. */
  lemma WokenInTime(s: Scheduler, name: string, now: int, wake: int)
    requires s.hasStore && s.PeriodOf(name) > 0
    requires name in s.records && s.Drives(name) && s.records[name].lastSuccess <= now
    requires name in s.lastAttempt ==> s.lastAttempt[name] <= s.records[name].lastSuccess
    requires wake <= Max(MIN_WAKE, s.Deadline(name) - now)
    ensures var rec, p := s.records[name], s.PeriodOf(name);
            var dueAt := Max(now, rec.lastSuccess + p);
            && Due(Some(rec), rec.fingerprint, p, dueAt).due
            && (forall t | now <= t < dueAt :: !Due(Some(rec), rec.fingerprint, p, t).due)
            && now + wake <= dueAt + MIN_WAKE
  {}
}
