/** The daily schedules: the jobs table is the record of what was enqueued, and old finished
    jobs are pruned from it. Times are microseconds on a nondecreasing clock. */
module Scheduler {
  import opened Options

  const MINUTE := 60_000_000
  const DAY := 1440 * MINUTE

  datatype Schedule = Schedule(jobType: string, hour: nat, minute: nat)

  /** The queue key: a hash of owner, job type and local day, taken to be injective. */
  datatype Key = Key(owner: nat, jobType: string, day: int)

  datatype JobState = Queued | Leased | Succeeded | Failed | DeadLetter | Cancelled

  datatype Job = Job(owner: nat, jobType: string, key: Option<Key>, state: JobState, finished: Option<int>)

  // ---- Local time ---------------------------------------------------------------------------------

  /** The local calendar day, numbered, for a fixed offset from UTC. */
  function LocalDay(now: int, offset: int): int {
    (now + offset) / DAY
  }

  function LocalHour(now: int, offset: int): int {
    (now + offset) % DAY / (60 * MINUTE)
  }

  function LocalMinute(now: int, offset: int): int {
    (now + offset) % DAY / MINUTE % 60
  }

  /** The comparison of (hour, minute) pairs. */
  predicate ScheduleDue(s: Schedule, now: int, offset: int) {
    || LocalHour(now, offset) > s.hour
    || (LocalHour(now, offset) == s.hour && LocalMinute(now, offset) >= s.minute)
  }

  /** A valid schedule is due exactly from its minute on until the local day ends. */
  lemma DueFromItsMinuteOn(s: Schedule, now: int, offset: int)
    requires s.hour <= 23 && s.minute <= 59
    ensures ScheduleDue(s, now, offset) <==>
            LocalDay(now, offset) * DAY + (s.hour * 60 + s.minute) * MINUTE <= now + offset
  {
    var t := (now + offset) % DAY;
    assert now + offset == LocalDay(now, offset) * DAY + t;
    assert LocalHour(now, offset) == t / MINUTE / 60;
  }

  lemma DaysGrow(a: int, b: int, offset: int)
    requires a <= b
    ensures LocalDay(a, offset) <= LocalDay(b, offset)
    ensures a + DAY <= b ==> LocalDay(a, offset) < LocalDay(b, offset)
  {
    var q, r := (b + offset) / DAY, (b + offset) % DAY;
    var p, o := (a + offset) / DAY, (a + offset) % DAY;
    assert b + offset == q * DAY + r && a + offset == p * DAY + o;
  }

  // ---- The table and its history ------------------------------------------------------------------

  predicate HasJob(jobs: seq<Job>, owner: nat, key: Key) {
    exists i :: 0 <= i < |jobs| && jobs[i].owner == owner && jobs[i].key == Some(key)
  }

  /** `log` holds the key of every scheduled job ever enqueued. */
  datatype State = State(jobs: seq<Job>, clock: int, log: seq<Key>)

  /** A scheduled job carries its owner's key, was enqueued once, and finished on its day or later. */
  ghost predicate RowInv(j: Job, log: seq<Key>, offset: int) {
    j.key.Some? ==>
      && j.key.value.owner == j.owner && j.key.value in log
      && (j.finished.Some? ==> j.key.value.day <= LocalDay(j.finished.value, offset))
  }

  /** An enqueued job is still in the table, or its day is over. */
  ghost predicate KeyInv(key: Key, jobs: seq<Job>, clock: int, offset: int) {
    key.day <= LocalDay(clock, offset) && (HasJob(jobs, key.owner, key) || key.day < LocalDay(clock, offset))
  }

  ghost predicate Distinct(log: seq<Key>) {
    forall i, j | 0 <= i < j < |log| :: log[i] != log[j]
  }

  ghost predicate Inv(s: State, offset: int) {
    && (forall j | j in s.jobs :: RowInv(j, s.log, offset))
    && (forall k | k in s.log :: KeyInv(k, s.jobs, s.clock, offset))
    && Distinct(s.log)
  }

  // ---- Steps --------------------------------------------------------------------------------------

  function Enqueued(key: Key): Job {
    Job(key.owner, key.jobType, Some(key), Queued, None)
  }

  /** The key is one that a tick may enqueue: for an owner and a schedule that is due. */
  ghost predicate Wanted(k: Key, now: int, offset: int, owners: seq<nat>, schedules: seq<Schedule>) {
    && k.owner in owners && k.day == LocalDay(now, offset)
    && exists c :: c in schedules && c.jobType == k.jobType && ScheduleDue(c, now, offset)
  }

  /** Only queued jobs under wanted, new and different keys were added. */
  ghost predicate Additions(jobs0: seq<Job>, log0: seq<Key>, jobs: seq<Job>, log: seq<Key>, now: int, offset: int,
                            owners: seq<nat>, schedules: seq<Schedule>) {
    && log0 <= log
    && var added := log[|log0|..];
       && jobs == jobs0 + seq(|added|, i requires 0 <= i < |added| => Enqueued(added[i]))
       && Distinct(added)
       && forall k | k in added :: Wanted(k, now, offset, owners, schedules) && !HasJob(jobs0, k.owner, k)
  }

  /** Every one of these owners has every one of these jobs for the day. */
  ghost predicate Covers(jobs: seq<Job>, owners: seq<nat>, due: seq<Schedule>, day: int) {
    forall o, c | o in owners && c in due :: HasJob(jobs, o, Key(o, c.jobType, day))
  }

  /** A tick that got past the throttle and committed. */
  ghost predicate TickStep(s: State, t: State, now: int, offset: int, owners: seq<nat>, schedules: seq<Schedule>) {
    && s.clock <= now == t.clock
    && Additions(s.jobs, s.log, t.jobs, t.log, now, offset, owners, schedules)
    && forall o, c | o in owners && c in schedules && ScheduleDue(c, now, offset) ::
         HasJob(t.jobs, o, Key(o, c.jobType, LocalDay(now, offset)))
  }

  predicate Prunable(j: Job, owner: nat, now: int) {
    j.owner == owner && (j.state.Succeeded? || j.state.Cancelled?) && j.finished.Some? && j.finished.value < now - 30 * DAY
  }

  function Pruned(jobs: seq<Job>, owner: nat, now: int): (r: seq<Job>)
    ensures forall j :: j in r <==> j in jobs && !Prunable(j, owner, now)
  {
    if jobs == [] then []
    else if Prunable(jobs[0], owner, now) then Pruned(jobs[1..], owner, now)
    else [jobs[0]] + Pruned(jobs[1..], owner, now)
  }

  /** Pruning drops a job, in all its rows, exactly if it is the owner's, ended in success or was cancelled,
      and finished more than thirty days ago; every other row stays. */
  lemma {:induction false} PrunedExactly(jobs: seq<Job>, owner: nat, now: int, j: Job)
    ensures multiset(Pruned(jobs, owner, now))[j] ==
            if j.owner == owner && j.state in {Succeeded, Cancelled} && j.finished.Some? && j.finished.value < now - 30 * 86_400_000_000
            then 0 else multiset(jobs)[j]
  {
    if jobs != [] {
      PrunedExactly(jobs[1..], owner, now, j);
      assert jobs == [jobs[0]] + jobs[1..];
    }
  }

  predicate PruneStep(s: State, t: State, now: int, owner: nat) {
    s.clock <= now && t == State(Pruned(s.jobs, owner, now), now, s.log)
  }

  /** Workers move a job between its states; it finishes at the present moment if at all. */
  predicate WorkStep(s: State, t: State, now: int, i: nat, state: JobState, finishes: bool) {
    && s.clock <= now && i < |s.jobs|
    && t == State(s.jobs[i := s.jobs[i].(state := state, finished := if finishes then Some(now) else s.jobs[i].finished)], now, s.log)
  }

  /** Any other job is inserted, under no schedule key. */
  predicate InsertStep(s: State, t: State, now: int, j: Job) {
    s.clock <= now && j.key.None? && t == State(s.jobs + [j], now, s.log)
  }

  ghost predicate Step(s: State, t: State, offset: int) {
    || (exists now, owners, schedules :: TickStep(s, t, now, offset, owners, schedules))
    || (exists now, owner: nat :: PruneStep(s, t, now, owner))
    || (exists now, i: nat, state: JobState, finishes: bool :: WorkStep(s, t, now, i, state, finishes))
    || (exists now, j :: InsertStep(s, t, now, j))
  }

  // ---- What every step keeps ----------------------------------------------------------------------

  /** A job can be pruned only when its day is over. */
  lemma PrunedDaysAreOver(j: Job, log: seq<Key>, owner: nat, now: int, offset: int)
    requires RowInv(j, log, offset) && Prunable(j, owner, now) && j.key.Some?
    ensures j.key.value.day < LocalDay(now, offset)
  {
    DaysGrow(j.finished.value, now, offset);
  }

  lemma PruneKeepsInv(s: State, t: State, now: int, owner: nat, offset: int)
    requires Inv(s, offset) && PruneStep(s, t, now, owner)
    ensures Inv(t, offset)
  {
    hide LocalDay;
    DaysGrow(s.clock, now, offset);
    forall k | k in t.log ensures KeyInv(k, t.jobs, t.clock, offset) {
      assert KeyInv(k, s.jobs, s.clock, offset);
      if HasJob(s.jobs, k.owner, k) {
        var i :| 0 <= i < |s.jobs| && s.jobs[i].owner == k.owner && s.jobs[i].key == Some(k);
        if Prunable(s.jobs[i], owner, now) {
          PrunedDaysAreOver(s.jobs[i], s.log, owner, now, offset);
        } else {
          assert s.jobs[i] in t.jobs;
        }
      }
    }
  }

  lemma WorkKeepsInv(s: State, t: State, now: int, i: nat, state: JobState, finishes: bool, offset: int)
    requires Inv(s, offset) && WorkStep(s, t, now, i, state, finishes)
    ensures Inv(t, offset)
  {
    hide LocalDay;
    DaysGrow(s.clock, now, offset);
    assert RowInv(s.jobs[i], s.log, offset);
    assert s.jobs[i].key.Some? ==> KeyInv(s.jobs[i].key.value, s.jobs, s.clock, offset);
    forall k | k in t.log ensures KeyInv(k, t.jobs, t.clock, offset) {
      assert KeyInv(k, s.jobs, s.clock, offset);
      if HasJob(s.jobs, k.owner, k) {
        var n :| 0 <= n < |s.jobs| && s.jobs[n].owner == k.owner && s.jobs[n].key == Some(k);
        assert t.jobs[n].owner == k.owner && t.jobs[n].key == Some(k);
      }
    }
  }

  lemma AppendKeepsJob(jobs: seq<Job>, more: seq<Job>, key: Key)
    requires HasJob(jobs, key.owner, key)
    ensures HasJob(jobs + more, key.owner, key)
  {
    var n :| 0 <= n < |jobs| && jobs[n].owner == key.owner && jobs[n].key == Some(key);
    assert (jobs + more)[n] == jobs[n];
  }

  lemma InsertKeepsInv(s: State, t: State, now: int, j: Job, offset: int)
    requires Inv(s, offset) && InsertStep(s, t, now, j)
    ensures Inv(t, offset)
  {
    hide LocalDay, HasJob;
    DaysGrow(s.clock, now, offset);
    forall k | k in t.log ensures KeyInv(k, t.jobs, t.clock, offset) {
      assert KeyInv(k, s.jobs, s.clock, offset);
      if HasJob(s.jobs, k.owner, k) {
        AppendKeepsJob(s.jobs, [j], k);
      }
    }
  }

  /** A key without a job in the table today was never enqueued before. */
  lemma NewKeyIsNew(s: State, now: int, offset: int, key: Key)
    requires Inv(s, offset) && s.clock <= now && key.day == LocalDay(now, offset) && !HasJob(s.jobs, key.owner, key)
    ensures key !in s.log
  {
    DaysGrow(s.clock, now, offset);
    assert key in s.log ==> KeyInv(key, s.jobs, s.clock, offset);
  }

  lemma DistinctAppend(a: seq<Key>, b: seq<Key>)
    requires Distinct(a) && Distinct(b) && forall k | k in b :: k !in a
    ensures Distinct(a + b)
  {
    forall i, j | 0 <= i < j < |a + b| ensures (a + b)[i] != (a + b)[j] {
      assert j >= |a| ==> (a + b)[j] in b;
    }
  }

  lemma AdditionAt(s: State, t: State, now: int, offset: int, owners: seq<nat>, schedules: seq<Schedule>, i: nat)
    requires Additions(s.jobs, s.log, t.jobs, t.log, now, offset, owners, schedules) && |s.log| <= i < |t.log|
    ensures |t.jobs| - |s.jobs| == |t.log| - |s.log|
    ensures t.jobs[|s.jobs| + i - |s.log|] == Enqueued(t.log[i])
    ensures t.log[i].day == LocalDay(now, offset) && !HasJob(s.jobs, t.log[i].owner, t.log[i])
  {
    hide HasJob, LocalDay, ScheduleDue;
    var added := t.log[|s.log|..];
    assert added[i - |s.log|] in added;
    assert Wanted(added[i - |s.log|], now, offset, owners, schedules);
  }

  lemma KeyAfterTick(s: State, t: State, now: int, offset: int, owners: seq<nat>, schedules: seq<Schedule>, k: Key)
    requires Inv(s, offset) && TickStep(s, t, now, offset, owners, schedules) && k in t.log
    ensures KeyInv(k, t.jobs, t.clock, offset)
  {
    hide LocalDay, HasJob, ScheduleDue, Distinct, KeyInv, RowInv, Wanted;
    if k in s.log {
      OldKeyAfterTick(s, t, k, offset);
    } else {
      var i :| 0 <= i < |t.log| && t.log[i] == k;
      AdditionAt(s, t, now, offset, owners, schedules, i);
      NewKeyAfterTick(t, |s.jobs| + i - |s.log|, k, offset);
    }
  }

  lemma RowAfterTick(s: State, t: State, now: int, offset: int, owners: seq<nat>, schedules: seq<Schedule>, j: Job)
    requires Inv(s, offset) && TickStep(s, t, now, offset, owners, schedules) && j in t.jobs
    ensures RowInv(j, t.log, offset)
  {
    hide LocalDay, HasJob, ScheduleDue, Distinct, KeyInv, RowInv, Wanted;
    if j in s.jobs {
      RowKept(j, s.log, t.log, offset);
    } else {
      var n :| |s.jobs| <= n < |t.jobs| && t.jobs[n] == j;
      var i := |s.log| + n - |s.jobs|;
      AdditionAt(s, t, now, offset, owners, schedules, i);
      NewRow(t.log[i], t.log, offset);
    }
  }

  lemma LogAfterTick(s: State, t: State, now: int, offset: int, owners: seq<nat>, schedules: seq<Schedule>)
    requires Inv(s, offset) && TickStep(s, t, now, offset, owners, schedules)
    ensures Distinct(t.log)
  {
    hide LocalDay, HasJob, ScheduleDue, Distinct, KeyInv, RowInv, Wanted;
    var added := t.log[|s.log|..];
    assert t.log == s.log + added;
    forall n | 0 <= n < |added| ensures added[n] !in s.log {
      AdditionAt(s, t, now, offset, owners, schedules, |s.log| + n);
      NewKeyIsNew(s, now, offset, added[n]);
    }
    DistinctAppend(s.log, added);
  }

  /** The jobs a tick adds keep the invariant. */
  lemma TickKeepsInv(s: State, t: State, now: int, offset: int, owners: seq<nat>, schedules: seq<Schedule>)
    requires Inv(s, offset) && TickStep(s, t, now, offset, owners, schedules)
    ensures Inv(t, offset) && s.log <= t.log
  {
    hide LocalDay, HasJob, ScheduleDue, Distinct, KeyInv, RowInv, Wanted;
    forall k | k in t.log ensures KeyInv(k, t.jobs, t.clock, offset) {
      KeyAfterTick(s, t, now, offset, owners, schedules, k);
    }
    forall j | j in t.jobs ensures RowInv(j, t.log, offset) {
      RowAfterTick(s, t, now, offset, owners, schedules, j);
    }
    LogAfterTick(s, t, now, offset, owners, schedules);
  }

  lemma OldKeyAfterTick(s: State, t: State, k: Key, offset: int)
    requires KeyInv(k, s.jobs, s.clock, offset) && s.clock <= t.clock && s.jobs <= t.jobs
    ensures KeyInv(k, t.jobs, t.clock, offset)
  {
    hide LocalDay, HasJob;
    DaysGrow(s.clock, t.clock, offset);
    assert t.jobs == s.jobs + t.jobs[|s.jobs|..];
    if HasJob(s.jobs, k.owner, k) {
      AppendKeepsJob(s.jobs, t.jobs[|s.jobs|..], k);
    }
  }

  lemma NewKeyAfterTick(t: State, i: nat, k: Key, offset: int)
    requires i < |t.jobs| && t.jobs[i] == Enqueued(k) && k.day == LocalDay(t.clock, offset)
    ensures KeyInv(k, t.jobs, t.clock, offset)
  {
    JobAt(t.jobs, i, k);
  }

  lemma RowKept(j: Job, log: seq<Key>, more: seq<Key>, offset: int)
    requires RowInv(j, log, offset) && log <= more
    ensures RowInv(j, more, offset)
  {
    assert forall k | k in log :: k in more;
  }

  lemma NewRow(k: Key, log: seq<Key>, offset: int)
    requires k in log
    ensures RowInv(Enqueued(k), log, offset)
  {
  }

  lemma JobAt(jobs: seq<Job>, i: nat, key: Key)
    requires i < |jobs| && jobs[i].owner == key.owner && jobs[i].key == Some(key)
    ensures HasJob(jobs, key.owner, key)
  {
  }

  lemma StepKeepsInv(s: State, t: State, offset: int)
    requires Inv(s, offset) && Step(s, t, offset)
    ensures Inv(t, offset) && s.log <= t.log && s.clock <= t.clock
  {
    hide Inv, LocalDay, ScheduleDue, HasJob, Distinct;
    if now, owners, schedules :| TickStep(s, t, now, offset, owners, schedules) {
      TickKeepsInv(s, t, now, offset, owners, schedules);
    } else if now, owner: nat :| PruneStep(s, t, now, owner) {
      PruneKeepsInv(s, t, now, owner, offset);
    } else if now, i: nat, state: JobState, finishes: bool :| WorkStep(s, t, now, i, state, finishes) {
      WorkKeepsInv(s, t, now, i, state, finishes, offset);
    } else {
      var now, j :| InsertStep(s, t, now, j);
      InsertKeepsInv(s, t, now, j, offset);
    }
  }

  // ---- Whole runs ---------------------------------------------------------------------------------

  /** A run from a table without scheduled jobs: ticks of any number of schedulers, each restarted
      at will, pruning, workers and other jobs in any order. */
  ghost predicate Run(states: seq<State>, offset: int) {
    && states != [] && states[0].log == [] && (forall j | j in states[0].jobs :: j.key.None?)
    && forall i | 0 < i < |states| :: Step(states[i - 1], states[i], offset)
  }

  lemma {:induction false} RunKeepsInv(states: seq<State>, offset: int, k: nat)
    requires Run(states, offset) && k < |states|
    ensures Inv(states[k], offset)
  {
    hide Step, Inv;
    if k == 0 {
      FreshTable(states[0], offset);
    } else {
      RunKeepsInv(states, offset, k - 1);
      StepKeepsInv(states[k - 1], states[k], offset);
    }
  }

  lemma FreshTable(s: State, offset: int)
    requires s.log == [] && forall j | j in s.jobs :: j.key.None?
    ensures Inv(s, offset)
  {
  }

  /** At most one job per owner, job type and local day is ever enqueued, pruning or not. */
  lemma AtMostOnePerDay(states: seq<State>, offset: int, k: nat, m: nat, n: nat)
    requires Run(states, offset) && k < |states| && m < |states[k].log| && n < |states[k].log|
    requires states[k].log[m] == states[k].log[n]
    ensures m == n
  {
    RunKeepsInv(states, offset, k);
  }

  /** A tick past the throttle leaves every owner with exactly one enqueued job for each schedule
      that is due that day. */
  lemma ExactlyOneAfterTick(states: seq<State>, offset: int, k: nat, now: int, owners: seq<nat>, schedules: seq<Schedule>, o: nat, c: Schedule)
    requires Run(states, offset) && 0 < k < |states|
    requires TickStep(states[k - 1], states[k], now, offset, owners, schedules)
    requires o in owners && c in schedules && ScheduleDue(c, now, offset)
    ensures var key := Key(o, c.jobType, LocalDay(now, offset));
            exists n :: 0 <= n < |states[k].log| && states[k].log[n] == key && forall m | 0 <= m < |states[k].log| && states[k].log[m] == key :: m == n
  {
    hide Run, LocalDay, ScheduleDue;
    var key := Key(o, c.jobType, LocalDay(now, offset));
    RunKeepsInv(states, offset, k);
    assert HasJob(states[k].jobs, o, key);
    var i :| 0 <= i < |states[k].jobs| && states[k].jobs[i].owner == o && states[k].jobs[i].key == Some(key);
    assert RowInv(states[k].jobs[i], states[k].log, offset);
    var n :| 0 <= n < |states[k].log| && states[k].log[n] == key;
    forall m | 0 <= m < |states[k].log| && states[k].log[m] == key ensures m == n {
      AtMostOnePerDay(states, offset, k, m, n);
    }
  }

  // ---- The scheduler ------------------------------------------------------------------------------

  class JobTable {
    var jobs: seq<Job>
    /** Every scheduled key enqueued, and the latest moment observed. */
    ghost var log: seq<Key>
    ghost var clock: int

    ghost function Now(): State
      reads this
    {
      State(jobs, clock, log)
    }

    constructor ()
      ensures jobs == [] && log == [] && clock == 0
    {
      jobs, log, clock := [], [], 0;
    }

    /** The retention job of one owner. */
    method PruneRebuildable(owner: nat, now: int) returns (pruned: nat)
      requires clock <= now
      modifies this
      ensures PruneStep(old(Now()), Now(), now, owner) && pruned == |old(jobs)| - |jobs|
      ensures forall j :: multiset(jobs)[j] ==
                if j.owner == owner && j.state in {Succeeded, Cancelled} && j.finished.Some? && j.finished.value < now - 30 * 86_400_000_000
                then 0 else multiset(old(jobs))[j]
    {
      clock := now;
      var kept := [];
      ghost var was := jobs;
      for i := |jobs| downto 0
        invariant jobs == was && kept == Pruned(jobs[i..], owner, now) && |kept| <= |jobs| - i
      {
        assert jobs[i..][1..] == jobs[i + 1..];
        if !Prunable(jobs[i], owner, now) {
          kept := [jobs[i]] + kept;
        }
      }
      forall j ensures multiset(Pruned(jobs, owner, now))[j] ==
                if j.owner == owner && j.state in {Succeeded, Cancelled} && j.finished.Some? && j.finished.value < now - 30 * 86_400_000_000
                then 0 else multiset(jobs)[j]
      {
        PrunedExactly(jobs, owner, now, j);
      }
      assert jobs[0..] == jobs;
      pruned := |jobs| - |kept|;
      jobs := kept;
    }
  }

  class PeriodicScheduler {
    const table: JobTable
    const schedules: seq<Schedule>
    const offset: int
    const tickMicros: int
    var lastTick: Option<int>

    constructor (table: JobTable, schedules: seq<Schedule>, offset: int, tickMicros: int)
      ensures this.table == table && this.schedules == schedules && this.offset == offset && this.tickMicros == tickMicros
      ensures lastTick == None
    {
      this.table, this.schedules, this.offset, this.tickMicros := table, schedules, offset, tickMicros;
      lastTick := None;
    }

    method DueSchedules(now: int) returns (due: seq<Schedule>)
      ensures forall c :: c in due <==> c in schedules && ScheduleDue(c, now, offset)
    {
      hide ScheduleDue;
      due := [];
      for i := 0 to |schedules|
        invariant forall c :: c in due <==> c in schedules[..i] && ScheduleDue(c, now, offset)
      {
        if ScheduleDue(schedules[i], now, offset) {
          due := due + [schedules[i]];
        }
      }
    }

    /** The due jobs of one owner, as part of a tick that started at `jobs0` and `log0`. */
    method EnqueueFor(owner: nat, due: seq<Schedule>, now: int, ghost owners: seq<nat>, ghost jobs0: seq<Job>, ghost log0: seq<Key>)
      returns (enqueued: nat)
      requires owner in owners && forall c | c in due :: c in schedules && ScheduleDue(c, now, offset)
      requires Additions(jobs0, log0, table.jobs, table.log, now, offset, owners, schedules)
      modifies table
      ensures table.clock == old(table.clock) && old(table.jobs) <= table.jobs && |table.log| == |old(table.log)| + enqueued
      ensures Additions(jobs0, log0, table.jobs, table.log, now, offset, owners, schedules)
      ensures Covers(table.jobs, [owner], due, LocalDay(now, offset))
    {
      hide ScheduleDue, LocalDay, Additions, HasJob;
      enqueued := 0;
      for i := 0 to |due|
        invariant table.clock == old(table.clock) && old(table.jobs) <= table.jobs && |table.log| == |old(table.log)| + enqueued
        invariant Additions(jobs0, log0, table.jobs, table.log, now, offset, owners, schedules)
        invariant Covers(table.jobs, [owner], due[..i], LocalDay(now, offset))
      {
        var key := Key(owner, due[i].jobType, LocalDay(now, offset));
        assert due[i] in due;
        assert Wanted(key, now, offset, owners, schedules);
        ghost var before := table.jobs;
        if !HasJob(table.jobs, owner, key) {
          AdditionsExtend(jobs0, log0, table.jobs, table.log, now, offset, owners, schedules, key);
          table.jobs := table.jobs + [Enqueued(key)];
          table.log := table.log + [key];
          enqueued := enqueued + 1;
          JobAt(table.jobs, |before|, key);
        }
        CoversMore(before, table.jobs, [owner], due[..i], LocalDay(now, offset));
        assert due[..i + 1] == due[..i] + [due[i]];
      }
      assert due[..|due|] == due;
    }

    /** Enqueues due jobs. `owners` is the owners table, `aborts` a failed transaction. */
    method Tick(now: int, owners: seq<nat>, aborts: bool) returns (enqueued: nat)
      requires table.clock <= now
      modifies this, table
      ensures var throttled := old(lastTick).Some? && now - old(lastTick).value < tickMicros;
              && (throttled ==> table.Now() == old(table.Now()) && lastTick == old(lastTick) && enqueued == 0)
              && (!throttled ==> lastTick == Some(now))
              && (!throttled && aborts ==> table.Now() == old(table.Now()))
              && (!throttled && !aborts ==>
                    && TickStep(old(table.Now()), table.Now(), now, offset, owners, schedules)
                    && enqueued == |table.log| - |old(table.log)|)
    {
      hide ScheduleDue, LocalDay, Additions, HasJob;
      enqueued := 0;
      if lastTick.Some? && now - lastTick.value < tickMicros {
        return;
      }
      lastTick := Some(now);
      if aborts {
        return;
      }
      var due := DueSchedules(now);
      ghost var jobs0, log0 := table.jobs, table.log;
      NoAdditions(jobs0, log0, now, offset, owners, schedules);
      table.clock := now;
      for i := 0 to |owners|
        invariant table.clock == now && lastTick == Some(now) && |table.log| == |log0| + enqueued
        invariant Additions(jobs0, log0, table.jobs, table.log, now, offset, owners, schedules)
        invariant Covers(table.jobs, owners[..i], due, LocalDay(now, offset))
      {
        ghost var before := table.jobs;
        var n := EnqueueFor(owners[i], due, now, owners, jobs0, log0);
        enqueued := enqueued + n;
        CoversMore(before, table.jobs, owners[..i], due, LocalDay(now, offset));
        assert owners[..i + 1] == owners[..i] + [owners[i]];
      }
      assert owners[..|owners|] == owners;
    }
  }

  lemma NoAdditions(jobs: seq<Job>, log: seq<Key>, now: int, offset: int, owners: seq<nat>, schedules: seq<Schedule>)
    ensures Additions(jobs, log, jobs, log, now, offset, owners, schedules)
  {
    assert log[|log|..] == [];
  }

  lemma AdditionsExtend(jobs0: seq<Job>, log0: seq<Key>, jobs: seq<Job>, log: seq<Key>, now: int, offset: int,
                        owners: seq<nat>, schedules: seq<Schedule>, key: Key)
    requires Additions(jobs0, log0, jobs, log, now, offset, owners, schedules)
    requires Wanted(key, now, offset, owners, schedules) && !HasJob(jobs, key.owner, key)
    ensures Additions(jobs0, log0, jobs + [Enqueued(key)], log + [key], now, offset, owners, schedules)
  {
    hide Wanted, HasJob;
    var added := log[|log0|..];
    assert (log + [key])[|log0|..] == added + [key];
    if key in added {
      var i :| 0 <= i < |added| && added[i] == key;
      assert jobs[|jobs0| + i] == Enqueued(key);
      JobAt(jobs, |jobs0| + i, key);
      assert false;
    }
    var more := jobs[|jobs0|..];
    assert jobs == jobs0 + more;
    if HasJob(jobs0, key.owner, key) {
      AppendKeepsJob(jobs0, more, key);
      assert false;
    }
    assert seq(|added + [key]|, i requires 0 <= i < |added + [key]| => Enqueued((added + [key])[i])) == more + [Enqueued(key)];
  }

  lemma CoversMore(jobs: seq<Job>, more: seq<Job>, owners: seq<nat>, due: seq<Schedule>, day: int)
    requires Covers(jobs, owners, due, day) && jobs <= more
    ensures Covers(more, owners, due, day)
  {
    hide HasJob;
    assert more == jobs + more[|jobs|..];
    forall o, c | o in owners && c in due ensures HasJob(more, o, Key(o, c.jobType, day)) {
      AppendKeepsJob(jobs, more[|jobs|..], Key(o, c.jobType, day));
    }
  }
}
