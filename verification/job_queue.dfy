/** The durable job queue: leases, fencing tokens, retries and dead letters.

    Time is a real number of seconds. Each transaction is one atomic step, except that a claim
    and a failure read their row in an earlier step than the one in which they update it, so
    that both may act on a version of the row that is no longer current, and that the time a
    worker passes to an update was read from the clock at some earlier moment. */
module JobQueue {
  import opened Options

  datatype Status = Queued | Leased | RetryWait | Succeeded | DeadLetter | Cancelled

  datatype Job = Job(
    owner: nat, priority: int, status: Status, attempts: nat, maxAttempts: nat, availableAt: real,
    leaseOwner: Option<nat>, leaseExpires: Option<real>, token: nat,
    finishedAt: Option<real>, result: Option<nat>, error: Option<string>)

  datatype Policy = Policy(lease: real, maxAttempts: nat, retryBase: seq<real>, jitter: real)

  /** What the policy's own constructor accepts. */
  predicate ValidPolicy(p: Policy) {
    1 <= p.maxAttempts <= 5 && |p.retryBase| == p.maxAttempts - 1 && 0.0 <= p.jitter <= 0.25
  }

  function Min(a: int, b: int): int {
    if a <= b then a else b
  }

  function Limit(j: Job, p: Policy): nat {
    Min(j.maxAttempts, p.maxAttempts)
  }

  function Clamp(x: real): real {
    if x < -1.0 then -1.0 else if x > 1.0 then 1.0 else x
  }

  function Jittered(p: Policy, base: real, jitter: real): real {
    base * (1.0 + p.jitter * Clamp(jitter))
  }

  /** The delay before the next attempt; None stands for the two exceptions, a bad attempt
      number and an empty schedule. */
  function NextDelay(p: Policy, attempt: nat, jitter: real): Option<real> {
    if attempt < 1 || p.retryBase == [] then None
    else Some(Jittered(p, p.retryBase[Min(attempt, |p.retryBase|) - 1], jitter))
  }

  predicate Ready(j: Job, now: real) {
    || ((j.status.Queued? || j.status.RetryWait?) && j.availableAt <= now)
    || (j.status.Leased? && j.leaseExpires.Some? && j.leaseExpires.value <= now)
  }

  // ---- Row updates --------------------------------------------------------------------

  predicate ClaimGuard(current: Job, seen: Job, now: real) {
    current.token == seen.token && current.status == seen.status && Ready(current, now)
  }

  predicate Exhausted(seen: Job, p: Policy) {
    seen.attempts >= Limit(seen, p)
  }

  /** The guarded update of the claim loop, for a row that was read as `seen`. */
  function ClaimRow(current: Job, seen: Job, worker: nat, p: Policy, now: real): Job {
    if !ClaimGuard(current, seen, now) then current
    else if Exhausted(seen, p) then
      current.(status := DeadLetter, finishedAt := Some(now), leaseOwner := None, leaseExpires := None,
               error := Some("BRAIN_UNAVAILABLE"))
    else
      current.(status := Leased, attempts := seen.attempts + 1, leaseOwner := Some(worker),
               leaseExpires := Some(now + p.lease), token := seen.token + 1)
  }

  function HeartbeatRow(j: Job, worker: nat, token: nat, p: Policy, now: real): Job {
    if j.leaseOwner == Some(worker) && j.token == token && j.status.Leased?
    then j.(leaseExpires := Some(now + p.lease)) else j
  }

  function ProgressRow(j: Job, token: nat, progress: nat): Job {
    if j.token == token && j.status.Leased? then j.(result := Some(progress)) else j
  }

  function CompleteRow(j: Job, token: nat, result: nat, now: real): Job {
    if j.token == token && j.status.Leased?
    then j.(status := Succeeded, finishedAt := Some(now), result := Some(result)) else j
  }

  /** The failure update: guarded by the token alone, whatever the status of the row. None when
      the retry delay cannot be computed. */
  function FailRow(j: Job, seen: Job, token: nat, retryable: bool, error: string, jitter: real, p: Policy, now: real): Option<Job> {
    if !retryable || seen.attempts >= p.maxAttempts then
      Some(if j.token == token then j.(status := DeadLetter, finishedAt := Some(now), error := Some(error)) else j)
    else
      var delay := NextDelay(p, seen.attempts, jitter);
      if delay.None? then None
      else Some(if j.token != token then j
                else j.(status := RetryWait, availableAt := now + delay.value, leaseOwner := None,
                        leaseExpires := None, error := Some(error)))
  }

  // ---- The concurrent system ------------------------------------------------------------

  /** `seen` holds every version of a row that some worker has read, `held` the claims that
      were won and not yet settled by the poller that won them. */
  datatype Sys = Sys(rows: map<nat, Job>, now: real, seen: set<(nat, Job)>, held: set<(nat, nat)>)

  /** `at` is the time the worker captured before its update. */
  datatype Event =
    | Advance(to: real)
    | Insert(id: nat, job: Job)
    | Read(id: nat)
    | Claim(id: nat, version: Job, worker: nat, at: real)
    | Heartbeat(id: nat, worker: nat, token: nat, at: real)
    | Progress(id: nat, token: nat, progress: nat)
    | Complete(id: nat, token: nat, result: nat, at: real)
    | Fail(id: nat, token: nat, version: Job, retryable: bool, error: string, jitter: real, at: real)

  predicate Fresh(j: Job) {
    && j.status.Queued? && j.attempts == 0 && j.token == 0 && 1 <= j.maxAttempts <= 5
    && j.leaseOwner.None? && j.leaseExpires.None?
  }

  predicate Init(s: Sys) {
    s.rows == map[] && s.seen == {} && s.held == {}
  }

  /** Whether the event can happen at all. */
  predicate Enabled(s: Sys, e: Event, p: Policy) {
    match e
    case Advance(to) => to >= s.now
    case Insert(id, job) => id !in s.rows && Fresh(job)
    case Read(id) => id in s.rows
    case Progress(id, _, _) => id in s.rows
    case Claim(id, version, _, at) => (id, version) in s.seen && id in s.rows && at <= s.now
    case Fail(id, token, version, retryable, error, jitter, at) =>
      (id, version) in s.seen && id in s.rows && version.token >= token && at <= s.now
      && FailRow(s.rows[id], version, token, retryable, error, jitter, p, at).Some?
    case _ => e.id in s.rows && e.at <= s.now
  }

  function Apply(s: Sys, e: Event, p: Policy): Sys
    requires Enabled(s, e, p)
  {
    match e
    case Advance(to) => s.(now := to)
    case Insert(id, job) => s.(rows := s.rows[id := job])
    case Read(id) => s.(seen := s.seen + {(id, s.rows[id])})
    case Claim(id, version, worker, at) =>
      var after := ClaimRow(s.rows[id], version, worker, p, at);
      s.(rows := s.rows[id := after],
         held := if after.token > s.rows[id].token then s.held + {(id, after.token)} else s.held)
    case Heartbeat(id, worker, token, at) =>
      s.(rows := s.rows[id := HeartbeatRow(s.rows[id], worker, token, p, at)])
    case Progress(id, token, progress) =>
      s.(rows := s.rows[id := ProgressRow(s.rows[id], token, progress)])
    case Complete(id, token, result, at) =>
      s.(rows := s.rows[id := CompleteRow(s.rows[id], token, result, at)], held := s.held - {(id, token)})
    case Fail(id, token, version, retryable, error, jitter, at) =>
      s.(rows := s.rows[id := FailRow(s.rows[id], version, token, retryable, error, jitter, p, at).value],
         held := s.held - {(id, token)})
  }

  predicate Settles(e: Event, id: nat, token: nat) {
    (e.Complete? || e.Fail?) && e.id == id && e.token == token
  }

  /** The poller settles only claims it won and has not settled yet. */
  predicate Disciplined(s: Sys, e: Event) {
    e.Complete? || e.Fail? ==> (e.id, e.token) in s.held
  }

  // ---- Invariants -------------------------------------------------------------------------

  predicate RowOk(j: Job, p: Policy) {
    && j.attempts == j.token && j.attempts <= Limit(j, p) && 1 <= j.maxAttempts
    && (j.status.Leased? ==> j.leaseOwner.Some? && j.leaseExpires.Some? && j.attempts >= 1)
  }

  ghost predicate Inv(s: Sys, p: Policy) {
    && (forall id | id in s.rows :: RowOk(s.rows[id], p))
    && (forall v | v in s.seen :: v.0 in s.rows && v.1.attempts == v.1.token && v.1.token <= s.rows[v.0].token
                                  && v.1.maxAttempts == s.rows[v.0].maxAttempts)
    && (forall h | h in s.held :: h.0 in s.rows && 1 <= h.1 <= s.rows[h.0].token)
  }

  lemma InitInv(s: Sys, p: Policy)
    requires Init(s)
    ensures Inv(s, p)
  {
  }

  lemma StepKeepsRow(s: Sys, e: Event, p: Policy, id: nat)
    requires ValidPolicy(p) && Inv(s, p) && Enabled(s, e, p) && id in s.rows
    ensures var before, after := s.rows[id], Apply(s, e, p).rows[id];
            RowOk(after, p) && after.token >= before.token && after.maxAttempts == before.maxAttempts
  {
    assert RowOk(s.rows[id], p);
  }

  /** Every step keeps `attempts == claim_token`, within both maxima. */
  lemma StepKeepsInv(s: Sys, e: Event, p: Policy)
    requires ValidPolicy(p) && Inv(s, p) && Enabled(s, e, p)
    ensures Inv(Apply(s, e, p), p)
  {
    hide ClaimRow, HeartbeatRow, ProgressRow, CompleteRow, FailRow;
    var after := Apply(s, e, p);
    forall id | id in s.rows
      ensures RowOk(after.rows[id], p) && after.rows[id].token >= s.rows[id].token
              && after.rows[id].maxAttempts == s.rows[id].maxAttempts
    {
      StepKeepsRow(s, e, p, id);
    }
    forall v | v in after.seen ensures v.0 in after.rows && v.1.attempts == v.1.token && v.1.token <= after.rows[v.0].token
                                       && v.1.maxAttempts == after.rows[v.0].maxAttempts
    {
      if v !in s.seen {
        assert RowOk(s.rows[v.0], p);
      }
    }
  }

  /** In every reachable state a failure that would retry finds its delay in the schedule: a
      claimed row has at least one attempt, and fewer attempts than the policy allows leave a
      schedule that is not empty. */
  lemma ScheduleNeverOutOfRange(s: Sys, p: Policy, id: nat, version: Job, token: nat, retryable: bool, error: string, jitter: real, at: real)
    requires ValidPolicy(p) && Inv(s, p) && (id, version) in s.seen && id in s.rows
    requires 1 <= token <= version.token
    ensures FailRow(s.rows[id], version, token, retryable, error, jitter, p, at).Some?
    ensures version.attempts < p.maxAttempts ==> 0 <= Min(version.attempts, |p.retryBase|) - 1 < |p.retryBase|
  {
  }

  lemma DelayBounds(p: Policy, attempt: nat, jitter: real)
    requires ValidPolicy(p) && 1 <= attempt < p.maxAttempts && p.retryBase[attempt - 1] >= 0.0
    ensures var base, delay := p.retryBase[attempt - 1], NextDelay(p, attempt, jitter);
            && delay.Some? && base * (1.0 - p.jitter) <= delay.value <= base * (1.0 + p.jitter)
            && (-1.0 <= jitter <= 1.0 ==> delay.value == base * (1.0 + p.jitter * jitter))
            && (jitter < -1.0 ==> delay.value == base * (1.0 - p.jitter)) && (jitter > 1.0 ==> delay.value == base * (1.0 + p.jitter))
  {
    hide Jittered;
    assert Min(attempt, |p.retryBase|) == attempt;
    JitterBounds(p, p.retryBase[attempt - 1], jitter);
  }

  lemma JitterBounds(p: Policy, base: real, jitter: real)
    requires ValidPolicy(p) && base >= 0.0
    ensures base * (1.0 - p.jitter) <= Jittered(p, base, jitter) <= base * (1.0 + p.jitter)
    ensures -1.0 <= jitter <= 1.0 ==> Jittered(p, base, jitter) == base * (1.0 + p.jitter * jitter)
    ensures jitter < -1.0 ==> Jittered(p, base, jitter) == base * (1.0 - p.jitter)
    ensures jitter > 1.0 ==> Jittered(p, base, jitter) == base * (1.0 + p.jitter)
  {
    WithinPart(p.jitter, Clamp(jitter));
    ScalingKeepsOrder(base, 1.0 - p.jitter, 1.0 + p.jitter * Clamp(jitter), 1.0 + p.jitter);
  }

  lemma WithinPart(k: real, c: real)
    requires k >= 0.0 && -1.0 <= c <= 1.0
    ensures -k <= k * c <= k
  {
    ScalingKeepsOrder(k, -1.0, c, 1.0);
  }

  lemma ScalingKeepsOrder(k: real, a: real, b: real, c: real)
    requires k >= 0.0 && a <= b <= c
    ensures k * a <= k * b <= k * c
  {
  }

  /** A job whose holder failed with a retryable error stays out of reach until the scheduled delay of
      its attempt less the jitter is over, and is ready once the delay plus the jitter is over; without
      jitter it is ready exactly when the delay is over. */
  lemma RetryWaitsForItsDelay(s: Sys, p: Policy, id: nat, version: Job, error: string, jitter: real, at: real, t: real)
    requires ValidPolicy(p) && Inv(s, p) && (id, version) in s.seen && id in s.rows
    requires 1 <= s.rows[id].token <= version.token && s.rows[id].attempts < p.maxAttempts
    requires forall i | 0 <= i < |p.retryBase| :: p.retryBase[i] >= 0.0
    ensures s.rows[id].attempts == s.rows[id].token
    ensures var base := p.retryBase[s.rows[id].attempts - 1];
            var after := FailRow(s.rows[id], version, s.rows[id].token, true, error, jitter, p, at);
            && after.Some? && after.value.status.RetryWait?
            && (t < at + base * (1.0 - p.jitter) ==> !Ready(after.value, t))
            && (t >= at + base * (1.0 + p.jitter) ==> Ready(after.value, t))
            && (jitter == 0.0 ==> (Ready(after.value, t) <==> t >= at + base))
  {
    hide NextDelay;
    assert RowOk(s.rows[id], p);
    assert version.attempts == s.rows[id].attempts;
    DelayBounds(p, version.attempts, jitter);
  }

  /** Who may change a leased row: its own worker renews it, a new claim takes it over only after
      the lease has expired (or dead-letters it when no attempt is left), and only the holder of the
      current token reports on it or settles it. */
  lemma WhoMayChangeALease(s: Sys, e: Event, p: Policy, id: nat)
    requires ValidPolicy(p) && Inv(s, p) && Enabled(s, e, p) && id in s.rows && s.rows[id].status.Leased?
    ensures var before, after := s.rows[id], Apply(s, e, p).rows[id];
            || after == before
            || (e.Heartbeat? && e.id == id && before.leaseOwner == Some(e.worker) && e.token == before.token
                && after == before.(leaseExpires := Some(e.at + p.lease)))
            || (e.Claim? && e.id == id && before.leaseExpires.Some? && before.leaseExpires.value <= e.at
                && if before.attempts < Limit(before, p)
                   then after == before.(leaseOwner := Some(e.worker), leaseExpires := Some(e.at + p.lease), token := before.token + 1,
                                         attempts := before.attempts + 1)
                   else after == before.(status := DeadLetter, finishedAt := Some(e.at), leaseOwner := None, leaseExpires := None,
                                         error := Some("BRAIN_UNAVAILABLE")))
            || (e.Progress? && e.id == id && e.token == before.token && after == before.(result := Some(e.progress)))
            || (e.Complete? && e.id == id && e.token == before.token && after.status.Succeeded? && after.result == Some(e.result))
            || (e.Fail? && e.id == id && e.token == before.token && (after.status.DeadLetter? || after.status.RetryWait?))
  {
    assert RowOk(s.rows[id], p);
  }

  /** The holder is obeyed: what the worker under the current token of a leased row reports takes effect,
      and nothing but what it reports. A settlement ends the lease, and only a retry frees the row. */
  lemma HolderIsObeyed(s: Sys, e: Event, p: Policy, id: nat)
    requires ValidPolicy(p) && Inv(s, p) && Enabled(s, e, p) && id in s.rows && s.rows[id].status.Leased?
    requires (e.Heartbeat? || e.Progress? || e.Complete? || e.Fail?) && e.id == id && e.token == s.rows[id].token
    ensures var before, after := s.rows[id], Apply(s, e, p).rows[id];
            match e
            case Heartbeat(_, worker, _, at) =>
              after == if before.leaseOwner == Some(worker) then before.(leaseExpires := Some(at + p.lease)) else before
            case Progress(_, _, progress) => after == before.(result := Some(progress))
            case Complete(_, _, result, at) => after == before.(status := Succeeded, finishedAt := Some(at), result := Some(result))
            case Fail(_, _, version, retryable, error, _, at) =>
              if retryable && before.attempts < p.maxAttempts
              then after == before.(status := RetryWait, availableAt := after.availableAt, leaseOwner := None, leaseExpires := None, error := Some(error))
              else after == before.(status := DeadLetter, finishedAt := Some(at), error := Some(error))
            case _ => true
  {
    assert RowOk(s.rows[id], p);
  }

  /** A job succeeds only by the completion of the worker that holds its lease. */
  lemma SuccessNeedsTheLease(s: Sys, e: Event, p: Policy, id: nat)
    requires ValidPolicy(p) && Inv(s, p) && Enabled(s, e, p) && id in s.rows && !s.rows[id].status.Succeeded?
    ensures Apply(s, e, p).rows[id].status.Succeeded? <==>
            e.Complete? && e.id == id && e.token == s.rows[id].token && s.rows[id].status.Leased?
  {
    assert RowOk(s.rows[id], p);
  }

  // ---- Runs -------------------------------------------------------------------------------

  ghost predicate Run(states: seq<Sys>, events: seq<Event>, p: Policy) {
    && |states| == |events| + 1
    && Inv(states[0], p)
    && forall k | 0 <= k < |events| :: Enabled(states[k], events[k], p) && states[k + 1] == Apply(states[k], events[k], p)
  }

  lemma {:induction false} RunKeepsInv(states: seq<Sys>, events: seq<Event>, p: Policy, k: nat)
    requires ValidPolicy(p) && Run(states, events, p) && k < |states|
    ensures Inv(states[k], p)
  {
    if k > 0 {
      RunKeepsInv(states, events, p, k - 1);
      StepKeepsInv(states[k - 1], events[k - 1], p);
    }
  }

  lemma {:induction false} ClockAndTokensGrow(states: seq<Sys>, events: seq<Event>, p: Policy, i: nat, j: nat, id: nat)
    requires ValidPolicy(p) && Run(states, events, p) && i <= j < |states| && id in states[i].rows
    ensures states[i].now <= states[j].now && id in states[j].rows
    ensures states[i].rows[id].token <= states[j].rows[id].token
  {
    if i < j {
      ClockAndTokensGrow(states, events, p, i, j - 1, id);
      RunKeepsInv(states, events, p, j - 1);
      assert Enabled(states[j - 1], events[j - 1], p);
      StepKeepsRow(states[j - 1], events[j - 1], p, id);
    }
  }

  /** A new row and a claim of it: the worker wins it, for the first time, if and only if its time has
      come; otherwise the row stays as it is. */
  lemma FreshClaimIff(j: Job, worker: nat, p: Policy, t: real)
    requires ValidPolicy(p) && Fresh(j)
    ensures ClaimRow(j, j, worker, p, t) ==
            if j.availableAt <= t
            then j.(status := Leased, attempts := 1, token := 1, leaseOwner := Some(worker), leaseExpires := Some(t + p.lease))
            else j
  {
  }

  /** A claim from a version of the row that is no longer current, in token or in status, changes nothing. */
  lemma OutdatedReadClaimsNothing(current: Job, seen: Job, worker: nat, p: Policy, t: real)
    requires seen.token != current.token || seen.status != current.status
    ensures ClaimRow(current, seen, worker, p, t) == current
  {
  }

  /** From its insertion at step i up to step j no claim of the job took effect, and nobody settled it,
      which no worker is entitled to before a claim. */
  ghost predicate Untouched(states: seq<Sys>, events: seq<Event>, i: nat, j: nat, id: nat)
    requires j <= |events| < |states|
  {
    forall k | i < k < j :: !Settles(events[k], id, 0) && (events[k].Claim? && events[k].id == id ==> states[k + 1].rows == states[k].rows)
  }

  /** The row is as it was inserted, and no worker has seen it otherwise. */
  ghost predicate StillAs(s: Sys, id: nat, job: Job) {
    id in s.rows && s.rows[id] == job && forall v | v in s.seen && v.0 == id :: v.1 == job
  }

  lemma UntouchedStep(s: Sys, e: Event, p: Policy, id: nat, job: Job)
    requires Fresh(job) && Enabled(s, e, p) && StillAs(s, id, job) && !Settles(e, id, 0)
    requires e.Claim? && e.id == id ==> Apply(s, e, p).rows == s.rows
    ensures StillAs(Apply(s, e, p), id, job)
  {
  }

  lemma {:induction false} UntouchedStays(states: seq<Sys>, events: seq<Event>, p: Policy, i: nat, j: nat, id: nat, job: Job)
    requires ValidPolicy(p) && Run(states, events, p) && i < j < |states|
    requires events[i] == Insert(id, job) && Untouched(states, events, i, j, id)
    ensures Fresh(job) && StillAs(states[j], id, job)
  {
    hide ClaimRow, HeartbeatRow, ProgressRow, CompleteRow, FailRow, StillAs, Inv;
    assert Enabled(states[i], events[i], p) && states[i + 1] == Apply(states[i], events[i], p);
    if j == i + 1 {
      RunKeepsInv(states, events, p, i);
      InsertedUnseen(states[i], id, job, p);
    } else {
      UntouchedStays(states, events, p, i, j - 1, id, job);
      assert states[j - 1 + 1] == Apply(states[j - 1], events[j - 1], p);
      UntouchedStep(states[j - 1], events[j - 1], p, id, job);
    }
  }

  lemma InsertedUnseen(s: Sys, id: nat, job: Job, p: Policy)
    requires Inv(s, p) && Enabled(s, Insert(id, job), p)
    ensures StillAs(Apply(s, Insert(id, job), p), id, job)
  {
  }

  /** Every inserted job can be won: in any run, as long as no claim of it has taken effect, a claim at
      time t, by any worker and from any version that worker may have read, leases it to that worker
      with the first attempt and the first token if and only if the job's time has come, and changes
      nothing otherwise. */
  lemma InsertedJobIsWonIff(states: seq<Sys>, events: seq<Event>, p: Policy, i: nat, j: nat, id: nat, job: Job)
    requires ValidPolicy(p) && Run(states, events, p) && i < j < |events|
    requires events[i] == Insert(id, job) && Untouched(states, events, i, j, id)
    requires events[j].Claim? && events[j].id == id
    ensures id in states[j + 1].rows && states[j].rows[id] == job
    ensures events[j].at >= job.availableAt ==>
              && states[j + 1].rows[id] == job.(status := Leased, attempts := 1, token := 1, leaseOwner := Some(events[j].worker),
                                               leaseExpires := Some(events[j].at + p.lease))
              && (id, 1) in states[j + 1].held
    ensures events[j].at < job.availableAt ==> states[j + 1].rows == states[j].rows
  {
    UntouchedStays(states, events, p, i, j, id, job);
    assert Enabled(states[j], events[j], p) && states[j + 1] == Apply(states[j], events[j], p);
    FreshClaimIff(job, events[j].worker, p, events[j].at);
  }

  /** Fencing: once a job has been claimed again, nothing its earlier holder does, at any later
      point of any run, changes any row. */
  lemma StaleTokenIsPowerless(states: seq<Sys>, events: seq<Event>, p: Policy, i: nat, j: nat, id: nat, token: nat)
    requires ValidPolicy(p) && Run(states, events, p) && i <= j < |events|
    requires id in states[i].rows && token < states[i].rows[id].token
    requires events[j].Heartbeat? || events[j].Progress? || events[j].Complete? || events[j].Fail?
    requires events[j].id == id && events[j].token == token
    ensures states[j + 1].rows == states[j].rows
  {
    ClockAndTokensGrow(states, events, p, i, j, id);
    assert states[j + 1] == Apply(states[j], events[j], p);
  }

  /** The event wins or renews the lease of the job under `token`. */
  predicate LeaseEvent(s: Sys, e: Event, p: Policy, id: nat, token: nat)
    requires Enabled(s, e, p)
  {
    && (e.Claim? || e.Heartbeat?) && e.id == id
    && (e.Heartbeat? ==> e.token == token)
    && id in s.rows && Apply(s, e, p).rows[id] != s.rows[id]
    && Apply(s, e, p).rows[id].status.Leased? && Apply(s, e, p).rows[id].token == token
  }

  predicate LeaseHeld(s: Sys, id: nat, token: nat, until: real) {
    && id in s.rows && s.rows[id].status.Leased? && s.rows[id].token == token
    && s.rows[id].leaseExpires.Some? && s.rows[id].leaseExpires.value >= until
  }

  lemma LeaseSurvivesStep(s: Sys, e: Event, p: Policy, id: nat, token: nat, until: real)
    requires ValidPolicy(p) && Inv(s, p) && Enabled(s, e, p)
    requires LeaseHeld(s, id, token, until) && !Settles(e, id, token)
    requires e.Heartbeat? && e.id == id && e.token == token ==> until <= e.at + p.lease
    requires e.Claim? && e.id == id ==> Apply(s, e, p).rows == s.rows
    ensures LeaseHeld(Apply(s, e, p), id, token, until)
  {
  }

  lemma LeaseStarts(s: Sys, e: Event, p: Policy, id: nat, token: nat)
    requires Enabled(s, e, p) && LeaseEvent(s, e, p, id, token)
    ensures LeaseHeld(Apply(s, e, p), id, token, e.at + p.lease)
  {
  }

  /** From step i on, up to j, the holder does not settle, and renews only with times not before h. */
  ghost predicate RenewedInOrder(events: seq<Event>, i: nat, j: nat, id: nat, token: nat, h: real)
    requires j <= |events|
  {
    forall k | i < k < j :: !Settles(events[k], id, token) && (events[k].Heartbeat? && events[k].id == id && events[k].token == token ==> h <= events[k].at)
  }

  lemma {:induction false} LeaseSurvives(states: seq<Sys>, events: seq<Event>, p: Policy, i: nat, j: nat, id: nat, token: nat)
    requires ValidPolicy(p) && Run(states, events, p) && i < j < |states|
    requires Enabled(states[i], events[i], p) && LeaseEvent(states[i], events[i], p, id, token)
    requires RenewedInOrder(events, i, j, id, token, events[i].at)
    requires forall k | i < k < j && events[k].Claim? && events[k].id == id :: states[k + 1].rows == states[k].rows
    ensures LeaseHeld(states[j], id, token, events[i].at + p.lease)
  {
    hide ClaimRow, HeartbeatRow, ProgressRow, CompleteRow, FailRow, LeaseHeld, Inv;
    if j == i + 1 {
      LeaseStarts(states[i], events[i], p, id, token);
      assert states[j] == Apply(states[i], events[i], p);
    } else {
      LeaseSurvives(states, events, p, i, j - 1, id, token);
      RunKeepsInv(states, events, p, j - 1);
      assert states[j - 1 + 1] == Apply(states[j - 1], events[j - 1], p);
      LeaseSurvivesStep(states[j - 1], events[j - 1], p, id, token, events[i].at + p.lease);
    }
  }

  /** After a claim or heartbeat with time h, and as long as the holder neither settles the job nor
      commits a renewal with an earlier time, the first claim of it that has an effect, by any worker
      and from any version it may have read, carries a time not before h plus the lease. */
  lemma FirstClaimIsAfterLease(states: seq<Sys>, events: seq<Event>, p: Policy, i: nat, j: nat, id: nat, token: nat)
    requires ValidPolicy(p) && Run(states, events, p) && i < j < |events|
    requires Enabled(states[i], events[i], p) && LeaseEvent(states[i], events[i], p, id, token)
    requires RenewedInOrder(events, i, j, id, token, events[i].at)
    requires forall k | i < k < j && events[k].Claim? && events[k].id == id :: states[k + 1].rows == states[k].rows
    requires events[j].Claim? && events[j].id == id && states[j + 1].rows != states[j].rows
    ensures events[i].at + p.lease <= events[j].at <= states[j].now
  {
    LeaseSurvives(states, events, p, i, j, id, token);
    assert Enabled(states[j], events[j], p) && states[j + 1] == Apply(states[j], events[j], p);
  }

  /** Exclusion: under the same conditions no claim whatever has an effect before h plus the lease. */
  lemma {:induction false} NoClaimWithinLease(states: seq<Sys>, events: seq<Event>, p: Policy, i: nat, j: nat, id: nat, token: nat)
    requires ValidPolicy(p) && Run(states, events, p) && i < j < |events|
    requires Enabled(states[i], events[i], p) && LeaseEvent(states[i], events[i], p, id, token)
    requires RenewedInOrder(events, i, j, id, token, events[i].at)
    requires events[j].Claim? && events[j].id == id && states[j + 1].rows != states[j].rows
    ensures states[j].now >= events[i].at + p.lease
    decreases j
  {
    if k :| i < k < j && events[k].Claim? && events[k].id == id && states[k + 1].rows != states[k].rows {
      NoClaimWithinLease(states, events, p, i, k, id, token);
      ClockAndTokensGrow(states, events, p, k, j, id);
    } else {
      FirstClaimIsAfterLease(states, events, p, i, j, id, token);
    }
  }

  /** Nothing that could change the lease happens to the job between two steps: the holder does not
      settle, and neither a renewal nor a claim has an effect. */
  ghost predicate Quiet(states: seq<Sys>, events: seq<Event>, i: nat, j: nat, id: nat, token: nat)
    requires j <= |events| < |states|
  {
    forall k | i < k < j ::
      !Settles(events[k], id, token) && ((events[k].Claim? || events[k].Heartbeat?) && events[k].id == id ==> states[k + 1].rows == states[k].rows)
  }

  predicate LeasedUntil(s: Sys, id: nat, token: nat, until: real) {
    id in s.rows && s.rows[id].status.Leased? && s.rows[id].token == token && s.rows[id].leaseExpires == Some(until)
  }

  lemma QuietStep(s: Sys, e: Event, p: Policy, id: nat, token: nat, until: real)
    requires Enabled(s, e, p) && LeasedUntil(s, id, token, until) && !Settles(e, id, token)
    requires (e.Claim? || e.Heartbeat?) && e.id == id ==> Apply(s, e, p).rows == s.rows
    ensures LeasedUntil(Apply(s, e, p), id, token, until)
  {
  }

  /** The lease runs out exactly the lease time after the captured time of its last renewal. */
  lemma {:induction false} LastRenewalSetsLease(states: seq<Sys>, events: seq<Event>, p: Policy, l: nat, j: nat, id: nat, token: nat)
    requires ValidPolicy(p) && Run(states, events, p) && l < j < |states|
    requires Enabled(states[l], events[l], p) && LeaseEvent(states[l], events[l], p, id, token)
    requires Quiet(states, events, l, j, id, token)
    ensures LeasedUntil(states[j], id, token, events[l].at + p.lease)
  {
    hide ClaimRow, HeartbeatRow, ProgressRow, CompleteRow, FailRow, LeasedUntil, Inv;
    if j == l + 1 {
      LeaseSet(states[l], events[l], p, id, token);
      assert states[j] == Apply(states[l], events[l], p);
    } else {
      LastRenewalSetsLease(states, events, p, l, j - 1, id, token);
      assert states[j - 1 + 1] == Apply(states[j - 1], events[j - 1], p);
      QuietStep(states[j - 1], events[j - 1], p, id, token, events[l].at + p.lease);
    }
  }

  lemma LeaseSet(s: Sys, e: Event, p: Policy, id: nat, token: nat)
    requires Enabled(s, e, p) && LeaseEvent(s, e, p, id, token)
    ensures LeasedUntil(Apply(s, e, p), id, token, e.at + p.lease)
  {
  }

  /** A claim of the row as it stands, with this time, has an effect. */
  predicate ClaimWorks(s: Sys, id: nat, worker: nat, p: Policy, t: real)
    requires id in s.rows
  {
    ClaimRow(s.rows[id], s.rows[id], worker, p, t) != s.rows[id]
  }

  /** The exact rule: a claim has an effect if and only if its time is not before the last renewal's
      captured time plus the lease. */
  lemma ClaimWorksIff(states: seq<Sys>, events: seq<Event>, p: Policy, l: nat, j: nat, id: nat, token: nat, worker: nat, t: real)
    requires ValidPolicy(p) && Run(states, events, p) && l < j < |states|
    requires Enabled(states[l], events[l], p) && LeaseEvent(states[l], events[l], p, id, token)
    requires Quiet(states, events, l, j, id, token)
    ensures id in states[j].rows && (ClaimWorks(states[j], id, worker, p, t) <==> events[l].at + p.lease <= t)
  {
    LastRenewalSetsLease(states, events, p, l, j, id, token);
  }

  /** So a lease won or renewed at time h excludes all claims before h plus the lease if and only if
      its last renewal was captured at h or later. */
  lemma ExclusionIff(states: seq<Sys>, events: seq<Event>, p: Policy, i: nat, l: nat, j: nat, id: nat, token: nat, worker: nat)
    requires ValidPolicy(p) && Run(states, events, p) && i <= l < j < |states|
    requires Enabled(states[i], events[i], p) && LeaseEvent(states[i], events[i], p, id, token)
    requires Enabled(states[l], events[l], p) && LeaseEvent(states[l], events[l], p, id, token)
    requires Quiet(states, events, l, j, id, token)
    ensures id in states[j].rows
    ensures (forall t | ClaimWorks(states[j], id, worker, p, t) :: events[i].at + p.lease <= t) <==> events[i].at <= events[l].at
  {
    hide ClaimWorks, Quiet, Inv, ClaimRow, HeartbeatRow;
    ClaimWorksIff(states, events, p, l, j, id, token, worker, events[l].at + p.lease);
    forall t ensures ClaimWorks(states[j], id, worker, p, t) <==> events[l].at + p.lease <= t {
      ClaimWorksIff(states, events, p, l, j, id, token, worker, t);
    }
  }

  /** One renewal: it keeps a lease up to h plus the lease time if and only if it was captured at h or
      later. */
  lemma RenewalKeepsLeaseIff(s: Sys, p: Policy, id: nat, worker: nat, token: nat, at: real, h: real)
    requires LeaseHeld(s, id, token, h + p.lease) && s.rows[id].leaseOwner == Some(worker) && at <= s.now
    ensures LeaseHeld(Apply(s, Heartbeat(id, worker, token, at), p), id, token, h + p.lease) <==> h <= at
  {
  }

  /** The order of renewals is needed: of two renewals committed at once, the one captured earlier and
      committed later takes the lease back to its own time, and when the clock has come to that, a
      claim within the longer lease has an effect. */
  lemma LateRenewalShortensLease(s: Sys, p: Policy, id: nat, worker: nat, other: nat, early: real, late: real, t: real)
    requires ValidPolicy(p) && Inv(s, p) && id in s.rows && s.rows[id].status.Leased? && s.rows[id].leaseOwner == Some(worker)
    requires early <= late <= s.now && early + p.lease <= t < late + p.lease
    ensures var token := s.rows[id].token;
            var s1 := Apply(s, Heartbeat(id, worker, token, late), p);
            var s2 := Apply(s1, Heartbeat(id, worker, token, early), p);
            var s3 := Apply(Apply(s2, Advance(if s.now <= t then t else s.now), p), Read(id), p);
            var claim := Claim(id, s3.rows[id], other, t);
            && LeaseHeld(s1, id, token, late + p.lease)
            && Enabled(s3, claim, p) && Apply(s3, claim, p).rows[id] != s3.rows[id]
  {
    assert RowOk(s.rows[id], p);
  }

  // ---- One settlement per claim -----------------------------------------------------------

  predicate Terminal(status: Status) {
    status.Succeeded? || status.DeadLetter?
  }

  /** A claim that its poller still holds belongs to a leased row, or to one that another worker
      has dead-lettered after the last attempt. */
  ghost predicate HeldInv(s: Sys, p: Policy) {
    && Inv(s, p)
    && forall h | h in s.held && h.1 == s.rows[h.0].token ::
         var j := s.rows[h.0];
         j.status.Leased? || (j.status.DeadLetter? && j.attempts >= Limit(j, p))
  }

  lemma StepKeepsHeldInv(s: Sys, e: Event, p: Policy)
    requires ValidPolicy(p) && HeldInv(s, p) && Enabled(s, e, p) && Disciplined(s, e)
    ensures HeldInv(Apply(s, e, p), p)
  {
    StepKeepsInv(s, e, p);
    var after := Apply(s, e, p);
    forall h | h in after.held && h.1 == after.rows[h.0].token
      ensures after.rows[h.0].status.Leased?
              || (after.rows[h.0].status.DeadLetter? && after.rows[h.0].attempts >= Limit(after.rows[h.0], p))
    {
      if h in s.held && h.1 == s.rows[h.0].token {
        assert RowOk(s.rows[h.0], p);
      }
    }
  }

  /** With one settlement per claim, and a row whose maximum is not below the policy's, a
      finished job stays finished: a succeeded row never changes again, and a dead letter keeps
      its status, attempts and token. */
  lemma TerminalIsAbsorbing(s: Sys, e: Event, p: Policy, id: nat)
    requires ValidPolicy(p) && HeldInv(s, p) && Enabled(s, e, p) && Disciplined(s, e)
    requires id in s.rows && Terminal(s.rows[id].status) && s.rows[id].maxAttempts >= p.maxAttempts
    ensures var before, after := s.rows[id], Apply(s, e, p).rows[id];
            && after.status == before.status && after.attempts == before.attempts && after.token == before.token
            && (before.status.Succeeded? ==> after == before)
  {
    if e.Fail? && e.id == id && e.token == s.rows[id].token {
      assert (e.id, e.token) in s.held;
      assert RowOk(s.rows[id], p);
    }
  }

  /** Without the discipline the only event that can take a row out of a terminal status is a
      retryable failure carrying the row's current token, read before the last attempt. */
  lemma LeavingTerminalNeedsFailure(s: Sys, e: Event, p: Policy, id: nat)
    requires ValidPolicy(p) && Inv(s, p) && Enabled(s, e, p) && id in s.rows && Terminal(s.rows[id].status)
    ensures !Terminal(Apply(s, e, p).rows[id].status) <==>
            (e.Fail? && e.id == id && e.token == s.rows[id].token && e.retryable && e.version.attempts < p.maxAttempts)
  {
  }

  /** Both hypotheses of absorption are needed. A second settlement revives a succeeded job,
      and a row whose maximum is below the policy's is revived even under the discipline: its
      lease expires after the last attempt, another worker dead-letters it, and the failure of
      the slow holder then schedules a retry. */
  lemma AbsorptionNeedsBothHypotheses(s: Sys, p: Policy, id: nat, worker: nat)
    requires ValidPolicy(p) && Inv(s, p) && id in s.rows && s.rows[id].status.Leased? && s.rows[id].attempts < p.maxAttempts
    ensures var j := s.rows[id];
            var s1 := Apply(s, Read(id), p);
            var s2 := Apply(s1, Complete(id, j.token, 0, s.now), p);
            var failure := Fail(id, j.token, j, true, "BRAIN_UNAVAILABLE", 0.0, s.now);
            && s2.rows[id].status.Succeeded?
            && Enabled(s2, failure, p) && Apply(s2, failure, p).rows[id].status.RetryWait?
    ensures var j := s.rows[id];
            var s1 := Apply(s, Read(id), p);
            var claim := Claim(id, j, worker, s.now);
            var s2 := Apply(s1, claim, p);
            var failure := Fail(id, j.token, j, true, "BRAIN_UNAVAILABLE", 0.0, s.now);
            j.maxAttempts < p.maxAttempts && j.attempts == j.maxAttempts && j.leaseExpires.value <= s.now && (id, j.token) in s.held ==>
              && Disciplined(s1, claim) && s2.rows[id].status.DeadLetter?
              && Enabled(s2, failure, p) && Disciplined(s2, failure) && Apply(s2, failure, p).rows[id].status.RetryWait?
  {
    var j := s.rows[id];
    assert RowOk(j, p);
    var s1 := Apply(s, Read(id), p);
    assert (id, j) in s1.seen && s1.rows == s.rows;
    assert NextDelay(p, j.attempts, 0.0).Some?;
  }

  // ---- Finitely many steps ------------------------------------------------------------------

  /** Steps a job still has before it: three per attempt that remains, plus those of its present
      status; a finished job has one left while its holder has not settled. */
  function Rank(s: Sys, id: nat, p: Policy): int
    requires id in s.rows
  {
    var j := s.rows[id];
    if j.status.Cancelled? then 0
    else if Terminal(j.status) then (if (id, j.token) in s.held then 1 else 0)
    else 3 * (Limit(j, p) - j.attempts) + (if j.status.Leased? then 2 else 1)
  }

  /** The step changes the row, and is not a heartbeat or a progress report. */
  predicate Moves(s: Sys, e: Event, p: Policy, id: nat)
    requires Enabled(s, e, p)
  {
    id in s.rows && !e.Heartbeat? && !e.Progress? && Apply(s, e, p).rows[id] != s.rows[id]
  }

  lemma MovesLowerRank(s: Sys, e: Event, p: Policy, id: nat)
    requires ValidPolicy(p) && HeldInv(s, p) && Enabled(s, e, p) && Disciplined(s, e)
    requires id in s.rows && s.rows[id].maxAttempts >= p.maxAttempts
    ensures var after := Apply(s, e, p);
            && after.rows[id].maxAttempts == s.rows[id].maxAttempts && 0 <= Rank(after, id, p) <= Rank(s, id, p)
            && (Moves(s, e, p, id) ==> Rank(after, id, p) < Rank(s, id, p))
  {
    if Terminal(s.rows[id].status) {
      TerminalIsAbsorbing(s, e, p, id);
      FinishedRank(s, e, p, id);
    } else {
      UnfinishedRank(s, e, p, id);
    }
  }

  lemma FinishedRank(s: Sys, e: Event, p: Policy, id: nat)
    requires ValidPolicy(p) && HeldInv(s, p) && Enabled(s, e, p) && Disciplined(s, e)
    requires id in s.rows && Terminal(s.rows[id].status) && s.rows[id].maxAttempts >= p.maxAttempts
    requires var before, after := s.rows[id], Apply(s, e, p).rows[id]; after.status == before.status && after.token == before.token
    ensures var after := Apply(s, e, p);
            && after.rows[id].maxAttempts == s.rows[id].maxAttempts && 0 <= Rank(after, id, p) <= Rank(s, id, p)
            && (Moves(s, e, p, id) ==> Rank(after, id, p) < Rank(s, id, p))
  {
  }

  /** The rank of an unfinished job falls with each of its moves. */
  lemma UnfinishedRank(s: Sys, e: Event, p: Policy, id: nat)
    requires ValidPolicy(p) && HeldInv(s, p) && Enabled(s, e, p) && Disciplined(s, e)
    requires id in s.rows && !Terminal(s.rows[id].status)
    ensures var after := Apply(s, e, p);
            && after.rows[id].maxAttempts == s.rows[id].maxAttempts && 0 <= Rank(after, id, p) <= Rank(s, id, p)
            && (Moves(s, e, p, id) ==> Rank(after, id, p) < Rank(s, id, p))
  {
    assert RowOk(s.rows[id], p);
    if e.Claim? && e.id == id {
      hide CompleteRow, FailRow, HeartbeatRow, ProgressRow;
      if (id, s.rows[id].token) in s.held {
        assert s.rows[id].status.Leased?;
      }
    } else if (e.Complete? || e.Fail?) && e.id == id {
      hide ClaimRow, HeartbeatRow, ProgressRow;
      SettledRank(s, e, p, id);
    } else {
      hide ClaimRow, CompleteRow, FailRow;
    }
  }

  lemma SettledRank(s: Sys, e: Event, p: Policy, id: nat)
    requires ValidPolicy(p) && HeldInv(s, p) && Enabled(s, e, p) && Disciplined(s, e)
    requires id in s.rows && !Terminal(s.rows[id].status) && (e.Complete? || e.Fail?) && e.id == id
    ensures var after := Apply(s, e, p);
            && after.rows[id].maxAttempts == s.rows[id].maxAttempts && 0 <= Rank(after, id, p) <= Rank(s, id, p)
            && (after.rows[id] != s.rows[id] ==> Rank(after, id, p) < Rank(s, id, p))
  {
    hide ClaimRow, HeartbeatRow, ProgressRow, NextDelay;
    assert RowOk(s.rows[id], p);
    assert e.token == s.rows[id].token ==> s.rows[id].status.Leased?;
  }

  ghost predicate DisciplinedRun(states: seq<Sys>, events: seq<Event>, p: Policy) {
    && Run(states, events, p) && HeldInv(states[0], p)
    && forall k | 0 <= k < |events| :: Disciplined(states[k], events[k])
  }

  lemma {:induction false} RunKeepsHeldInv(states: seq<Sys>, events: seq<Event>, p: Policy, k: nat)
    requires ValidPolicy(p) && DisciplinedRun(states, events, p) && k < |states|
    ensures HeldInv(states[k], p)
  {
    if k > 0 {
      RunKeepsHeldInv(states, events, p, k - 1);
      StepKeepsHeldInv(states[k - 1], events[k - 1], p);
    }
  }

  ghost function CountMoves(states: seq<Sys>, events: seq<Event>, p: Policy, id: nat, n: nat): nat
    requires Run(states, events, p) && n <= |events|
  {
    if n == 0 then 0
    else CountMoves(states, events, p, id, n - 1) + (if Moves(states[n - 1], events[n - 1], p, id) then 1 else 0)
  }

  lemma {:induction false} MovesPlusRank(states: seq<Sys>, events: seq<Event>, p: Policy, id: nat, n: nat)
    requires ValidPolicy(p) && DisciplinedRun(states, events, p) && n <= |events|
    requires id in states[0].rows && states[0].rows[id].maxAttempts >= p.maxAttempts
    ensures id in states[n].rows && states[n].rows[id].maxAttempts == states[0].rows[id].maxAttempts
    ensures CountMoves(states, events, p, id, n) + Rank(states[n], id, p) <= Rank(states[0], id, p)
    ensures Rank(states[n], id, p) >= 0
  {
    if n > 0 {
      MovesPlusRank(states, events, p, id, n - 1);
      RunKeepsHeldInv(states, events, p, n - 1);
      MovesLowerRank(states[n - 1], events[n - 1], p, id);
    } else {
      assert RowOk(states[0].rows[id], p);
    }
  }

  /** Termination: from its insertion a job is changed at most 3 * max_attempts + 1 times in any run,
      heartbeats and progress aside, however many workers claim, renew, settle or abandon it. */
  lemma FinitelyManyMoves(states: seq<Sys>, events: seq<Event>, p: Policy, id: nat)
    requires ValidPolicy(p) && DisciplinedRun(states, events, p)
    requires id in states[0].rows && Fresh(states[0].rows[id]) && states[0].rows[id].maxAttempts >= p.maxAttempts
    ensures CountMoves(states, events, p, id, |events|) <= 3 * p.maxAttempts + 1
  {
    MovesPlusRank(states, events, p, id, |events|);
  }

  lemma FinishedStep(s: Sys, e: Event, p: Policy, id: nat)
    requires ValidPolicy(p) && HeldInv(s, p) && Enabled(s, e, p) && Disciplined(s, e)
    requires id in s.rows && Terminal(s.rows[id].status) && s.rows[id].maxAttempts >= p.maxAttempts
    ensures var before, after := s.rows[id], Apply(s, e, p).rows[id];
            after.status == before.status && after.maxAttempts == before.maxAttempts && (before.status.Succeeded? ==> after == before)
  {
    TerminalIsAbsorbing(s, e, p, id);
    MovesLowerRank(s, e, p, id);
  }

  /** Over a whole run a finished job stays finished. */
  lemma {:induction false} FinishedStaysFinished(states: seq<Sys>, events: seq<Event>, p: Policy, id: nat, i: nat, j: nat)
    requires ValidPolicy(p) && DisciplinedRun(states, events, p) && i <= j < |states|
    requires id in states[i].rows && Terminal(states[i].rows[id].status) && states[i].rows[id].maxAttempts >= p.maxAttempts
    ensures id in states[j].rows && states[j].rows[id].status == states[i].rows[id].status
    ensures states[j].rows[id].maxAttempts == states[i].rows[id].maxAttempts
    ensures states[i].rows[id].status.Succeeded? ==> states[j].rows[id] == states[i].rows[id]
  {
    if i < j {
      hide HeldInv, Enabled, Apply, Disciplined;
      FinishedStaysFinished(states, events, p, id, i, j - 1);
      RunKeepsHeldInv(states, events, p, j - 1);
      FinishedStep(states[j - 1], events[j - 1], p, id);
    }
  }
}
