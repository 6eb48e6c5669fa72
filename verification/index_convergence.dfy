/** Retrieval cards against the authoritative rows they project. Index jobs read their source in
    one transaction and write the card in a later one, while notes, todos and expenses are
    tombstoned in between. */
module IndexConvergence {
  import opened Options

  /** Pending covers queued, retry_wait and leased. */
  datatype JobState = Pending | Settled | Dead

  datatype Job = Job(source: nat, state: JobState)

  /** What a worker is doing: it has read the source of a job (live or gone), or it has written
      the card, or removed it, and not yet settled the job. */
  datatype Phase = Read(job: nat, found: bool) | Wrote(job: nat)

  /** `live` tells for every source ever created whether it is still active; `blank` are the sources
      whose text is white space, which the resolver answers like absent ones. */
  datatype Sys = Sys(live: map<nat, bool>, blank: set<nat>, cards: set<nat>, jobs: map<nat, Job>, busy: map<nat, Phase>)

  /** The source has something to index. */
  predicate Indexable(s: Sys, source: nat) {
    source in s.live && s.live[source] && source !in s.blank
  }

  /** A tombstone retires the source, removes its card and queues a trailing index job in one
      transaction; correcting a note or an expense also creates the replacement and its job. */
  datatype Event =
    | Create(source: nat, job: nat)
    | Enqueue(source: nat, job: nat)
    | Tombstone(source: nat, job: nat, replacement: Option<(nat, nat)>)
    | ReadSource(worker: nat, job: nat)
    | WriteCard(worker: nat)
    | Settle(worker: nat)
    | Fail(worker: nat, dead: bool)
    | Refuse(job: nat, dead: bool)
    | Crash(worker: nat)

  predicate Enabled(s: Sys, e: Event) {
    match e
    case Create(source, job) => source !in s.live && job !in s.jobs
    case Enqueue(source, job) => source in s.live && job !in s.jobs
    case Tombstone(source, job, replacement) =>
      && source in s.live && s.live[source] && job !in s.jobs
      && (replacement.Some? ==> replacement.value.0 !in s.live && replacement.value.1 !in s.jobs && replacement.value.1 != job)
    case ReadSource(worker, job) => worker !in s.busy && job in s.jobs && s.jobs[job].state.Pending? && s.jobs[job].source in s.live
    case WriteCard(worker) => worker in s.busy && s.busy[worker].Read? && s.busy[worker].job in s.jobs
    case Settle(worker) => worker in s.busy && s.busy[worker].Wrote? && s.busy[worker].job in s.jobs
    case Fail(worker, dead) => worker in s.busy && s.busy[worker].job in s.jobs
    case Refuse(job, dead) => job in s.jobs && s.jobs[job].state.Pending?
    case Crash(worker) => worker in s.busy
  }

  function SetState(s: Sys, job: nat, state: JobState): map<nat, Job>
    requires job in s.jobs
  {
    s.jobs[job := s.jobs[job].(state := state)]
  }

  function Apply(s: Sys, e: Event): Sys
    requires Enabled(s, e)
  {
    match e
    case Create(source, job) =>
      s.(live := s.live[source := true], jobs := s.jobs[job := Job(source, Pending)])
    case Enqueue(source, job) =>
      s.(jobs := s.jobs[job := Job(source, Pending)])
    case Tombstone(source, job, replacement) =>
      var retired := s.(live := s.live[source := false], cards := s.cards - {source},
                        jobs := s.jobs[job := Job(source, Pending)]);
      if replacement.None? then retired
      else
        var (other, otherJob) := replacement.value;
        retired.(live := retired.live[other := true], jobs := retired.jobs[otherJob := Job(other, Pending)])
    case ReadSource(worker, job) =>
      s.(busy := s.busy[worker := Read(job, Indexable(s, s.jobs[job].source))])
    case WriteCard(worker) =>
      var phase := s.busy[worker];
      var source := s.jobs[phase.job].source;
      s.(cards := if phase.found then s.cards + {source} else s.cards - {source},
         busy := s.busy[worker := Wrote(phase.job)])
    case Settle(worker) =>
      s.(jobs := SetState(s, s.busy[worker].job, Settled), busy := s.busy - {worker})
    case Fail(worker, dead) =>
      s.(jobs := SetState(s, s.busy[worker].job, if dead then Dead else Pending), busy := s.busy - {worker})
    case Refuse(job, dead) =>
      s.(jobs := SetState(s, job, if dead then Dead else Pending))
    case Crash(worker) => s.(busy := s.busy - {worker})
  }

  predicate WorksOn(s: Sys, worker: nat, source: nat) {
    worker in s.busy && s.busy[worker].job in s.jobs && s.jobs[s.busy[worker].job].source == source
  }

  /** A worker takes up a source only while no other worker is at it. A single sequential worker
      always complies. */
  ghost predicate Exclusive(s: Sys, e: Event) {
    e.ReadSource? && e.job in s.jobs ==> forall w | w in s.busy :: !WorksOn(s, w, s.jobs[e.job].source)
  }

  ghost predicate Init(s: Sys) {
    s.live == map[] && s.cards == {} && s.jobs == map[] && s.busy == map[]
  }

  // ---- Invariant --------------------------------------------------------------------------

  /** Something could still leave, or has left, a card for the source. */
  ghost predicate Exposed(s: Sys, source: nat) {
    source in s.cards || exists w :: w in s.busy && s.busy[w].Read? && s.busy[w].found && WorksOn(s, w, source)
  }

  /** A job that will yet look at the source again: not settled, and not already past its read
      of the live source or past its write. */
  ghost predicate Guards(s: Sys, job: nat, source: nat) {
    && job in s.jobs && s.jobs[job].source == source && !s.jobs[job].state.Settled?
    && forall w | w in s.busy && s.busy[w].job == job :: s.busy[w].Read? && !s.busy[w].found
  }

  /** A job that still owes a live source its card. */
  ghost predicate Owes(s: Sys, job: nat, source: nat) {
    job in s.jobs && s.jobs[job].source == source && !s.jobs[job].state.Settled?
  }

  ghost predicate WellFormed(s: Sys) {
    && (forall w | w in s.busy :: s.busy[w].job in s.jobs)
    && (forall j | j in s.jobs :: s.jobs[j].source in s.live)
    && (forall c | c in s.cards :: c in s.live)
    && (forall v, w, source | WorksOn(s, v, source) && WorksOn(s, w, source) :: v == w)
  }

  ghost predicate AbsentInv(s: Sys) {
    forall source | source in s.live && !Indexable(s, source) && Exposed(s, source) :: exists j :: Guards(s, j, source)
  }

  /** What a worker read about a source that is still live is that it is live, and once it has
      written, the card is there; a live source without a card is owed one. */
  ghost predicate LiveInv(s: Sys)
    requires WellFormed(s)
  {
    && (forall w | w in s.busy && Indexable(s, s.jobs[s.busy[w].job].source) ::
          if s.busy[w].Read? then s.busy[w].found else s.jobs[s.busy[w].job].source in s.cards)
    && (forall source | Indexable(s, source) && source !in s.cards :: exists j :: Owes(s, j, source))
  }

  ghost predicate Inv(s: Sys) {
    WellFormed(s) && AbsentInv(s) && LiveInv(s)
  }

  lemma InitInv(s: Sys)
    requires Init(s)
    ensures Inv(s)
  {
  }

  lemma StepKeepsWellFormed(s: Sys, e: Event)
    requires WellFormed(s) && Enabled(s, e) && Exclusive(s, e)
    ensures WellFormed(Apply(s, e))
  {
    var after := Apply(s, e);
    forall v, w, source | WorksOn(after, v, source) && WorksOn(after, w, source) ensures v == w {
      assert v in s.busy ==> WorksOn(s, v, source);
      assert w in s.busy ==> WorksOn(s, w, source);
    }
  }

  lemma StepKeepsAbsentInv(s: Sys, e: Event)
    requires Inv(s) && Enabled(s, e) && Exclusive(s, e)
    ensures AbsentInv(Apply(s, e))
  {
    var after := Apply(s, e);
    StepKeepsWellFormed(s, e);
    forall source | source in after.live && !Indexable(after, source) && Exposed(after, source)
      ensures exists j :: Guards(after, j, source)
    {
      if e.Tombstone? && e.source == source {
        assert Guards(after, e.job, source);
      } else {
        StillExposed(s, e, source);
        var j :| Guards(s, j, source);
        GuardStays(s, e, source, j);
      }
    }
  }

  /** Only the tombstone itself exposes an absent source anew. */
  lemma StillExposed(s: Sys, e: Event, source: nat)
    requires Inv(s) && Enabled(s, e) && Exclusive(s, e)
    requires source in Apply(s, e).live && !Indexable(Apply(s, e), source) && Exposed(Apply(s, e), source)
    requires !(e.Tombstone? && e.source == source)
    ensures source in s.live && !Indexable(s, source) && Exposed(s, source)
  {
    var after := Apply(s, e);
    if source in after.cards && source !in s.cards {
      assert e.WriteCard? && WorksOn(s, e.worker, source);
    } else if source !in after.cards {
      var w :| w in after.busy && after.busy[w].Read? && after.busy[w].found && WorksOn(after, w, source);
      assert w in s.busy && WorksOn(s, w, source);
    }
  }

  lemma GuardStays(s: Sys, e: Event, source: nat, j: nat)
    requires Inv(s) && Enabled(s, e) && Exclusive(s, e) && Guards(s, j, source)
    requires source in s.live && !Indexable(s, source) && Exposed(Apply(s, e), source)
    ensures Guards(Apply(s, e), j, source)
  {
    var after := Apply(s, e);
    match e
    case ReadSource(worker, job) =>
    case WriteCard(worker) =>
      if s.busy[worker].job == j {
        // The job has just removed the card, and nobody else is at the source.
        assert source !in after.cards;
        var w :| w in after.busy && after.busy[w].Read? && after.busy[w].found && WorksOn(after, w, source);
        assert WorksOn(s, w, source) && WorksOn(s, worker, source);
        assert false;
      }
    case Settle(worker) =>
    case _ =>
  }

  lemma StepKeepsLiveInv(s: Sys, e: Event)
    requires Inv(s) && Enabled(s, e) && Exclusive(s, e)
    ensures WellFormed(Apply(s, e)) && LiveInv(Apply(s, e))
  {
    var after := Apply(s, e);
    StepKeepsWellFormed(s, e);
    forall source | Indexable(after, source) && source !in after.cards
      ensures exists j :: Owes(after, j, source)
    {
      if source !in s.live {
        assert Owes(after, if e.Create? then e.job else e.replacement.value.1, source);
      } else {
        assert source !in s.cards;
        var j :| Owes(s, j, source);
        assert Owes(after, j, source);
      }
    }
  }

  lemma StepKeepsInv(s: Sys, e: Event)
    requires Inv(s) && Enabled(s, e) && Exclusive(s, e)
    ensures Inv(Apply(s, e))
  {
    StepKeepsWellFormed(s, e);
    StepKeepsAbsentInv(s, e);
    StepKeepsLiveInv(s, e);
  }

  // ---- Runs -------------------------------------------------------------------------------

  ghost predicate Run(states: seq<Sys>, events: seq<Event>) {
    && |states| == |events| + 1 && Init(states[0])
    && forall k | 0 <= k < |events| :: Enabled(states[k], events[k]) && states[k + 1] == Apply(states[k], events[k])
  }

  ghost predicate ExclusiveRun(states: seq<Sys>, events: seq<Event>) {
    Run(states, events) && forall k | 0 <= k < |events| :: Exclusive(states[k], events[k])
  }

  lemma {:induction false} RunKeepsInv(states: seq<Sys>, events: seq<Event>, k: nat)
    requires ExclusiveRun(states, events) && k < |states|
    ensures Inv(states[k])
  {
    hide Inv, Init;
    if k > 0 {
      RunKeepsInv(states, events, k - 1);
      StepKeepsInv(states[k - 1], events[k - 1]);
    } else {
      InitInv(states[0]);
    }
  }

  /** A run with one sequential worker, whatever it interleaves with, is exclusive. */
  lemma OneWorkerIsExclusive(states: seq<Sys>, events: seq<Event>, worker: nat)
    requires Run(states, events)
    requires forall k | 0 <= k < |events| && events[k].ReadSource? :: events[k].worker == worker
    ensures ExclusiveRun(states, events)
  {
    forall k | 0 <= k < |events| ensures Exclusive(states[k], events[k]) {
      OnlyThatWorker(states, events, worker, k);
    }
  }

  lemma {:induction false} OnlyThatWorker(states: seq<Sys>, events: seq<Event>, worker: nat, k: nat)
    requires Run(states, events) && k < |states|
    requires forall i | 0 <= i < |events| && events[i].ReadSource? :: events[i].worker == worker
    ensures forall w | w in states[k].busy :: w == worker
  {
    if k > 0 {
      OnlyThatWorker(states, events, worker, k - 1);
    }
  }

  /** In every state of every run with one worker at a time per source: a card of a deleted or blank
      source, and the missing card of a live one with text, exist only while an index job for that
      source is unsettled or dead-lettered. */
  lemma CardsFollowSources(states: seq<Sys>, events: seq<Event>, k: nat, source: nat)
    requires ExclusiveRun(states, events) && k < |states| && source in states[k].live
    ensures (states[k].live[source] && source !in states[k].blank) != (source in states[k].cards) ==>
              exists j :: j in states[k].jobs && states[k].jobs[j].source == source && !states[k].jobs[j].state.Settled?
  {
    RunKeepsInv(states, events, k);
    var s := states[k];
    if !Indexable(s, source) && source in s.cards {
      var j :| Guards(s, j, source);
    } else if Indexable(s, source) && source !in s.cards {
      var j :| Owes(s, j, source);
    }
  }

  /** No index job is left, and none was dead-lettered. */
  ghost predicate Drained(s: Sys) {
    forall j | j in s.jobs :: s.jobs[j].state.Settled?
  }

  /** Cards for exactly the live sources that have text. */
  ghost predicate Converged(s: Sys) {
    s.cards == set source | source in s.live && s.live[source] && source !in s.blank
  }

  /** Convergence: with one sequential worker, a queue that has drained without dead letters
      leaves cards for exactly the live sources that have text. */
  lemma DrainedQueueHasConverged(states: seq<Sys>, events: seq<Event>, worker: nat, k: nat)
    requires Run(states, events) && k < |states|
    requires forall i | 0 <= i < |events| && events[i].ReadSource? :: events[i].worker == worker
    requires Drained(states[k])
    ensures Converged(states[k])
  {
    hide Enabled, Apply;
    OneWorkerIsExclusive(states, events, worker);
    RunKeepsInv(states, events, k);
    forall source | source in states[k].live ensures (states[k].live[source] && source !in states[k].blank) == (source in states[k].cards) {
      CardsFollowSources(states, events, k, source);
    }
  }

  // ---- Why one worker ---------------------------------------------------------------------------

  function StateOf(live: bool, cards: set<nat>, first: JobState, second: JobState, busy: map<nat, Phase>): Sys {
    Sys(map[0 := live], {}, cards, map[0 := Job(0, first), 1 := Job(0, second)], busy)
  }

  lemma DivergingStart(a: nat)
    ensures var s0, s1 := Sys(map[], {}, {}, map[], map[]), Sys(map[0 := true], {}, {}, map[0 := Job(0, Pending)], map[]);
            var s2, s3 := s1.(busy := map[a := Read(0, true)]), StateOf(false, {}, Pending, Pending, map[a := Read(0, true)]);
            && Enabled(s0, Create(0, 0)) && Apply(s0, Create(0, 0)) == s1
            && Enabled(s1, ReadSource(a, 0)) && Apply(s1, ReadSource(a, 0)) == s2
            && Enabled(s2, Tombstone(0, 1, None)) && Apply(s2, Tombstone(0, 1, None)) == s3
  {
  }

  /** The second worker settles the trailing job while the first one is about to write. */
  lemma DivergingMiddle(a: nat, b: nat)
    requires a != b
    ensures var s3, s4 := StateOf(false, {}, Pending, Pending, map[a := Read(0, true)]),
                          StateOf(false, {}, Pending, Pending, map[a := Read(0, true), b := Read(1, false)]);
            var s5, s6 := StateOf(false, {}, Pending, Pending, map[a := Read(0, true), b := Wrote(1)]),
                          StateOf(false, {}, Pending, Settled, map[a := Read(0, true)]);
            && Enabled(s3, ReadSource(b, 1)) && Apply(s3, ReadSource(b, 1)) == s4
            && Enabled(s4, WriteCard(b)) && Apply(s4, WriteCard(b)) == s5
            && Enabled(s5, Settle(b)) && Apply(s5, Settle(b)) == s6
  {
    assert map[a := Read(0, true), b := Wrote(1)] - {b} == map[a := Read(0, true)];
  }

  lemma DivergingEnd(a: nat)
    ensures var s6, s7, s8 := StateOf(false, {}, Pending, Settled, map[a := Read(0, true)]),
                              StateOf(false, {0}, Pending, Settled, map[a := Wrote(0)]),
                              StateOf(false, {0}, Settled, Settled, map[]);
            && Enabled(s6, WriteCard(a)) && Apply(s6, WriteCard(a)) == s7
            && Enabled(s7, Settle(a)) && Apply(s7, Settle(a)) == s8
  {
    assert map[a := Wrote(0)] - {a} == map[];
  }

  ghost predicate By(events: seq<Event>, workers: set<nat>) {
    forall k | 0 <= k < |events| && events[k].ReadSource? :: events[k].worker in workers
  }

  /** Any two workers at one source can finish the trailing job before the late write: the queue
      drains without a dead letter and the card of the deleted source stays. */
  lemma TwoWorkersMayDiverge(a: nat, b: nat) returns (states: seq<Sys>, events: seq<Event>)
    requires a != b
    ensures Run(states, events) && By(events, {a, b})
    ensures var last := states[|events|]; Drained(last) && 0 in last.live && !last.live[0] && 0 in last.cards && !Converged(last)
  {
    hide Apply, Enabled;
    DivergingStart(a);
    DivergingMiddle(a, b);
    DivergingEnd(a);
    var s1 := Sys(map[0 := true], {}, {}, map[0 := Job(0, Pending)], map[]);
    var s8 := StateOf(false, {0}, Settled, Settled, map[]);
    states := [Sys(map[], {}, {}, map[], map[]), s1, s1.(busy := map[a := Read(0, true)]),
               StateOf(false, {}, Pending, Pending, map[a := Read(0, true)]),
               StateOf(false, {}, Pending, Pending, map[a := Read(0, true), b := Read(1, false)]),
               StateOf(false, {}, Pending, Pending, map[a := Read(0, true), b := Wrote(1)]),
               StateOf(false, {}, Pending, Settled, map[a := Read(0, true)]),
               StateOf(false, {0}, Pending, Settled, map[a := Wrote(0)]), s8];
    events := [Create(0, 0), ReadSource(a, 0), Tombstone(0, 1, None), ReadSource(b, 1), WriteCard(b), Settle(b), WriteCard(a), Settle(a)];
    assert 0 in s8.cards && !Indexable(s8, 0);
  }

  /** Every drained run of these workers has converged. */
  ghost predicate AlwaysConverges(workers: set<nat>) {
    forall states, events | Run(states, events) && By(events, workers) && Drained(states[|events|]) :: Converged(states[|events|])
  }

  /** The exact condition: convergence is assured for a set of workers if and only if there is at
      most one of them. */
  lemma ConvergesIffOneWorker(workers: set<nat>)
    ensures AlwaysConverges(workers) <==> |workers| <= 1
  {
    hide Enabled, Apply, Init, Drained, Converged;
    if |workers| <= 1 {
      var w := if workers == {} then 0 else OneOf(workers);
      AtMost(workers, w);
      forall states, events | Run(states, events) && By(events, workers) && Drained(states[|events|])
        ensures Converged(states[|events|])
      {
        DrainedQueueHasConverged(states, events, w, |events|);
      }
    } else {
      var a := OneOf(workers);
      assert |workers - {a}| == |workers| - 1;
      var b := OneOf(workers - {a});
      var states, events := TwoWorkersMayDiverge(a, b);
      assert By(events, workers);
    }
  }

  ghost function OneOf(workers: set<nat>): (w: nat)
    requires workers != {}
    ensures w in workers
  {
    var w :| w in workers; w
  }

  lemma AtMost(workers: set<nat>, w: nat)
    requires |workers| <= 1 && (workers == {} || w in workers)
    ensures forall v | v in workers :: v == w
  {
    if workers != {} {
      assert |workers - {w}| == 0;
    }
  }
}
