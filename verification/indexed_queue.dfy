/** The index handler on the leased queue: one poller that claims, reads, writes and settles index
    jobs step by step, together with everything that creates and tombstones sources. Its runs are
    runs of the convergence model, so that what converges there converges here. */
module IndexedQueue {
  import opened Options
  import Q = JobQueue
  import D = JobDiscipline
  import C = IndexConvergence

  /** The one poller. */
  const ME: nat := 0

  /** `source` tells the source of every index job; `phase` is what the handler of the poller's first
      claim has done. */
  datatype World = World(
    q: D.Pollers, live: map<nat, bool>, blank: set<nat>, cards: set<nat>, source: map<nat, nat>, phase: Option<C.Phase>)

  datatype Act =
    | Poll(move: D.Move)
    | Create(source: nat, job: nat, row: Q.Job)
    | Enqueue(source: nat, job: nat, row: Q.Job)
    | Tombstone(source: nat, job: nat, row: Q.Job, replacement: Option<(nat, nat)>)
    | ReadIt
    | WriteIt

  // ---- Steps --------------------------------------------------------------------------------------

  predicate Busy(w: World) {
    ME in w.q.todo && w.q.todo[ME] != []
  }

  /** The job the poller is at. */
  function Head(w: World): nat
    requires Busy(w)
  {
    w.q.todo[ME][0].0
  }

  predicate OnList(w: World, id: nat) {
    ME in w.q.todo && exists i :: 0 <= i < |w.q.todo[ME]| && w.q.todo[ME][i].0 == id
  }

  function Inserted(row: Q.Job, job: nat): D.Move {
    D.Other(Q.Insert(job, row))
  }

  /** A batch holds each job once and is claimed before any of it is handled; an index job counts as
      done only after its write; other jobs come and go. */
  predicate Can(w: World, a: Act, p: Q.Policy) {
    match a
    case Poll(m) =>
      && D.CanMove(w.q, m, p)
      && (match m
          case Start(poller) => poller == ME
          case Claims(poller, id, _, _) => poller == ME && w.phase.None? && !OnList(w, id)
          case Settles(poller, ending, _) =>
            poller == ME && (ending.Done? && Busy(w) && Head(w) in w.source ==> w.phase.Some? && w.phase.value.Wrote?)
          case Dies(poller) => poller == ME
          case Other(event) => event.Insert? ==> event.id !in w.source)
    case Create(source, job, row) => source !in w.live && job !in w.source && D.CanMove(w.q, Inserted(row, job), p)
    case Enqueue(source, job, row) => source in w.live && job !in w.source && D.CanMove(w.q, Inserted(row, job), p)
    case Tombstone(source, job, row, replacement) =>
      && source in w.live && w.live[source] && job !in w.source && D.CanMove(w.q, Inserted(row, job), p)
      && (replacement.Some? ==>
            && replacement.value.0 !in w.live && replacement.value.1 !in w.source && replacement.value.1 != job
            && D.CanMove(w.q, Inserted(row, replacement.value.1), p))
    case ReadIt => Busy(w) && w.phase.None? && Head(w) in w.source && w.source[Head(w)] in w.live
    case WriteIt => Busy(w) && w.phase.Some? && w.phase.value.Read? && Head(w) in w.source
  }

  function After(w: World, a: Act, p: Q.Policy): World
    requires Can(w, a, p)
  {
    match a
    case Poll(m) => w.(q := D.After(w.q, m, p), phase := if m.Settles? || m.Dies? then None else w.phase)
    case Create(source, job, row) =>
      w.(q := D.After(w.q, Inserted(row, job), p), live := w.live[source := true], source := w.source[job := source])
    case Enqueue(source, job, row) => w.(q := D.After(w.q, Inserted(row, job), p), source := w.source[job := source])
    case Tombstone(source, job, row, replacement) =>
      var gone := w.(q := D.After(w.q, Inserted(row, job), p), live := w.live[source := false], cards := w.cards - {source},
                     source := w.source[job := source]);
      if replacement.None? then gone
      else
        var (other, otherJob) := replacement.value;
        gone.(q := D.After(gone.q, Inserted(row, otherJob), p), live := gone.live[other := true], source := gone.source[otherJob := other])
    case ReadIt => w.(phase := Some(C.Read(Head(w), C.Indexable(Abs(w), w.source[Head(w)]))))
    case WriteIt =>
      var source := w.source[Head(w)];
      w.(cards := if w.phase.value.found then w.cards + {source} else w.cards - {source}, phase := Some(C.Wrote(Head(w))))
  }

  // ---- The convergence model ----------------------------------------------------------------------

  function StateOf(status: Q.Status): C.JobState {
    match status
    case Succeeded => C.Settled
    case DeadLetter => C.Dead
    case Cancelled => C.Dead
    case _ => C.Pending
  }

  function Jobs(w: World): map<nat, C.Job> {
    map id | id in w.q.sys.rows && id in w.source :: C.Job(w.source[id], StateOf(w.q.sys.rows[id].status))
  }

  function Abs(w: World): C.Sys {
    C.Sys(w.live, w.blank, w.cards, Jobs(w), if w.phase.Some? then map[ME := w.phase.value] else map[])
  }

  /** The step of the convergence model behind an act, if it shows there. */
  function EventOf(w: World, a: Act, p: Q.Policy): Option<C.Event>
    requires Can(w, a, p)
  {
    match a
    case Poll(m) =>
      (match m
       case Claims(_, id, _, _) =>
         if id in w.source && D.After(w.q, m, p).sys.rows[id].status.DeadLetter? && !w.q.sys.rows[id].status.DeadLetter?
         then Some(C.Refuse(id, true)) else None
       case Settles(_, ending, _) =>
         if Head(w) !in w.source then None
         else
           var dead := D.After(w.q, m, p).sys.rows[Head(w)].status.DeadLetter?;
           if ending.Done? then Some(C.Settle(ME))
           else if w.phase.Some? then Some(C.Fail(ME, dead))
           else Some(C.Refuse(Head(w), dead))
       case Dies(_) => if w.phase.Some? then Some(C.Crash(ME)) else None
       case _ => None)
    case Create(source, job, _) => Some(C.Create(source, job))
    case Enqueue(source, job, _) => Some(C.Enqueue(source, job))
    case Tombstone(source, job, _, replacement) => Some(C.Tombstone(source, job, replacement))
    case ReadIt => Some(C.ReadSource(ME, Head(w)))
    case WriteIt => Some(C.WriteCard(ME))
  }

  // ---- Invariant ----------------------------------------------------------------------------------

  /** A claim on the poller's list is current: nobody else has taken or settled the job. */
  ghost predicate Current(w: World, i: nat)
    requires ME in w.q.todo && i < |w.q.todo[ME]|
  {
    var (id, token) := w.q.todo[ME][i];
    id in w.q.sys.rows && w.q.sys.rows[id].token == token && w.q.sys.rows[id].status.Leased?
  }

  ghost predicate ListInv(w: World) {
    && w.q.todo.Keys <= {ME}
    && (ME in w.q.todo ==>
          && (forall i: nat | i < |w.q.todo[ME]| :: Current(w, i))
          && (forall i, j | 0 <= i < j < |w.q.todo[ME]| :: w.q.todo[ME][i].0 != w.q.todo[ME][j].0))
  }

  ghost predicate PhaseInv(w: World) {
    && (w.phase.Some? ==> Busy(w) && Head(w) in w.source && w.phase.value.job == Head(w))
    && (forall id | id in w.source :: id in w.q.sys.rows && w.source[id] in w.live)
  }

  ghost predicate Inv(w: World, p: Q.Policy) {
    D.PollInv(w.q, p) && ListInv(w) && PhaseInv(w)
  }

  // ---- What a move does to the rows -----------------------------------------------------------------

  predicate SameStatus(before: Q.Job, after: Q.Job) {
    before.status == after.status && before.token == after.token
  }

  lemma FreeMove(s: D.Pollers, m: D.Move, p: Q.Policy)
    requires D.CanMove(s, m, p) && (m.Start? || m.Dies? || m.Other?)
    ensures var after := D.After(s, m, p);
            && (forall id | id in s.sys.rows :: id in after.sys.rows && SameStatus(s.sys.rows[id], after.sys.rows[id]))
            && after.sys.rows.Keys == s.sys.rows.Keys + (if m.Other? && m.event.Insert? then {m.event.id} else {})
            && (m.Other? && m.event.Insert? ==> m.event.id !in s.sys.rows && after.sys.rows[m.event.id].status.Queued?)
            && (m.Other? ==> after.todo == s.todo)
  {
  }

  lemma ClaimMove(s: D.Pollers, m: D.Move, p: Q.Policy)
    requires Q.ValidPolicy(p) && Q.Inv(s.sys, p) && D.CanMove(s, m, p) && m.Claims?
    ensures var after := D.After(s, m, p);
            && after.sys.rows.Keys == s.sys.rows.Keys && m.id in s.sys.rows
            && (forall id | id in s.sys.rows && id != m.id :: after.sys.rows[id] == s.sys.rows[id])
            && var row, now := s.sys.rows[m.id], after.sys.rows[m.id];
            && (now == row || StateOf(row.status).Pending?)
            && (now == row || (now.status.DeadLetter? && now.token == row.token) || (now.status.Leased? && now.token == row.token + 1))
            && after.todo == (if now.token > row.token then s.todo[m.poller := s.todo[m.poller] + [(m.id, now.token)]] else s.todo)
  {
    assert Q.RowOk(s.sys.rows[m.id], p);
  }

  lemma SettleMove(s: D.Pollers, m: D.Move, p: Q.Policy)
    requires D.CanMove(s, m, p) && m.Settles?
    requires var (id, token) := s.todo[m.poller][0]; id in s.sys.rows && s.sys.rows[id].token == token && s.sys.rows[id].status.Leased?
    ensures var id, after := s.todo[m.poller][0].0, D.After(s, m, p);
            && after.sys.rows.Keys == s.sys.rows.Keys
            && (forall other | other in s.sys.rows && other != id :: after.sys.rows[other] == s.sys.rows[other])
            && (if m.ending.Done? then after.sys.rows[id].status.Succeeded?
                else after.sys.rows[id].status.DeadLetter? || after.sys.rows[id].status.RetryWait?)
            && after.todo == s.todo[m.poller := s.todo[m.poller][1..]]
  {
  }

  // ---- Simulation -----------------------------------------------------------------------------------

  lemma FreeSimulates(w: World, m: D.Move, p: Q.Policy)
    requires Inv(w, p) && Can(w, Poll(m), p) && (m.Start? || m.Dies? || m.Other?)
    ensures Simulates(w, Poll(m), p) && ListInv(After(w, Poll(m), p)) && PhaseInv(After(w, Poll(m), p))
  {
    hide D.CanMove, D.After, D.PollInv;
    FreeMove(w.q, m, p);
    var after := After(w, Poll(m), p);
    assert Jobs(after) == Jobs(w);
    TodoAfterFree(w, m, p);
    assert m.Dies? && w.phase.Some? ==> Abs(w).busy - {ME} == map[];
  }

  lemma TodoAfterFree(w: World, m: D.Move, p: Q.Policy)
    requires ListInv(w) && PhaseInv(w) && Can(w, Poll(m), p) && (m.Start? || m.Dies? || m.Other?)
    ensures ListInv(After(w, Poll(m), p)) && PhaseInv(After(w, Poll(m), p))
  {
    FreeMove(w.q, m, p);
    var after := After(w, Poll(m), p);
    if m.Other? {
      hide D.CanMove, D.After;
      forall i: nat | ME in after.q.todo && i < |after.q.todo[ME]| ensures Current(after, i) {
        assert Current(w, i);
      }
    }
  }

  /** The act shows in the convergence model as one of its events, or not at all. */
  ghost predicate Simulates(w: World, a: Act, p: Q.Policy)
    requires Can(w, a, p)
  {
    var e, after := EventOf(w, a, p), After(w, a, p);
    if e.None? then Abs(after) == Abs(w)
    else C.Enabled(Abs(w), e.value) && C.Apply(Abs(w), e.value) == Abs(after)
  }

  lemma JobsAfterClaim(w: World, m: D.Move, p: Q.Policy)
    requires Q.ValidPolicy(p) && Inv(w, p) && Can(w, Poll(m), p) && m.Claims?
    ensures var after, e := After(w, Poll(m), p), EventOf(w, Poll(m), p);
            if e.None? then Jobs(after) == Jobs(w)
            else e == Some(C.Refuse(m.id, true)) && m.id in Jobs(w) && Jobs(w)[m.id].state.Pending? && Jobs(after) == C.SetState(Abs(w), m.id, C.Dead)
  {
    ClaimMove(w.q, m, p);
    hide D.CanMove, D.After, D.PollInv, ListInv, PhaseInv;
    var after, e := After(w, Poll(m), p), EventOf(w, Poll(m), p);
    assert e.None? ==> Jobs(after) == Jobs(w);
    assert e.Some? ==> Jobs(after) == C.SetState(Abs(w), m.id, C.Dead);
  }

  lemma ClaimSimulates(w: World, m: D.Move, p: Q.Policy)
    requires Q.ValidPolicy(p) && Inv(w, p) && Can(w, Poll(m), p) && m.Claims?
    ensures Simulates(w, Poll(m), p) && ListInv(After(w, Poll(m), p)) && PhaseInv(After(w, Poll(m), p))
  {
    hide D.CanMove, D.After, D.PollInv, Jobs, ListInv, PhaseInv, OnList;
    JobsAfterClaim(w, m, p);
    ListAfterClaim(w, m, p, After(w, Poll(m), p));
  }

  lemma ListAfterClaim(w: World, m: D.Move, p: Q.Policy, after: World)
    requires Q.ValidPolicy(p) && Inv(w, p) && Can(w, Poll(m), p) && m.Claims? && after == After(w, Poll(m), p)
    ensures ListInv(after) && PhaseInv(after)
  {
    ClaimMove(w.q, m, p);
    hide D.CanMove, D.After, D.PollInv;
    var list, now := w.q.todo[ME], after.q.todo[ME];
    assert list <= now;
    forall i: nat | i < |now| ensures Current(after, i) {
      if i < |list| {
        assert Current(w, i) && list[i].0 != m.id;
      }
    }
  }

  lemma JobsAfterSettle(w: World, m: D.Move, p: Q.Policy)
    requires Inv(w, p) && Can(w, Poll(m), p) && m.Settles?
    ensures var after, head := After(w, Poll(m), p), Head(w);
            && head in after.q.sys.rows
            && var status := after.q.sys.rows[head].status;
            && (if m.ending.Done? then status.Succeeded? else status.DeadLetter? || status.RetryWait?)
            && (if head in w.source then head in Jobs(w) && Jobs(w)[head].state.Pending? && Jobs(after) == C.SetState(Abs(w), head, StateOf(status))
                else Jobs(after) == Jobs(w))
  {
    assert Current(w, 0);
    SettleMove(w.q, m, p);
    hide D.CanMove, D.After, D.PollInv;
    var after, head := After(w, Poll(m), p), Head(w);
    if head in w.source {
      assert Jobs(after) == C.SetState(Abs(w), head, StateOf(after.q.sys.rows[head].status));
    } else {
      assert Jobs(after) == Jobs(w);
    }
  }

  lemma SettleSimulates(w: World, m: D.Move, p: Q.Policy)
    requires Inv(w, p) && Can(w, Poll(m), p) && m.Settles?
    ensures Simulates(w, Poll(m), p) && ListInv(After(w, Poll(m), p)) && PhaseInv(After(w, Poll(m), p))
  {
    hide C.Apply, C.Enabled;
    ListAfterSettle(w, m, p, After(w, Poll(m), p));
    JobsAfterSettle(w, m, p);
    hide D.CanMove, D.After, D.PollInv, Jobs, ListInv;
    assert w.phase.Some? ==> Abs(w).busy - {ME} == map[];
    if Head(w) in w.source {
      if m.ending.Done? {
        SettledInModel(w, After(w, Poll(m), p), C.Settle(ME), Head(w), C.Settled);
      } else {
        var dead := After(w, Poll(m), p).q.sys.rows[Head(w)].status.DeadLetter?;
        var e := if w.phase.Some? then C.Fail(ME, dead) else C.Refuse(Head(w), dead);
        SettledInModel(w, After(w, Poll(m), p), e, Head(w), if dead then C.Dead else C.Pending);
      }
    }
  }

  /** A settlement, as the convergence model sees it. */
  lemma SettledInModel(w: World, after: World, e: C.Event, head: nat, state: C.JobState)
    requires head in Jobs(w) && Jobs(w)[head].state.Pending? && after.phase == None
    requires after.live == w.live && after.blank == w.blank && after.cards == w.cards && Jobs(after) == C.SetState(Abs(w), head, state)
    requires w.phase.Some? ==> w.phase.value.job == head
    requires || (e == C.Settle(ME) && state == C.Settled && w.phase.Some? && w.phase.value.Wrote?)
             || (e.Fail? && e.worker == ME && w.phase.Some? && state == if e.dead then C.Dead else C.Pending)
             || (e.Refuse? && e.job == head && w.phase.None? && state == if e.dead then C.Dead else C.Pending)
    ensures C.Enabled(Abs(w), e) && C.Apply(Abs(w), e) == Abs(after)
  {
    hide Jobs;
    assert w.phase.Some? ==> Abs(w).busy - {ME} == map[];
  }

  lemma ListAfterSettle(w: World, m: D.Move, p: Q.Policy, after: World)
    requires Inv(w, p) && Can(w, Poll(m), p) && m.Settles? && after == After(w, Poll(m), p)
    ensures ListInv(after) && PhaseInv(after)
  {
    assert Current(w, 0);
    SettleMove(w.q, m, p);
    hide D.CanMove, D.After, D.PollInv;
    var list, now := w.q.todo[ME], after.q.todo[ME];
    forall i: nat | i < |now| ensures Current(after, i) {
      assert Current(w, i + 1) && now[i] == list[i + 1] && list[0].0 != list[i + 1].0;
    }
    forall i, j | 0 <= i < j < |now| ensures now[i].0 != now[j].0 {
      assert now[i] == list[i + 1] && now[j] == list[j + 1];
    }
  }

  /** A new job for a source, old or new. */
  lemma InsertSimulates(w: World, row: Q.Job, job: nat, source: nat, live: map<nat, bool>, cards: set<nat>, p: Q.Policy) returns (after: World)
    requires ListInv(w) && PhaseInv(w) && job !in w.source && D.CanMove(w.q, Inserted(row, job), p)
    requires source in live && forall s | s in w.live :: s in live
    ensures after == w.(q := D.After(w.q, Inserted(row, job), p), live := live, cards := cards, source := w.source[job := source])
    ensures ListInv(after) && PhaseInv(after) && Jobs(after) == Jobs(w)[job := C.Job(source, C.Pending)]
    ensures job !in Jobs(w)
  {
    after := w.(q := D.After(w.q, Inserted(row, job), p), live := live, cards := cards, source := w.source[job := source]);
    FreeMove(w.q, Inserted(row, job), p);
    hide D.CanMove, D.After;
    forall i: nat | ME in after.q.todo && i < |after.q.todo[ME]| ensures Current(after, i) {
      assert Current(w, i);
    }
  }

  lemma SourceSimulates(w: World, a: Act, p: Q.Policy)
    requires ListInv(w) && PhaseInv(w) && Can(w, a, p) && (a.Create? || a.Enqueue?)
    ensures Simulates(w, a, p) && ListInv(After(w, a, p)) && PhaseInv(After(w, a, p))
  {
    hide D.CanMove, D.After, Jobs, ListInv;
    var live := if a.Create? then w.live[a.source := true] else w.live;
    var t := InsertSimulates(w, a.row, a.job, a.source, live, w.cards, p);
  }

  lemma TombstoneSimulates(w: World, a: Act, p: Q.Policy)
    requires ListInv(w) && PhaseInv(w) && Can(w, a, p) && a.Tombstone?
    ensures Simulates(w, a, p) && ListInv(After(w, a, p)) && PhaseInv(After(w, a, p))
  {
    hide D.CanMove, D.After, Jobs, ListInv;
    var t := InsertSimulates(w, a.row, a.job, a.source, w.live[a.source := false], w.cards - {a.source}, p);
    if a.replacement.Some? {
      var (other, otherJob) := a.replacement.value;
      StillInsertable(w.q, a.job, otherJob, a.row, p);
      var u := InsertSimulates(t, a.row, otherJob, other, t.live[other := true], t.cards, p);
    }
  }

  lemma HandlerSimulates(w: World, a: Act, p: Q.Policy)
    requires ListInv(w) && PhaseInv(w) && Can(w, a, p) && (a.ReadIt? || a.WriteIt?)
    ensures Simulates(w, a, p) && ListInv(After(w, a, p)) && PhaseInv(After(w, a, p))
  {
    var after := After(w, a, p);
    assert Current(w, 0);
    assert Jobs(after) == Jobs(w);
    forall i: nat | i < |w.q.todo[ME]| ensures Current(after, i) {
      assert Current(w, i);
    }
  }

  lemma ActSimulates(w: World, a: Act, p: Q.Policy)
    requires Q.ValidPolicy(p) && Inv(w, p) && Can(w, a, p)
    ensures Simulates(w, a, p) && Inv(After(w, a, p), p)
  {
    QueueKept(w, a, p);
    hide D.PollInv, D.CanMove, D.After, ListInv, PhaseInv, Simulates;
    match a {
      case Poll(m) =>
        match m {
          case Claims(_, _, _, _) => ClaimSimulates(w, m, p);
          case Settles(_, _, _) => SettleSimulates(w, m, p);
          case _ => FreeSimulates(w, m, p);
        }
      case ReadIt => HandlerSimulates(w, a, p);
      case WriteIt => HandlerSimulates(w, a, p);
      case Tombstone(_, _, _, _) => TombstoneSimulates(w, a, p);
      case _ => SourceSimulates(w, a, p);
    }
  }

  lemma QueueKept(w: World, a: Act, p: Q.Policy)
    requires Q.ValidPolicy(p) && D.PollInv(w.q, p) && Can(w, a, p)
    ensures D.PollInv(After(w, a, p).q, p)
  {
    hide D.PollInv, D.CanMove, D.After;
    match a {
      case Poll(m) => D.MoveKeepsInv(w.q, m, p);
      case Create(_, job, row) => D.MoveKeepsInv(w.q, Inserted(row, job), p);
      case Enqueue(_, job, row) => D.MoveKeepsInv(w.q, Inserted(row, job), p);
      case Tombstone(_, job, row, replacement) =>
        D.MoveKeepsInv(w.q, Inserted(row, job), p);
        if replacement.Some? {
          StillInsertable(w.q, job, replacement.value.1, row, p);
          D.MoveKeepsInv(D.After(w.q, Inserted(row, job), p), Inserted(row, replacement.value.1), p);
        }
      case _ =>
    }
  }

  lemma StillInsertable(s: D.Pollers, job: nat, other: nat, row: Q.Job, p: Q.Policy)
    requires job != other && D.CanMove(s, Inserted(row, job), p) && D.CanMove(s, Inserted(row, other), p)
    ensures D.CanMove(D.After(s, Inserted(row, job), p), Inserted(row, other), p)
  {
  }

  // ---- Runs -----------------------------------------------------------------------------------------

  ghost predicate Run(worlds: seq<World>, acts: seq<Act>, p: Q.Policy) {
    && |worlds| == |acts| + 1
    && worlds[0].live == map[] && worlds[0].cards == {} && worlds[0].source == map[] && worlds[0].phase == None
    && worlds[0].q.todo == map[] && D.PollInv(worlds[0].q, p)
    && forall k | 0 <= k < |acts| :: Can(worlds[k], acts[k], p) && worlds[k + 1] == After(worlds[k], acts[k], p)
  }

  /** Every run of the poller at the leased queue is, in the terms of the convergence model, a run of
      one worker. */
  lemma {:induction false} RunProjects(worlds: seq<World>, acts: seq<Act>, p: Q.Policy, k: nat)
    returns (states: seq<C.Sys>, events: seq<C.Event>)
    requires Q.ValidPolicy(p) && Run(worlds, acts, p) && k < |worlds|
    ensures C.Run(states, events) && C.By(events, {ME}) && states[|events|] == Abs(worlds[k])
    ensures Inv(worlds[k], p)
  {
    hide D.PollInv, Can, After, C.Enabled, C.Apply;
    if k == 0 {
      NoJobs(worlds[0]);
      states, events := [Abs(worlds[0])], [];
    } else {
      states, events := RunProjects(worlds, acts, p, k - 1);
      ActSimulates(worlds[k - 1], acts[k - 1], p);
      assert worlds[k - 1 + 1] == After(worlds[k - 1], acts[k - 1], p);
      var e := EventOf(worlds[k - 1], acts[k - 1], p);
      if e.Some? {
        OnlyMe(worlds[k - 1], acts[k - 1], p);
        states, events := RunExtends(states, events, e.value, Abs(worlds[k]));
      }
    }
  }

  lemma NoJobs(w: World)
    requires w.live == map[] && w.cards == {} && w.source == map[] && w.phase == None && w.q.todo == map[]
    ensures C.Init(Abs(w)) && ListInv(w) && PhaseInv(w)
  {
  }

  lemma OnlyMe(w: World, a: Act, p: Q.Policy)
    requires Can(w, a, p) && EventOf(w, a, p).Some?
    ensures EventOf(w, a, p).value.ReadSource? ==> EventOf(w, a, p).value.worker == ME
  {
  }

  lemma RunExtends(states: seq<C.Sys>, events: seq<C.Event>, e: C.Event, after: C.Sys) returns (more: seq<C.Sys>, moreEvents: seq<C.Event>)
    requires C.Run(states, events) && C.By(events, {ME}) && C.Enabled(states[|events|], e) && after == C.Apply(states[|events|], e)
    requires e.ReadSource? ==> e.worker == ME
    ensures C.Run(more, moreEvents) && C.By(moreEvents, {ME}) && more[|moreEvents|] == after
  {
    hide C.Enabled, C.Apply, C.Init;
    more, moreEvents := states + [after], events + [e];
    forall k | 0 <= k < |moreEvents| ensures C.Enabled(more[k], moreEvents[k]) && more[k + 1] == C.Apply(more[k], moreEvents[k]) {
      if k < |events| {
        assert more[k] == states[k] && more[k + 1] == states[k + 1] && moreEvents[k] == events[k];
      }
    }
  }

  /** Convergence of the leased queue: once every index job has succeeded, there are cards for exactly
      the live sources that have text, whatever leases, retries, crashes and restarts came before. */
  lemma LeasedQueueConverges(worlds: seq<World>, acts: seq<Act>, p: Q.Policy, k: nat)
    requires Q.ValidPolicy(p) && Run(worlds, acts, p) && k < |worlds|
    requires forall id | id in worlds[k].source && id in worlds[k].q.sys.rows :: worlds[k].q.sys.rows[id].status.Succeeded?
    ensures worlds[k].cards == set source | source in worlds[k].live && worlds[k].live[source] && source !in worlds[k].blank
  {
    hide Run, C.Run;
    var states, events := RunProjects(worlds, acts, p, k);
    var s := Abs(worlds[k]);
    assert C.Drained(s);
    RunLength(states, events);
    C.DrainedQueueHasConverged(states, events, ME, |events|);
    assert C.Converged(s);
  }

  lemma RunLength(states: seq<C.Sys>, events: seq<C.Event>)
    requires C.Run(states, events)
    ensures |states| == |events| + 1
  {
  }
}
