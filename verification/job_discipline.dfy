/** Many pollers at one queue. Each works through the claims it won and settles each of them once;
    this is all the discipline that the guarantees for finished jobs ask for. */
module JobDiscipline {
  import opened Options
  import opened JobQueue

  /** The claims each running poller still has to settle, in the order of its batch. */
  datatype Pollers = Pollers(sys: Sys, todo: map<nat, seq<(nat, nat)>>)

  /** How a handler ended. A failure is recorded from a version of the row read after the claim. */
  datatype Ending = Done(result: nat) | Failed(version: Job, retryable: bool, error: string, jitter: real)

  datatype Move =
    | Start(poller: nat)
    | Claims(poller: nat, id: nat, version: Job, at: real)
    | Settles(poller: nat, ending: Ending, at: real)
    | Dies(poller: nat)
    | Other(event: Event)

  /** The step of the queue behind a move, if there is one. */
  function EventOf(s: Pollers, m: Move): Option<Event> {
    match m
    case Claims(poller, id, version, at) => Some(Claim(id, version, poller, at))
    case Settles(poller, ending, at) =>
      if poller in s.todo && s.todo[poller] != [] then
        var (id, token) := s.todo[poller][0];
        match ending
        case Done(result) => Some(Complete(id, token, result, at))
        case Failed(version, retryable, error, jitter) => Some(Fail(id, token, version, retryable, error, jitter, at))
      else None
    case Other(event) => Some(event)
    case _ => None
  }

  /** A poller claims only as itself and settles only the first claim on its list; heartbeats,
      progress, inserts, reads and the clock are free. */
  predicate CanMove(s: Pollers, m: Move, p: Policy) {
    match m
    case Start(poller) => poller !in s.todo
    case Claims(poller, _, _, _) => poller in s.todo && Enabled(s.sys, EventOf(s, m).value, p)
    case Settles(poller, _, _) => poller in s.todo && s.todo[poller] != [] && Enabled(s.sys, EventOf(s, m).value, p)
    case Dies(poller) => poller in s.todo
    case Other(event) => !event.Claim? && !event.Complete? && !event.Fail? && Enabled(s.sys, event, p)
  }

  function After(s: Pollers, m: Move, p: Policy): Pollers
    requires CanMove(s, m, p)
  {
    match m
    case Start(poller) => s.(todo := s.todo[poller := []])
    case Claims(poller, id, version, at) =>
      var sys := Apply(s.sys, EventOf(s, m).value, p);
      Pollers(sys, if sys.rows[id].token > s.sys.rows[id].token then s.todo[poller := s.todo[poller] + [(id, sys.rows[id].token)]] else s.todo)
    case Settles(poller, _, _) => Pollers(Apply(s.sys, EventOf(s, m).value, p), s.todo[poller := s.todo[poller][1..]])
    case Dies(poller) => s.(todo := s.todo - {poller})
    case Other(event) => s.(sys := Apply(s.sys, event, p))
  }

  predicate Has(todo: map<nat, seq<(nat, nat)>>, poller: nat, i: int) {
    poller in todo && 0 <= i < |todo[poller]|
  }

  /** What is on a list is held, and on no other list and no other place. */
  ghost predicate ListsInv(s: Pollers) {
    && (forall q, i | Has(s.todo, q, i) :: s.todo[q][i] in s.sys.held)
    && (forall q, i, r, j | Has(s.todo, q, i) && Has(s.todo, r, j) && s.todo[q][i] == s.todo[r][j] :: q == r && i == j)
  }

  ghost predicate PollInv(s: Pollers, p: Policy) {
    HeldInv(s.sys, p) && ListsInv(s)
  }

  lemma MoveIsDisciplined(s: Pollers, m: Move, p: Policy)
    requires ListsInv(s) && CanMove(s, m, p) && EventOf(s, m).Some?
    ensures Enabled(s.sys, EventOf(s, m).value, p) && Disciplined(s.sys, EventOf(s, m).value)
    ensures After(s, m, p).sys == Apply(s.sys, EventOf(s, m).value, p)
  {
    if m.Settles? {
      assert Has(s.todo, m.poller, 0);
    }
  }

  /** A new claim carries a token that no list has for its job. */
  lemma ClaimKeepsLists(s: Pollers, m: Move, p: Policy)
    requires ValidPolicy(p) && Inv(s.sys, p) && ListsInv(s) && CanMove(s, m, p) && m.Claims?
    ensures ListsInv(After(s, m, p))
  {
    hide ClaimRow;
    var after := After(s, m, p);
    StepKeepsRow(s.sys, EventOf(s, m).value, p, m.id);
    var won := (m.id, after.sys.rows[m.id].token);
    forall q, i | Has(s.todo, q, i) ensures after.sys.rows[m.id].token > s.sys.rows[m.id].token ==> s.todo[q][i] != won {
      assert s.todo[q][i] in s.sys.held;
    }
    if after.todo != s.todo {
      var list := s.todo[m.poller];
      assert after.todo[m.poller] == list + [won];
      forall q, i | Has(after.todo, q, i) ensures (after.todo[q][i] == won && q == m.poller && i == |list|) || (Has(s.todo, q, i) && after.todo[q][i] == s.todo[q][i]) {
      }
    }
  }

  lemma SettleKeepsLists(s: Pollers, m: Move, p: Policy)
    requires ListsInv(s) && CanMove(s, m, p) && m.Settles?
    ensures ListsInv(After(s, m, p))
  {
    hide CompleteRow, FailRow;
    var after := After(s, m, p);
    var first := s.todo[m.poller][0];
    assert Has(s.todo, m.poller, 0);
    assert after.sys.held == s.sys.held - {first};
    forall q, i | Has(after.todo, q, i)
      ensures Has(s.todo, q, if q == m.poller then i + 1 else i) && after.todo[q][i] == s.todo[q][if q == m.poller then i + 1 else i]
    {
    }
  }

  lemma MoveKeepsInv(s: Pollers, m: Move, p: Policy)
    requires ValidPolicy(p) && PollInv(s, p) && CanMove(s, m, p)
    ensures PollInv(After(s, m, p), p)
  {
    if EventOf(s, m).Some? {
      MoveIsDisciplined(s, m, p);
      StepKeepsHeldInv(s.sys, EventOf(s, m).value, p);
    }
    hide HeldInv, Enabled;
    match m {
      case Claims(_, _, _, _) =>
        HeldIsInv(s.sys, p);
        ClaimKeepsLists(s, m, p);
      case Settles(_, _, _) => SettleKeepsLists(s, m, p);
      case Other(_) => ListsKept(s, m, p);
      case _ => ListsKept(s, m, p);
    }
  }

  lemma HeldIsInv(s: Sys, p: Policy)
    requires HeldInv(s, p)
    ensures Inv(s, p)
  {
  }

  lemma ListsKept(s: Pollers, m: Move, p: Policy)
    requires ListsInv(s) && CanMove(s, m, p) && !m.Claims? && !m.Settles?
    ensures ListsInv(After(s, m, p))
  {
    var after := After(s, m, p);
    assert after.sys.held == s.sys.held;
    forall q, i | Has(after.todo, q, i) ensures Has(s.todo, q, i) && after.todo[q][i] == s.todo[q][i] {
    }
  }

  // ---- Runs ---------------------------------------------------------------------------------------

  ghost predicate PollRun(states: seq<Pollers>, moves: seq<Move>, p: Policy) {
    && |states| == |moves| + 1 && PollInv(states[0], p)
    && forall k | 0 <= k < |moves| :: CanMove(states[k], moves[k], p) && states[k + 1] == After(states[k], moves[k], p)
  }

  lemma {:induction false} PollRunKeepsInv(states: seq<Pollers>, moves: seq<Move>, p: Policy, k: nat)
    requires ValidPolicy(p) && PollRun(states, moves, p) && k < |states|
    ensures PollInv(states[k], p)
  {
    hide PollInv, CanMove, After;
    if k > 0 {
      PollRunKeepsInv(states, moves, p, k - 1);
      MoveKeepsInv(states[k - 1], moves[k - 1], p);
    }
  }

  /** The discipline, derived: in every interleaving of any number of pollers, started and killed at
      any time, every step at the queue is disciplined. */
  lemma PollersAreDisciplined(states: seq<Pollers>, moves: seq<Move>, p: Policy, k: nat)
    requires ValidPolicy(p) && PollRun(states, moves, p) && k < |moves|
    ensures var e := EventOf(states[k], moves[k]);
            if e.Some? then Enabled(states[k].sys, e.value, p) && Disciplined(states[k].sys, e.value)
                            && states[k + 1].sys == Apply(states[k].sys, e.value, p)
            else states[k + 1].sys == states[k].sys
  {
    hide Enabled, Apply;
    PollRunKeepsInv(states, moves, p, k);
    if EventOf(states[k], moves[k]).Some? {
      MoveIsDisciplined(states[k], moves[k], p);
    }
  }

  lemma PolledStep(s: Pollers, m: Move, p: Policy, id: nat)
    requires ValidPolicy(p) && PollInv(s, p) && CanMove(s, m, p)
    requires id in s.sys.rows && Terminal(s.sys.rows[id].status) && s.sys.rows[id].maxAttempts >= p.maxAttempts
    ensures id in After(s, m, p).sys.rows
    ensures var before, after := s.sys.rows[id], After(s, m, p).sys.rows[id];
            after.status == before.status && after.maxAttempts == before.maxAttempts && (before.status.Succeeded? ==> after == before)
  {
    hide HeldInv, ListsInv;
    if EventOf(s, m).Some? {
      MoveIsDisciplined(s, m, p);
      FinishedStep(s.sys, EventOf(s, m).value, p, id);
    }
  }

  /** So a job finished by pollers stays finished. */
  lemma {:induction false} PolledJobsStayFinished(states: seq<Pollers>, moves: seq<Move>, p: Policy, id: nat, i: nat, j: nat)
    requires ValidPolicy(p) && PollRun(states, moves, p) && i <= j < |states|
    requires id in states[i].sys.rows && Terminal(states[i].sys.rows[id].status) && states[i].sys.rows[id].maxAttempts >= p.maxAttempts
    ensures id in states[j].sys.rows && states[j].sys.rows[id].status == states[i].sys.rows[id].status
    ensures states[j].sys.rows[id].maxAttempts == states[i].sys.rows[id].maxAttempts
    ensures states[i].sys.rows[id].status.Succeeded? ==> states[j].sys.rows[id] == states[i].sys.rows[id]
  {
    hide CanMove, After, PollInv, ValidPolicy;
    if i < j {
      PolledJobsStayFinished(states, moves, p, id, i, j - 1);
      PollRunKeepsInv(states, moves, p, j - 1);
      PolledStep(states[j - 1], moves[j - 1], p, id);
    }
  }
}
