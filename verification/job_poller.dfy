/** The jobs table and the poller that claims a batch and settles it job by job. */
module JobPoller {
  import opened Options
  import opened JobQueue
  import opened SetSizes

  const BATCH_SIZE := 10

  /** How the handler of one claimed job ended. */
  datatype Ending = NoHandler | Raised(error: string, retryable: bool) | Crashed | Done(result: nat)

  function ReadyIds(rows: map<nat, Job>, owner: nat, now: real): set<nat> {
    set id | id in rows && rows[id].owner == owner && Ready(rows[id], now)
  }

  /** `b` does not come before `a`: by priority, then by the time it became available. */
  predicate NotBefore(a: Job, b: Job) {
    a.priority > b.priority || (a.priority == b.priority && a.availableAt <= b.availableAt)
  }

  /** An answer of the candidate query: the first ready rows of one owner by priority and time, as
      many as there are up to a batch; rows of equal priority and time in any order. */
  ghost predicate IsCandidates(rows: map<nat, Job>, owner: nat, now: real, ids: seq<nat>) {
    && |ids| == Min(BATCH_SIZE, |ReadyIds(rows, owner, now)|)
    && (forall i | 0 <= i < |ids| :: ids[i] in ReadyIds(rows, owner, now))
    && (forall i, j | 0 <= i < j < |ids| :: ids[i] != ids[j] && NotBefore(rows[ids[i]], rows[ids[j]]))
    && (forall i, id | 0 <= i < |ids| && id in ReadyIds(rows, owner, now) && id !in ids :: NotBefore(rows[ids[i]], rows[id]))
  }

  /** Candidates are the owner's, and no ready row of the owner that is left out should have come first. */
  lemma CandidatesAreFirst(rows: map<nat, Job>, owner: nat, now: real, ids: seq<nat>)
    requires IsCandidates(rows, owner, now, ids)
    ensures forall id | id in ids :: id in rows && rows[id].owner == owner && Ready(rows[id], now)
    ensures forall id, other | id in ids && other in rows && rows[other].owner == owner && Ready(rows[other], now) && other !in ids ::
              || rows[other].priority < rows[id].priority
              || (rows[other].priority == rows[id].priority && rows[other].availableAt >= rows[id].availableAt)
  {
  }

  /** No ready row is left out of a batch that is not full. */
  lemma SmallBatchIsComplete(rows: map<nat, Job>, owner: nat, now: real, ids: seq<nat>)
    requires IsCandidates(rows, owner, now, ids) && |ReadyIds(rows, owner, now)| <= BATCH_SIZE
    ensures forall id | id in rows && rows[id].owner == owner && Ready(rows[id], now) :: id in ids
  {
    hide Ready, NotBefore;
    var listed := set i | 0 <= i < |ids| :: ids[i];
    DistinctSize(ids);
    assert listed <= ReadyIds(rows, owner, now);
    SubsetEqual(listed, ReadyIds(rows, owner, now));
    forall id | id in ReadyIds(rows, owner, now) ensures id in ids {
      assert id in listed;
    }
  }

  lemma {:induction false} DistinctSize(ids: seq<nat>)
    requires forall i, j | 0 <= i < j < |ids| :: ids[i] != ids[j]
    ensures |set i | 0 <= i < |ids| :: ids[i]| == |ids|
  {
    if ids != [] {
      var front, last := ids[..|ids| - 1], ids[|ids| - 1];
      DistinctSize(front);
      assert (set i | 0 <= i < |ids| :: ids[i]) == (set i | 0 <= i < |front| :: front[i]) + {last};
    }
  }

  /** The table after the claim loop has handled the first `n` candidates. */
  function ClaimedRows(rows: map<nat, Job>, ids: seq<nat>, n: nat, worker: nat, p: Policy, now: real): map<nat, Job>
    requires n <= |ids|
  {
    map id | id in rows :: if id in ids[..n] then ClaimRow(rows[id], rows[id], worker, p, now) else rows[id]
  }

  /** What one settlement does to a row that its caller claimed as `claimed`. */
  function SettledRow(claimed: Job, ending: Ending, p: Policy, now: real): Option<Job> {
    match ending
    case NoHandler => FailRow(claimed, claimed, claimed.token, false, "VALIDATION_FAILED", 0.0, p, now)
    case Raised(error, retryable) => FailRow(claimed, claimed, claimed.token, retryable, error, 0.0, p, now)
    case Crashed => FailRow(claimed, claimed, claimed.token, true, "BRAIN_UNAVAILABLE", 0.0, p, now)
    case Done(result) => Some(CompleteRow(claimed, claimed.token, result, now))
  }

  /** How a claimed job stands after its settlement: done is success; a missing handler and an error that
      must not be repeated are final; any other error waits for a retry as long as the policy has an
      attempt left. Only a success stores a result. */
  lemma EndingDecides(claimed: Job, ending: Ending, p: Policy, now: real)
    requires ValidPolicy(p) && RowOk(claimed, p) && claimed.status.Leased?
    ensures var after := SettledRow(claimed, ending, p, now);
            && after.Some? && after.value.token == claimed.token && after.value.attempts == claimed.attempts
            && (after.value.status.Succeeded? <==> ending.Done?)
            && (after.value.status.RetryWait? <==> (ending.Crashed? || (ending.Raised? && ending.retryable)) && claimed.attempts < p.maxAttempts)
            && (!after.value.status.Succeeded? && !after.value.status.RetryWait? ==> after.value.status.DeadLetter?)
            && after.value.result == (if ending.Done? then Some(ending.result) else claimed.result)
            && after.value.error == (match ending
                                     case NoHandler => Some("VALIDATION_FAILED")
                                     case Raised(error, _) => Some(error)
                                     case Crashed => Some("BRAIN_UNAVAILABLE")
                                     case Done(_) => claimed.error)
  {
  }

  /** The jobs that were leased anew or given up between two states of the table. */
  function Taken(before: map<nat, Job>, after: map<nat, Job>): set<nat> {
    set id | id in before && id in after
             && (after[id].token > before[id].token || (after[id].status.DeadLetter? && !before[id].status.DeadLetter?))
  }

  class JobTable {
    var rows: map<nat, Job>

    ghost predicate Valid(p: Policy)
      reads this
    {
      ValidPolicy(p) && forall id | id in rows :: RowOk(rows[id], p)
    }

    /** Claims what it can of the candidates; a candidate without attempts left is dead-lettered. */
    method ClaimReadyJobs(ids: seq<nat>, owner: nat, worker: nat, p: Policy, now: real) returns (claimed: seq<nat>)
      requires Valid(p) && IsCandidates(rows, owner, now, ids)
      modifies this
      ensures Valid(p) && rows == ClaimedRows(old(rows), ids, |ids|, worker, p, now)
      ensures forall id :: id in claimed <==> id in ids && !Exhausted(old(rows)[id], p)
      ensures forall i, j | 0 <= i < j < |claimed| :: claimed[i] != claimed[j]
      ensures forall id | id in claimed ::
                && id in rows && rows[id].status.Leased? && rows[id].leaseOwner == Some(worker)
                && rows[id].token == old(rows)[id].token + 1 && rows[id].attempts >= 1
    {
      claimed := [];
      assert ClaimedRows(rows, ids, 0, worker, p, now) == rows;
      for i := 0 to |ids|
        invariant rows == ClaimedRows(old(rows), ids, i, worker, p, now)
        invariant forall id :: id in claimed <==> id in ids[..i] && !Exhausted(old(rows)[id], p)
        invariant forall k, l | 0 <= k < l < |claimed| :: claimed[k] != claimed[l]
      {
        var id := ids[i];
        assert ids[..i + 1] == ids[..i] + [id] && id !in ids[..i];
        var row := rows[id];
        rows := rows[id := ClaimRow(row, row, worker, p, now)];
        assert rows == ClaimedRows(old(rows), ids, i + 1, worker, p, now);
        if !Exhausted(row, p) {
          claimed := claimed + [id];
        }
      }
      assert ids[..|ids|] == ids;
      forall id | id in rows ensures RowOk(rows[id], p) {
        assert RowOk(old(rows)[id], p);
      }
    }

    method CompleteJob(id: nat, token: nat, result: nat, now: real) returns (stored: bool)
      modifies this
      ensures stored <==> id in old(rows) && old(rows)[id].token == token && old(rows)[id].status.Leased?
      ensures rows == if id in old(rows) then old(rows)[id := CompleteRow(old(rows)[id], token, result, now)] else old(rows)
    {
      stored := id in rows && rows[id].token == token && rows[id].status.Leased?;
      if stored {
        rows := rows[id := rows[id].(status := Succeeded, finishedAt := Some(now), result := Some(result))];
      }
      assert !stored && id in rows ==> rows[id := rows[id]] == rows;
    }

    /** None stands for the errors: no such job, or a delay asked for a job that was never claimed. */
    method FailJob(id: nat, token: nat, retryable: bool, error: string, p: Policy, now: real) returns (status: Option<Status>)
      requires ValidPolicy(p)
      modifies this
      ensures status.None? <==> id !in old(rows) || (retryable && old(rows)[id].attempts == 0)
      ensures status.None? ==> rows == old(rows)
      ensures status.Some? ==>
                var after := FailRow(old(rows)[id], old(rows)[id], token, retryable, error, 0.0, p, now);
                && after.Some? && rows == old(rows)[id := after.value]
                && status.value == if !retryable || old(rows)[id].attempts >= p.maxAttempts then DeadLetter else RetryWait
    {
      if id !in rows {
        return None;
      }
      var row := rows[id];
      if !retryable || row.attempts >= p.maxAttempts {
        if row.token == token {
          rows := rows[id := row.(status := DeadLetter, finishedAt := Some(now), error := Some(error))];
        }
        assert row.token != token ==> rows[id := row] == rows;
        return Some(DeadLetter);
      }
      var delay := NextDelay(p, row.attempts, 0.0);
      if delay.None? {
        return None;
      }
      if row.token == token {
        rows := rows[id := row.(status := RetryWait, availableAt := now + delay.value, leaseOwner := None,
                                leaseExpires := None, error := Some(error))];
      }
      assert row.token != token ==> rows[id := row] == rows;
      return Some(RetryWait);
    }

    /** Settles one claimed job by the way its handler ended. */
    method Settle(id: nat, ending: Ending, p: Policy, now: real)
      requires Valid(p) && id in rows && rows[id].status.Leased?
      modifies this
      ensures Valid(p) && SettledRow(old(rows)[id], ending, p, now).Some?
      ensures rows == old(rows)[id := SettledRow(old(rows)[id], ending, p, now).value]
      ensures !rows[id].status.Leased?
    {
      assert RowOk(rows[id], p);
      match ending {
        case NoHandler => var _ := FailJob(id, rows[id].token, false, "VALIDATION_FAILED", p, now);
        case Raised(error, retryable) => var _ := FailJob(id, rows[id].token, retryable, error, p, now);
        case Crashed => var _ := FailJob(id, rows[id].token, true, "BRAIN_UNAVAILABLE", p, now);
        case Done(result) => var _ := CompleteJob(id, rows[id].token, result, now);
      }
      assert RowOk(rows[id], p);
    }

    /** One poll of a worker that runs undisturbed: it takes up as many jobs as are ready, up to a batch;
        every claimed job is settled exactly once, by the way its handler ended, and no other claimed
        or unclaimed row is touched. */
    method Poll(ids: seq<nat>, owner: nat, worker: nat, p: Policy, now: real, endings: map<nat, Ending>) returns (claimed: seq<nat>)
      requires Valid(p) && IsCandidates(rows, owner, now, ids)
      requires forall id | id in ids :: id in endings
      modifies this
      ensures forall id :: id in claimed <==> id in ids && !Exhausted(old(rows)[id], p)
      ensures forall i, j | 0 <= i < j < |claimed| :: claimed[i] != claimed[j]
      ensures forall id | id in claimed ::
                && id in ids && id in old(rows) && id in rows
                && SettledRow(ClaimRow(old(rows)[id], old(rows)[id], worker, p, now), endings[id], p, now) == Some(rows[id])
                && !rows[id].status.Leased?
      ensures rows.Keys == old(rows).Keys
      ensures forall id | id in rows && id !in claimed ::
                rows[id] == if id in ids then ClaimRow(old(rows)[id], old(rows)[id], worker, p, now) else old(rows)[id]
      ensures Taken(old(rows), rows) <= ReadyIds(old(rows), owner, now)
      ensures |Taken(old(rows), rows)| == Min(10, |ReadyIds(old(rows), owner, now)|)
      ensures forall id | id in old(rows) && old(rows)[id].owner != owner :: rows[id] == old(rows)[id]
      ensures forall id, other | id in claimed && other in old(rows) && old(rows)[other].owner == owner && Ready(old(rows)[other], now) && other !in ids ::
                || old(rows)[other].priority < old(rows)[id].priority
                || (old(rows)[other].priority == old(rows)[id].priority && old(rows)[other].availableAt >= old(rows)[id].availableAt)
    {
      hide SettledRow, ClaimRow, RowOk, Exhausted, NotBefore, Ready;
      claimed := ClaimReadyJobs(ids, owner, worker, p, now);
      ghost var leased := rows;
      for i := 0 to |claimed|
        invariant rows.Keys == leased.Keys
        invariant forall k | 0 <= k < i :: SettledRow(leased[claimed[k]], endings[claimed[k]], p, now) == Some(rows[claimed[k]])
                                           && !rows[claimed[k]].status.Leased?
        invariant forall id | id in leased && id !in claimed[..i] :: rows[id] == leased[id]
        invariant Valid(p)
      {
        var id := claimed[i];
        assert id !in claimed[..i] && claimed[i] in claimed;
        Settle(id, endings[id], p, now);
      }
      TakenAreCandidates(old(rows), rows, ids, owner, worker, p, now, claimed, endings);
      CandidatesAreFirst(old(rows), owner, now, ids);
    }
  }

  /** Every candidate is taken up, and nothing else. */
  lemma TakenAreCandidates(before: map<nat, Job>, after: map<nat, Job>, ids: seq<nat>, owner: nat, worker: nat, p: Policy, now: real,
                           claimed: seq<nat>, endings: map<nat, Ending>)
    requires ValidPolicy(p) && IsCandidates(before, owner, now, ids) && after.Keys == before.Keys
    requires forall id | id in before :: RowOk(before[id], p)
    requires forall id :: id in claimed <==> id in ids && !Exhausted(before[id], p)
    requires forall id | id in ids :: id in endings
    requires forall id | id in claimed :: SettledRow(ClaimRow(before[id], before[id], worker, p, now), endings[id], p, now) == Some(after[id])
    requires forall id | id in before && id !in claimed ::
               after[id] == if id in ids then ClaimRow(before[id], before[id], worker, p, now) else before[id]
    ensures Taken(before, after) <= ReadyIds(before, owner, now)
    ensures |Taken(before, after)| == Min(BATCH_SIZE, |ReadyIds(before, owner, now)|)
  {
    hide SettledRow, ClaimRow, Exhausted, NotBefore, Ready, RowOk;
    var listed := set i | 0 <= i < |ids| :: ids[i];
    forall id | id in before ensures id in Taken(before, after) <==> id in listed {
      if id in ids {
        assert id in listed && id in ReadyIds(before, owner, now);
        if id in claimed {
          ClaimedIsTaken(before[id], endings[id], worker, p, now);
        } else {
          ExhaustedIsGivenUp(before[id], worker, p, now);
        }
      }
    }
    assert Taken(before, after) == listed;
    DistinctSize(ids);
  }

  lemma ClaimedIsTaken(j: Job, ending: Ending, worker: nat, p: Policy, now: real)
    requires ValidPolicy(p) && RowOk(j, p) && Ready(j, now) && !Exhausted(j, p)
    ensures var after := SettledRow(ClaimRow(j, j, worker, p, now), ending, p, now); after.Some? ==> after.value.token == j.token + 1
  {
  }

  lemma ExhaustedIsGivenUp(j: Job, worker: nat, p: Policy, now: real)
    requires Ready(j, now) && Exhausted(j, p)
    ensures ClaimRow(j, j, worker, p, now).status.DeadLetter? && !j.status.DeadLetter?
  {
  }
}
