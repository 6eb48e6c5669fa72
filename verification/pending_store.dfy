/** The bridge's pending store as a class, whose methods are runs of the system of many replays. */
module PendingStores {
  import opened Options
  import opened Idempotency
  import opened UnitsOfWork
  import opened OfflineQueue

  const MAX_QUEUE := 1000

  datatype Enqueued = Added(sequence: nat) | Already(sequence: nat) | Rejected(code: string)

  datatype ReplayStatus = LimitRefused | Finished | ConflictFound | Stopped | PendingSync

  /** Within bounds, in order of sequence numbers, each key once, each row the operation that was
      given its number. */
  ghost predicate ValidRows(rows: seq<Entry>, all: seq<Request>, maxEntries: nat, maxBytes: nat) {
    && InBounds(rows, maxEntries, maxBytes)
    && (forall i | 0 <= i < |rows| :: rows[i].sequence < |all| && rows[i].req == all[rows[i].sequence])
    && (forall i, j | 0 <= i < j < |rows| :: rows[i].sequence < rows[j].sequence)
    && (forall i, j | 0 <= i < j < |rows| :: rows[i].req.key.idem != rows[j].req.key.idem)
  }

  /** A part of a run. */
  ghost predicate Steps(states: seq<Sys>, events: seq<Event>) {
    && |states| == |events| + 1
    && forall k | 0 <= k < |events| :: Enabled(states[k], events[k]) && states[k + 1] == Apply(states[k], events[k])
  }

  lemma {:induction false} StepsKeepInv(states: seq<Sys>, events: seq<Event>, k: nat)
    requires Steps(states, events) && OfflineQueue.Inv(states[0]) && k <= |events|
    ensures OfflineQueue.Inv(states[k])
  {
    hide OfflineQueue.Inv, Enabled, Apply;
    if k > 0 {
      StepsKeepInv(states, events, k - 1);
      OfflineQueue.StepKeepsInv(states[k - 1], events[k - 1]);
    }
  }

  /** Events of one replay only. */
  predicate Concerns(e: Event, replay: nat) {
    (e.Start? || e.SendNext? || e.Delete? || e.Abandon?) && e.replay == replay
  }

  /** Steps of one replay that lead from one state to another. */
  ghost predicate Trace(states: seq<Sys>, events: seq<Event>, replay: nat, first: Sys, last: Sys) {
    && Steps(states, events) && (forall e | e in events :: Concerns(e, replay))
    && states[0] == first && states[|events|] == last
  }

  lemma NoSteps(s: Sys, me: nat)
    ensures Trace([s], [], me, s, s)
  {
  }

  lemma TraceExtend(states: seq<Sys>, events: seq<Event>, me: nat, first: Sys, last: Sys, e: Event)
    requires Trace(states, events, me, first, last) && Enabled(last, e) && Concerns(e, me)
    ensures Trace(states + [Apply(last, e)], events + [e], me, first, Apply(last, e))
  {
    hide Enabled, Apply, Concerns;
    var t, f := states + [Apply(last, e)], events + [e];
    forall k | 0 <= k < |f| ensures Enabled(t[k], f[k]) && t[k + 1] == Apply(t[k], f[k]) {
      if k < |events| {
        assert t[k] == states[k] && t[k + 1] == states[k + 1] && f[k] == events[k];
      }
    }
  }

  // ---- A replay as a function of queue, server, authority and network -------------------------

  /** The server after the first `n` operations were sent, one after the other. */
  function ServerAfter(db: Db, rows: seq<Entry>, net: nat -> Net, n: nat): Db
    requires n <= |rows|
  {
    if n == 0 then db else Send(ServerAfter(db, rows, net, n - 1), rows[n - 1].req, net(n - 1)).0
  }

  function SentAt(db: Db, rows: seq<Entry>, net: nat -> Net, k: nat): Sent
    requires k < |rows|
  {
    Send(ServerAfter(db, rows, net, k), rows[k].req, net(k)).1
  }

  /** Why a replay stops at operation `k`, if it does. */
  function StopsAt(db: Db, rows: seq<Entry>, authority: nat -> bool, net: nat -> Net, k: nat): Option<ReplayStatus>
    requires k < |rows|
  {
    if rows[k].conflict then Some(ConflictFound)
    else if !authority(k) then Some(Stopped)
    else
      match SentAt(db, rows, net, k)
      case SentConflict => Some(ConflictFound)
      case Uncertain => Some(PendingSync)
      case _ => None
  }

  function Least(limit: int, n: nat): int {
    if limit <= n then limit else n
  }

  ghost predicate Passed(db: Db, rows: seq<Entry>, authority: nat -> bool, net: nat -> Net, n: nat)
    requires n <= |rows|
  {
    forall k | 0 <= k < n :: StopsAt(db, rows, authority, net, k) == None
  }

  /** The status, the number of operations completed and the server a replay ends with: it refuses a
      limit out of bounds, passes operations until one stops it, and says why, or finishes. */
  ghost predicate ReplayedAs(db: Db, rows: seq<Entry>, authority: nat -> bool, net: nat -> Net, limit: int,
                             status: ReplayStatus, completed: nat, after: Db) {
    if !(1 <= limit <= MAX_QUEUE) then status.LimitRefused? && completed == 0 && after == db
    else
      && completed <= Least(limit, |rows|) && Passed(db, rows, authority, net, completed)
      && if completed == Least(limit, |rows|) then status.Finished? && after == ServerAfter(db, rows, net, completed)
         else
           && StopsAt(db, rows, authority, net, completed) == Some(status)
           && after == ServerAfter(db, rows, net, if rows[completed].conflict || !authority(completed) then completed else completed + 1)
  }

  /** The operation can be delivered: its key is new or carries its own content and was not erased, and
      the hash it claims is that of its content. */
  predicate Deliverable(db: Db, req: Request) {
    if req.key in db.records then !db.records[req.key].status.Tombstoned? && db.records[req.key].digest == Some(req.digest)
    else req.dedupe.Some? ==> req.dedupe.value == req.hash
  }

  /** Over a faultless network exactly the deliverable operations are acknowledged. */
  lemma AcknowledgedIff(db: Db, req: Request)
    requires Idempotency.Inv(db)
    ensures var sent := Send(db, req, Delivered(NoFault)).1; (sent.SentCompleted? || sent.SentReplayed?) <==> Deliverable(db, req)
  {
    hide Idempotency.BundleInv, ActiveWithHash, TargetOf;
    if req.key in db.records {
      assert HasIntake(db.intakes, req.key);
      var n :| 0 <= n < |db.intakes| && db.intakes[n].req.key == req.key;
      assert RecordOk(db.records[req.key], db.intakes[n]);
    }
  }

  /** And each is answered for what it is: completed if its key is new, replayed if its own record is
      there, in conflict if another's is; an erased key stays uncertain. */
  lemma AnswersIff(db: Db, req: Request)
    requires Idempotency.Inv(db)
    ensures var sent := Send(db, req, Delivered(NoFault)).1;
            && (sent.SentCompleted? <==> req.key !in db.records && (req.dedupe.Some? ==> req.dedupe.value == req.hash))
            && (sent.SentReplayed? <==>
                  req.key in db.records && !db.records[req.key].status.Tombstoned? && db.records[req.key].digest == Some(req.digest))
            && (sent.SentConflict? <==>
                  req.key in db.records && !db.records[req.key].status.Tombstoned? && db.records[req.key].digest != Some(req.digest))
  {
    hide Idempotency.BundleInv, ActiveWithHash, TargetOf;
    if req.key in db.records {
      assert HasIntake(db.intakes, req.key);
      var n :| 0 <= n < |db.intakes| && db.intakes[n].req.key == req.key;
      assert RecordOk(db.records[req.key], db.intakes[n]);
    }
  }

  /** A send leaves the records of all other keys alone. */
  lemma OtherKeysUntouched(db: Db, req: Request, net: Net, other: Request)
    requires other.key != req.key
    ensures Deliverable(Send(db, req, net).0, other) <==> Deliverable(db, other)
  {
    hide ActiveWithHash, TargetOf;
  }

  lemma {:induction false} ServerAfterKeeps(db: Db, rows: seq<Entry>, net: nat -> Net, n: nat, k: nat)
    requires Idempotency.Inv(db) && n <= k < |rows|
    requires forall i | 0 <= i < n :: rows[i].req.key != rows[k].req.key
    ensures Idempotency.Inv(ServerAfter(db, rows, net, n))
    ensures Deliverable(ServerAfter(db, rows, net, n), rows[k].req) <==> Deliverable(db, rows[k].req)
  {
    hide Send, Deliverable, Idempotency.Inv;
    if n > 0 {
      ServerAfterKeeps(db, rows, net, n - 1, k);
      SendIsOneRequest(ServerAfter(db, rows, net, n - 1), rows[n - 1].req, net(n - 1));
      OtherKeysUntouched(ServerAfter(db, rows, net, n - 1), rows[n - 1].req, net(n - 1), rows[k].req);
    }
  }

  /** Over a faultless network and with authority, operation `k` is passed if and only if it is not
      marked and was deliverable at the start. */
  lemma PassesIff(db: Db, rows: seq<Entry>, authority: nat -> bool, net: nat -> Net, k: nat)
    requires Idempotency.Inv(db) && k < |rows| && authority(k) && net(k) == Delivered(NoFault)
    requires forall i | 0 <= i < k :: rows[i].req.key != rows[k].req.key
    ensures StopsAt(db, rows, authority, net, k) == None <==> !rows[k].conflict && Deliverable(db, rows[k].req)
  {
    hide Send, Deliverable, Idempotency.Inv;
    ServerAfterKeeps(db, rows, net, k, k);
    AcknowledgedIff(ServerAfter(db, rows, net, k), rows[k].req);
  }

  /** The drain: with authority and over a faultless network a replay finishes if and only if each of
      its operations is unmarked and was deliverable at the start. */
  lemma DrainsIff(db: Db, rows: seq<Entry>, all: seq<Request>, maxEntries: nat, maxBytes: nat, authority: nat -> bool, net: nat -> Net, limit: int,
                  status: ReplayStatus, completed: nat, after: Db)
    requires Idempotency.Inv(db) && ValidRows(rows, all, maxEntries, maxBytes) && 1 <= limit <= MAX_QUEUE
    requires forall k :: authority(k) && net(k) == Delivered(NoFault)
    requires ReplayedAs(db, rows, authority, net, limit, status, completed, after)
    ensures status.Finished? <==> forall k | 0 <= k < Least(limit, |rows|) :: !rows[k].conflict && Deliverable(db, rows[k].req)
    ensures status.Finished? ==> completed == Least(limit, |rows|)
  {
    hide Deliverable, Idempotency.Inv, ValidRows, ServerAfter, SentAt;
    DistinctKeys(rows, all, maxEntries, maxBytes);
    forall k: nat | k < |rows|
      ensures StopsAt(db, rows, authority, net, k) == None <==> !rows[k].conflict && Deliverable(db, rows[k].req)
    {
      PassesIff(db, rows, authority, net, k);
    }
  }

  lemma DistinctKeys(rows: seq<Entry>, all: seq<Request>, maxEntries: nat, maxBytes: nat)
    requires ValidRows(rows, all, maxEntries, maxBytes)
    ensures forall i, j | 0 <= i < j < |rows| :: rows[i].req.key != rows[j].req.key
  {
  }

  class PendingStore {
    const maxEntries: nat
    const maxBytes: nat
    var rows: seq<Entry>
    var next: nat
    /** Every operation ever added, and those whose effect a send of this store committed. */
    ghost var all: seq<Request>
    ghost var log: seq<nat>

    ghost predicate Valid()
      reads this
    {
      next == |all| && ValidRows(rows, all, maxEntries, maxBytes)
    }

    /** The system this store is part of, with the replays that are under way. */
    ghost function View(server: Db, cursors: map<nat, Cursor>): Sys
      reads this
    {
      Sys(all, rows, server, log, cursors, maxEntries, maxBytes)
    }

    constructor (maxEntries: nat, maxBytes: nat)
      ensures Valid() && rows == [] && all == [] && log == [] && this.maxEntries == maxEntries && this.maxBytes == maxBytes
    {
      this.maxEntries, this.maxBytes := maxEntries, maxBytes;
      rows, next, all, log := [], 0, [], [];
    }

    /** Adds an operation unless its key is malformed, its content looks like a secret, its key
        is already queued, or the queue is full. */
    method Enqueue(req: Request, size: nat, wellFormed: bool, secret: bool) returns (outcome: Enqueued)
      requires Valid()
      modifies this
      ensures Valid() && log == old(log)
      ensures outcome == Rejected("VALIDATION_FAILED") <==> !wellFormed
      ensures outcome == Rejected("SECRET_REJECTED") <==> wellFormed && secret
      ensures outcome.Already? <==> wellFormed && !secret && Queued(old(rows), req.key.idem)
      ensures outcome.Added? <==> wellFormed && !secret && !Queued(old(rows), req.key.idem) && Fits(old(rows), size, maxEntries, maxBytes)
      ensures outcome == Rejected("PAYLOAD_TOO_LARGE") <==>
                && wellFormed && !secret && !Queued(old(rows), req.key.idem)
                && (|old(rows)| + 1 > maxEntries || Bytes(old(rows) + [Entry(old(next), req, size, false)]) > maxBytes)
      ensures rows == if outcome.Added? then old(rows) + [Entry(outcome.sequence, req, size, false)] else old(rows)
      ensures outcome.Added? ==> outcome.sequence == old(next)
      ensures outcome.Already? ==> exists i :: 0 <= i < |rows| && rows[i].sequence == outcome.sequence && rows[i].req.key.idem == req.key.idem
      ensures forall server, cursors ::
                View(server, cursors) == if wellFormed && !secret then Apply(old(View(server, cursors)), OfflineQueue.Enqueue(req, size))
                                         else old(View(server, cursors))
    {
      hide ValidRows, Bytes;
      if !wellFormed {
        return Rejected("VALIDATION_FAILED");
      }
      if secret {
        return Rejected("SECRET_REJECTED");
      }
      for i := 0 to |rows|
        invariant forall k | 0 <= k < i :: rows[k].req.key.idem != req.key.idem
      {
        if rows[i].req.key.idem == req.key.idem {
          return Already(rows[i].sequence);
        }
      }
      BytesCountsSizes(rows, Entry(next, req, size, false));
      if !Fits(rows, size, maxEntries, maxBytes) {
        return Rejected("PAYLOAD_TOO_LARGE");
      }
      var entry := Entry(next, req, size, false);
      RowAdded(rows, all, maxEntries, maxBytes, entry);
      rows, next, all := rows + [entry], next + 1, all + [req];
      return Added(entry.sequence);
    }

    /** Sends the oldest operation; an acknowledged one is deleted, one in conflict marked. */
    method SendHead(server: Database, net: Net, ghost cursors: map<nat, Cursor>, ghost me: nat, ghost c: Cursor,
                    ghost states: seq<Sys>, ghost events: seq<Event>, ghost first: Sys)
      returns (sent: Sent, ghost more: seq<Sys>, ghost after: seq<Event>)
      requires Valid() && Idempotency.Inv(server.committed) && rows != []
      requires me !in cursors && c.pos < |c.list| && c.list[c.pos] == rows[0].sequence && !c.acknowledged
      requires Trace(states, events, me, first, View(server.committed, cursors[me := c]))
      modifies this, server
      ensures Valid() && Idempotency.Inv(server.committed) && all == old(all)
      ensures old(server.committed).intakes <= server.committed.intakes
      ensures (server.committed, sent) == Send(old(server.committed), old(rows)[0].req, net)
      ensures sent.SentCompleted? || sent.SentReplayed? ==>
                && rows == old(rows)[1..] && Own(server.committed, old(rows)[0].req)
                && Trace(more, after, me, first, View(server.committed, cursors[me := c.(pos := c.pos + 1)]))
      ensures sent.SentConflict? ==> rows == [old(rows)[0].(conflict := true)] + old(rows)[1..]
      ensures sent.Uncertain? ==> rows == old(rows)
      ensures sent.SentConflict? || sent.Uncertain? ==> Trace(more, after, me, first, View(server.committed, cursors))
    {
      hide Send, ValidRows, Trace, Idempotency.Inv, Own;
      var op := rows[0];
      ghost var before := server.committed;
      more, after := HeadSent(states, events, me, first, View(server.committed, cursors[me := c]), cursors, c, net);
      SendIsOneRequest(before, op.req, net);
      sent := SendOver(server, op.req, net);
      log := if |server.committed.intakes| > |before.intakes| then log + [op.sequence] else log;
      if sent.SentCompleted? || sent.SentReplayed? {
        rows := rows[1..];
      } else if sent.SentConflict? {
        rows := [op.(conflict := true)] + rows[1..];
      }
    }

    /** Sends the oldest operations in order until one is in conflict, may not be sent, or has an
        unknown outcome; `authority` and `net` say what happens at the n-th send. What was
        acknowledged has its own effect and is removed; everything else stays, in order. The whole
        replay is a run of the system that starts, sends, deletes and ends as replay `me`. */
    method Replay(server: Database, authority: nat -> bool, net: nat -> Net, limit: int, ghost cursors: map<nat, Cursor>, ghost me: nat)
      returns (status: ReplayStatus, completed: nat, ghost states: seq<Sys>, ghost events: seq<Event>)
      requires Valid() && Idempotency.Inv(server.committed) && me !in cursors
      modifies this, server
      ensures Valid() && Idempotency.Inv(server.committed) && completed <= |old(rows)|
      ensures Trace(states, events, me, old(View(server.committed, cursors)), View(server.committed, cursors))
      ensures forall k | 0 <= k < completed :: Own(server.committed, old(rows)[k].req)
      ensures ReplayedAs(old(server.committed), old(rows), authority, net, limit, status, completed, server.committed)
      ensures !status.ConflictFound? ==> rows == old(rows)[completed..]
      ensures status.ConflictFound? ==>
                && completed < |old(rows)| && |rows| == |old(rows)| - completed
                && rows[0] == old(rows)[completed].(conflict := true) && rows[1..] == old(rows)[completed + 1..]
    {
      hide Send, ValidRows, Enabled, Apply, Trace, Idempotency.Inv, Own;
      hide StopsAt, ServerAfter, SentAt, ReplayedAs, Passed;
      completed := 0;
      ghost var db, queue := server.committed, rows;
      NothingSent(db, queue, authority, net, limit);
      ghost var first := View(server.committed, cursors);
      states, events := [first], [];
      NoSteps(first, me);
      if !(1 <= limit <= MAX_QUEUE) {
        return LimitRefused, 0, states, events;
      }
      var list := if limit <= |rows| then rows[..limit] else rows;
      ghost var numbers := Sequences(list);
      ReplayStarts(first, me, limit, list);
      TraceExtend(states, events, me, first, first, Start(me, limit));
      states, events := states + [Apply(first, Start(me, limit))], events + [Start(me, limit)];
      AllPassed(db, queue, authority, net, limit);
      while completed < |list|
        invariant completed <= |list| && rows == old(rows)[completed..] && Valid() && Idempotency.Inv(server.committed)
        invariant forall k | 0 <= k < completed :: Own(server.committed, old(rows)[k].req)
        invariant server.committed == ServerAfter(db, queue, net, completed)
        invariant Passed(db, queue, authority, net, completed)
        invariant Trace(states, events, me, first, View(server.committed, cursors[me := Cursor(numbers, completed, false)]))
      {
        assert list[completed] == rows[0] == old(rows)[completed];
        StopReason(db, queue, authority, net, limit, completed);
        if list[completed].conflict {
          assert rows[0] == rows[0].(conflict := true);
          states, events := End(states, events, cursors, me, first, View(server.committed, cursors[me := Cursor(numbers, completed, false)]));
          return ConflictFound, completed, states, events;
        }
        if !authority(completed) {
          states, events := End(states, events, cursors, me, first, View(server.committed, cursors[me := Cursor(numbers, completed, false)]));
          return Stopped, completed, states, events;
        }
        ghost var before := server.committed;
        var sent;
        sent, states, events := SendHead(server, net(completed), cursors, me, Cursor(numbers, completed, false), states, events, first);
        forall k | 0 <= k < completed ensures Own(server.committed, old(rows)[k].req) {
          OwnStays(before, server.committed, old(rows)[k].req);
        }
        if sent.SentConflict? {
          return ConflictFound, completed, states, events;
        }
        if sent.Uncertain? {
          return PendingSync, completed, states, events;
        }
        completed := completed + 1;
      }
      states, events := End(states, events, cursors, me, first, View(server.committed, cursors[me := Cursor(numbers, completed, false)]));
      return Finished, completed, states, events;
    }
  }

  function HeadAfter(rows: seq<Entry>, sent: Sent): seq<Entry>
    requires rows != []
  {
    match sent
    case SentConflict => [rows[0].(conflict := true)] + rows[1..]
    case Uncertain => rows
    case _ => rows[1..]
  }

  /** The state after the send of the first operation and, if it was acknowledged, its deletion. */
  function AfterSend(s: Sys, cursors: map<nat, Cursor>, me: nat, c: Cursor, net: Net): Sys
    requires s.queue != []
  {
    var (server, sent) := Send(s.server, s.queue[0].req, net);
    var log := if |server.intakes| > |s.server.intakes| then s.log + [s.queue[0].sequence] else s.log;
    Sys(s.all, HeadAfter(s.queue, sent), server, log,
        if sent.SentConflict? || sent.Uncertain? then cursors else cursors[me := c.(pos := c.pos + 1)],
        s.maxEntries, s.maxBytes)
  }

  lemma HeadSent(states: seq<Sys>, events: seq<Event>, me: nat, first: Sys, s: Sys, cursors: map<nat, Cursor>, c: Cursor, net: Net)
    returns (more: seq<Sys>, after: seq<Event>)
    requires Trace(states, events, me, first, s) && me !in cursors && s.cursors == cursors[me := c]
    requires s.queue != [] && ValidRows(s.queue, s.all, s.maxEntries, s.maxBytes)
    requires c.pos < |c.list| && c.list[c.pos] == s.queue[0].sequence && !c.acknowledged
    ensures Trace(more, after, me, first, AfterSend(s, cursors, me, c, net))
    ensures ValidRows(AfterSend(s, cursors, me, c, net).queue, s.all, s.maxEntries, s.maxBytes)
  {
    hide Send, ValidRows, Enabled, Apply, Trace, Without, Marked;
    var q, sent := s.queue[0].sequence, Send(s.server, s.queue[0].req, net).1;
    HeadIsNumbered(s.queue, s.all, s.maxEntries, s.maxBytes);
    ReplaySends(s, me, net, q);
    TraceExtend(states, events, me, first, s, SendNext(me, net));
    var t := Apply(s, SendNext(me, net));
    more, after := states + [t], events + [SendNext(me, net)];
    DropHead(s.queue, s.all, s.maxEntries, s.maxBytes);
    assert cursors[me := c] - {me} == cursors;
    match sent {
      case SentConflict =>
        MarkHead(s.queue, s.all, s.maxEntries, s.maxBytes);
        MarkedHead(s.queue, q);
      case Uncertain =>
      case _ =>
        WithoutHead(s.queue, q);
        more, after := HeadDeleted(more, after, me, first, t, cursors, c);
    }
  }

  lemma HeadDeleted(states: seq<Sys>, events: seq<Event>, me: nat, first: Sys, t: Sys, cursors: map<nat, Cursor>, c: Cursor)
    returns (more: seq<Sys>, after: seq<Event>)
    requires Trace(states, events, me, first, t) && c.pos < |c.list| && !c.acknowledged
    requires t.cursors == cursors[me := c][me := c.(acknowledged := true)]
    ensures Trace(more, after, me, first, t.(queue := Without(t.queue, c.list[c.pos]), cursors := cursors[me := c.(pos := c.pos + 1)]))
  {
    hide Trace, Without, Enabled, Apply;
    ReplayDeletes(t, me);
    TraceExtend(states, events, me, first, t, Delete(me));
    assert t.cursors[me := c.(pos := c.pos + 1)] == cursors[me := c.(pos := c.pos + 1)];
    more, after := states + [Apply(t, Delete(me))], events + [Delete(me)];
  }

  /** The end of a replay that was not ended by a send. */
  lemma End(states: seq<Sys>, events: seq<Event>, cursors: map<nat, Cursor>, me: nat, first: Sys, last: Sys)
    returns (more: seq<Sys>, after: seq<Event>)
    requires Trace(states, events, me, first, last) && me in last.cursors && me !in cursors && last.cursors == cursors[me := last.cursors[me]]
    ensures Trace(more, after, me, first, last.(cursors := cursors))
  {
    hide Trace;
    assert cursors[me := last.cursors[me]] - {me} == cursors;
    TraceExtend(states, events, me, first, last, Abandon(me));
    more, after := states + [Apply(last, Abandon(me))], events + [Abandon(me)];
  }

  /** A replay of the store is a part of a run, so that what every run keeps, it keeps. */
  lemma TraceKeepsExactlyOnce(states: seq<Sys>, events: seq<Event>, me: nat, first: Sys, last: Sys)
    requires Trace(states, events, me, first, last) && OfflineQueue.Inv(first)
    ensures OfflineQueue.Inv(last) && ExactlyOnce(last)
  {
    hide OfflineQueue.Inv, ExactlyOnce, Enabled, Apply;
    StepsKeepInv(states, events, |events|);
    InvMeansExactlyOnce(last);
  }

  lemma NothingSent(db: Db, rows: seq<Entry>, authority: nat -> bool, net: nat -> Net, limit: int)
    ensures ServerAfter(db, rows, net, 0) == db && Passed(db, rows, authority, net, 0)
    ensures !(1 <= limit <= MAX_QUEUE) ==> ReplayedAs(db, rows, authority, net, limit, LimitRefused, 0, db)
  {
  }

  lemma AllPassed(db: Db, rows: seq<Entry>, authority: nat -> bool, net: nat -> Net, limit: int)
    requires 1 <= limit <= MAX_QUEUE
    ensures var n := Least(limit, |rows|);
            Passed(db, rows, authority, net, n) ==> ReplayedAs(db, rows, authority, net, limit, Finished, n, ServerAfter(db, rows, net, n))
  {
    hide ServerAfter, StopsAt;
  }

  /** What the outcome of one operation means for the replay. */
  lemma StopReason(db: Db, rows: seq<Entry>, authority: nat -> bool, net: nat -> Net, limit: int, k: nat)
    requires 1 <= limit <= MAX_QUEUE && k < Least(limit, |rows|) && Passed(db, rows, authority, net, k)
    ensures var at := ServerAfter(db, rows, net, k);
            var (after, sent) := Send(at, rows[k].req, net(k));
            && ServerAfter(db, rows, net, k + 1) == after
            && if rows[k].conflict then ReplayedAs(db, rows, authority, net, limit, ConflictFound, k, at)
               else if !authority(k) then ReplayedAs(db, rows, authority, net, limit, Stopped, k, at)
               else if sent.SentConflict? then ReplayedAs(db, rows, authority, net, limit, ConflictFound, k, after)
               else if sent.Uncertain? then ReplayedAs(db, rows, authority, net, limit, PendingSync, k, after)
               else Passed(db, rows, authority, net, k + 1)
  {
    hide Send;
  }

  lemma ReplayStarts(s: Sys, me: nat, limit: nat, list: seq<Entry>)
    requires me !in s.cursors && 1 <= limit <= 1000 && list == if limit <= |s.queue| then s.queue[..limit] else s.queue
    ensures Enabled(s, Start(me, limit))
    ensures Apply(s, Start(me, limit)) == s.(cursors := s.cursors[me := Cursor(Sequences(list), 0, false)])
  {
    assert s.queue[..|s.queue|] == s.queue;
  }

  /** One send, in all its outcomes. */
  lemma ReplaySends(s: Sys, me: nat, net: Net, q: nat)
    requires me in s.cursors && s.cursors[me].pos < |s.cursors[me].list| && !s.cursors[me].acknowledged
    requires q == s.cursors[me].list[s.cursors[me].pos] < |s.all|
    ensures Enabled(s, SendNext(me, net))
    ensures var (after, sent) := Send(s.server, s.all[q], net);
            var logged := s.(server := after, log := if |after.intakes| > |s.server.intakes| then s.log + [q] else s.log);
            Apply(s, SendNext(me, net)) ==
            if sent.SentConflict? then logged.(queue := Marked(s.queue, q), cursors := s.cursors - {me})
            else if sent.Uncertain? then logged.(cursors := s.cursors - {me})
            else logged.(cursors := s.cursors[me := s.cursors[me].(acknowledged := true)])
  {
    hide Send, Marked;
    match Send(s.server, s.all[q], net).1 {
      case SentCompleted =>
      case SentReplayed =>
      case SentConflict =>
      case Uncertain =>
    }
  }

  lemma ReplayDeletes(s: Sys, me: nat)
    requires me in s.cursors && s.cursors[me].pos < |s.cursors[me].list| && s.cursors[me].acknowledged
    ensures Enabled(s, Delete(me))
    ensures var c := s.cursors[me];
            Apply(s, Delete(me)) == s.(queue := Without(s.queue, c.list[c.pos]),
                                       cursors := s.cursors[me := c.(pos := c.pos + 1, acknowledged := false)])
  {
  }

  lemma HeadIsNumbered(rows: seq<Entry>, all: seq<Request>, maxEntries: nat, maxBytes: nat)
    requires rows != [] && ValidRows(rows, all, maxEntries, maxBytes)
    ensures rows[0].sequence < |all| && all[rows[0].sequence] == rows[0].req
  {
  }

  /** One operation over the network to the real handler. */
  method SendOver(server: Database, req: Request, net: Net) returns (sent: Sent)
    modifies server
    ensures (server.committed, sent) == Send(old(server.committed), req, net)
  {
    hide ActiveWithHash;
    if net.LostRequest? {
      return Uncertain;
    }
    var known := req.key in server.committed.records;
    var response := HandleRequest(server, req, net.fault);
    if net.LostResponse? {
      return Uncertain;
    }
    return if response.Ok? then (if known then SentReplayed else SentCompleted)
           else if response == Error("IDEMPOTENCY_CONFLICT") then SentConflict
           else Uncertain;
  }

  /** The first row of a queue is the only one with its number. */
  lemma {:induction false} WithoutHead(rows: seq<Entry>, q: nat)
    requires rows != [] && q == rows[0].sequence && forall i | 0 < i < |rows| :: rows[i].sequence != q
    ensures Without(rows, q) == rows[1..]
  {
    var front, last := rows[..|rows| - 1], rows[|rows| - 1];
    if |rows| == 1 {
      assert Without(front, q) == [];
    } else {
      WithoutHead(front, q);
      assert rows[1..] == front[1..] + [last];
    }
  }

  lemma {:induction false} MarkedHead(rows: seq<Entry>, q: nat)
    requires rows != [] && q == rows[0].sequence && forall i | 0 < i < |rows| :: rows[i].sequence != q
    ensures Marked(rows, q) == [rows[0].(conflict := true)] + rows[1..]
  {
    var front, last := rows[..|rows| - 1], rows[|rows| - 1];
    if |rows| == 1 {
      assert Marked(front, q) == [];
    } else {
      MarkedHead(front, q);
      assert rows[1..] == front[1..] + [last];
    }
  }

  lemma RowAdded(rows: seq<Entry>, all: seq<Request>, maxEntries: nat, maxBytes: nat, entry: Entry)
    requires ValidRows(rows, all, maxEntries, maxBytes) && entry.sequence == |all| && Fits(rows, entry.size, maxEntries, maxBytes)
    requires forall i | 0 <= i < |rows| :: rows[i].req.key.idem != entry.req.key.idem
    ensures ValidRows(rows + [entry], all + [entry.req], maxEntries, maxBytes)
  {
    BytesConcat(rows, [entry]);
    assert [entry][..0] == [];
    hide Bytes;
    var more := rows + [entry];
    forall i | 0 <= i < |more| ensures more[i].sequence < |all| + 1 && more[i].req == (all + [entry.req])[more[i].sequence] {
      assert i < |rows| ==> more[i] == rows[i];
    }
  }

  lemma DropHead(rows: seq<Entry>, all: seq<Request>, maxEntries: nat, maxBytes: nat)
    requires rows != [] && ValidRows(rows, all, maxEntries, maxBytes)
    ensures ValidRows(rows[1..], all, maxEntries, maxBytes)
    ensures forall i | 0 < i < |rows| :: rows[i].sequence != rows[0].sequence
  {
    hide Bytes;
    BytesConcat(rows[..1], rows[1..]);
    assert rows == rows[..1] + rows[1..];
  }

  lemma MarkHead(rows: seq<Entry>, all: seq<Request>, maxEntries: nat, maxBytes: nat)
    requires rows != [] && ValidRows(rows, all, maxEntries, maxBytes)
    ensures ValidRows([rows[0].(conflict := true)] + rows[1..], all, maxEntries, maxBytes)
    ensures forall i | 0 < i < |rows| :: rows[i].sequence != rows[0].sequence
  {
    hide Bytes;
    SameBytes(rows);
  }

  lemma SameBytes(rows: seq<Entry>)
    requires rows != []
    ensures Bytes([rows[0].(conflict := true)] + rows[1..]) == Bytes(rows)
  {
    var mark := [rows[0].(conflict := true)];
    BytesConcat(rows[..1], rows[1..]);
    BytesConcat(mark, rows[1..]);
    assert rows == rows[..1] + rows[1..];
    assert mark[..0] == [] && rows[..1][..0] == [];
  }
}
