/** The bridge's ordered offline queue in front of the idempotent server. */
module OfflineQueue {
  import opened Options
  import opened SetSizes
  import opened Idempotency

  /** One queued operation; `size` is the stored length of nonce and ciphertext. */
  datatype Entry = Entry(sequence: nat, req: Request, size: nat, conflict: bool)

  function Bytes(rows: seq<Entry>): nat {
    if rows == [] then 0 else Bytes(rows[..|rows| - 1]) + rows[|rows| - 1].size
  }

  /** The total counts every stored size once, however the rows came and went. */
  lemma BytesCountsSizes(rows: seq<Entry>, e: Entry)
    ensures Bytes([]) == 0 && Bytes(rows + [e]) == Bytes(rows) + e.size
  {
    assert (rows + [e])[..|rows|] == rows;
  }

  /** So no row, and no two rows together, are larger than the total. */
  lemma {:induction false} BytesBoundRows(rows: seq<Entry>, i: nat, j: nat)
    requires i < j < |rows|
    ensures rows[i].size + rows[j].size <= Bytes(rows)
  {
    if j < |rows| - 1 {
      BytesBoundRows(rows[..|rows| - 1], i, j);
    } else {
      BytesBoundRow(rows[..|rows| - 1], i);
    }
  }

  lemma {:induction false} BytesBoundRow(rows: seq<Entry>, i: nat)
    requires i < |rows|
    ensures rows[i].size <= Bytes(rows)
  {
    if i < |rows| - 1 {
      BytesBoundRow(rows[..|rows| - 1], i);
    }
  }

  predicate Queued(rows: seq<Entry>, idem: nat) {
    exists i :: 0 <= i < |rows| && rows[i].req.key.idem == idem
  }

  predicate Fits(rows: seq<Entry>, size: nat, maxEntries: nat, maxBytes: nat) {
    |rows| < maxEntries && Bytes(rows) + size <= maxBytes
  }

  predicate InBounds(rows: seq<Entry>, maxEntries: nat, maxBytes: nat) {
    |rows| <= maxEntries && Bytes(rows) <= maxBytes
  }

  lemma {:induction false} BytesConcat(a: seq<Entry>, b: seq<Entry>)
    ensures Bytes(a + b) == Bytes(a) + Bytes(b)
  {
    if b == [] {
      assert a + b == a;
    } else {
      BytesConcat(a, b[..|b| - 1]);
      assert (a + b)[..|a + b| - 1] == a + b[..|b| - 1];
    }
  }

  /** The queue without the row of one sequence number. */
  function Without(rows: seq<Entry>, sequence: nat): (r: seq<Entry>)
    ensures forall e :: e in r <==> e in rows && e.sequence != sequence
    ensures |r| <= |rows| && Bytes(r) <= Bytes(rows)
  {
    if rows == [] then []
    else
      var rest := Without(rows[..|rows| - 1], sequence);
      if rows[|rows| - 1].sequence == sequence then rest
      else
        BytesConcat(rest, [rows[|rows| - 1]]);
        assert [rows[|rows| - 1]][..0] == [];
        rest + [rows[|rows| - 1]]
  }

  /** The queue with the row of one sequence number marked as conflicting. */
  function Marked(rows: seq<Entry>, sequence: nat): (r: seq<Entry>)
    ensures |r| == |rows| && Bytes(r) == Bytes(rows)
    ensures forall i | 0 <= i < |rows| :: r[i].sequence == rows[i].sequence && r[i].req == rows[i].req
  {
    if rows == [] then []
    else
      var last := rows[|rows| - 1];
      var rest := Marked(rows[..|rows| - 1], sequence);
      var mark := if last.sequence == sequence then last.(conflict := true) else last;
      BytesConcat(rest, [mark]);
      assert [mark][..0] == [];
      rest + [mark]
  }

  // ---- One request over the network -----------------------------------------------------

  datatype Net = LostRequest | LostResponse(fault: Fault) | Delivered(fault: Fault)

  datatype Sent = SentCompleted | SentReplayed | SentConflict | Uncertain

  function Send(server: Db, req: Request, net: Net): (Db, Sent) {
    match net
    case LostRequest => (server, Uncertain)
    case LostResponse(fault) => (CommitRecord(server, req, fault).0, Uncertain)
    case Delivered(fault) =>
      var (after, response) := CommitRecord(server, req, fault);
      (after,
       if response.Ok? then (if req.key in server.records then SentReplayed else SentCompleted)
       else if response == Error("IDEMPOTENCY_CONFLICT") then SentConflict
       else Uncertain)
  }

  // ---- Many replays of one queue ----------------------------------------------------------

  /** A replay in progress: the sequence numbers it listed, its position, and whether the
      operation there was acknowledged but not yet deleted from the queue. */
  datatype Cursor = Cursor(list: seq<nat>, pos: nat, acknowledged: bool)

  /** `all[q]` is the request that was given sequence number q; `log` lists the operations whose
      effect was committed by a send of this queue, in the order of the commits. */
  datatype Sys = Sys(
    all: seq<Request>, queue: seq<Entry>, server: Db, log: seq<nat>, cursors: map<nat, Cursor>,
    maxEntries: nat, maxBytes: nat)

  datatype Event =
    | Enqueue(req: Request, size: nat)
    | Direct(op: Op)
    | Start(replay: nat, limit: nat)
    | SendNext(replay: nat, net: Net)
    | Delete(replay: nat)
    | Abandon(replay: nat)

  function Sequences(rows: seq<Entry>): (r: seq<nat>)
    ensures |r| == |rows| && forall i | 0 <= i < |rows| :: r[i] == rows[i].sequence
  {
    seq(|rows|, i requires 0 <= i < |rows| => rows[i].sequence)
  }

  predicate Enabled(s: Sys, e: Event) {
    match e
    case Enqueue(req, size) => true
    case Direct(op) => true
    case Start(replay, limit) => replay !in s.cursors && 1 <= limit <= 1000
    case SendNext(replay, net) =>
      replay in s.cursors && s.cursors[replay].pos < |s.cursors[replay].list|
      && s.cursors[replay].list[s.cursors[replay].pos] < |s.all| && !s.cursors[replay].acknowledged
    case Delete(replay) =>
      replay in s.cursors && s.cursors[replay].pos < |s.cursors[replay].list| && s.cursors[replay].acknowledged
    case Abandon(replay) => replay in s.cursors
  }

  function Apply(s: Sys, e: Event): Sys
    requires Enabled(s, e)
  {
    match e
    case Enqueue(req, size) =>
      if Queued(s.queue, req.key.idem) || !Fits(s.queue, size, s.maxEntries, s.maxBytes) then s
      else s.(all := s.all + [req], queue := s.queue + [Entry(|s.all|, req, size, false)])
    case Direct(op) => s.(server := Step(s.server, op))
    case Start(replay, limit) =>
      var n := if limit <= |s.queue| then limit else |s.queue|;
      s.(cursors := s.cursors[replay := Cursor(Sequences(s.queue[..n]), 0, false)])
    case SendNext(replay, net) =>
      var c := s.cursors[replay];
      var q := c.list[c.pos];
      var (after, sent) := Send(s.server, s.all[q], net);
      var logged := s.(server := after, log := if |after.intakes| > |s.server.intakes| then s.log + [q] else s.log);
      (match sent
       case SentCompleted => logged.(cursors := s.cursors[replay := c.(acknowledged := true)])
       case SentReplayed => logged.(cursors := s.cursors[replay := c.(acknowledged := true)])
       case SentConflict => logged.(queue := Marked(s.queue, q), cursors := s.cursors - {replay})
       case Uncertain => logged.(cursors := s.cursors - {replay}))
    case Delete(replay) =>
      var c := s.cursors[replay];
      s.(queue := Without(s.queue, c.list[c.pos]),
         cursors := s.cursors[replay := c.(pos := c.pos + 1, acknowledged := false)])
    case Abandon(replay) => s.(cursors := s.cursors - {replay})
  }

  /** The committed bundles of a request's own content: same key, same digest. */
  function OwnEffects(db: Db, req: Request): set<nat> {
    set n | 0 <= n < |db.intakes| && db.intakes[n].req.key == req.key && db.intakes[n].req.digest == req.digest
  }

  /** The operation itself has taken effect, as opposed to another request under its key. */
  ghost predicate Own(db: Db, req: Request) {
    exists n :: 0 <= n < |db.intakes| && db.intakes[n].req.key == req.key && db.intakes[n].req.digest == req.digest
  }

  ghost predicate Recorded(s: Sys, q: nat)
    requires q < |s.all|
  {
    Own(s.server, s.all[q])
  }

  /** Every operation before `q` has its effect. */
  ghost predicate Settled(s: Sys, q: nat) {
    forall p | 0 <= p < q && p < |s.all| :: Recorded(s, p)
  }

  predicate Waiting(rows: seq<Entry>, q: nat) {
    exists i :: 0 <= i < |rows| && rows[i].sequence == q
  }

  ghost predicate QueueInv(s: Sys) {
    && InBounds(s.queue, s.maxEntries, s.maxBytes)
    && (forall i | 0 <= i < |s.queue| :: s.queue[i].sequence < |s.all| && s.queue[i].req == s.all[s.queue[i].sequence])
    && (forall i, j | 0 <= i < j < |s.queue| :: s.queue[i].sequence < s.queue[j].sequence)
    && (forall q: nat | q < |s.all| && !Waiting(s.queue, q) :: Recorded(s, q))
  }

  ghost predicate LogInv(s: Sys) {
    && (forall i | 0 <= i < |s.log| :: s.log[i] < |s.all| && Recorded(s, s.log[i]) && Settled(s, s.log[i]))
    && (forall i, j | 0 <= i < j < |s.log| :: s.log[i] < s.log[j])
  }

  /** A replay has everything before its present operation behind it, and between two listed
      operations there is nothing unsettled. */
  ghost predicate CursorInv(s: Sys, c: Cursor) {
    && c.pos <= |c.list|
    && (forall i | 0 <= i < |c.list| :: c.list[i] < |s.all|)
    && (c.pos < |c.list| ==> Settled(s, c.list[c.pos]))
    && (c.acknowledged ==> c.pos < |c.list| && Recorded(s, c.list[c.pos]))
    && (forall i | 0 <= i < |c.list| - 1 :: Gap(s, c.list[i], c.list[i + 1]))
  }

  /** Every operation strictly between two sequence numbers has its effect. */
  ghost predicate Gap(s: Sys, low: nat, high: nat) {
    forall p | low < p < high && p < |s.all| :: Recorded(s, p)
  }

  ghost predicate Inv(s: Sys) {
    && Idempotency.Inv(s.server) && QueueInv(s) && LogInv(s)
    && forall r | r in s.cursors :: CursorInv(s, s.cursors[r])
  }

  ghost predicate Init(s: Sys) {
    && s.all == [] && s.queue == [] && s.log == [] && s.cursors == map[] && Idempotency.Inv(s.server)
  }

  lemma InitInv(s: Sys)
    requires Init(s)
    ensures Inv(s)
  {
  }

  lemma OwnStays(db: Db, after: Db, req: Request)
    requires Own(db, req) && db.intakes <= after.intakes
    ensures Own(after, req)
  {
    var n :| 0 <= n < |db.intakes| && db.intakes[n].req.key == req.key && db.intakes[n].req.digest == req.digest;
    assert after.intakes[n] == db.intakes[n];
  }

  lemma RecordedStays(s: Sys, after: Sys)
    requires after.all == s.all && s.server.intakes <= after.server.intakes
    ensures forall q: nat | q < |s.all| && Recorded(s, q) :: Recorded(after, q)
  {
    forall q: nat | q < |s.all| && Recorded(s, q) ensures Recorded(after, q) {
      OwnStays(s.server, after.server, s.all[q]);
    }
  }

  /** A send is at most one request to the server. What it acknowledges is the operation's own
      effect, and it has an effect only if its key had none; what is in conflict has no effect. */
  lemma SendIsOneRequest(server: Db, req: Request, net: Net)
    requires Idempotency.Inv(server)
    ensures var (after, sent) := Send(server, req, net);
            && Idempotency.Inv(after) && server.intakes <= after.intakes
            && (sent.SentCompleted? || sent.SentReplayed? ==> Own(after, req))
            && (|after.intakes| > |server.intakes| ==> Effects(server, req.key) == {} && Own(after, req))
            && (sent.SentConflict? ==> after == server && !Own(server, req))
  {
    hide Idempotency.KeyInv, Idempotency.BundleInv, ActiveWithHash, Own, Effects, TargetOf;
    if !net.LostRequest? {
      CommitKeepsInv(server, req, net.fault);
      StepExtends(server, Commit(req, net.fault));
      var (after, response) := CommitRecord(server, req, net.fault);
      if req.key !in server.records {
        NoEffectYet(server, req);
        EffectsIncludeOwn(server, req);
      }
      if after != server {
        LastIsOwn(after, req);
      } else if req.key in server.records && !server.records[req.key].status.Tombstoned? {
        RecordTellsOwn(server, req);
      }
    }
  }

  lemma LastIsOwn(after: Db, req: Request)
    requires after.intakes != [] && after.intakes[|after.intakes| - 1].req == req
    ensures Own(after, req)
  {
  }

  lemma NoEffectYet(server: Db, req: Request)
    requires KeyInv(server) && req.key !in server.records
    ensures Effects(server, req.key) == {}
  {
    hide RecordOk;
  }

  /** A completed record tells whether the bundle of its key is the request's own. */
  lemma RecordTellsOwn(server: Db, req: Request)
    requires KeyInv(server) && req.key in server.records && !server.records[req.key].status.Tombstoned?
    ensures Own(server, req) <==> server.records[req.key].digest == Some(req.digest)
  {
    assert HasIntake(server.intakes, req.key);
    var n :| 0 <= n < |server.intakes| && server.intakes[n].req.key == req.key;
    assert RecordOk(server.records[req.key], server.intakes[n]);
  }

  /** More effects at the server keep every cursor and the log in order. */
  lemma MoreRecords(s: Sys, after: Sys, c: Cursor)
    requires after.all == s.all && CursorInv(s, c)
    requires s.server.intakes <= after.server.intakes
    ensures CursorInv(after, c)
  {
    hide Own;
    RecordedStays(s, after);
    if c.pos < |c.list| {
      assert Settled(after, c.list[c.pos]);
    }
    forall i | 0 <= i < |c.list| - 1 ensures Gap(after, c.list[i], c.list[i + 1]) {
      assert Gap(s, c.list[i], c.list[i + 1]);
    }
  }

  lemma LogStays(s: Sys, after: Sys)
    requires after.all == s.all && LogInv(s) && after.log == s.log
    requires s.server.intakes <= after.server.intakes
    ensures LogInv(after)
  {
    hide Own;
    RecordedStays(s, after);
  }

  /** The order argument: an operation that takes effect now was not recorded, so no operation
      after it can have taken effect before. */
  lemma LogGrows(s: Sys, after: Sys, q: nat)
    requires LogInv(s) && q < |s.all| && Settled(s, q) && !Recorded(s, q)
    requires after.all == s.all && after.log == s.log + [q] && Recorded(after, q)
    requires s.server.intakes <= after.server.intakes
    ensures LogInv(after)
  {
    hide Own;
    RecordedStays(s, after);
    forall i | 0 <= i < |s.log| ensures s.log[i] < q {
      assert Settled(s, s.log[i]) && Recorded(s, s.log[i]);
    }
  }

  lemma QueueStays(s: Sys, after: Sys)
    requires QueueInv(s) && after.all == s.all && after.queue == s.queue
    requires after.maxEntries == s.maxEntries && after.maxBytes == s.maxBytes
    requires s.server.intakes <= after.server.intakes
    ensures QueueInv(after)
  {
    hide Own;
    RecordedStays(s, after);
  }

  lemma QueueMarked(s: Sys, after: Sys, q: nat)
    requires QueueInv(s) && after.all == s.all && after.queue == Marked(s.queue, q)
    requires after.maxEntries == s.maxEntries && after.maxBytes == s.maxBytes
    requires s.server.intakes <= after.server.intakes
    ensures QueueInv(after)
  {
    hide Own;
    RecordedStays(s, after);
    forall p: nat | p < |s.all| ensures Waiting(after.queue, p) || Recorded(after, p) {
      if Waiting(s.queue, p) {
        var i :| 0 <= i < |s.queue| && s.queue[i].sequence == p;
        assert after.queue[i].sequence == p;
      } else {
        assert Recorded(s, p);
      }
    }
  }

  lemma SendKeepsInv(s: Sys, e: Event)
    requires Inv(s) && Enabled(s, e) && e.SendNext?
    ensures Inv(Apply(s, e))
  {
    hide Idempotency.Inv, QueueInv, LogInv, CommitRecord, Effects, Own;
    var after, c := Apply(s, e), s.cursors[e.replay];
    var q := c.list[c.pos];
    SendIsOneRequest(s.server, s.all[q], e.net);
    if Effects(s.server, s.all[q].key) == {} {
      EffectsIncludeOwn(s.server, s.all[q]);
    }
    if Send(s.server, s.all[q], e.net).1.SentConflict? {
      QueueMarked(s, after, q);
    } else {
      QueueStays(s, after);
    }
    if after.log == s.log {
      LogStays(s, after);
    } else {
      LogGrows(s, after, q);
    }
    forall r | r in after.cursors ensures CursorInv(after, after.cursors[r]) {
      MoreRecords(s, after, s.cursors[r]);
    }
  }

  lemma EffectsIncludeOwn(db: Db, req: Request)
    ensures OwnEffects(db, req) <= Effects(db, req.key)
    ensures Own(db, req) <==> OwnEffects(db, req) != {}
  {
    if Own(db, req) {
      var n :| 0 <= n < |db.intakes| && db.intakes[n].req.key == req.key && db.intakes[n].req.digest == req.digest;
      assert n in OwnEffects(db, req);
    }
  }

  ghost predicate Ascending(rows: seq<Entry>) {
    forall i, j | 0 <= i < j < |rows| :: rows[i].sequence < rows[j].sequence
  }

  lemma AscendingFront(rows: seq<Entry>)
    requires rows != [] && Ascending(rows)
    ensures Ascending(rows[..|rows| - 1]) && forall e | e in rows[..|rows| - 1] :: e.sequence < rows[|rows| - 1].sequence
  {
  }

  lemma AscendingAppend(rows: seq<Entry>, last: Entry)
    requires Ascending(rows) && forall e | e in rows :: e.sequence < last.sequence
    ensures Ascending(rows + [last])
  {
    forall i, j | 0 <= i < j < |rows + [last]| ensures (rows + [last])[i].sequence < (rows + [last])[j].sequence {
      assert rows[i] in rows;
    }
  }

  lemma {:induction false} WithoutKeepsOrder(rows: seq<Entry>, q: nat)
    requires Ascending(rows)
    ensures Ascending(Without(rows, q))
  {
    hide Ascending, Bytes;
    if rows == [] {
      assert Without(rows, q) == rows;
    } else {
      var front, last := rows[..|rows| - 1], rows[|rows| - 1];
      AscendingFront(rows);
      WithoutKeepsOrder(front, q);
      AscendingAppend(Without(front, q), last);
      assert Without(rows, q) == Without(front, q) || Without(rows, q) == Without(front, q) + [last];
    }
  }

  lemma DeleteKeepsQueue(s: Sys, after: Sys, q: nat)
    requires QueueInv(s) && after.all == s.all && after.server == s.server && after.queue == Without(s.queue, q)
    requires after.maxEntries == s.maxEntries && after.maxBytes == s.maxBytes
    requires q < |s.all| && Recorded(s, q)
    ensures QueueInv(after)
  {
    hide Without, Bytes, Own, Waiting;
    WithoutKeepsOrder(s.queue, q);
    forall i | 0 <= i < |after.queue|
      ensures after.queue[i].sequence < |s.all| && after.queue[i].req == s.all[after.queue[i].sequence]
    {
      assert after.queue[i] in s.queue;
    }
    forall p: nat | p < |s.all| && !Waiting(after.queue, p) ensures Recorded(after, p) {
      StillWaiting(s.queue, p, q);
      assert p == q || Recorded(s, p);
    }
  }

  lemma StillWaiting(rows: seq<Entry>, p: nat, q: nat)
    ensures Waiting(rows, p) && p != q ==> Waiting(Without(rows, q), p)
  {
    hide Without, Bytes;
    if Waiting(rows, p) && p != q {
      var i :| 0 <= i < |rows| && rows[i].sequence == p;
      assert rows[i] in Without(rows, q);
    }
  }

  lemma DeleteKeepsInv(s: Sys, e: Event)
    requires Inv(s) && Enabled(s, e) && e.Delete?
    ensures Inv(Apply(s, e))
  {
    hide Idempotency.Inv, LogInv, QueueInv, Settled, Gap;
    var after, c := Apply(s, e), s.cursors[e.replay];
    assert CursorInv(s, c);
    LogStays(s, after);
    DeleteKeepsQueue(s, after, c.list[c.pos]);
    forall r | r in after.cursors ensures CursorInv(after, after.cursors[r]) {
      assert CursorInv(s, s.cursors[r]);
      if r != e.replay {
        MoreRecords(s, after, s.cursors[r]);
      } else {
        AdvanceCursor(s, after, c);
      }
    }
  }

  lemma AdvanceCursor(s: Sys, after: Sys, c: Cursor)
    requires CursorInv(s, c) && c.acknowledged && after.all == s.all && after.server == s.server
    ensures CursorInv(after, c.(pos := c.pos + 1, acknowledged := false))
  {
    assert forall q: nat | q < |s.all| :: Recorded(s, q) == Recorded(after, q);
    forall i | 0 <= i < |c.list| - 1 ensures Gap(after, c.list[i], c.list[i + 1]) {
      assert Gap(s, c.list[i], c.list[i + 1]);
    }
    if c.pos + 1 < |c.list| {
      assert Gap(s, c.list[c.pos], c.list[c.pos + 1]);
      forall p | 0 <= p < c.list[c.pos + 1] && p < |s.all| ensures Recorded(after, p) {
        assert Recorded(s, p);
      }
    }
  }

  lemma FreshCursor(s: Sys, list: seq<nat>)
    requires QueueInv(s) && |list| <= |s.queue| && forall i | 0 <= i < |list| :: list[i] == s.queue[i].sequence
    ensures CursorInv(s, Cursor(list, 0, false))
  {
    if |list| > 0 {
      forall p | 0 <= p < list[0] && p < |s.all| ensures Recorded(s, p) {
        assert !Waiting(s.queue, p);
      }
    }
    forall i | 0 <= i < |list| - 1 ensures Gap(s, list[i], list[i + 1]) {
      forall p | list[i] < p < list[i + 1] && p < |s.all| ensures Recorded(s, p) {
        forall k | 0 <= k < |s.queue| ensures s.queue[k].sequence != p {
          assert k <= i || i + 1 <= k;
        }
        assert !Waiting(s.queue, p);
      }
    }
  }

  lemma StartKeepsInv(s: Sys, e: Event)
    requires Inv(s) && Enabled(s, e) && e.Start?
    ensures Inv(Apply(s, e))
  {
    hide Idempotency.Inv, LogInv, QueueInv, CursorInv;
    var after := Apply(s, e);
    FreshCursor(s, after.cursors[e.replay].list);
    MoreRecords(s, after, after.cursors[e.replay]);
    LogStays(s, after);
    QueueStays(s, after);
    forall r | r in s.cursors ensures CursorInv(after, s.cursors[r]) {
      MoreRecords(s, after, s.cursors[r]);
    }
  }

  lemma EnqueueKeepsInv(s: Sys, e: Event)
    requires Inv(s) && Enabled(s, e) && e.Enqueue?
    ensures Inv(Apply(s, e))
  {
    hide Idempotency.Inv;
    var after := Apply(s, e);
    if after != s {
      BytesConcat(s.queue, [Entry(|s.all|, e.req, e.size, false)]);
      assert [Entry(|s.all|, e.req, e.size, false)][..0] == [];
      forall p: nat | p < |after.all| ensures Waiting(after.queue, p) || Recorded(after, p) {
        if p == |s.all| {
          assert after.queue[|s.queue|].sequence == p;
        } else if i :| 0 <= i < |s.queue| && s.queue[i].sequence == p {
          assert after.queue[i].sequence == p;
        } else {
          assert !Waiting(s.queue, p);
          assert Recorded(s, p);
        }
      }
      assert forall q: nat | q < |s.all| :: Recorded(s, q) == Recorded(after, q);
      forall i | 0 <= i < |s.log| ensures Settled(after, s.log[i]) {
        assert Settled(s, s.log[i]);
      }
      forall r | r in s.cursors ensures CursorInv(after, s.cursors[r]) {
        LongerHistory(s, after, s.cursors[r]);
      }
    }
  }

  lemma LongerHistory(s: Sys, after: Sys, c: Cursor)
    requires CursorInv(s, c) && s.all <= after.all && after.server == s.server
    ensures CursorInv(after, c)
  {
    assert forall q: nat | q < |s.all| :: Recorded(s, q) == Recorded(after, q);
    if c.pos < |c.list| {
      assert Settled(s, c.list[c.pos]);
      assert Settled(after, c.list[c.pos]);
    }
    forall i | 0 <= i < |c.list| - 1 ensures Gap(after, c.list[i], c.list[i + 1]) {
      assert Gap(s, c.list[i], c.list[i + 1]);
    }
  }

  lemma DirectKeepsInv(s: Sys, e: Event)
    requires Inv(s) && Enabled(s, e) && e.Direct?
    ensures Inv(Apply(s, e))
  {
    hide Idempotency.Inv, QueueInv, LogInv, Step, CursorInv;
    var after := Apply(s, e);
    StepKeepsServer(s.server, e.op);
    StepExtends(s.server, e.op);
    QueueStays(s, after);
    LogStays(s, after);
    forall r | r in s.cursors ensures CursorInv(after, s.cursors[r]) {
      MoreRecords(s, after, s.cursors[r]);
    }
  }

  lemma StepKeepsServer(server: Db, op: Op)
    requires Idempotency.Inv(server)
    ensures Idempotency.Inv(Step(server, op))
  {
    hide Idempotency.Inv;
    match op
    case Commit(req, fault) => CommitKeepsInv(server, req, fault);
    case Erase(key) => TombstoneKeepsInv(server, key);
  }

  lemma StepKeepsInv(s: Sys, e: Event)
    requires Inv(s) && Enabled(s, e)
    ensures Inv(Apply(s, e))
  {
    hide Idempotency.Inv, QueueInv, LogInv, CursorInv;
    match e
    case Enqueue(_, _) => EnqueueKeepsInv(s, e);
    case Direct(_) => DirectKeepsInv(s, e);
    case Start(_, _) => StartKeepsInv(s, e);
    case SendNext(_, _) => SendKeepsInv(s, e);
    case Delete(_) => DeleteKeepsInv(s, e);
    case Abandon(replay) =>
      var after := Apply(s, e);
      QueueStays(s, after);
      LogStays(s, after);
      forall r | r in after.cursors ensures CursorInv(after, after.cursors[r]) {
        MoreRecords(s, after, s.cursors[r]);
      }
  }

  // ---- What every run guarantees ----------------------------------------------------------

  ghost predicate Run(states: seq<Sys>, events: seq<Event>) {
    && |states| == |events| + 1 && Init(states[0])
    && forall k | 0 <= k < |events| :: Enabled(states[k], events[k]) && states[k + 1] == Apply(states[k], events[k])
  }

  lemma {:induction false} RunKeepsInv(states: seq<Sys>, events: seq<Event>, k: nat)
    requires Run(states, events) && k < |states|
    ensures Inv(states[k])
  {
    hide Inv, Init;
    if k > 0 {
      RunKeepsInv(states, events, k - 1);
      StepKeepsInv(states[k - 1], events[k - 1]);
    } else {
      InitInv(states[0]);
    }
  }

  /** What the invariant means to the owner of the queue: an operation that has left the queue has
      exactly one effect at the server, with its own content; no operation has more than one;
      effects happened in sequence order, none of them before all earlier operations had theirs;
      the queue is within both bounds, and so neither a row of it nor two rows together are larger than
      the byte bound. */
  ghost predicate ExactlyOnce(s: Sys) {
    && (forall q: nat | q < |s.all| :: |Effects(s.server, s.all[q].key)| <= 1)
    && (forall q: nat | q < |s.all| && !Waiting(s.queue, q) :: |OwnEffects(s.server, s.all[q])| == 1)
    && (forall i, j | 0 <= i < j < |s.log| :: s.log[i] < s.log[j])
    && (forall i, p: nat | 0 <= i < |s.log| && p <= s.log[i] && p < |s.all| :: |OwnEffects(s.server, s.all[p])| == 1)
    && |s.queue| <= s.maxEntries && Bytes(s.queue) <= s.maxBytes
    && (forall i | 0 <= i < |s.queue| :: s.queue[i].size <= s.maxBytes)
    && (forall i, j | 0 <= i < j < |s.queue| :: s.queue[i].size + s.queue[j].size <= s.maxBytes)
  }

  lemma InvMeansExactlyOnce(s: Sys)
    requires Inv(s)
    ensures ExactlyOnce(s)
  {
    hide CursorInv, Effects, OwnEffects, Bytes, Idempotency.Inv, Own;
    EffectsFollowRecords(s);
    LoggedMeansRecorded(s);
    forall i | 0 <= i < |s.queue| ensures s.queue[i].size <= s.maxBytes {
      BytesBoundRow(s.queue, i);
    }
    forall i, j | 0 <= i < j < |s.queue| ensures s.queue[i].size + s.queue[j].size <= s.maxBytes {
      BytesBoundRows(s.queue, i, j);
    }
  }

  /** Under any mix of enqueues, concurrent replays, lost requests, lost responses, crashes and
      other traffic, erasures and requests under the same keys included. */
  lemma ExactlyOnceInOrder(states: seq<Sys>, events: seq<Event>, k: nat)
    requires Run(states, events) && k < |states|
    ensures ExactlyOnce(states[k])
  {
    hide Inv, ExactlyOnce;
    RunKeepsInv(states, events, k);
    InvMeansExactlyOnce(states[k]);
  }

  /** What is marked as conflicting was not lost: it has no effect, and it is still in the queue. */
  lemma ConflictsStayQueued(s: Sys, replay: nat, net: Net)
    requires Inv(s) && Enabled(s, SendNext(replay, net))
    ensures var c := s.cursors[replay]; var q := c.list[c.pos];
            Send(s.server, s.all[q], net).1.SentConflict? ==>
              !Own(s.server, s.all[q]) && Waiting(Apply(s, SendNext(replay, net)).queue, q)
  {
    hide Own, Effects, CommitRecord, Idempotency.Inv, CursorInv, LogInv;
    var c := s.cursors[replay];
    var q := c.list[c.pos];
    SendIsOneRequest(s.server, s.all[q], net);
    if Send(s.server, s.all[q], net).1.SentConflict? {
      assert !Recorded(s, q);
      var i :| 0 <= i < |s.queue| && s.queue[i].sequence == q;
      assert Marked(s.queue, q)[i].sequence == q;
    }
  }

  lemma EffectsFollowRecords(s: Sys)
    requires Idempotency.Inv(s.server)
    ensures forall q: nat | q < |s.all| :: |Effects(s.server, s.all[q].key)| <= 1
    ensures forall q: nat | q < |s.all| :: |OwnEffects(s.server, s.all[q])| == if Recorded(s, q) then 1 else 0
  {
    hide Effects, Idempotency.Inv, Own, OwnEffects;
    forall q: nat | q < |s.all|
      ensures |Effects(s.server, s.all[q].key)| <= 1
      ensures |OwnEffects(s.server, s.all[q])| == if Recorded(s, q) then 1 else 0
    {
      OneEffectPerRecord(s.server, s.all[q].key);
      EffectsIncludeOwn(s.server, s.all[q]);
      SubsetSize(OwnEffects(s.server, s.all[q]), Effects(s.server, s.all[q].key));
    }
  }

  lemma LoggedMeansRecorded(s: Sys)
    requires LogInv(s)
    ensures forall i, p: nat | 0 <= i < |s.log| && p <= s.log[i] && p < |s.all| :: Recorded(s, p)
  {
    hide Own;
    forall i, p: nat | 0 <= i < |s.log| && p <= s.log[i] && p < |s.all| ensures Recorded(s, p) {
      assert Settled(s, s.log[i]);
    }
  }
}
