/** Idempotent commits: the request-key records and the rows one request writes, as functions
    on the whole database, and what every run of requests keeps. */
module Idempotency {
  import opened Options
  import opened SetSizes

  /** The unique request key. */
  datatype Key = Key(client: nat, operation: string, idem: nat)

  datatype Outcome =
    | Accepted(target: nat, source: nat, operation: nat, indexPending: bool)
    | Duplicate(of: nat, operation: nat)

  datatype Status = Claimed | Completed | Tombstoned

  datatype Record = Record(digest: Option<nat>, outcome: Option<Outcome>, status: Status)

  /** `req` is the request the intake was written for; of it the row itself stores client,
      operation and key. */
  datatype Intake = Intake(id: nat, req: Request, completed: bool, refs: seq<nat>)
  datatype Raw = Raw(id: nat, intake: nat, hash: nat, active: bool)
  datatype Target = Target(id: nat, intake: nat, source: nat)
  datatype QueuedJob = QueuedJob(intake: nat, kind: string, target: nat)
  datatype Audit = Audit(intake: nat, target: nat, duplicate: bool)

  /** `nextId` bounds every id handed out so far: a new UUID is modelled by the next number. */
  datatype Db = Db(
    records: map<Key, Record>, intakes: seq<Intake>, raws: seq<Raw>, targets: seq<Target>,
    jobs: seq<QueuedJob>, audits: seq<Audit>, nextId: nat)

  /** One write request. `digest` covers operation, text, scope and distinguishing parameters;
      `dedupe` is the content hash a client may claim. */
  datatype Request = Request(
    key: Key, digest: nat, hash: nat, dedupe: Option<nat>, writesTarget: bool,
    existing: Option<nat>, kind: string, extra: seq<string>, index: bool)

  /** Where an execution can break off besides its own checks. */
  datatype Fault = NoFault | AuthorityDenied | SideEffectFails(code: string) | PreCommitFails(code: string) | CommitFails

  datatype Response = Ok(outcome: Outcome) | Deleted | Error(code: string)

  // ---- The claim on a request key ---------------------------------------------------------

  datatype Claim = Created | Replay(outcome: Option<Outcome>) | InProgress | ClaimDeleted | Conflict

  function ClaimRequest(records: map<Key, Record>, key: Key, digest: nat): Claim {
    if key !in records then Created
    else
      var r := records[key];
      if r.status.Tombstoned? then ClaimDeleted
      else if r.digest != Some(digest) then Conflict
      else if r.status.Completed? then Replay(r.outcome)
      else InProgress
  }

  /** Erases the digest and the outcome and keeps the key. */
  function Tombstone(db: Db, key: Key): Db {
    if key in db.records then db.(records := db.records[key := Record(None, None, Tombstoned)]) else db
  }

  // ---- One request as a function of the database --------------------------------------------

  function ActiveWithHash(raws: seq<Raw>, hash: nat): Option<Raw> {
    if raws == [] then None
    else if raws[0].hash == hash && raws[0].active then Some(raws[0])
    else ActiveWithHash(raws[1..], hash)
  }

  function DuplicateOf(db: Db, req: Request): Option<Raw> {
    if req.dedupe.None? then None else ActiveWithHash(db.raws, req.hash)
  }

  /** The rows of a request that found its content already stored. */
  function WithDuplicate(db: Db, req: Request, found: Raw): Db {
    var intake := db.nextId;
    db.(records := db.records[req.key := Record(Some(req.digest), Some(Duplicate(found.id, found.intake)), Completed)],
        intakes := db.intakes + [Intake(intake, req, true, [found.id])],
        audits := db.audits + [Audit(intake, found.id, true)],
        nextId := db.nextId + 3)
  }

  function TargetOf(db: Db, req: Request): nat {
    if req.existing.Some? then req.existing.value
    else if req.writesTarget then db.nextId + 2 else db.nextId + 1
  }

  function JobsFor(intake: nat, req: Request, target: nat): seq<QueuedJob> {
    [QueuedJob(intake, req.kind, target)]
    + seq(|req.extra|, i requires 0 <= i < |req.extra| => QueuedJob(intake, req.extra[i], target))
  }

  /** The rows of a request that stored something new: intake, raw source, target, every queued
      stage, audit, and the completed record. */
  function WithBundle(db: Db, req: Request): Db {
    var intake, source, target := db.nextId, db.nextId + 1, TargetOf(db, req);
    db.(records := db.records[req.key := Record(Some(req.digest), Some(Accepted(target, source, intake, req.index)), Completed)],
        intakes := db.intakes + [Intake(intake, req, true, [target, source])],
        raws := db.raws + [Raw(source, intake, req.hash, true)],
        targets := if req.writesTarget then db.targets + [Target(target, intake, source)] else db.targets,
        jobs := db.jobs + JobsFor(intake, req, target),
        audits := db.audits + [Audit(intake, target, false)],
        nextId := db.nextId + 3)
  }

  function CommitRecord(db: Db, req: Request, fault: Fault): (Db, Response) {
    if fault.AuthorityDenied? then (db, Error("PERMISSION_DENIED"))
    else
      match ClaimRequest(db.records, req.key, req.digest)
      case Replay(outcome) => (db, if outcome.Some? then Ok(outcome.value) else Error("EMPTY_OUTCOME"))
      case ClaimDeleted => (db, Deleted)
      case Conflict => (db, Error("IDEMPOTENCY_CONFLICT"))
      case InProgress => (db, Error("BRAIN_UNAVAILABLE"))
      case Created =>
        if req.dedupe.Some? && req.dedupe.value != req.hash then (db, Error("VALIDATION_FAILED"))
        else if DuplicateOf(db, req).Some? then
          if fault.CommitFails? then (db, Error("COMMIT_FAILED"))
          else
            var found := DuplicateOf(db, req).value;
            (WithDuplicate(db, req, found), Ok(Duplicate(found.id, found.intake)))
        else
          match fault
          case SideEffectFails(code) => (db, Error(code))
          case PreCommitFails(code) => (db, Error(code))
          case CommitFails => (db, Error("COMMIT_FAILED"))
          case _ => (WithBundle(db, req), Ok(Accepted(TargetOf(db, req), db.nextId + 1, db.nextId, req.index)))
  }

  // ---- Whole bundles ------------------------------------------------------------------------

  function OfRaw(r: Raw): nat { r.intake }
  function OfTarget(t: Target): nat { t.intake }
  function OfJob(j: QueuedJob): nat { j.intake }
  function OfAudit(a: Audit): nat { a.intake }

  /** The rows of a table that belong to an intake. */
  function Belonging<T>(rows: seq<T>, of: T -> nat, intake: nat): seq<T> {
    if rows == [] then []
    else
      var last := rows[|rows| - 1];
      Belonging(rows[..|rows| - 1], of, intake) + (if of(last) == intake then [last] else [])
  }

  /** Everything one request left behind. */
  datatype Bundle = Bundle(intake: Intake, raws: seq<Raw>, targets: seq<Target>, jobs: seq<QueuedJob>, audits: seq<Audit>)

  function BundleOf(db: Db, i: Intake): Bundle {
    Bundle(i, Belonging(db.raws, OfRaw, i.id), Belonging(db.targets, OfTarget, i.id),
           Belonging(db.jobs, OfJob, i.id), Belonging(db.audits, OfAudit, i.id))
  }

  ghost predicate Stored(raws: seq<Raw>, id: nat, hash: nat) {
    exists n :: 0 <= n < |raws| && raws[n].id == id && raws[n].hash == hash
  }

  /** A bundle holds exactly what its request asked for. Either one source with the content, one
      target row if the request writes one, every stage and one audit row; or, for a request that
      asked for duplicate detection and whose content is stored, the audit row alone. */
  ghost predicate Whole(b: Bundle, raws: seq<Raw>) {
    var i, req := b.intake, b.intake.req;
    && i.completed
    && if |i.refs| == 1 then
         && b.raws == [] && b.targets == [] && b.jobs == [] && b.audits == [Audit(i.id, i.refs[0], true)]
         && req.dedupe == Some(req.hash) && Stored(raws, i.refs[0], req.hash)
       else
         && |i.refs| == 2
         && b.raws == [Raw(i.refs[1], i.id, req.hash, true)]
         && b.targets == (if req.writesTarget then [Target(i.refs[0], i.id, i.refs[1])] else [])
         && b.jobs == JobsFor(i.id, req, i.refs[0])
         && b.audits == [Audit(i.id, i.refs[0], false)]
         && (if req.existing.Some? then i.refs[0] == req.existing.value else req.writesTarget <==> i.refs[0] != i.refs[1])
  }

  ghost predicate WholeBundle(db: Db, i: Intake) {
    Whole(BundleOf(db, i), db.raws)
  }

  /** What a record says of the bundle of its key. */
  ghost predicate RecordOk(r: Record, i: Intake) {
    match r.status
    case Claimed => false
    case Tombstoned => r.digest.None? && r.outcome.None?
    case Completed =>
      r.digest == Some(i.req.digest) && r.outcome.Some? &&
      match r.outcome.value
      case Accepted(target, source, operation, indexPending) =>
        i.refs == [target, source] && operation == i.id && indexPending == i.req.index
      case Duplicate(of, _) => i.refs == [of]
  }

  /** Records and intakes match one to one, and no record is merely claimed. */
  ghost predicate KeyInv(db: Db) {
    && (forall n | 0 <= n < |db.intakes| :: db.intakes[n].req.key in db.records && RecordOk(db.records[db.intakes[n].req.key], db.intakes[n]))
    && (forall m, n | 0 <= m < n < |db.intakes| :: db.intakes[m].req.key != db.intakes[n].req.key)
    && (forall k | k in db.records :: HasIntake(db.intakes, k))
  }

  ghost predicate HasIntake(intakes: seq<Intake>, key: Key) {
    exists n :: 0 <= n < |intakes| && intakes[n].req.key == key
  }

  ghost predicate HasId(intakes: seq<Intake>, id: nat) {
    exists n :: 0 <= n < |intakes| && intakes[n].id == id
  }

  /** No row without its intake. */
  ghost predicate NoStrays(db: Db) {
    && (forall n | 0 <= n < |db.raws| :: HasId(db.intakes, db.raws[n].intake))
    && (forall n | 0 <= n < |db.targets| :: HasId(db.intakes, db.targets[n].intake))
    && (forall n | 0 <= n < |db.jobs| :: HasId(db.intakes, db.jobs[n].intake))
    && (forall n | 0 <= n < |db.audits| :: HasId(db.intakes, db.audits[n].intake))
  }

  ghost predicate BundleInv(db: Db) {
    && (forall n | 0 <= n < |db.intakes| :: db.intakes[n].id < db.nextId && WholeBundle(db, db.intakes[n]))
    && (forall m, n | 0 <= m < n < |db.intakes| :: db.intakes[m].id != db.intakes[n].id)
    && NoStrays(db)
  }

  /** The committed database between requests. */
  ghost predicate Inv(db: Db) {
    KeyInv(db) && BundleInv(db)
  }

  ghost predicate Empty(db: Db) {
    db.records == map[] && db.intakes == [] && db.raws == [] && db.targets == [] && db.jobs == [] && db.audits == []
  }

  /** Rows of other intakes do not show. */
  lemma {:induction false} BelongingKept<T>(rows: seq<T>, more: seq<T>, of: T -> nat, intake: nat)
    requires rows <= more && forall n | |rows| <= n < |more| :: of(more[n]) != intake
    ensures Belonging(more, of, intake) == Belonging(rows, of, intake)
    decreases |more|
  {
    if rows != more {
      BelongingKept(rows, more[..|more| - 1], of, intake);
    }
  }

  /** The first rows of a new intake are all its rows. */
  lemma {:induction false} BelongingNew<T>(rows: seq<T>, added: seq<T>, of: T -> nat, intake: nat)
    requires forall n | 0 <= n < |rows| :: of(rows[n]) != intake
    requires forall n | 0 <= n < |added| :: of(added[n]) == intake
    ensures Belonging(rows + added, of, intake) == added
    decreases |added|
  {
    if added == [] {
      assert rows + added == rows;
      BelongingKept([], rows, of, intake);
    } else {
      var front := added[..|added| - 1];
      BelongingNew(rows, front, of, intake);
      assert (rows + added)[..|rows + added| - 1] == rows + front;
    }
  }

  /** Only rows of the next intake were added. */
  ghost predicate Extends(db: Db, after: Db) {
    && db.intakes <= after.intakes && |after.intakes| <= |db.intakes| + 1 && db.nextId <= after.nextId
    && db.raws <= after.raws && (forall n | |db.raws| <= n < |after.raws| :: after.raws[n].intake == db.nextId)
    && db.targets <= after.targets && (forall n | |db.targets| <= n < |after.targets| :: after.targets[n].intake == db.nextId)
    && db.jobs <= after.jobs && (forall n | |db.jobs| <= n < |after.jobs| :: after.jobs[n].intake == db.nextId)
    && db.audits <= after.audits && (forall n | |db.audits| <= n < |after.audits| :: after.audits[n].intake == db.nextId)
  }

  lemma StepExtends(db: Db, op: Op)
    ensures Extends(db, Step(db, op))
  {
    hide ActiveWithHash, TargetOf;
  }

  /** An earlier bundle stays, row by row. */
  lemma BundleKept(db: Db, after: Db, i: Intake)
    requires Extends(db, after) && i.id < db.nextId
    ensures BundleOf(after, i) == BundleOf(db, i)
    ensures WholeBundle(db, i) ==> WholeBundle(after, i)
  {
    hide Belonging;
    BelongingKept(db.raws, after.raws, OfRaw, i.id);
    BelongingKept(db.targets, after.targets, OfTarget, i.id);
    BelongingKept(db.jobs, after.jobs, OfJob, i.id);
    BelongingKept(db.audits, after.audits, OfAudit, i.id);
    if WholeBundle(db, i) && |i.refs| == 1 {
      var n :| 0 <= n < |db.raws| && db.raws[n].id == i.refs[0] && db.raws[n].hash == i.req.hash;
      assert after.raws[n] == db.raws[n];
    }
  }

  /** No row carries the id of the next intake yet. */
  lemma NextIsUnused(db: Db)
    requires BundleInv(db)
    ensures forall n | 0 <= n < |db.raws| :: OfRaw(db.raws[n]) != db.nextId
    ensures forall n | 0 <= n < |db.targets| :: OfTarget(db.targets[n]) != db.nextId
    ensures forall n | 0 <= n < |db.jobs| :: OfJob(db.jobs[n]) != db.nextId
    ensures forall n | 0 <= n < |db.audits| :: OfAudit(db.audits[n]) != db.nextId
  {
    hide WholeBundle;
    assert forall id: nat | HasId(db.intakes, id) :: id < db.nextId;
  }

  /** The rows a successful request adds form one whole bundle. */
  lemma NewBundleWhole(db: Db, req: Request)
    requires BundleInv(db)
    ensures WholeBundle(WithBundle(db, req), Intake(db.nextId, req, true, [TargetOf(db, req), db.nextId + 1]))
  {
    hide Belonging, BundleInv;
    var intake, source, target := db.nextId, db.nextId + 1, TargetOf(db, req);
    NextIsUnused(db);
    BelongingNew(db.raws, [Raw(source, intake, req.hash, true)], OfRaw, intake);
    BelongingNew(db.targets, if req.writesTarget then [Target(target, intake, source)] else [], OfTarget, intake);
    BelongingNew(db.jobs, JobsFor(intake, req, target), OfJob, intake);
    BelongingNew(db.audits, [Audit(intake, target, false)], OfAudit, intake);
    assert db.targets + [] == db.targets;
  }

  /** An active source with this content is found if and only if there is one. */
  lemma {:induction false} FoundIff(raws: seq<Raw>, hash: nat)
    ensures var found := ActiveWithHash(raws, hash);
            && (found.Some? <==> exists n :: 0 <= n < |raws| && raws[n].active && raws[n].hash == hash)
            && (found.Some? ==> found.value in raws && found.value.active && found.value.hash == hash)
  {
    if raws != [] {
      FoundIff(raws[1..], hash);
      if n :| 0 <= n < |raws| && raws[n].active && raws[n].hash == hash && n > 0 {
        assert raws[1..][n - 1] == raws[n];
      }
      if n :| 0 <= n < |raws[1..]| && raws[1..][n].active && raws[1..][n].hash == hash {
        assert raws[n + 1] == raws[1..][n];
      }
    }
  }

  lemma FoundIsStored(raws: seq<Raw>, hash: nat)
    ensures ActiveWithHash(raws, hash).Some? ==> Stored(raws, ActiveWithHash(raws, hash).value.id, hash)
  {
    FoundIff(raws, hash);
  }

  lemma NewDuplicateWhole(db: Db, req: Request, found: Raw)
    requires BundleInv(db) && req.dedupe == Some(req.hash) && DuplicateOf(db, req) == Some(found)
    ensures WholeBundle(WithDuplicate(db, req, found), Intake(db.nextId, req, true, [found.id]))
  {
    hide Belonging, BundleInv, ActiveWithHash;
    var intake := db.nextId;
    NextIsUnused(db);
    BelongingKept([], db.raws, OfRaw, intake);
    BelongingKept([], db.targets, OfTarget, intake);
    BelongingKept([], db.jobs, OfJob, intake);
    NothingBelongs(intake);
    BelongingNew(db.audits, [Audit(intake, found.id, true)], OfAudit, intake);
    FoundIsStored(db.raws, req.hash);
  }

  lemma NothingBelongs(intake: nat)
    ensures Belonging([], OfRaw, intake) == [] && Belonging([], OfTarget, intake) == [] && Belonging([], OfJob, intake) == []
  {
  }

  /** One new intake, with its rows, next to the old ones. */
  lemma NewIntakeKeepsBundleInv(db: Db, after: Db, i: Intake)
    requires BundleInv(db) && Extends(db, after) && after.intakes == db.intakes + [i]
    requires i.id == db.nextId < after.nextId && WholeBundle(after, i)
    ensures BundleInv(after)
  {
    hide WholeBundle;
    forall n | 0 <= n < |after.intakes| ensures after.intakes[n].id < after.nextId && WholeBundle(after, after.intakes[n]) {
      if n < |db.intakes| {
        assert after.intakes[n] == db.intakes[n];
        BundleKept(db, after, db.intakes[n]);
      }
    }
    forall id | HasId(db.intakes, id) ensures HasId(after.intakes, id) {
      var n :| 0 <= n < |db.intakes| && db.intakes[n].id == id;
      assert after.intakes[n].id == id;
    }
    assert after.intakes[|db.intakes|].id == db.nextId;
    assert HasId(after.intakes, db.nextId);
  }

  /** A new intake under a new key, with a completed record, keeps keys and intakes matched. */
  lemma NewKeyKeepsKeyInv(db: Db, after: Db, record: Record, intake: Intake)
    requires KeyInv(db) && intake.req.key !in db.records && RecordOk(record, intake)
    requires after.records == db.records[intake.req.key := record] && after.intakes == db.intakes + [intake]
    ensures KeyInv(after)
  {
    hide RecordOk, HasIntake;
    assert after.intakes[|db.intakes|] == intake;
    assert forall k | 0 <= k < |db.intakes| :: after.intakes[k] == db.intakes[k];
    forall k | k in after.records ensures HasIntake(after.intakes, k) {
      IntakeKept(db.intakes, intake, k);
    }
  }

  lemma IntakeKept(intakes: seq<Intake>, i: Intake, key: Key)
    ensures key == i.req.key || HasIntake(intakes, key) ==> HasIntake(intakes + [i], key)
  {
    assert (intakes + [i])[|intakes|] == i;
    if HasIntake(intakes, key) {
      var m :| 0 <= m < |intakes| && intakes[m].req.key == key;
      assert (intakes + [i])[m] == intakes[m];
    }
  }

  /** Whatever a request does and wherever it breaks off, the committed database keeps one whole
      bundle per key and no record is left merely claimed. */
  lemma CommitKeepsInv(db: Db, req: Request, fault: Fault)
    requires Inv(db)
    ensures Inv(CommitRecord(db, req, fault).0)
  {
    hide KeyInv, BundleInv, Extends, WholeBundle, ActiveWithHash, TargetOf;
    var after := CommitRecord(db, req, fault).0;
    if after != db {
      StepExtends(db, Commit(req, fault));
      if DuplicateOf(db, req).Some? {
        NewDuplicateWhole(db, req, DuplicateOf(db, req).value);
      } else {
        NewBundleWhole(db, req);
      }
      var i := after.intakes[|db.intakes|];
      NewIntakeKeepsBundleInv(db, after, i);
      NewKeyKeepsKeyInv(db, after, after.records[req.key], i);
    }
  }

  lemma TombstoneKeepsInv(db: Db, key: Key)
    requires Inv(db)
    ensures Inv(Tombstone(db, key))
  {
    hide HasIntake, HasId, Whole;
    var after := Tombstone(db, key);
    forall n | 0 <= n < |after.intakes| ensures WholeBundle(after, after.intakes[n]) {
      assert WholeBundle(db, db.intakes[n]);
    }
  }

  // ---- Runs ---------------------------------------------------------------------------------

  datatype Op = Commit(req: Request, fault: Fault) | Erase(key: Key)

  function Step(db: Db, op: Op): Db {
    match op
    case Commit(req, fault) => CommitRecord(db, req, fault).0
    case Erase(key) => Tombstone(db, key)
  }

  ghost predicate Run(states: seq<Db>, ops: seq<Op>) {
    && |states| == |ops| + 1 && Empty(states[0])
    && forall k | 0 <= k < |ops| :: states[k + 1] == Step(states[k], ops[k])
  }

  lemma {:induction false} RunKeepsInv(states: seq<Db>, ops: seq<Op>, k: nat)
    requires Run(states, ops) && k < |states|
    ensures Inv(states[k])
  {
    hide KeyInv, BundleInv;
    if k > 0 {
      RunKeepsInv(states, ops, k - 1);
      match ops[k - 1]
      case Commit(req, fault) => CommitKeepsInv(states[k - 1], req, fault);
      case Erase(key) => TombstoneKeepsInv(states[k - 1], key);
    } else {
      EmptyInv(states[0]);
    }
  }

  lemma EmptyInv(db: Db)
    requires Empty(db)
    ensures Inv(db)
  {
  }

  function Effects(db: Db, key: Key): set<nat> {
    set n | 0 <= n < |db.intakes| && db.intakes[n].req.key == key
  }

  /** One intake per recorded key, and none for any other. */
  lemma OneEffectPerRecord(db: Db, key: Key)
    requires Inv(db)
    ensures |Effects(db, key)| == if key in db.records then 1 else 0
  {
    hide BundleInv, RecordOk;
    if key in db.records {
      assert HasIntake(db.intakes, key);
      var n :| 0 <= n < |db.intakes| && db.intakes[n].req.key == key;
      assert Effects(db, key) == {n};
    } else {
      assert Effects(db, key) == {};
    }
  }

  /** The places of the active sources that hold this content. */
  function ActiveSources(db: Db, hash: nat): set<nat> {
    set n | 0 <= n < |db.raws| && db.raws[n].active && db.raws[n].hash == hash
  }

  /** Detection, both ways: a request under a new key that asks for it is answered as a duplicate if and
      only if an active source holds its content, and then names such a source and its intake and adds
      no source, target or stage; otherwise its content is stored as one new source. */
  lemma DetectedIff(db: Db, req: Request)
    requires req.key !in db.records && req.dedupe == Some(req.hash)
    ensures var (after, answer) := CommitRecord(db, req, NoFault);
            && answer.Ok?
            && (answer.outcome.Duplicate? <==> exists n :: 0 <= n < |db.raws| && db.raws[n].active && db.raws[n].hash == req.hash)
            && (if answer.outcome.Duplicate? then
                  && (exists n :: 0 <= n < |db.raws| && db.raws[n].active && db.raws[n].hash == req.hash
                                  && db.raws[n].id == answer.outcome.of && db.raws[n].intake == answer.outcome.operation)
                  && after.raws == db.raws && after.targets == db.targets && after.jobs == db.jobs
                else after.raws == db.raws + [Raw(answer.outcome.source, answer.outcome.operation, req.hash, true)])
  {
    hide ActiveWithHash;
    FoundIff(db.raws, req.hash);
  }

  /** A request under a new key is answered with success if and only if it has authority, the hash it
      claims, if any, is that of its content, and nothing breaks off; a duplicate needs only the commit.
      Any other answer leaves the database as it was. */
  lemma CommitsIff(db: Db, req: Request, fault: Fault)
    requires req.key !in db.records
    ensures var (after, answer) := CommitRecord(db, req, fault);
            && (answer.Ok? <==> !fault.AuthorityDenied? && !fault.CommitFails? && (req.dedupe.None? || req.dedupe == Some(req.hash))
                                && (fault.NoFault? || (req.dedupe.Some? && ActiveSources(db, req.hash) != {})))
            && (answer.Ok? ==> req.key in after.records && after.records[req.key].outcome == Some(answer.outcome))
            && (!answer.Ok? ==> after == db && answer.Error?)
            && (fault.AuthorityDenied? ==> answer == Error("PERMISSION_DENIED"))
  {
    hide ActiveWithHash;
    FoundIff(db.raws, req.hash);
    if n :| 0 <= n < |db.raws| && db.raws[n].active && db.raws[n].hash == req.hash {
      assert n in ActiveSources(db, req.hash);
    }
  }

  /** Whatever its key and wherever it breaks off, a request that asks for detection adds no source next
      to an active one with its content. */
  lemma DetectionAddsNoSecond(db: Db, req: Request, fault: Fault)
    requires req.dedupe.Some? && ActiveSources(db, req.hash) != {}
    ensures CommitRecord(db, req, fault).0.raws == db.raws
  {
    hide ActiveWithHash;
    FoundIff(db.raws, req.hash);
    var n :| n in ActiveSources(db, req.hash);
  }

  /** If every request for a content asks for detection, no run ever has two active sources of it. */
  lemma {:induction false} OneSourcePerContent(states: seq<Db>, ops: seq<Op>, k: nat, hash: nat)
    requires Run(states, ops) && k < |states|
    requires forall i | 0 <= i < |ops| && ops[i].Commit? && ops[i].req.hash == hash :: ops[i].req.dedupe.Some?
    ensures |ActiveSources(states[k], hash)| <= 1
  {
    hide CommitRecord;
    if k == 0 {
      assert ActiveSources(states[0], hash) == {};
    } else {
      OneSourcePerContent(states, ops, k - 1, hash);
      StepAddsOneSource(states[k - 1], ops[k - 1], hash);
    }
  }

  lemma StepAddsOneSource(db: Db, op: Op, hash: nat)
    requires |ActiveSources(db, hash)| <= 1
    requires op.Commit? && op.req.hash == hash ==> op.req.dedupe.Some?
    ensures |ActiveSources(Step(db, op), hash)| <= 1
  {
    hide ActiveWithHash, TargetOf;
    var after := Step(db, op);
    if after.raws == db.raws {
      assert ActiveSources(after, hash) == ActiveSources(db, hash);
    } else {
      assert after.raws == db.raws + [Raw(db.nextId + 1, db.nextId, op.req.hash, true)];
      if op.req.hash == hash {
        if ActiveSources(db, hash) != {} {
          DetectionAddsNoSecond(db, op.req, op.fault);
        }
        SubsetSize(ActiveSources(after, hash), {|db.raws|});
      } else {
        assert ActiveSources(after, hash) == ActiveSources(db, hash);
      }
    }
  }

  /** At most once: in every state of every run a key has one bundle if it has a record, and none
      otherwise. That bundle holds exactly the rows its request asked for, no row belongs to two
      bundles, and no row of any table is outside a bundle. */
  lemma AtMostOneBundlePerKey(states: seq<Db>, ops: seq<Op>, k: nat, key: Key)
    requires Run(states, ops) && k < |states|
    ensures var db := states[k];
            && |Effects(db, key)| == (if key in db.records then 1 else 0)
            && (forall n | n in Effects(db, key) :: WholeBundle(db, db.intakes[n]))
            && (forall m, n | 0 <= m < n < |db.intakes| :: db.intakes[m].id != db.intakes[n].id)
            && NoStrays(db)
  {
    hide KeyInv, WholeBundle, NoStrays;
    RunKeepsInv(states, ops, k);
    OneEffectPerRecord(states[k], key);
  }

  lemma {:induction false} RunExtends(states: seq<Db>, ops: seq<Op>, i: nat, j: nat, n: nat)
    requires Run(states, ops) && i <= j < |states| && n < |states[i].intakes|
    ensures n < |states[j].intakes| && states[j].intakes[n] == states[i].intakes[n]
    ensures BundleOf(states[j], states[i].intakes[n]) == BundleOf(states[i], states[i].intakes[n])
  {
    hide BundleOf, WholeBundle, Step, KeyInv;
    if i < j {
      RunExtends(states, ops, i, j - 1, n);
      RunKeepsInv(states, ops, j - 1);
      StepExtends(states[j - 1], ops[j - 1]);
      BundleKept(states[j - 1], states[j], states[i].intakes[n]);
    }
  }

  /** What the record of a key, once there, may become: it is erased at most, and the rows of its
      bundle (intake, source, target, stages and audit) stay the same rows. */
  lemma {:induction false} RecordStable(states: seq<Db>, ops: seq<Op>, i: nat, j: nat, key: Key)
    requires Run(states, ops) && i <= j < |states| && key in states[i].records
    ensures key in states[j].records && Effects(states[j], key) == Effects(states[i], key)
    ensures forall n | n in Effects(states[i], key) ::
              && n in Effects(states[j], key) && states[j].intakes[n] == states[i].intakes[n]
              && BundleOf(states[j], states[j].intakes[n]) == BundleOf(states[i], states[i].intakes[n])
    ensures if exists k :: i <= k < j && ops[k] == Erase(key) then states[j].records[key].status.Tombstoned?
            else states[j].records[key] == states[i].records[key]
  {
    RecordKept(states, ops, i, j, key);
    forall n | n in Effects(states[i], key)
      ensures states[j].intakes[n] == states[i].intakes[n]
              && BundleOf(states[j], states[j].intakes[n]) == BundleOf(states[i], states[i].intakes[n])
    {
      RunExtends(states, ops, i, j, n);
    }
  }

  lemma {:induction false} RecordKept(states: seq<Db>, ops: seq<Op>, i: nat, j: nat, key: Key)
    requires Run(states, ops) && i <= j < |states| && key in states[i].records
    ensures key in states[j].records && Effects(states[j], key) == Effects(states[i], key)
    ensures if exists k :: i <= k < j && ops[k] == Erase(key) then states[j].records[key].status.Tombstoned?
            else states[j].records[key] == states[i].records[key]
  {
    if i < j {
      hide Effects, Step;
      RecordKept(states, ops, i, j - 1, key);
      StepKeepsRecord(states[j - 1], ops[j - 1], key);
      if ops[j - 1] == Erase(key) {
        assert i <= j - 1 < j && ops[j - 1] == Erase(key);
      } else if k :| i <= k < j - 1 && ops[k] == Erase(key) {
        assert i <= k < j && ops[k] == Erase(key);
      }
    }
  }

  /** A recorded key is answered without effect; only an erasure changes its record. */
  lemma StepKeepsRecord(db: Db, op: Op, key: Key)
    requires key in db.records
    ensures var after := Step(db, op);
            && key in after.records && Effects(after, key) == Effects(db, key)
            && (if op == Erase(key) then after.records[key].status.Tombstoned? else after.records[key] == db.records[key])
  {
    hide ActiveWithHash, TargetOf;
    var after := Step(db, op);
    forall n ensures n in Effects(after, key) <==> n in Effects(db, key) {
      if 0 <= n < |db.intakes| {
        assert after.intakes[n] == db.intakes[n];
      }
    }
  }

  /** Replay: after a request succeeded, the same key answers every later request that is
      admitted, without any change: the stored outcome for the same content, a conflict for
      different content, and deleted for good once the key has been erased. */
  lemma LaterRequestsReplay(states: seq<Db>, ops: seq<Op>, i: nat, j: nat)
    requires Run(states, ops) && i < j < |ops|
    requires ops[i].Commit? && CommitRecord(states[i], ops[i].req, ops[i].fault).1.Ok?
    requires ops[j].Commit? && ops[j].req.key == ops[i].req.key && !ops[j].fault.AuthorityDenied?
    ensures var key, first := ops[i].req.key, CommitRecord(states[i], ops[i].req, ops[i].fault).1;
            && states[j + 1] == states[j]
            && CommitRecord(states[j], ops[j].req, ops[j].fault).1 ==
               if exists k :: i < k < j && ops[k] == Erase(key) then Deleted
               else if ops[j].req.digest != ops[i].req.digest then Error("IDEMPOTENCY_CONFLICT")
               else first
  {
    hide BundleInv, HasIntake, Effects, DuplicateOf, TargetOf, RecordOk;
    var key := ops[i].req.key;
    RunKeepsInv(states, ops, i);
    assert states[i + 1] == Step(states[i], ops[i]);
    assert states[j + 1] == Step(states[j], ops[j]);
    RecordKept(states, ops, i + 1, j, key);
  }

  /** An erased key never has an effect again. */
  lemma ErasedForGood(states: seq<Db>, ops: seq<Op>, i: nat, j: nat, key: Key)
    requires Run(states, ops) && i < j < |states| && ops[i] == Erase(key) && key in states[i].records
    ensures key in states[j].records && states[j].records[key] == Record(None, None, Tombstoned)
    ensures Effects(states[j], key) == Effects(states[i], key)
  {
    assert states[i + 1] == Step(states[i], ops[i]);
    RecordKept(states, ops, i, i + 1, key);
    RecordKept(states, ops, i + 1, j, key);
    RunKeepsInv(states, ops, j);
    assert HasIntake(states[j].intakes, key);
  }
}
