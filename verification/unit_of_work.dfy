/** One request outcome, one database transaction: the unit of work, and the request handler
    that writes its rows step by step inside one. */
module UnitsOfWork {
  import opened Options
  import opened Idempotency

  /** The durable state; only a commit changes it. */
  class Database {
    var committed: Db

    constructor (db: Db)
      ensures committed == db
    {
      committed := db;
    }
  }

  class UnitOfWork {
    const db: Database
    var session: Db
    var entered: bool
    var done: bool

    constructor (db: Database)
      ensures this.db == db && !entered && !done
    {
      this.db := db;
      session := Db(map[], [], [], [], [], [], 0);
      entered, done := false, false;
    }

    /** False stands for the error raised when the unit is entered twice. */
    method Enter() returns (ok: bool)
      modifies this
      ensures ok == !(old(entered) || old(done))
      ensures ok ==> entered && !done && session == db.committed
      ensures !ok ==> entered == old(entered) && done == old(done) && session == old(session)
    {
      if entered || done {
        return false;
      }
      session, entered := db.committed, true;
      return true;
    }

    /** `fails` is the database refusing the commit, after which the work is rolled back. */
    method Commit(fails: bool) returns (ok: bool)
      modifies this, db
      ensures ok == (old(entered) && !old(done) && !fails)
      ensures entered == old(entered)
      ensures ok ==> done && db.committed == old(session) && session == old(session)
      ensures !ok ==> done == old(done) && db.committed == old(db.committed)
    {
      if !entered || done {
        return false;
      }
      if fails {
        session := db.committed;
        return false;
      }
      db.committed := session;
      done := true;
      return true;
    }

    method Rollback() returns (ok: bool)
      modifies this
      ensures ok == (old(entered) && !old(done))
      ensures entered == old(entered) && done == old(done)
      ensures session == if ok then db.committed else old(session)
    {
      ok := entered && !done;
      if ok {
        session := db.committed;
      }
    }

    /** Leaving discards whatever has not been committed. */
    method Exit()
      modifies this
      ensures !entered && done == old(done)
      ensures !done ==> session == db.committed
    {
      if !done {
        session := db.committed;
      }
      entered := false;
    }
  }

  /** The session after the key was claimed and the intake row inserted. */
  function Staged(db: Db, req: Request): Db {
    db.(records := db.records[req.key := Record(Some(req.digest), None, Claimed)],
        intakes := db.intakes + [Intake(db.nextId, req, false, [])], nextId := db.nextId + 3)
  }

  /** Completes a request whose content is already stored. */
  method WriteDuplicate(uow: UnitOfWork, req: Request, found: Raw, ghost before: Db)
    requires uow.session == Staged(before, req)
    modifies uow`session
    ensures uow.session == WithDuplicate(before, req, found)
  {
    var s := uow.session;
    var intake := s.intakes[|s.intakes| - 1].id;
    s := CompleteIntake(s, [found.id]);
    s := s.(audits := s.audits + [Audit(intake, found.id, true)]);
    uow.session := CompleteClaim(s, req.key, Duplicate(found.id, found.intake));
  }

  /** Queues the stages of a request one by one. */
  method QueueStages(jobs: seq<QueuedJob>, intake: nat, req: Request, target: nat) returns (queued: seq<QueuedJob>)
    ensures queued == jobs + JobsFor(intake, req, target)
  {
    queued := jobs + [QueuedJob(intake, req.kind, target)];
    for i := 0 to |req.extra|
      invariant queued == jobs + JobsFor(intake, req, target)[..i + 1]
    {
      queued := queued + [QueuedJob(intake, req.extra[i], target)];
    }
  }

  /** Writes source, target, stages, audit and outcome; Some is the error of a side effect that
      refused, which leaves the rows before it in the session. */
  method WriteBundle(uow: UnitOfWork, req: Request, fault: Fault, ghost before: Db) returns (refused: Option<string>)
    requires uow.session == Staged(before, req)
    modifies uow`session
    ensures refused == if fault.SideEffectFails? then Some(fault.code) else None
    ensures refused.None? ==> uow.session == WithBundle(before, req)
  {
    var s := uow.session;
    var intake := s.intakes[|s.intakes| - 1].id;
    var source := intake + 1;
    s := s.(raws := s.raws + [Raw(source, intake, req.hash, true)]);
    var target := if req.existing.Some? then req.existing.value else if req.writesTarget then source + 1 else source;
    if req.writesTarget {
      s := s.(targets := s.targets + [Target(target, intake, source)]);
    }
    uow.session := s;
    if fault.SideEffectFails? {
      return Some(fault.code);
    }
    var jobs := QueueStages(s.jobs, intake, req, target);
    s := s.(jobs := jobs, audits := s.audits + [Audit(intake, target, false)]);
    s := CompleteIntake(s, [target, source]);
    uow.session := CompleteClaim(s, req.key, Accepted(target, source, intake, req.index));
    return None;
  }

  /** Executes a request that won its key inside an open unit of work. */
  method Execute(uow: UnitOfWork, req: Request, fault: Fault) returns (response: Response)
    requires uow.entered && !uow.done && uow.session == uow.db.committed && req.key !in uow.session.records
    requires !fault.AuthorityDenied?
    modifies uow, uow.db
    ensures (uow.db.committed, response) == CommitRecord(old(uow.db.committed), req, fault)
  {
    hide ActiveWithHash, WithBundle, WithDuplicate;
    ghost var before := uow.session;
    uow.session := Staged(uow.session, req);
    if req.dedupe.Some? && req.dedupe.value != req.hash {
      return Error("VALIDATION_FAILED");
    }
    var found := DuplicateOf(uow.session, req);
    if found.Some? {
      WriteDuplicate(uow, req, found.value, before);
      var ok := uow.Commit(fault.CommitFails?);
      return if ok then Ok(Duplicate(found.value.id, found.value.intake)) else Error("COMMIT_FAILED");
    }
    var refused := WriteBundle(uow, req, fault, before);
    if refused.Some? {
      return Error(refused.value);
    }
    var outcome := Accepted(TargetOf(uow.db.committed, req), uow.db.committed.nextId + 1, uow.db.committed.nextId, req.index);
    if fault.PreCommitFails? {
      return Error(fault.code);
    }
    var ok := uow.Commit(fault.CommitFails?);
    return if ok then Ok(outcome) else Error("COMMIT_FAILED");
  }

  /** Handles one write request. The response and the durable state are those of the request
      function; in particular an error leaves no trace of the steps already taken. */
  method HandleRequest(db: Database, req: Request, fault: Fault) returns (response: Response)
    modifies db
    ensures (db.committed, response) == CommitRecord(old(db.committed), req, fault)
  {
    hide ActiveWithHash, WithBundle, WithDuplicate;
    var uow := new UnitOfWork(db);
    var ok := uow.Enter();
    if fault.AuthorityDenied? {
      response := Error("PERMISSION_DENIED");
    } else {
      match ClaimRequest(uow.session.records, req.key, req.digest)
      case Replay(outcome) => response := if outcome.Some? then Ok(outcome.value) else Error("EMPTY_OUTCOME");
      case ClaimDeleted => response := Deleted;
      case Conflict => response := Error("IDEMPOTENCY_CONFLICT");
      case InProgress => response := Error("BRAIN_UNAVAILABLE");
      case Created => response := Execute(uow, req, fault);
    }
    uow.Exit();
  }

  /** The UPDATE that closes the intake row inserted last. */
  function CompleteIntake(s: Db, refs: seq<nat>): Db
    requires s.intakes != []
  {
    var n := |s.intakes| - 1;
    s.(intakes := s.intakes[..n] + [s.intakes[n].(completed := true, refs := refs)])
  }

  function CompleteClaim(s: Db, key: Key, outcome: Outcome): Db
    requires key in s.records
  {
    s.(records := s.records[key := s.records[key].(status := Completed, outcome := Some(outcome))])
  }
}
