/** Durable ingestion jobs, their worker leases and the stale-job reaper
    (ingestion/jobs.py, ingestion/liveness.py).

    Each SQL statement is one atomic step on the table; the clock value it uses is a parameter. */
module IngestionJobs {
  import opened Options

  type JobId = nat
  type Time = int
  type Token = string

  datatype Status = Queued | Running | Completed | Failed {
    predicate Terminal() { Completed? || Failed? }
  }

  // ----- Index publication binding -----

  /** The `index_publication` dictionary of a completion result; `generation` is `None` when it does
      not parse as an integer. */
  datatype Publication = Publication(active: Option<string>, previous: Option<string>, generation: Option<int>)

  /** `publication` is `None` when it is missing, null or not a dictionary. */
  datatype Result = Result(payload: string, publication: Option<Publication>)

  datatype Bind = Bind(active: Option<string>, previous: Option<string>, generation: Option<int>)

  const NO_BIND := Bind(None, None, None)

  /** The characters Python's `str.strip` removes. */
  predicate IsSpace(c: char) {
    var n := c as int;
    || 0x9 <= n <= 0xD || 0x1C <= n <= 0x20 || n == 0x85 || n == 0xA0 || n == 0x1680
    || 0x2000 <= n <= 0x200A || n == 0x2028 || n == 0x2029 || n == 0x202F || n == 0x205F || n == 0x3000
  }

  predicate Blank(s: string) { forall i :: 0 <= i < |s| ==> IsSpace(s[i]) }

  function Strip(s: string): string {
    if s == "" then ""
    else if IsSpace(s[0]) then Strip(s[1..])
    else if IsSpace(s[|s| - 1]) then Strip(s[..|s| - 1])
    else s
  }

  function Named(s: Option<string>): Option<string> {
    if s == None || Strip(s.value) == "" then None else Some(Strip(s.value))
  }

  function BindValues(result: Option<Result>): Bind {
    if result == None || result.value.publication == None then NO_BIND
    else
      var p := result.value.publication.value;
      Bind(Named(p.active), Named(p.previous), p.generation)
  }

  /** `t` is what is left of `s` without the spaces at its two ends. */
  ghost predicate Trims(s: string, t: string) {
    && (t != "" ==> !IsSpace(t[0]) && !IsSpace(t[|t| - 1]))
    && exists i, j :: 0 <= i <= j <= |s| && CutAt(s, t, i, j)
  }

  predicate CutAt(s: string, t: string, i: int, j: int)
    requires 0 <= i <= j <= |s|
  {
    t == s[i..j] && Blank(s[..i]) && Blank(s[j..])
  }

  lemma PadFront(s: string, t: string)
    requires s != "" && IsSpace(s[0]) && Trims(s[1..], t)
    ensures Trims(s, t) && (Blank(s) <==> Blank(s[1..]))
  {
    var rest := s[1..];
    var i, j :| 0 <= i <= j <= |rest| && CutAt(rest, t, i, j);
    assert s == [s[0]] + rest;
    assert s[i + 1..j + 1] == rest[i..j];
    assert s[j + 1..] == rest[j..];
    assert s[..i + 1] == [s[0]] + rest[..i];
    assert CutAt(s, t, i + 1, j + 1);
  }

  lemma PadBack(s: string, t: string)
    requires s != "" && IsSpace(s[|s| - 1]) && Trims(s[..|s| - 1], t)
    ensures Trims(s, t) && (Blank(s) <==> Blank(s[..|s| - 1]))
  {
    var front, last := s[..|s| - 1], s[|s| - 1];
    var i, j :| 0 <= i <= j <= |front| && CutAt(front, t, i, j);
    assert s == front + [last];
    assert s[i..j] == front[i..j];
    assert s[..i] == front[..i];
    assert s[j..] == front[j..] + [last];
    assert CutAt(s, t, i, j);
  }

  lemma Unpadded(s: string)
    requires s != "" ==> !IsSpace(s[0]) && !IsSpace(s[|s| - 1])
    ensures Trims(s, s) && (Blank(s) <==> s == "")
  {
    assert s[..0] == "" && s[|s|..] == "" && s[0..|s|] == s;
    assert CutAt(s, s, 0, |s|);
  }

  lemma {:induction false} StripTrims(s: string)
    ensures Trims(s, Strip(s)) && (Strip(s) == "" <==> Blank(s))
  {
    if s != "" && IsSpace(s[0]) {
      StripTrims(s[1..]);
      PadFront(s, Strip(s));
    } else if s != "" && IsSpace(s[|s| - 1]) {
      StripTrims(s[..|s| - 1]);
      PadBack(s, Strip(s));
    } else {
      Unpadded(s);
    }
  }

  /** An index column holds the trimmed field, or nothing when the field is missing or blank. */
  ghost predicate ColumnOf(field: Option<string>, column: Option<string>) {
    match column
    case None => field == None || Blank(field.value)
    case Some(v) => field.Some? && v != "" && Trims(field.value, v)
  }

  /** Each column is that of its own field, and a missing publication clears all three. */
  ghost predicate Binds(result: Option<Result>, bind: Bind) {
    match result
    case None => bind == Bind(None, None, None)
    case Some(r) =>
      match r.publication
      case None => bind == Bind(None, None, None)
      case Some(p) =>
        ColumnOf(p.active, bind.active) && ColumnOf(p.previous, bind.previous) && bind.generation == p.generation
  }

  // ----- Rows -----

  datatype Row = Row(
    tenant: string,
    status: Status,
    taskId: Option<string>,
    token: Option<Token>,
    heartbeatAt: Option<Time>,
    expiresAt: Option<Time>,
    keyHash: Option<string>,
    fingerprint: Option<string>,
    sourceReadyAt: Option<Time>,
    createdAt: Time,
    startedAt: Option<Time>,
    finishedAt: Option<Time>,
    error: Option<string>,
    result: Option<Result>,
    bind: Bind)

  type Table = map<JobId, Row>

  /** Positive durations with the heartbeat interval strictly inside the lease; the code raises
      before touching any row otherwise. */
  datatype Settings = Settings(lease: int, heartbeat: int, queuedStale: int, legacyStale: int) {
    predicate Valid() { 0 < heartbeat < lease && queuedStale > 0 && legacyStale > 0 }
  }

  type Config = s: Settings | s.Valid() witness Settings(120, 30, 900, 1800)

  /** Arguments of a create-or-reuse call. */
  datatype Request = Request(
    tenant: string, filename: string, sourcePath: string, taskId: Option<string>,
    keyHash: Option<string>, fingerprint: Option<string>)

  datatype CreateOutcome = Created(id: JobId) | Replayed(id: JobId) | Conflict | InvalidArgument | IntegrityFailure

  predicate ValidRequest(q: Request) {
    && !Blank(q.tenant) && q.filename != "" && q.sourcePath != ""
    && (q.keyHash.Some? ==> q.fingerprint.Some? && q.fingerprint.value != "")
  }

  function FreshRow(q: Request, now: Time): Row {
    Row(q.tenant, Queued, q.taskId, None, None, None, q.keyHash, q.fingerprint, None, now, None, None, None, None,
        NO_BIND)
  }

  predicate HasKey(r: Row, tenant: string, hash: string) {
    r.tenant == tenant && r.keyHash == Some(hash)
  }

  function WithKey(t: Table, tenant: string, hash: string): set<JobId> {
    set id | id in t && HasKey(t[id], tenant, hash)
  }

  /** Primary key and the unique index on (tenant, key hash) where the hash is not null. */
  predicate Insertable(t: Table, q: Request, id: JobId) {
    id !in t && (q.keyHash.Some? ==> WithKey(t, q.tenant, q.keyHash.value) == {})
  }

  lemma InsertableIff(t: Table, q: Request, id: JobId)
    ensures Insertable(t, q, id)
            <==> && id !in t
                 && (q.keyHash.Some? ==> forall j :: j in t ==> t[j].tenant != q.tenant || t[j].keyHash != q.keyHash)
  {
    if j :| j in t && t[j].tenant == q.tenant && t[j].keyHash == q.keyHash && q.keyHash.Some? {
      assert j in WithKey(t, q.tenant, q.keyHash.value);
    }
  }

  // ----- Reaper -----

  predicate StaleQueued(c: Config, r: Row, now: Time) {
    r.status == Queued && r.taskId.Some? && r.createdAt <= now - c.queuedStale
  }

  predicate LeaseExpired(r: Row, now: Time) {
    r.status == Running && r.taskId.Some? && r.token.Some? && r.expiresAt.Some? && r.expiresAt.value <= now
  }

  predicate LegacyRunning(c: Config, r: Row, now: Time) {
    && r.status == Running && r.taskId.Some? && r.token == None
    && r.startedAt.GetOr(r.createdAt) <= now - c.legacyStale
  }

  function Cleared(r: Row, now: Time, message: string): Row {
    r.(status := Failed, error := Some(message), finishedAt := Some(now), token := None, expiresAt := None,
       result := None)
  }

  const QUEUED_STALE := "Ingestion job timed out while queued"
  const LEASE_EXPIRED := "Ingestion job lease expired"
  const LEGACY_RUNNING := "Ingestion job abandoned (stale running without lease)"

  /** One simultaneous pass over the table as it was: the reference for the three updates. */
  function Swept(c: Config, r: Row, now: Time): Row {
    if StaleQueued(c, r, now) then Cleared(r, now, QUEUED_STALE)
    else if LeaseExpired(r, now) then Cleared(r, now, LEASE_EXPIRED)
    else if LegacyRunning(c, r, now) then Cleared(r, now, LEGACY_RUNNING)
    else r
  }

  // ----- Steps -----

  /** Every statement a caller can issue; the last three are the unconditional helpers of the
      synchronous upload path. */
  datatype Op =
    | Insert(id: JobId, request: Request, now: Time)
    | MarkSourceReady(id: JobId, tenant: string, now: Time)
    | SetTaskId(id: JobId, tenant: string, taskId: string, now: Time)
    | Claim(id: JobId, tenant: string, token: Token, now: Time)
    | Extend(id: JobId, tenant: string, token: Token, now: Time)
    | Complete(id: JobId, tenant: string, token: Token, result: Option<Result>, now: Time)
    | Fail(id: JobId, tenant: string, token: Token, message: string, now: Time)
    | Sweep(now: Time)
    | ForceRunning(id: JobId, tenant: string, now: Time)
    | ForceCompleted(id: JobId, tenant: string, result: Option<Result>, now: Time)
    | ForceFailed(id: JobId, tenant: string, message: string, now: Time)
  {
    /** True of the conditional updates, false of the unconditional helpers. */
    predicate Conditional() { !ForceRunning? && !ForceCompleted? && !ForceFailed? }
  }

  predicate Owned(t: Table, id: JobId, tenant: string) {
    id in t && t[id].tenant == tenant
  }

  predicate Leased(t: Table, id: JobId, tenant: string, token: Token) {
    Owned(t, id, tenant) && t[id].status == Running && t[id].token == Some(token)
  }

  /** True when the statement finds the row its WHERE clause asks for. */
  predicate Applies(t: Table, op: Op) {
    match op
    case Insert(id, q, _) => ValidRequest(q) && Insertable(t, q, id)
    case MarkSourceReady(id, tenant, _) => Owned(t, id, tenant) && t[id].status == Queued && t[id].sourceReadyAt == None
    case SetTaskId(id, tenant, _, _) => Owned(t, id, tenant)
    case Claim(id, tenant, _, _) => !Blank(tenant) && Owned(t, id, tenant) && t[id].status == Queued
    case Extend(id, tenant, token, _) => token != "" && Leased(t, id, tenant, token)
    case Complete(id, tenant, token, _, _) => Leased(t, id, tenant, token)
    case Fail(id, tenant, token, _, _) => Leased(t, id, tenant, token)
    case Sweep(_) => true
    case ForceRunning(id, tenant, _) => Owned(t, id, tenant)
    case ForceCompleted(id, tenant, _, _) => Owned(t, id, tenant)
    case ForceFailed(id, tenant, _, _) => Owned(t, id, tenant)
  }

  /** The new value of the one row an applicable statement writes. */
  function Written(c: Config, r: Row, op: Op): Row
    requires !op.Insert? && !op.Sweep?
  {
    match op
    case MarkSourceReady(_, _, now) => r.(sourceReadyAt := Some(now))
    case SetTaskId(_, _, taskId, _) => r.(taskId := Some(taskId))
    case Claim(_, _, token, now) =>
      r.(status := Running, token := Some(token), heartbeatAt := Some(now), expiresAt := Some(now + c.lease),
         startedAt := Some(now), error := None)
    case Extend(_, _, _, now) => r.(heartbeatAt := Some(now), expiresAt := Some(now + c.lease))
    case Complete(_, _, _, result, now) =>
      r.(status := Completed, result := result, error := None, finishedAt := Some(now), token := None,
         expiresAt := None, bind := BindValues(result))
    case Fail(_, _, _, message, now) =>
      r.(status := Failed, error := Some(message), finishedAt := Some(now), token := None, expiresAt := None)
    case ForceRunning(_, _, now) =>
      r.(status := Running, startedAt := Some(r.startedAt.GetOr(now)), error := None)
    case ForceCompleted(_, _, result, now) =>
      r.(status := Completed, startedAt := Some(r.startedAt.GetOr(now)), result := result, error := None,
         finishedAt := Some(now), bind := BindValues(result))
    case ForceFailed(_, _, message, now) =>
      r.(status := Failed, startedAt := Some(r.startedAt.GetOr(now)), error := Some(message), finishedAt := Some(now))
  }

  function Next(c: Config, t: Table, op: Op): Table {
    if !Applies(t, op) then t
    else if op.Insert? then t[op.id := FreshRow(op.request, op.now)]
    else if op.Sweep? then map id | id in t :: Swept(c, t[id], op.now)
    else t[op.id := Written(c, t[op.id], op)]
  }

  /** The table after a sequence of statements. */
  function After(c: Config, t: Table, ops: seq<Op>): Table {
    if ops == [] then t else Next(c, After(c, t, ops[..|ops| - 1]), ops[|ops| - 1])
  }

  // ----- Create or reuse -----

  /** The second transaction, after the insert was rejected and rolled back. */
  function Reread(t: Table, q: Request): CreateOutcome {
    if q.keyHash == None || q.keyHash.value == "" then IntegrityFailure
    else
      var found := WithKey(t, q.tenant, q.keyHash.value);
      if |found| != 1 then IntegrityFailure
      else
        var id := The(found);
        if t[id].fingerprint != q.fingerprint then Conflict else Replayed(id)
  }

  /** The only element of a set: what `scalar_one_or_none` returns; it raises on more than one. */
  function The(s: set<JobId>): (m: JobId)
    requires |s| == 1
    ensures s == {m}
  {
    var m :| m in s;
    assert |s - {m}| == 0;
    assert s == {m};
    m
  }

  function CreateOrReuse(t: Table, q: Request, id: JobId): CreateOutcome {
    if !ValidRequest(q) then InvalidArgument
    else if Insertable(t, q, id) then Created(id)
    else Reread(t, q)
  }

  /** What either completion leaves in the index columns of the row it writes. */
  lemma CompletionBinds(c: Config, t: Table, op: Op)
    requires (op.Complete? || op.ForceCompleted?) && Applies(t, op)
    ensures Binds(op.result, Next(c, t, op)[op.id].bind)
  {
    if op.result.Some? && op.result.value.publication.Some? {
      var p := op.result.value.publication.value;
      if p.active.Some? { StripTrims(p.active.value); }
      if p.previous.Some? { StripTrims(p.previous.value); }
    }
  }

  // ----- The job store -----

  datatype Counts = Counts(queuedStale: nat, leaseExpired: nat, legacyRunning: nat) {
    function Total(): nat { queuedStale + leaseExpired + legacyRunning }
  }

  /** The ingestion_jobs table and the statements on it. */
  class JobStore {
    const config: Config
    var rows: Table

    constructor (config: Config)
      ensures this.config == config && rows == map[]
    {
      this.config := config;
      rows := map[];
    }

    method CreateOrReuseJob(q: Request, id: JobId, now: Time) returns (r: CreateOutcome)
      modifies this
      ensures r == CreateOrReuse(old(rows), q, id)
      ensures rows == Next(config, old(rows), Insert(id, q, now))
      ensures !r.Created? ==> rows == old(rows)
      ensures r.Created? ==>
                && r.id == id && id !in old(rows)
                && rows == old(rows)[id := Row(q.tenant, Queued, q.taskId, None, None, None, q.keyHash, q.fingerprint,
                                               None, now, None, None, None, None, Bind(None, None, None))]
      ensures r.InvalidArgument? <==>
                || Blank(q.tenant) || q.filename == "" || q.sourcePath == ""
                || (q.keyHash.Some? && (q.fingerprint == None || q.fingerprint == Some("")))
      ensures r.Created? <==>
                && !r.InvalidArgument? && id !in old(rows)
                && (q.keyHash.Some? ==>
                      forall j :: j in old(rows) ==>
                        old(rows)[j].tenant != q.tenant || old(rows)[j].keyHash != q.keyHash)
      ensures r.Conflict? ==>
                exists j :: && j in rows && rows[j].tenant == q.tenant && rows[j].keyHash == q.keyHash
                            && q.keyHash.Some? && rows[j].fingerprint != q.fingerprint
      ensures r.Replayed? ==>
                && r.id in rows && rows[r.id].tenant == q.tenant && rows[r.id].keyHash == q.keyHash
                && rows[r.id].keyHash.Some? && rows[r.id].fingerprint == q.fingerprint
    {
      if !ValidRequest(q) {
        return InvalidArgument;
      }
      InsertableIff(rows, q, id);
      if Insertable(rows, q, id) {
        rows := rows[id := FreshRow(q, now)];
        return Created(id);
      }
      return Reread(rows, q);
    }

    method MarkSourceReady(id: JobId, tenant: string, now: Time) returns (found: Option<Row>)
      modifies this
      ensures rows == Next(config, old(rows), Op.MarkSourceReady(id, tenant, now))
      ensures found == if Owned(rows, id, tenant) && rows[id].status == Queued && rows[id].sourceReadyAt.Some?
                       then Some(rows[id]) else None
      ensures rows == if id in old(rows) && old(rows)[id].tenant == tenant && old(rows)[id].status == Queued
                         && old(rows)[id].sourceReadyAt == None
                      then old(rows)[id := old(rows)[id].(sourceReadyAt := Some(now))] else old(rows)
    {
      if id in rows && rows[id].tenant == tenant && rows[id].status == Queued && rows[id].sourceReadyAt == None {
        rows := rows[id := rows[id].(sourceReadyAt := Some(now))];
        return Some(rows[id]);
      }
      if id in rows && rows[id].tenant == tenant && rows[id].status == Queued && rows[id].sourceReadyAt != None {
        return Some(rows[id]);
      }
      return None;
    }

    method SetCeleryTaskId(id: JobId, tenant: string, taskId: string, now: Time) returns (job: Option<Row>)
      modifies this
      ensures rows == Next(config, old(rows), SetTaskId(id, tenant, taskId, now))
      ensures job.Some? <==> id in old(rows) && old(rows)[id].tenant == tenant
      ensures job == None ==> rows == old(rows)
      ensures job.Some? ==> && job == Some(rows[id])
                            && rows == old(rows)[id := old(rows)[id].(taskId := Some(taskId))]
    {
      if id !in rows || rows[id].tenant != tenant {
        return None;
      }
      rows := rows[id := rows[id].(taskId := Some(taskId))];
      return Some(rows[id]);
    }

    /** Returns false where the code raises JobOwnershipError. */
    method ClaimRunning(id: JobId, tenant: string, token: Token, now: Time) returns (ok: bool)
      modifies this
      ensures rows == Next(config, old(rows), Claim(id, tenant, token, now))
      ensures ok <==> Applies(old(rows), Claim(id, tenant, token, now))
      ensures ok <==> && !Blank(tenant) && id in old(rows) && old(rows)[id].tenant == tenant
                      && old(rows)[id].status == Queued
      ensures !ok ==> rows == old(rows)
      ensures ok ==> rows == old(rows)[id := old(rows)[id].(
                       status := Running, token := Some(token), heartbeatAt := Some(now),
                       expiresAt := Some(now + config.lease), startedAt := Some(now), error := None)]
    {
      if Blank(tenant) {
        return false;
      }
      if id in rows && rows[id].tenant == tenant && rows[id].status == Queued {
        rows := rows[id := rows[id].(status := Running, token := Some(token), heartbeatAt := Some(now),
                                     expiresAt := Some(now + config.lease), startedAt := Some(now), error := None)];
        return true;
      }
      return false;
    }

    method ExtendLease(id: JobId, tenant: string, token: Token, now: Time) returns (ok: bool)
      modifies this
      ensures rows == Next(config, old(rows), Extend(id, tenant, token, now))
      ensures ok <==> Applies(old(rows), Extend(id, tenant, token, now))
      ensures ok <==> && id in old(rows) && old(rows)[id].tenant == tenant && old(rows)[id].status == Running
                      && old(rows)[id].token == Some(token) && token != ""
      ensures !ok ==> rows == old(rows)
      ensures ok ==> rows == old(rows)[id := old(rows)[id].(
                       heartbeatAt := Some(now), expiresAt := Some(now + config.lease))]
    {
      if token == "" {
        return false;
      }
      if id in rows && rows[id].tenant == tenant && rows[id].status == Running && rows[id].token == Some(token) {
        rows := rows[id := rows[id].(heartbeatAt := Some(now), expiresAt := Some(now + config.lease))];
        return true;
      }
      return false;
    }

    /** Returns false where the code raises JobOwnershipError. */
    method MarkCompleted(id: JobId, tenant: string, token: Token, result: Option<Result>, now: Time) returns (ok: bool)
      modifies this
      ensures rows == Next(config, old(rows), Complete(id, tenant, token, result, now))
      ensures ok <==> && id in old(rows) && old(rows)[id].tenant == tenant && old(rows)[id].status == Running
                      && old(rows)[id].token == Some(token)
      ensures !ok ==> rows == old(rows)
      ensures ok ==> rows == old(rows)[id := old(rows)[id].(
                       status := Completed, result := result, error := None, finishedAt := Some(now),
                       token := None, expiresAt := None, bind := rows[id].bind)]
      ensures ok ==> Binds(result, rows[id].bind)
    {
      var bind := BindValues(result);
      if id in rows && rows[id].tenant == tenant && rows[id].status == Running && rows[id].token == Some(token) {
        CompletionBinds(config, rows, Complete(id, tenant, token, result, now));
        rows := rows[id := rows[id].(status := Completed, result := result, error := None, finishedAt := Some(now),
                                     token := None, expiresAt := None, bind := bind)];
        return true;
      }
      return false;
    }

    /** Returns false where the code raises JobOwnershipError. */
    method MarkFailed(id: JobId, tenant: string, token: Token, message: string, now: Time) returns (ok: bool)
      modifies this
      ensures rows == Next(config, old(rows), Fail(id, tenant, token, message, now))
      ensures ok <==> && id in old(rows) && old(rows)[id].tenant == tenant && old(rows)[id].status == Running
                      && old(rows)[id].token == Some(token)
      ensures !ok ==> rows == old(rows)
      ensures ok ==> rows == old(rows)[id := old(rows)[id].(
                       status := Failed, error := Some(message), finishedAt := Some(now),
                       token := None, expiresAt := None)]
    {
      if id in rows && rows[id].tenant == tenant && rows[id].status == Running && rows[id].token == Some(token) {
        rows := rows[id := rows[id].(status := Failed, error := Some(message), finishedAt := Some(now),
                                     token := None, expiresAt := None)];
        return true;
      }
      return false;
    }

    method MarkJobRunning(id: JobId, tenant: string, now: Time) returns (job: Option<Row>)
      modifies this
      ensures rows == Next(config, old(rows), ForceRunning(id, tenant, now))
      ensures job.Some? <==> id in old(rows) && old(rows)[id].tenant == tenant
      ensures job == None ==> rows == old(rows)
      ensures job.Some? ==> && job == Some(rows[id])
                            && rows == old(rows)[id := old(rows)[id].(
                                 status := Running, error := None,
                                 startedAt := if old(rows)[id].startedAt.Some? then old(rows)[id].startedAt
                                              else Some(now))]
    {
      if id !in rows || rows[id].tenant != tenant {
        return None;
      }
      var row := rows[id];
      row := row.(status := Running);
      if row.startedAt == None {
        row := row.(startedAt := Some(now));
      }
      rows := rows[id := row.(error := None)];
      return Some(rows[id]);
    }

    method MarkJobCompleted(id: JobId, tenant: string, result: Option<Result>, now: Time) returns (job: Option<Row>)
      modifies this
      ensures rows == Next(config, old(rows), ForceCompleted(id, tenant, result, now))
      ensures job.Some? <==> id in old(rows) && old(rows)[id].tenant == tenant
      ensures job == None ==> rows == old(rows)
      ensures job.Some? ==> && job == Some(rows[id])
                            && rows == old(rows)[id := old(rows)[id].(
                                 status := Completed, result := result, error := None, finishedAt := Some(now),
                                 startedAt := if old(rows)[id].startedAt.Some? then old(rows)[id].startedAt
                                              else Some(now),
                                 bind := rows[id].bind)]
      ensures job.Some? ==> Binds(result, job.value.bind)
    {
      if id !in rows || rows[id].tenant != tenant {
        return None;
      }
      CompletionBinds(config, rows, ForceCompleted(id, tenant, result, now));
      var row := rows[id];
      if row.startedAt == None {
        row := row.(startedAt := Some(now));
      }
      row := row.(status := Completed, result := result, error := None, finishedAt := Some(now));
      rows := rows[id := row.(bind := BindValues(result))];
      return Some(rows[id]);
    }

    method MarkJobFailed(id: JobId, tenant: string, message: string, now: Time) returns (job: Option<Row>)
      modifies this
      ensures rows == Next(config, old(rows), ForceFailed(id, tenant, message, now))
      ensures job.Some? <==> id in old(rows) && old(rows)[id].tenant == tenant
      ensures job == None ==> rows == old(rows)
      ensures job.Some? ==> && job == Some(rows[id])
                            && rows == old(rows)[id := old(rows)[id].(
                                 status := Failed, error := Some(message), finishedAt := Some(now),
                                 startedAt := if old(rows)[id].startedAt.Some? then old(rows)[id].startedAt
                                              else Some(now))]
    {
      if id !in rows || rows[id].tenant != tenant {
        return None;
      }
      var row := rows[id];
      if row.startedAt == None {
        row := row.(startedAt := Some(now));
      }
      rows := rows[id := row.(status := Failed, error := Some(message), finishedAt := Some(now))];
      return Some(rows[id]);
    }

    /** What other callers commit in the meantime. */
    method OtherCallers(ops: seq<Op>)
      modifies this
      ensures rows == After(config, old(rows), ops)
    {
      for k := 0 to |ops|
        invariant rows == After(config, old(rows), ops[..k])
      {
        assert ops[..k + 1][..k] == ops[..k];
        rows := Next(config, rows, ops[k]);
      }
      assert ops[..|ops|] == ops;
    }

    /** Three updates one after the other; together they are the single pass `Swept`, and the counts
        add up to the rows that became failed. */
    method ReapStaleJobs(now: Time) returns (counts: Counts)
      modifies this
      ensures rows == Next(config, old(rows), Sweep(now))
      ensures counts.Total() == |Reaped(old(rows), rows)|
      ensures counts == Counts(|QueuedIds(config, old(rows), now)|, |ExpiredIds(old(rows), now)|,
                               |LegacyIds(config, old(rows), now)|)
      ensures rows.Keys == old(rows).Keys
      ensures forall id :: id in rows ==> SweptAs(config, old(rows)[id], rows[id], now)
    {
      SelectionsUnmoved(config, rows, now);
      PassesAreOnePass(config, rows, now);
      ReapedIsUnion(config, rows, now);
      SweepDoes(config, rows, now);
      var queued := QueuedIds(config, rows, now);
      rows := ClearAll(rows, queued, now, QUEUED_STALE);
      var expired := ExpiredIds(rows, now);
      rows := ClearAll(rows, expired, now, LEASE_EXPIRED);
      var legacy := LegacyIds(config, rows, now);
      rows := ClearAll(rows, legacy, now, LEGACY_RUNNING);
      counts := Counts(|queued|, |expired|, |legacy|);
    }
  }

  /** What one sweep does to a row, by the row's own columns. */
  ghost predicate SweptAs(c: Config, r: Row, s: Row, now: Time) {
    if r.taskId.Some? && r.status == Queued && now - r.createdAt >= c.queuedStale then
      Expunged(r, s, now, "Ingestion job timed out while queued")
    else if r.taskId.Some? && r.status == Running && r.token.Some? && r.expiresAt.Some? && now >= r.expiresAt.value then
      Expunged(r, s, now, "Ingestion job lease expired")
    else if r.taskId.Some? && r.status == Running && r.token == None
            && now - (if r.startedAt.Some? then r.startedAt.value else r.createdAt) >= c.legacyStale then
      Expunged(r, s, now, "Ingestion job abandoned (stale running without lease)")
    else s == r
  }

  predicate Expunged(r: Row, s: Row, now: Time, message: string) {
    && s.status == Failed && s.error == Some(message) && s.finishedAt == Some(now) && s.token == None
    && s.expiresAt == None && s.result == None
    && s.tenant == r.tenant && s.taskId == r.taskId && s.heartbeatAt == r.heartbeatAt && s.keyHash == r.keyHash
    && s.fingerprint == r.fingerprint && s.sourceReadyAt == r.sourceReadyAt && s.createdAt == r.createdAt
    && s.startedAt == r.startedAt && s.bind == r.bind
  }

  lemma SweepDoes(c: Config, t: Table, now: Time)
    ensures var u := Next(c, t, Sweep(now));
            u.Keys == t.Keys && forall id :: id in t ==> SweptAs(c, t[id], u[id], now)
  {
    forall id | id in t ensures SweptAs(c, t[id], Swept(c, t[id], now), now) { SweptDoes(c, t[id], now); }
  }

  lemma SweptDoes(c: Config, r: Row, now: Time)
    ensures SweptAs(c, r, Swept(c, r, now), now)
  {
  }

  function QueuedIds(c: Config, t: Table, now: Time): set<JobId> {
    set id | id in t && StaleQueued(c, t[id], now)
  }

  function ExpiredIds(t: Table, now: Time): set<JobId> {
    set id | id in t && LeaseExpired(t[id], now)
  }

  function LegacyIds(c: Config, t: Table, now: Time): set<JobId> {
    set id | id in t && LegacyRunning(c, t[id], now)
  }

  /** One UPDATE statement of the reaper. */
  function ClearAll(t: Table, ids: set<JobId>, now: Time, message: string): Table {
    map id | id in t :: if id in ids then Cleared(t[id], now, message) else t[id]
  }

  /** Rows cleared by one statement are not picked up by the next: they are failed. */
  lemma LaterPassesUnmoved(c: Config, t: Table, ids: set<JobId>, now: Time, message: string)
    ensures ExpiredIds(ClearAll(t, ids, now, message), now) == ExpiredIds(t, now) - ids
    ensures LegacyIds(c, ClearAll(t, ids, now, message), now) == LegacyIds(c, t, now) - ids
  {
    var u := ClearAll(t, ids, now, message);
    forall id | id in t ensures u[id] == if id in ids then Cleared(t[id], now, message) else t[id] {}
  }

  lemma PassesDisjoint(c: Config, t: Table, now: Time)
    ensures QueuedIds(c, t, now) !! ExpiredIds(t, now) !! LegacyIds(c, t, now)
  {
  }

  lemma PassesAreOnePass(c: Config, t: Table, now: Time)
    ensures var t1 := ClearAll(t, QueuedIds(c, t, now), now, QUEUED_STALE);
            var t2 := ClearAll(t1, ExpiredIds(t, now), now, LEASE_EXPIRED);
            ClearAll(t2, LegacyIds(c, t, now), now, LEGACY_RUNNING) == Next(c, t, Sweep(now))
  {
    PassesDisjoint(c, t, now);
    var t1 := ClearAll(t, QueuedIds(c, t, now), now, QUEUED_STALE);
    var t2 := ClearAll(t1, ExpiredIds(t, now), now, LEASE_EXPIRED);
    var t3 := ClearAll(t2, LegacyIds(c, t, now), now, LEGACY_RUNNING);
    var swept := Next(c, t, Sweep(now));
    forall id | id in t ensures t3[id] == swept[id] {
      assert id in QueuedIds(c, t, now) <==> StaleQueued(c, t[id], now);
      assert id in ExpiredIds(t, now) <==> LeaseExpired(t[id], now);
      assert id in LegacyIds(c, t, now) <==> LegacyRunning(c, t[id], now);
    }
    assert t3 == swept;
  }

  lemma ReapedIsUnion(c: Config, t: Table, now: Time)
    ensures Reaped(t, Next(c, t, Sweep(now))) == QueuedIds(c, t, now) + ExpiredIds(t, now) + LegacyIds(c, t, now)
    ensures |Reaped(t, Next(c, t, Sweep(now)))|
         == |QueuedIds(c, t, now)| + |ExpiredIds(t, now)| + |LegacyIds(c, t, now)|
  {
    PassesDisjoint(c, t, now);
    var a, b, d := QueuedIds(c, t, now), ExpiredIds(t, now), LegacyIds(c, t, now);
    assert Reaped(t, Next(c, t, Sweep(now))) == a + b + d;
    assert |a + b| == |a| + |b|;
    assert |(a + b) + d| == |a + b| + |d|;
  }

  /** The three selections in sequence, each reading the table the previous statement left. */
  lemma SelectionsUnmoved(c: Config, t: Table, now: Time)
    ensures var t1 := ClearAll(t, QueuedIds(c, t, now), now, QUEUED_STALE);
            var t2 := ClearAll(t1, ExpiredIds(t1, now), now, LEASE_EXPIRED);
            ExpiredIds(t1, now) == ExpiredIds(t, now) && LegacyIds(c, t2, now) == LegacyIds(c, t, now)
  {
    PassesDisjoint(c, t, now);
    var t1 := ClearAll(t, QueuedIds(c, t, now), now, QUEUED_STALE);
    LaterPassesUnmoved(c, t, QueuedIds(c, t, now), now, QUEUED_STALE);
    LaterPassesUnmoved(c, t1, ExpiredIds(t1, now), now, LEASE_EXPIRED);
  }

  /** Rows that were not failed before and are failed now. */
  function Reaped(before: Table, after: Table): set<JobId> {
    set id | id in before && id in after && before[id].status != Failed && after[id].status == Failed
  }

  // ----- The heartbeat -----

  /** What goes wrong with one extension attempt, if anything. */
  datatype Fault = NoFault | LostBeforeCommit | LostAfterCommit

  datatype Tick = Tick(now: Time, fault: Fault)

  /** The worker-side lease extension with its one-way ownership flag. */
  class JobLeaseHeartbeat {
    const store: JobStore
    const id: JobId
    const tenant: string
    const token: Token
    var ownershipLost: bool

    constructor (store: JobStore, id: JobId, tenant: string, token: Token)
      ensures this.store == store && this.id == id && this.tenant == tenant && this.token == token && !ownershipLost
    {
      this.store, this.id, this.tenant, this.token := store, id, tenant, token;
      ownershipLost := false;
    }

    function Lease(): Hold { Hold(id, tenant, token) }

    /** A true tick extended the lease; a false one leaves the flag set, and once set the flag keeps
        every later tick from touching the table. */
    method TickOnce(tick: Tick) returns (ok: bool)
      modifies this, store
      ensures ok <==> !old(ownershipLost) && tick.fault == NoFault
                      && Applies(old(store.rows), Extend(id, tenant, token, tick.now))
      ensures ownershipLost == !ok
      ensures store.rows == if old(ownershipLost) || tick.fault == LostBeforeCommit then old(store.rows)
                            else Next(store.config, old(store.rows), Extend(id, tenant, token, tick.now))
    {
      if ownershipLost {
        return false;
      }
      if tick.fault == LostBeforeCommit {
        ownershipLost := true;
        return false;
      }
      ok := store.ExtendLease(id, tenant, token, tick.now);
      if tick.fault == LostAfterCommit || !ok {
        ownershipLost := true;
        return false;
      }
    }

    /** The background loop over the ticks that come before `stop()`, with what other callers commit
        before each of them. It ends at the first false tick and issues no statement after it. */
    method Loop(ticks: seq<Tick>, others: seq<seq<Op>>) returns (beats: nat)
      requires !ownershipLost && |others| == |ticks|
      modifies this, store
      ensures beats <= |ticks| && (ownershipLost <==> beats < |ticks|)
      ensures !ownershipLost ==> store.rows == Beaten(store.config, old(store.rows), Lease(), ticks, others)
      ensures ownershipLost ==>
                var beaten := Beaten(store.config, old(store.rows), Lease(), ticks[..beats], others[..beats]);
                var reached := After(store.config, beaten, others[beats]);
                && store.rows == (if ticks[beats].fault == LostBeforeCommit then reached
                                  else Next(store.config, reached, Lease().At(ticks[beats].now)))
                && (ticks[beats].fault == NoFault ==> store.rows == reached)
    {
      beats := 0;
      while beats < |ticks|
        invariant beats <= |ticks| && !ownershipLost
        invariant store.rows == Beaten(store.config, old(store.rows), Lease(), ticks[..beats], others[..beats])
      {
        store.OtherCallers(others[beats]);
        var ok := TickOnce(ticks[beats]);
        if !ok {
          return;
        }
        assert ticks[..beats + 1][..beats] == ticks[..beats] && others[..beats + 1][..beats] == others[..beats];
        beats := beats + 1;
      }
      assert ticks[..beats] == ticks && others[..beats] == others;
    }
  }

  /** The lease a heartbeat keeps extending. */
  datatype Hold = Hold(id: JobId, tenant: string, token: Token) {
    function At(now: Time): Op { Extend(id, tenant, token, now) }
  }

  /** The table after the given successful beats, other callers in between. */
  function Beaten(c: Config, t: Table, lease: Hold, ticks: seq<Tick>, others: seq<seq<Op>>): Table
    requires |others| == |ticks|
  {
    if ticks == [] then t
    else
      var n := |ticks| - 1;
      Next(c, After(c, Beaten(c, t, lease, ticks[..n], others[..n]), others[n]), lease.At(ticks[n].now))
  }
}
