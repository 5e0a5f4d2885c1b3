/** Theorems about whole runs of the ingestion table (ingestion/jobs.py, ingestion/liveness.py).

    A run is any sequence of statements issued by any number of API workers, Celery workers and
    reapers, the unconditional helpers of the synchronous upload path included. A theorem about one
    job that fails when the helpers touch that job says so with `NoHelper`, about that job alone. */
module IngestionRuns {
  import opened Options
  import opened IngestionJobs

  ghost predicate IsRun(c: Config, ss: seq<Table>, ops: seq<Op>) {
    && |ss| == |ops| + 1 && ss[0] == map[]
    && forall i :: 0 <= i < |ops| ==> ss[i + 1] == Next(c, ss[i], ops[i])
  }

  /** No unconditional helper is called for this job at the positions from `i` up to `j`. */
  ghost predicate NoHelper(ops: seq<Op>, id: JobId, i: nat, j: nat) {
    forall n :: i <= n < j && n < |ops| ==> ops[n].Conditional() || ops[n].id != id
  }

  ghost predicate MonotoneClock(ops: seq<Op>) {
    forall i, j :: 0 <= i < j < |ops| ==> ops[i].now <= ops[j].now
  }

  lemma StepAt(c: Config, ss: seq<Table>, ops: seq<Op>, i: nat)
    requires IsRun(c, ss, ops) && i < |ops|
    ensures ss[i + 1] == Next(c, ss[i], ops[i])
  {
  }

  // ----- What no statement changes -----

  /** Rows stay, and their identity columns never change. */
  ghost predicate Keeps(t: Table, u: Table, id: JobId) {
    id in t ==>
      && id in u
      && u[id].tenant == t[id].tenant && u[id].keyHash == t[id].keyHash
      && u[id].fingerprint == t[id].fingerprint && u[id].createdAt == t[id].createdAt
      && (t[id].taskId.Some? ==> u[id].taskId.Some?)
      && (t[id].status != Queued ==> u[id].status != Queued)
  }

  lemma StepKeeps(c: Config, t: Table, op: Op, id: JobId)
    ensures Keeps(t, Next(c, t, op), id)
  {
  }

  lemma {:induction false} RowsPersist(c: Config, ss: seq<Table>, ops: seq<Op>, id: JobId, i: nat, j: nat)
    requires IsRun(c, ss, ops) && i <= j < |ss|
    ensures Keeps(ss[i], ss[j], id)
    decreases j - i
  {
    if i < j {
      RowsPersist(c, ss, ops, id, i, j - 1);
      StepAt(c, ss, ops, j - 1);
      StepKeeps(c, ss[j - 1], ops[j - 1], id);
    }
  }

  /** No statement returns a row to the queue, so a job is claimed at most once, even with the
      unconditional helpers in the run. */
  lemma ClaimedAtMostOnce(c: Config, ss: seq<Table>, ops: seq<Op>, id: JobId, i: nat, j: nat)
    requires IsRun(c, ss, ops) && i < |ops| && j < |ops|
    requires ops[i].Claim? && ops[i].id == id && Applies(ss[i], ops[i])
    requires ops[j].Claim? && ops[j].id == id && Applies(ss[j], ops[j])
    ensures i == j
  {
    if i < j {
      StepAt(c, ss, ops, i);
      RowsPersist(c, ss, ops, id, i + 1, j);
    } else if j < i {
      StepAt(c, ss, ops, j);
      RowsPersist(c, ss, ops, id, j + 1, i);
    }
  }

  // ----- Invariants of every row -----

  /** Under every statement, unconditional helpers included. */
  ghost predicate Paired(r: Row) { r.token.Some? <==> r.expiresAt.Some? }

  /** Without the helpers: a lease exists exactly while running and expires one lease after the last
      heartbeat; only completed rows carry a result, and the index columns mirror it. */
  ghost predicate Orderly(c: Config, r: Row) {
    && (r.status == Running <==> r.token.Some?)
    && (r.token.Some? <==> r.expiresAt.Some?)
    && (r.status == Running ==>
          r.heartbeatAt.Some? && r.startedAt.Some? && r.expiresAt == Some(r.heartbeatAt.value + c.lease))
    && (r.status == Queued ==> r.startedAt == None && r.heartbeatAt == None)
    && (r.status.Terminal() <==> r.finishedAt.Some?)
    && (r.result.Some? ==> r.status == Completed)
    && (r.error.Some? <==> r.status == Failed)
    && r.bind == BindValues(r.result)
  }

  lemma {:induction false} AlwaysPaired(c: Config, ss: seq<Table>, ops: seq<Op>, n: nat, id: JobId)
    requires IsRun(c, ss, ops) && n < |ss| && id in ss[n]
    ensures Paired(ss[n][id])
  {
    if n > 0 {
      StepAt(c, ss, ops, n - 1);
      if id in ss[n - 1] { AlwaysPaired(c, ss, ops, n - 1, id); }
    }
  }

  lemma {:induction false} AlwaysOrderly(c: Config, ss: seq<Table>, ops: seq<Op>, n: nat, id: JobId)
    requires IsRun(c, ss, ops) && n < |ss| && id in ss[n] && NoHelper(ops, id, 0, n)
    ensures Orderly(c, ss[n][id])
  {
    if n > 0 {
      StepAt(c, ss, ops, n - 1);
      assert ops[n - 1].Conditional() || ops[n - 1].id != id;
      if id in ss[n - 1] { AlwaysOrderly(c, ss, ops, n - 1, id); }
    }
  }

  // ----- Terminal rows and old tokens -----

  /** The helper that marks a job running, called for this row. */
  predicate Restarts(op: Op, id: JobId, tenant: string) { op.ForceRunning? && op.id == id && op.tenant == tenant }

  lemma {:induction false} TerminalUntilRestarted(c: Config, ss: seq<Table>, ops: seq<Op>, id: JobId, i: nat, j: nat)
    requires IsRun(c, ss, ops) && i <= j < |ss| && id in ss[i] && ss[i][id].status.Terminal()
    requires forall n :: i <= n < j ==> !Restarts(ops[n], id, ss[i][id].tenant)
    ensures id in ss[j] && ss[j][id].status.Terminal()
    decreases j - i
  {
    if i < j {
      TerminalUntilRestarted(c, ss, ops, id, i, j - 1);
      RowsPersist(c, ss, ops, id, i, j - 1);
      StepAt(c, ss, ops, j - 1);
      assert !Restarts(ops[j - 1], id, ss[i][id].tenant);
    }
  }

  lemma RestartIsRunning(c: Config, ss: seq<Table>, ops: seq<Op>, id: JobId, i: nat, n: nat)
    requires IsRun(c, ss, ops) && i <= n < |ops| && id in ss[i] && Restarts(ops[n], id, ss[i][id].tenant)
    ensures id in ss[n + 1] && ss[n + 1][id].status == Running
  {
    RowsPersist(c, ss, ops, id, i, n);
    StepAt(c, ss, ops, n);
  }

  /** A terminal row stays terminal exactly when nobody marks the job running afterwards. */
  lemma TerminalForeverIff(c: Config, ss: seq<Table>, ops: seq<Op>, id: JobId, i: nat)
    requires IsRun(c, ss, ops) && i < |ss| && id in ss[i] && ss[i][id].status.Terminal()
    ensures (forall j :: i <= j < |ss| ==> id in ss[j] && ss[j][id].status.Terminal())
            <==> forall n :: i <= n < |ops| ==> !Restarts(ops[n], id, ss[i][id].tenant)
  {
    if n :| i <= n < |ops| && Restarts(ops[n], id, ss[i][id].tenant) {
      RestartIsRunning(c, ss, ops, id, i, n);
      assert !ss[n + 1][id].status.Terminal();
    } else {
      forall j | i <= j < |ss| ensures id in ss[j] && ss[j][id].status.Terminal() {
        TerminalUntilRestarted(c, ss, ops, id, i, j);
      }
    }
  }

  /** A helper call for the row whose arguments are not what the row already records. */
  predicate Overwrites(op: Op, id: JobId, r: Row) {
    match op
    case ForceRunning(at, tenant, _) => at == id && tenant == r.tenant
    case ForceCompleted(at, tenant, result, now) =>
      && at == id && tenant == r.tenant
      && !(r.status == Completed && r.startedAt.Some? && r.finishedAt == Some(now) && r.error == None
           && r.result == result && r.bind == BindValues(result))
    case ForceFailed(at, tenant, message, now) =>
      && at == id && tenant == r.tenant
      && !(r.status == Failed && r.startedAt.Some? && r.finishedAt == Some(now) && r.error == Some(message))
    case _ => false
  }

  /** The same record, apart from the task id. */
  predicate SameRecord(r: Row, s: Row) { s == r.(taskId := s.taskId) }

  lemma TerminalStep(c: Config, r: Row, id: JobId, t: Table, op: Op)
    requires id in t && SameRecord(r, t[id]) && r.status.Terminal()
    ensures id in Next(c, t, op)
    ensures SameRecord(r, Next(c, t, op)[id]) <==> !Overwrites(op, id, r)
  {
  }

  lemma {:induction false} FrozenUntilOverwritten(c: Config, ss: seq<Table>, ops: seq<Op>, id: JobId, i: nat, j: nat)
    requires IsRun(c, ss, ops) && i <= j < |ss| && id in ss[i] && ss[i][id].status.Terminal()
    requires forall n :: i <= n < j ==> !Overwrites(ops[n], id, ss[i][id])
    ensures id in ss[j] && SameRecord(ss[i][id], ss[j][id])
    decreases j - i
  {
    if i < j {
      FrozenUntilOverwritten(c, ss, ops, id, i, j - 1);
      StepAt(c, ss, ops, j - 1);
      TerminalStep(c, ss[i][id], id, ss[j - 1], ops[j - 1]);
    }
  }

  /** A terminal row keeps its record exactly when no later helper call overwrites it; the conditional
      updates and the sweeps never do. */
  lemma FrozenIff(c: Config, ss: seq<Table>, ops: seq<Op>, id: JobId, i: nat)
    requires IsRun(c, ss, ops) && i < |ss| && id in ss[i] && ss[i][id].status.Terminal()
    ensures (forall j :: i <= j < |ss| ==> id in ss[j] && SameRecord(ss[i][id], ss[j][id]))
            <==> forall n :: i <= n < |ops| ==> !Overwrites(ops[n], id, ss[i][id])
  {
    if forall n :: i <= n < |ops| ==> !Overwrites(ops[n], id, ss[i][id]) {
      forall j | i <= j < |ss| ensures id in ss[j] && SameRecord(ss[i][id], ss[j][id]) {
        FrozenUntilOverwritten(c, ss, ops, id, i, j);
      }
    } else {
      var n :| i <= n < |ops| && Overwrites(ops[n], id, ss[i][id]);
      StepAt(c, ss, ops, n);
      if id in ss[n] && SameRecord(ss[i][id], ss[n][id]) { TerminalStep(c, ss[i][id], id, ss[n], ops[n]); }
    }
  }

  /** In particular it never changes again once the helpers are done with the job. */
  lemma TerminalIsFrozen(c: Config, ss: seq<Table>, ops: seq<Op>, id: JobId, i: nat, j: nat)
    requires IsRun(c, ss, ops) && i <= j < |ss| && NoHelper(ops, id, i, j)
    requires id in ss[i] && ss[i][id].status.Terminal()
    ensures id in ss[j] && SameRecord(ss[i][id], ss[j][id])
  {
    FrozenUntilOverwritten(c, ss, ops, id, i, j);
  }

  ghost predicate Finishes(ss: seq<Table>, id: JobId, i: nat)
    requires i + 1 < |ss|
  {
    id in ss[i] && id in ss[i + 1] && !ss[i][id].status.Terminal() && ss[i + 1][id].status.Terminal()
  }

  /** A job finishes a second time only if somebody marked it running in between. */
  lemma FinishedOncePerStart(c: Config, ss: seq<Table>, ops: seq<Op>, id: JobId, i: nat, j: nat)
    requires IsRun(c, ss, ops) && i < j < |ops| && Finishes(ss, id, i) && Finishes(ss, id, j)
    ensures exists n :: i < n < j && Restarts(ops[n], id, ss[i][id].tenant)
  {
    RowsPersist(c, ss, ops, id, i, i + 1);
    if forall n :: i < n < j ==> !Restarts(ops[n], id, ss[i][id].tenant) {
      TerminalUntilRestarted(c, ss, ops, id, i + 1, j);
    }
  }

  /** A statement that presents a lease token for a job. */
  ghost predicate Presents(op: Op, id: JobId, token: Token) {
    (op.Extend? || op.Complete? || op.Fail?) && op.id == id && op.token == token
  }

  /** A row that has been claimed and does not carry the token never carries it again. */
  lemma {:induction false} TokenNeverReturns(c: Config, ss: seq<Table>, ops: seq<Op>, id: JobId, token: Token,
                                             i: nat, j: nat)
    requires IsRun(c, ss, ops) && i <= j < |ss|
    requires id in ss[i] && ss[i][id].status != Queued && ss[i][id].token != Some(token)
    ensures id in ss[j] && ss[j][id].status != Queued && ss[j][id].token != Some(token)
    decreases j - i
  {
    if i < j {
      TokenNeverReturns(c, ss, ops, id, token, i, j - 1);
      StepAt(c, ss, ops, j - 1);
    }
  }

  /** Once a job has left an owner, every later statement with the old token changes nothing, even
      with the unconditional helpers in the run. */
  lemma OldTokenIsPowerless(c: Config, ss: seq<Table>, ops: seq<Op>, id: JobId, token: Token, i: nat, j: nat)
    requires IsRun(c, ss, ops) && i <= j < |ops|
    requires id in ss[i] && ss[i][id].status != Queued && ss[i][id].token != Some(token)
    requires Presents(ops[j], id, token)
    ensures !Applies(ss[j], ops[j]) && ss[j + 1] == ss[j]
  {
    TokenNeverReturns(c, ss, ops, id, token, i, j);
    StepAt(c, ss, ops, j);
  }

  /** Success with a token means the one successful claim of that job issued it. */
  lemma {:induction false} TokenComesFromItsClaim(c: Config, ss: seq<Table>, ops: seq<Op>, id: JobId, token: Token,
                                                  n: nat)
    returns (i: nat)
    requires IsRun(c, ss, ops) && n < |ss| && id in ss[n] && ss[n][id].token == Some(token)
    ensures i < n && ops[i].Claim? && ops[i].id == id && ops[i].token == token && Applies(ss[i], ops[i])
  {
    StepAt(c, ss, ops, n - 1);
    if id in ss[n - 1] && ss[n - 1][id].token == Some(token) {
      i := TokenComesFromItsClaim(c, ss, ops, id, token, n - 1);
    } else {
      i := n - 1;
    }
  }

  // ----- What the unconditional helpers break -----

  const ONE_REQUEST := Request("acme", "a.pdf", "data/a.pdf", Some("ingest-0"), None, None)

  /** Both guarantees fail with them: a completed row is restarted and then failed, and the sweep that
      fails it clears the result while the index columns keep naming a collection. */
  lemma HelpersBreakTerminalRows(c: Config) returns (ss: seq<Table>, ops: seq<Op>)
    ensures IsRun(c, ss, ops) && |ss| == 6 && 0 in ss[3] && 0 in ss[4] && 0 in ss[5]
    ensures ss[3][0].status == Completed && ss[4][0].status == Running
    ensures ss[5][0].status == Failed && ss[5][0].result == None && ss[5][0].bind.active == Some("v2")
  {
    var published := Some(Result("ok", Some(Publication(Some("v2"), None, None))));
    assert ONE_REQUEST.tenant[0] == 'a';
    var r0 := FreshRow(ONE_REQUEST, 0);
    ops := [Insert(0, ONE_REQUEST, 0), Claim(0, "acme", "t", 1), Complete(0, "acme", "t", published, 2),
            ForceRunning(0, "acme", 3), Sweep(1 + c.legacyStale)];
    var r1 := Written(c, r0, ops[1]);
    var r2 := Written(c, r1, ops[2]);
    var r3 := Written(c, r2, ops[3]);
    var r4 := Swept(c, r3, ops[4].now);
    ss := [map[], map[0 := r0], map[0 := r1], map[0 := r2], map[0 := r3], map[0 := r4]];
    assert !Blank("acme") by { assert "acme"[0] == 'a'; }
    assert Strip("v2") == "v2";
    assert WithKey(map[], "acme", "") == {};
    assert r3.startedAt == Some(1) && r3.token == None;
    assert ss[1] == Next(c, ss[0], ops[0]);
    assert ss[2] == Next(c, ss[1], ops[1]);
    assert ss[3] == Next(c, ss[2], ops[2]);
    assert ss[4] == Next(c, ss[3], ops[3]);
    assert ss[5] == Next(c, ss[4], ops[4]);
  }

  /** The index columns repeat what the result published. */
  predicate Mirrored(r: Row) { r.bind == BindValues(r.result) }

  predicate Stale(c: Config, r: Row, now: Time) {
    StaleQueued(c, r, now) || LeaseExpired(r, now) || LegacyRunning(c, r, now)
  }

  /** One sweep keeps the mirror exactly when it finds the row not stale or nothing published. */
  lemma SweepKeepsMirrorIff(c: Config, r: Row, now: Time)
    requires Mirrored(r)
    ensures Mirrored(Swept(c, r, now)) <==> !Stale(c, r, now) || r.bind == NO_BIND
  {
  }

  /** A sweep that finds the row stale while its columns name a publication. */
  ghost predicate Unpublishes(c: Config, ss: seq<Table>, ops: seq<Op>, id: JobId, m: nat)
    requires m < |ops| && m < |ss|
  {
    ops[m].Sweep? && id in ss[m] && Stale(c, ss[m][id], ops[m].now) && ss[m][id].bind != NO_BIND
  }

  /** A completion of the job, by its worker or by the helper. */
  ghost predicate Publishes(ss: seq<Table>, ops: seq<Op>, id: JobId, m: nat)
    requires m < |ops| && m < |ss|
  {
    (ops[m].Complete? || ops[m].ForceCompleted?) && ops[m].id == id && Applies(ss[m], ops[m])
  }

  lemma MirrorStep(c: Config, ss: seq<Table>, ops: seq<Op>, m: nat, id: JobId)
    requires IsRun(c, ss, ops) && m < |ops| && id in ss[m]
    requires !Mirrored(ss[m][id]) ==> ss[m][id].result == None
    ensures id in ss[m + 1] && (!Mirrored(ss[m + 1][id]) ==> ss[m + 1][id].result == None)
    ensures Mirrored(ss[m + 1][id])
            <==> Publishes(ss, ops, id, m) || (Mirrored(ss[m][id]) && !Unpublishes(c, ss, ops, id, m))
  {
    StepAt(c, ss, ops, m);
    if ops[m].Sweep? && Mirrored(ss[m][id]) { SweepKeepsMirrorIff(c, ss[m][id], ops[m].now); }
  }

  /** In every run the mirror holds exactly when each such sweep was followed by a completion. */
  lemma {:induction false} MirrorHoldsIff(c: Config, ss: seq<Table>, ops: seq<Op>, n: nat, id: JobId)
    requires IsRun(c, ss, ops) && n < |ss| && id in ss[n]
    ensures !Mirrored(ss[n][id]) ==> ss[n][id].result == None
    ensures Mirrored(ss[n][id])
            <==> forall m :: 0 <= m < n && Unpublishes(c, ss, ops, id, m)
                   ==> exists k :: m < k < n && Publishes(ss, ops, id, k)
  {
    if n > 0 {
      if id in ss[n - 1] {
        MirrorHoldsIff(c, ss, ops, n - 1, id);
        MirrorStep(c, ss, ops, n - 1, id);
      } else {
        StepAt(c, ss, ops, n - 1);
        forall m | 0 <= m < n ensures id !in ss[m] { RowsPersist(c, ss, ops, id, m, n - 1); }
      }
    }
  }

  /** Everybody who marks the job running finds it unfinished, as the one caller of that helper does:
      it marks the row it has just created. */
  ghost predicate RestartsOnlyUnfinished(ss: seq<Table>, ops: seq<Op>, id: JobId, n: nat) {
    forall m :: 0 <= m < n && m < |ops| && m < |ss| && ops[m].ForceRunning? && ops[m].id == id && id in ss[m]
      ==> !ss[m][id].status.Terminal()
  }

  lemma {:induction false} PublishedIsTerminal(c: Config, ss: seq<Table>, ops: seq<Op>, n: nat, id: JobId)
    requires IsRun(c, ss, ops) && n < |ss| && id in ss[n] && RestartsOnlyUnfinished(ss, ops, id, n)
    ensures ss[n][id].bind != NO_BIND ==> ss[n][id].status.Terminal()
  {
    if n > 0 {
      StepAt(c, ss, ops, n - 1);
      if id in ss[n - 1] { PublishedIsTerminal(c, ss, ops, n - 1, id); }
    }
  }

  /** Under that discipline the mirror holds in every run, sweeps and the other helpers included. */
  lemma MirrorHolds(c: Config, ss: seq<Table>, ops: seq<Op>, n: nat, id: JobId)
    requires IsRun(c, ss, ops) && n < |ss| && id in ss[n] && RestartsOnlyUnfinished(ss, ops, id, n)
    ensures Mirrored(ss[n][id])
  {
    forall m | 0 <= m < n ensures !Unpublishes(c, ss, ops, id, m) {
      if id in ss[m] { PublishedIsTerminal(c, ss, ops, m, id); }
    }
    MirrorHoldsIff(c, ss, ops, n, id);
  }

  // ----- The sweep -----

  /** A row the reaper has no reason to touch: younger than its own cutoff. */
  ghost predicate Young(c: Config, r: Row, now: Time) {
    match r.status
    case Queued => r.createdAt > now - c.queuedStale
    case Running =>
      if r.token.Some? then r.expiresAt.Some? && r.expiresAt.value > now
      else r.startedAt.GetOr(r.createdAt) > now - c.legacyStale
    case _ => true
  }

  /** After a sweep no asynchronous job is stuck: every row with a task id that is not terminal is
      younger than its cutoff. Rows without a task id are untouched, and sweeping again at the same
      time changes nothing. Holds with the unconditional helpers in the run. */
  lemma SweepLeavesNothingStale(c: Config, ss: seq<Table>, ops: seq<Op>, n: nat, id: JobId)
    requires IsRun(c, ss, ops) && n < |ops| && ops[n].Sweep? && id in ss[n]
    ensures id in ss[n + 1]
    ensures ss[n + 1][id].taskId.Some? ==> Young(c, ss[n + 1][id], ops[n].now)
    ensures ss[n][id].taskId == None ==> ss[n + 1][id] == ss[n][id]
    ensures ss[n + 1][id] != ss[n][id] <==> ss[n][id].taskId.Some? && !Young(c, ss[n][id], ops[n].now)
    ensures Swept(c, ss[n + 1][id], ops[n].now) == ss[n + 1][id]
  {
    StepAt(c, ss, ops, n);
    AlwaysPaired(c, ss, ops, n, id);
  }

  /** The second of two sweeps at one time changes no table. */
  lemma SweepIsIdempotent(c: Config, t: Table, now: Time)
    ensures Next(c, Next(c, t, Sweep(now)), Sweep(now)) == Next(c, t, Sweep(now))
  {
    var u := Next(c, t, Sweep(now));
    var v := Next(c, u, Sweep(now));
    forall id | id in t ensures v[id] == u[id] {
      assert u[id] == Swept(c, t[id], now);
      assert v[id] == Swept(c, u[id], now);
    }
  }

  // ----- A timely worker is never reaped -----

  /** The row is held with the given token until `expiry`. */
  ghost predicate Held(t: Table, id: JobId, tenant: string, token: Token, expiry: Time) {
    Leased(t, id, tenant, token) && t[id].expiresAt == Some(expiry)
  }

  ghost predicate OwnOp(op: Op, id: JobId, tenant: string, token: Token) {
    Presents(op, id, token) && op.tenant == tenant
  }

  predicate ForcesEnd(op: Op, id: JobId) { (op.ForceCompleted? || op.ForceFailed?) && op.id == id }

  /** Neither helper that ends the job is called for it at the positions from `i` up to `j`. */
  ghost predicate NoForcedEnd(ops: seq<Op>, id: JobId, i: nat, j: nat) {
    forall n :: i <= n < j && n < |ops| ==> !ForcesEnd(ops[n], id)
  }

  /** Between two of the worker's own statements nobody else takes the row away, as long as no sweep
      runs at or after the expiry. */
  lemma {:induction false} Undisturbed(c: Config, ss: seq<Table>, ops: seq<Op>, id: JobId, tenant: string, token: Token,
                                       expiry: Time, i: nat, j: nat)
    requires IsRun(c, ss, ops) && i <= j < |ss| && NoForcedEnd(ops, id, i, j)
    requires Held(ss[i], id, tenant, token, expiry)
    requires forall n :: i <= n < j ==> !OwnOp(ops[n], id, tenant, token) && ops[n].now < expiry
    ensures Held(ss[j], id, tenant, token, expiry)
    decreases j - i
  {
    if i < j {
      Undisturbed(c, ss, ops, id, tenant, token, expiry, i, j - 1);
      StepAt(c, ss, ops, j - 1);
      assert !ForcesEnd(ops[j - 1], id);
      assert !OwnOp(ops[j - 1], id, tenant, token) && ops[j - 1].now < expiry;
    }
  }

  /** The worker's own statements in a run: `beats` lists their positions, the first being the
      successful claim, all but the last being extensions, each less than a lease after the one
      before. */
  ghost predicate TimelyWorker(c: Config, ss: seq<Table>, ops: seq<Op>, id: JobId, tenant: string, token: Token,
                               beats: seq<nat>) {
    && |ss| == |ops| + 1 && beats != [] && token != ""
    && (forall x :: 0 <= x < |beats| ==> beats[x] < |ops|)
    && ops[beats[0]] == Claim(id, tenant, token, ops[beats[0]].now) && Applies(ss[beats[0]], ops[beats[0]])
    && (forall x :: 0 < x < |beats| ==>
          beats[x - 1] < beats[x] && ops[beats[x]].now - ops[beats[x - 1]].now < c.lease)
    && (forall x :: 0 < x < |beats| ==> OwnOp(ops[beats[x]], id, tenant, token))
    && (forall x :: 0 < x < |beats| - 1 ==> ops[beats[x]].Extend?)
    && (forall x, n :: 0 < x < |beats| && beats[x - 1] < n < beats[x] ==> !OwnOp(ops[n], id, tenant, token))
  }

  lemma {:induction false} FirstBeat(c: Config, ss: seq<Table>, ops: seq<Op>, id: JobId, tenant: string, token: Token,
                                     beats: seq<nat>, x: nat)
    requires TimelyWorker(c, ss, ops, id, tenant, token, beats) && x < |beats|
    ensures beats[0] <= beats[x]
  {
    if x > 0 { FirstBeat(c, ss, ops, id, tenant, token, beats, x - 1); }
  }

  /** In every interleaving with sweeps and other callers on a common clock, each heartbeat of such a
      worker succeeds, and so does its final completion or failure. */
  lemma {:induction false} TimelyWorkerSucceeds(c: Config, ss: seq<Table>, ops: seq<Op>, id: JobId, tenant: string,
                                                token: Token, beats: seq<nat>, x: nat)
    requires IsRun(c, ss, ops) && MonotoneClock(ops)
    requires TimelyWorker(c, ss, ops, id, tenant, token, beats) && x < |beats|
    requires NoForcedEnd(ops, id, beats[0], beats[x])
    ensures Applies(ss[beats[x]], ops[beats[x]])
    ensures x < |beats| - 1 ==> Held(ss[beats[x] + 1], id, tenant, token, ops[beats[x]].now + c.lease)
  {
    if x > 0 {
      TimelyWorkerSucceeds(c, ss, ops, id, tenant, token, beats, x - 1);
      var expiry := ops[beats[x - 1]].now + c.lease;
      FirstBeat(c, ss, ops, id, tenant, token, beats, x - 1);
      forall n | beats[x - 1] + 1 <= n < beats[x]
        ensures !OwnOp(ops[n], id, tenant, token) && ops[n].now < expiry
      {
        assert ops[n].now <= ops[beats[x]].now;
      }
      Undisturbed(c, ss, ops, id, tenant, token, expiry, beats[x - 1] + 1, beats[x]);
    }
    StepAt(c, ss, ops, beats[x]);
  }

  // ----- An abandoned job is found out in bounded time -----

  /** The statements that move a job on without finishing it. */
  predicate Drives(op: Op, id: JobId) {
    (op.Claim? || op.Extend? || op.ForceRunning?) && op.id == id
  }

  /** From position `i` on nobody claims the job, extends its lease or marks it running. */
  ghost predicate Abandoned(ss: seq<Table>, ops: seq<Op>, id: JobId, i: nat) {
    forall n :: i <= n < |ops| && n < |ss| && Drives(ops[n], id) ==> !Applies(ss[n], ops[n])
  }

  /** Whenever the clock of the run passes over a window of `period`, some sweep falls into it. */
  ghost predicate SweepsEvery(ops: seq<Op>, i: nat, period: nat) {
    forall t: Time :: i < |ops| && ops[i].now <= t && t + period <= ops[|ops| - 1].now
      ==> SweptDuring(ops, i, t, period)
  }

  ghost predicate SweptDuring(ops: seq<Op>, i: nat, t: Time, period: nat) {
    exists n :: i <= n < |ops| && ops[n].Sweep? && t <= ops[n].now <= t + period
  }

  /** The clock value from which on the reaper considers the row stale. */
  function Deadline(c: Config, r: Row): Time {
    if r.status == Queued then r.createdAt + c.queuedStale
    else if r.expiresAt.Some? then r.expiresAt.value
    else r.startedAt.GetOr(r.createdAt) + c.legacyStale
  }

  lemma StaleFromDeadline(c: Config, r: Row, now: Time)
    requires Paired(r) && r.taskId.Some? && !r.status.Terminal()
    ensures Stale(c, r, now) <==> Deadline(c, r) <= now
  {
  }

  lemma {:induction false} AbandonedRow(c: Config, ss: seq<Table>, ops: seq<Op>, id: JobId, i: nat, j: nat)
    requires IsRun(c, ss, ops) && Abandoned(ss, ops, id, i) && i <= j < |ss| && id in ss[i] && ss[i][id].taskId.Some?
    ensures id in ss[j] && ss[j][id].taskId.Some?
    ensures ss[j][id].status.Terminal()
            || (!ss[i][id].status.Terminal() && Deadline(c, ss[j][id]) == Deadline(c, ss[i][id]))
    decreases j - i
  {
    if i < j {
      AbandonedRow(c, ss, ops, id, i, j - 1);
      StepAt(c, ss, ops, j - 1);
      assert Drives(ops[j - 1], id) ==> !Applies(ss[j - 1], ops[j - 1]);
    }
  }

  lemma ReapedBySweep(c: Config, ss: seq<Table>, ops: seq<Op>, id: JobId, i: nat, n: nat)
    requires IsRun(c, ss, ops) && Abandoned(ss, ops, id, i) && i <= n < |ops| && ops[n].Sweep?
    requires id in ss[i] && ss[i][id].taskId.Some? && Deadline(c, ss[i][id]) <= ops[n].now
    ensures id in ss[n + 1] && ss[n + 1][id].taskId.Some? && ss[n + 1][id].status.Terminal()
  {
    AbandonedRow(c, ss, ops, id, i, n);
    AbandonedRow(c, ss, ops, id, i, n + 1);
    AlwaysPaired(c, ss, ops, n, id);
    StepAt(c, ss, ops, n);
    if !ss[n][id].status.Terminal() { StaleFromDeadline(c, ss[n][id], ops[n].now); }
  }

  /** A job with a task id that is abandoned after statement `h` is terminal one sweep period after
      its deadline, however long the table is quiet in between. */
  lemma AbandonedJobIsReaped(c: Config, ss: seq<Table>, ops: seq<Op>, id: JobId, h: nat, period: nat)
    requires IsRun(c, ss, ops) && h < |ops| && id in ss[h + 1] && ss[h + 1][id].taskId.Some?
    requires Abandoned(ss, ops, id, h + 1) && SweepsEvery(ops, h, period)
    requires Deadline(c, ss[h + 1][id]) + period <= ops[|ops| - 1].now
    requires !ops[h].Sweep? && ops[h].now + period <= ops[|ops| - 1].now
    ensures id in ss[|ops|] && ss[|ops|][id].status.Terminal()
  {
    var due := if Deadline(c, ss[h + 1][id]) < ops[h].now then ops[h].now else Deadline(c, ss[h + 1][id]);
    assert SweptDuring(ops, h, due, period);
    var n :| h <= n < |ops| && ops[n].Sweep? && due <= ops[n].now <= due + period;
    ReapedBySweep(c, ss, ops, id, h + 1, n);
    AbandonedRow(c, ss, ops, id, n + 1, |ops|);
  }

  /** A worker silent after its claim or heartbeat `h` leaves a terminal row behind no later than one
      lease plus one sweep period after it. */
  lemma SilentWorkerIsReaped(c: Config, ss: seq<Table>, ops: seq<Op>, id: JobId, h: nat, period: nat)
    requires IsRun(c, ss, ops) && h < |ops| && (ops[h].Claim? || ops[h].Extend?) && ops[h].id == id
    requires Applies(ss[h], ops[h]) && ss[h][id].taskId.Some?
    requires Abandoned(ss, ops, id, h + 1) && SweepsEvery(ops, h, period)
    requires ops[h].now + c.lease + period <= ops[|ops| - 1].now
    ensures id in ss[|ops|] && ss[|ops|][id].status.Terminal()
  {
    StepAt(c, ss, ops, h);
    assert Deadline(c, ss[h + 1][id]) == ops[h].now + c.lease;
    AbandonedJobIsReaped(c, ss, ops, id, h, period);
  }

  /** A queued job that nobody claims is terminal one queue cutoff plus one sweep period after its
      creation `h`. */
  lemma UnclaimedJobIsReaped(c: Config, ss: seq<Table>, ops: seq<Op>, h: nat, period: nat)
    requires IsRun(c, ss, ops) && h < |ops| && ops[h].Insert? && Applies(ss[h], ops[h])
    requires ops[h].request.taskId.Some?
    requires Abandoned(ss, ops, ops[h].id, h + 1) && SweepsEvery(ops, h, period)
    requires ops[h].now + c.queuedStale + period <= ops[|ops| - 1].now
    ensures ops[h].id in ss[|ops|] && ss[|ops|][ops[h].id].status.Terminal()
  {
    StepAt(c, ss, ops, h);
    AbandonedJobIsReaped(c, ss, ops, ops[h].id, h, period);
  }

  /** A job marked running without a lease is terminal one legacy cutoff plus one sweep period after
      that call `h`. */
  lemma LegacyJobIsReaped(c: Config, ss: seq<Table>, ops: seq<Op>, id: JobId, h: nat, period: nat)
    requires IsRun(c, ss, ops) && h < |ops| && ops[h].ForceRunning? && ops[h].id == id && Applies(ss[h], ops[h])
    requires ss[h][id].taskId.Some? && ss[h][id].token == None
    requires ss[h][id].startedAt.Some? ==> ss[h][id].startedAt.value <= ops[h].now
    requires Abandoned(ss, ops, id, h + 1) && SweepsEvery(ops, h, period)
    requires ops[h].now + c.legacyStale + period <= ops[|ops| - 1].now
    ensures id in ss[|ops|] && ss[|ops|][id].status.Terminal()
  {
    StepAt(c, ss, ops, h);
    AlwaysPaired(c, ss, ops, h, id);
    AbandonedJobIsReaped(c, ss, ops, id, h, period);
  }

  // ----- Idempotent creation -----

  ghost predicate UniqueKeys(t: Table) {
    forall a, b :: a in t && b in t && t[a].keyHash.Some? && t[a].keyHash == t[b].keyHash && t[a].tenant == t[b].tenant
      ==> a == b
  }

  lemma {:induction false} AlwaysUnique(c: Config, ss: seq<Table>, ops: seq<Op>, n: nat)
    requires IsRun(c, ss, ops) && n < |ss|
    ensures UniqueKeys(ss[n])
  {
    if n > 0 {
      AlwaysUnique(c, ss, ops, n - 1);
      StepAt(c, ss, ops, n - 1);
      var t, u, op := ss[n - 1], ss[n], ops[n - 1];
      forall id | id in u && id in t ensures u[id].keyHash == t[id].keyHash && u[id].tenant == t[id].tenant {
        RowsPersist(c, ss, ops, id, n - 1, n);
      }
      if op.Insert? && Applies(t, op) && op.request.keyHash.Some? {
        forall id | id in t ensures !HasKey(t[id], op.request.tenant, op.request.keyHash.value) {
          assert id !in WithKey(t, op.request.tenant, op.request.keyHash.value);
        }
      }
    }
  }

  /** After a keyed row exists, the lookup by its key finds that row and no other. */
  lemma KeyFindsItsRow(c: Config, ss: seq<Table>, ops: seq<Op>, id: JobId, i: nat, j: nat)
    requires IsRun(c, ss, ops) && i <= j < |ss| && id in ss[i] && ss[i][id].keyHash.Some?
    ensures id in ss[j] && WithKey(ss[j], ss[i][id].tenant, ss[i][id].keyHash.value) == {id}
  {
    RowsPersist(c, ss, ops, id, i, j);
    AlwaysUnique(c, ss, ops, j);
  }

  /** The insert and the re-read of one call are separate transactions. Whatever runs in between, the
      call ends as if it had run atomically at the moment of the re-read, where it changes nothing. */
  lemma SplitCallIsAtomic(c: Config, ss: seq<Table>, ops: seq<Op>, i: nat, j: nat)
    requires IsRun(c, ss, ops) && i < |ops| && i < j < |ss|
    requires ops[i].Insert? && ValidRequest(ops[i].request) && !Applies(ss[i], ops[i])
    ensures CreateOrReuse(ss[j], ops[i].request, ops[i].id) == Reread(ss[j], ops[i].request)
    ensures Next(c, ss[j], ops[i]) == ss[j]
  {
    var q := ops[i].request;
    if ops[i].id in ss[i] {
      RowsPersist(c, ss, ops, ops[i].id, i, j);
    } else {
      var other :| other in WithKey(ss[i], q.tenant, q.keyHash.value);
      KeyFindsItsRow(c, ss, ops, other, i, j);
    }
  }

  /** Of all callers with one tenant and key exactly one creates the row; every later caller gets
      that job when its fingerprint matches and a conflict when it does not. The empty hash is the
      exception: its uniqueness is enforced but the code re-raises instead of re-reading. */
  lemma LaterCallers(c: Config, ss: seq<Table>, ops: seq<Op>, i: nat, j: nat, q: Request, id: JobId)
    requires IsRun(c, ss, ops) && i < |ops| && i < j < |ss|
    requires ops[i].Insert? && Applies(ss[i], ops[i]) && ops[i].request.keyHash.Some?
    requires ValidRequest(q) && q.tenant == ops[i].request.tenant && q.keyHash == ops[i].request.keyHash
    ensures CreateOrReuse(ss[j], q, id)
         == if q.keyHash == Some("") then IntegrityFailure
            else if q.fingerprint == ops[i].request.fingerprint then Replayed(ops[i].id)
            else Conflict
  {
    StepAt(c, ss, ops, i);
    var made := ops[i].id;
    assert ss[i + 1][made] == FreshRow(ops[i].request, ops[i].now);
    RowsPersist(c, ss, ops, made, i + 1, j);
    KeyFindsItsRow(c, ss, ops, made, i + 1, j);
  }

  ghost predicate Creates(ss: seq<Table>, ops: seq<Op>, i: nat, tenant: string, hash: string)
    requires i < |ops| && i < |ss|
  {
    ops[i].Insert? && Applies(ss[i], ops[i]) && ops[i].request.tenant == tenant && ops[i].request.keyHash == Some(hash)
  }

  lemma AtMostOneCreator(c: Config, ss: seq<Table>, ops: seq<Op>, i: nat, j: nat, tenant: string, hash: string)
    requires IsRun(c, ss, ops) && i < |ops| && j < |ops|
    requires Creates(ss, ops, i, tenant, hash) && Creates(ss, ops, j, tenant, hash)
    ensures i == j
  {
    if i < j {
      LaterCallers(c, ss, ops, i, j, ops[j].request, ops[j].id);
    } else if j < i {
      LaterCallers(c, ss, ops, j, i, ops[i].request, ops[i].id);
    }
  }

  lemma {:induction false} EveryRowWasCreated(c: Config, ss: seq<Table>, ops: seq<Op>, id: JobId, n: nat)
    requires IsRun(c, ss, ops) && n < |ss| && id in ss[n]
    ensures exists i: nat :: && i < n && ops[i].Insert? && ops[i].id == id && Applies(ss[i], ops[i])
                             && ops[i].request.tenant == ss[n][id].tenant && ops[i].request.keyHash == ss[n][id].keyHash
  {
    StepAt(c, ss, ops, n - 1);
    if id in ss[n - 1] {
      EveryRowWasCreated(c, ss, ops, id, n - 1);
      RowsPersist(c, ss, ops, id, n - 1, n);
    }
  }

  /** As soon as one valid call with a key was made under a fresh id, exactly one call of the run has
      created the row of that key, at that call or before it. */
  lemma OneCreatorPerKey(c: Config, ss: seq<Table>, ops: seq<Op>, i: nat) returns (m: nat)
    requires IsRun(c, ss, ops) && i < |ops|
    requires ops[i].Insert? && ValidRequest(ops[i].request) && ops[i].request.keyHash.Some? && ops[i].id !in ss[i]
    ensures var tenant, hash := ops[i].request.tenant, ops[i].request.keyHash.value;
            && m <= i && Creates(ss, ops, m, tenant, hash)
            && forall j :: 0 <= j < |ops| && Creates(ss, ops, j, tenant, hash) ==> j == m
  {
    var tenant, hash := ops[i].request.tenant, ops[i].request.keyHash.value;
    if Applies(ss[i], ops[i]) {
      m := i;
    } else {
      var id :| id in WithKey(ss[i], tenant, hash);
      EveryRowWasCreated(c, ss, ops, id, i);
      m :| && m < i && ops[m].Insert? && ops[m].id == id && Applies(ss[m], ops[m])
           && ops[m].request.tenant == tenant && ops[m].request.keyHash == Some(hash);
    }
    forall j | 0 <= j < |ops| && Creates(ss, ops, j, tenant, hash) ensures j == m {
      AtMostOneCreator(c, ss, ops, j, m, tenant, hash);
    }
  }

  /** Calls without a key are never merged: two of them made two rows, and both stay. */
  lemma UnkeyedCallsStayApart(c: Config, ss: seq<Table>, ops: seq<Op>, i: nat, j: nat, n: nat)
    requires IsRun(c, ss, ops) && i < j < |ops| && j < n < |ss|
    requires ops[i].Insert? && Applies(ss[i], ops[i]) && ops[i].request.keyHash == None
    requires ops[j].Insert? && Applies(ss[j], ops[j]) && ops[j].request.keyHash == None
    ensures ops[i].id != ops[j].id && ops[i].id in ss[n] && ops[j].id in ss[n]
    ensures ss[n][ops[i].id].tenant == ops[i].request.tenant && ss[n][ops[j].id].tenant == ops[j].request.tenant
    ensures ss[n][ops[i].id].createdAt == ops[i].now && ss[n][ops[j].id].createdAt == ops[j].now
  {
    StepAt(c, ss, ops, i);
    StepAt(c, ss, ops, j);
    RowsPersist(c, ss, ops, ops[i].id, i + 1, j);
    RowsPersist(c, ss, ops, ops[i].id, i + 1, n);
    RowsPersist(c, ss, ops, ops[j].id, j + 1, n);
  }
}
