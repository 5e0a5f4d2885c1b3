/** Theorems about every interleaving of session turns, wall-budget timeouts, orphan workers and
    clears (agent/graph.py). */
module SessionRuns {
  import opened Options
  import opened ConversationSession

  /** Where the thread that owns the exclusive turn stands in `ask`. `late` says the wall budget was
      exceeded on the way. */
  datatype Phase =
    | NoTurn
    | Working(turn: nat)
    | TimedOut(turn: nat)
    | Invalidated(turn: nat)
    | Appended(turn: nat, late: bool)
    | Stamped(turn: nat, late: bool, version: nat)
  {
    predicate Answering() { Working? || TimedOut? || Invalidated? }
  }

  /** One question/answer pair of the full log, with the turn that appended it. */
  datatype Logged = Logged(turn: nat, question: string, answer: string)

  /** The session, its owner, the orphan workers still running, and the log since the last clear. */
  datatype System = System(s: Session, phase: Phase, orphans: set<nat>, log: seq<Logged>)

  const START := System(NEW_SESSION, NoTurn, {}, [])

  datatype Event =
    | Begin(expected: Option<int>)
    | Write(worker: nat, named: bool, value: Option<Action>)
    | BudgetExceeded                       // the worker keeps running as an orphan
    | DeadlineReached                      // the worker itself returned the timeout answer
    | DropOrphan(turn: nat)
    | MakeStale
    | Answer(question: string, answer: string)
    | Stamp
    | End
    | ClearAll

  /** The next state; an event that is not possible now leaves the system as it is. */
  function Next(max: int, y: System, e: Event): System {
    match e
    case Begin(expected) =>
      var (t, r) := Acquire(y.s, expected);
      if r.Turn? then y.(s := t, phase := Working(r.turn)) else y
    case Write(worker, named, value) =>
      if y.phase == Working(worker) || worker in y.orphans
      then y.(s := SetPending(y.s, value, if named then Some(worker) else None))
      else y
    case BudgetExceeded =>
      if y.phase.Working? then y.(phase := TimedOut(y.phase.turn), orphans := y.orphans + {y.phase.turn}) else y
    case DeadlineReached =>
      if y.phase.Working? then y.(phase := TimedOut(y.phase.turn)) else y
    case DropOrphan(turn) => y.(orphans := y.orphans - {turn})
    case MakeStale =>
      if y.phase.TimedOut? then y.(s := Invalidate(y.s, y.phase.turn), phase := Invalidated(y.phase.turn)) else y
    case Answer(question, answer) =>
      if y.phase.Working? then
        y.(s := Append(y.s, max, question, answer, Some(y.phase.turn), false), phase := Appended(y.phase.turn, false),
           log := if Current(y.s, y.phase.turn) then y.log + [Logged(y.phase.turn, question, answer)] else y.log)
      else if y.phase.Invalidated? then
        y.(s := Append(y.s, max, question, answer, None, true), phase := Appended(y.phase.turn, true),
           log := y.log + [Logged(y.phase.turn, question, answer)])
      else y
    case Stamp =>
      if y.phase.Appended? || y.phase.Stamped? then y.(phase := Stamped(y.phase.turn, y.phase.late, y.s.epoch)) else y
    case End =>
      if y.phase.NoTurn? || y.phase.TimedOut? then y else y.(s := Release(y.s, y.phase.turn, false), phase := NoTurn)
    case ClearAll =>
      if y.s.busy then y else y.(s := Clear(y.s), log := [])
  }

  ghost predicate Connects(max: int, ys: seq<System>, events: seq<Event>) {
    |ys| == |events| + 1 && forall i :: 0 <= i < |events| ==> ys[i + 1] == Next(max, ys[i], events[i])
  }

  ghost predicate IsRun(max: int, ys: seq<System>, events: seq<Event>) {
    Connects(max, ys, events) && ys[0] == START
  }

  // ----- Invariant -----

  /** Ownership: the busy flag, the active turn and the epoch follow the owner's phase; an orphan's
      turn is over. */
  ghost predicate Owned(y: System) {
    && (y.phase.NoTurn? <==> !y.s.busy)
    && y.s.active == (if y.phase.NoTurn? then None else Some(y.phase.turn))
    && (y.phase.Working? || y.phase.TimedOut? ==> y.s.epoch == y.phase.turn)
    && (y.phase.Invalidated? ==> y.s.epoch == y.phase.turn + 1)
    && (y.phase.Appended? || y.phase.Stamped? ==> y.s.epoch == y.phase.turn + (if y.phase.late then 1 else 0))
    && (y.phase.Stamped? ==> y.phase.version == y.s.epoch)
    && (forall o :: o in y.orphans ==> o < y.s.epoch || y.phase == TimedOut(o))
  }

  /** Each turn logs at most one pair, in turn order. */
  ghost predicate Ordered(y: System) {
    && (forall i, j :: 0 <= i < j < |y.log| ==> y.log[i].turn < y.log[j].turn)
    && (forall i :: 0 <= i < |y.log| ==>
          y.log[i].turn <= y.s.epoch && (y.phase.Answering() ==> y.log[i].turn < y.phase.turn))
  }

  function Flat(log: seq<Logged>): seq<Message> {
    if log == [] then [] else Flat(log[..|log| - 1]) + Pair(log[|log| - 1].question, log[|log| - 1].answer)
  }

  function Last(h: seq<Message>, n: int): seq<Message> {
    if n <= 0 then [] else if |h| <= n then h else h[|h| - n..]
  }

  /** What `_append_history` keeps of the log: the last `2 * max` messages, except that a bound of
      zero keeps everything. */
  function Kept(max: int, log: seq<Logged>): seq<Message> {
    if max == 0 then Flat(log) else Last(Flat(log), 2 * max)
  }

  ghost predicate Inv(max: int, y: System) {
    Owned(y) && Ordered(y) && y.s.history == Kept(max, y.log)
  }

  lemma {:induction false} FlatShape(log: seq<Logged>)
    ensures |Flat(log)| == 2 * |log|
    ensures forall i :: 0 <= i < |Flat(log)| ==> Flat(log)[i].role == if i % 2 == 0 then User else Assistant
  {
    if log != [] { FlatShape(log[..|log| - 1]); }
  }

  lemma TrimIsLast(h: seq<Message>, p: seq<Message>, max: int)
    requires max != 0 && |p| == 2
    ensures Trim(Last(h, 2 * max) + p, max) == Last(h + p, 2 * max)
  {
  }

  lemma KeptAppend(max: int, log: seq<Logged>, l: Logged)
    ensures Trim(Kept(max, log) + Pair(l.question, l.answer), max) == Kept(max, log + [l])
  {
    assert (log + [l])[..|log|] == log;
    if max != 0 { TrimIsLast(Flat(log), Pair(l.question, l.answer), max); }
  }

  lemma StepKeepsOwned(max: int, y: System, e: Event)
    requires Owned(y)
    ensures Owned(Next(max, y, e))
  {
  }

  lemma StepKeepsOrdered(max: int, y: System, e: Event)
    requires Owned(y) && Ordered(y)
    ensures Ordered(Next(max, y, e))
  {
    var z := Next(max, y, e);
    if z.log != y.log && z.log != [] {
      assert z.log == y.log + [Logged(y.phase.turn, e.question, e.answer)];
    }
  }

  lemma StepKeepsHistory(max: int, y: System, e: Event)
    requires Owned(y) && y.s.history == Kept(max, y.log)
    ensures Next(max, y, e).s.history == Kept(max, Next(max, y, e).log)
  {
    if e.Answer? && (y.phase.Working? || y.phase.Invalidated?) {
      KeptAppend(max, y.log, Logged(y.phase.turn, e.question, e.answer));
    }
  }

  lemma StepKeepsInv(max: int, y: System, e: Event)
    requires Inv(max, y)
    ensures Inv(max, Next(max, y, e))
  {
    StepKeepsOwned(max, y, e);
    StepKeepsOrdered(max, y, e);
    StepKeepsHistory(max, y, e);
  }

  lemma {:induction false} AlwaysInv(max: int, ys: seq<System>, events: seq<Event>, n: nat)
    requires IsRun(max, ys, events) && n < |ys|
    ensures Inv(max, ys[n])
  {
    if n > 0 {
      AlwaysInv(max, ys, events, n - 1);
      assert ys[n - 1 + 1] == Next(max, ys[n - 1], events[n - 1]);
      StepKeepsInv(max, ys[n - 1], events[n - 1]);
    }
  }

  // ----- Version determines state -----

  lemma {:induction false} EpochGrows(max: int, ys: seq<System>, events: seq<Event>, i: nat, j: nat)
    requires Connects(max, ys, events) && i <= j < |ys|
    ensures ys[i].s.epoch <= ys[j].s.epoch
    decreases j - i
  {
    if i < j {
      EpochGrows(max, ys, events, i, j - 1);
      assert ys[j - 1 + 1] == Next(max, ys[j - 1], events[j - 1]);
    }
  }

  lemma StepAt(max: int, ys: seq<System>, events: seq<Event>, i: nat)
    requires Connects(max, ys, events) && i < |events|
    ensures ys[i + 1] == Next(max, ys[i], events[i])
  {
  }

  lemma EpochStep(max: int, z: System, e: Event)
    requires Owned(z)
    ensures Next(max, z, e).s.epoch >= z.s.epoch
  {
  }

  lemma IdleStep(max: int, y: System, z: System, e: Event)
    requires Inv(max, z) && !y.s.busy && z.s == y.s && z.log == y.log
    ensures var w := Next(max, z, e); w.s.epoch > y.s.epoch || (w.s == y.s && w.log == y.log)
  {
  }

  /** From an idle moment on, the session is unchanged or its version has moved past. */
  lemma {:induction false} IdleUntilNextVersion(max: int, ys: seq<System>, events: seq<Event>, i: nat, j: nat)
    requires IsRun(max, ys, events) && i <= j < |ys| && !ys[i].s.busy
    ensures ys[j].s.epoch > ys[i].s.epoch || (ys[j].s == ys[i].s && ys[j].log == ys[i].log)
    decreases j - i
  {
    if i < j {
      IdleUntilNextVersion(max, ys, events, i, j - 1);
      AlwaysInv(max, ys, events, j - 1);
      StepAt(max, ys, events, j - 1);
      if ys[j - 1].s == ys[i].s && ys[j - 1].log == ys[i].log {
        IdleStep(max, ys[i], ys[j - 1], events[j - 1]);
      } else {
        EpochStep(max, ys[j - 1], events[j - 1]);
      }
    }
  }

  /** A turn acquired with an expected version starts from exactly the history and pending action the
      session had at every idle moment of that version, in particular when it last became idle. */
  lemma VersionDeterminesState(max: int, ys: seq<System>, events: seq<Event>, i: nat, j: nat, version: nat)
    requires IsRun(max, ys, events) && i <= j < |events|
    requires !ys[i].s.busy && ys[i].s.epoch == version
    requires events[j] == Begin(Some(version)) && Acquire(ys[j].s, Some(version)).1.Turn?
    ensures ys[j].s == ys[i].s
    ensures ys[j + 1].s.history == ys[i].s.history && ys[j + 1].s.pending == ys[i].s.pending
    ensures ys[j + 1].phase == Working(version + 1)
  {
    IdleUntilNextVersion(max, ys, events, i, j);
    assert ys[j + 1] == Next(max, ys[j], events[j]);
  }

  // ----- The version stamped into an answer -----

  ghost predicate AtStamp(max: int, y: System) {
    Inv(max, y) && y.phase.Stamped?
  }

  /** Every way to go on from a stamped answer to an idle session of the stamped version finds the
      history and pending action the answer left. */
  ghost predicate StampHolds(max: int, y: System) {
    forall ys: seq<System>, events: seq<Event> ::
      Connects(max, ys, events) && ys[0] == y && !ys[|events|].s.busy && ys[|events|].s.epoch == y.s.epoch ==>
        ys[|events|].s.history == y.s.history && ys[|events|].s.pending == y.s.pending
  }

  /** Until the version moves on, the owner is still at its stamp or has left; the history stands. */
  ghost predicate AfterStamp(y: System, z: System)
    requires y.phase.Stamped?
  {
    z.s.epoch > y.s.epoch || SameVersion(y, z)
  }

  ghost predicate SameVersion(y: System, z: System)
    requires y.phase.Stamped?
  {
    && z.s.epoch == y.s.epoch && z.s.history == y.s.history
    && ((z.phase == y.phase && z.s == y.s.(pending := z.s.pending)) || !z.s.busy)
    && z.orphans <= y.orphans
    && (y.orphans == {} || y.phase.late ==> z.s.pending == y.s.pending)
  }

  /** A write, the only event that changes the pending action without moving the version on. */
  lemma WriteAfterStamp(max: int, y: System, z: System, e: Event)
    requires AtStamp(max, y) && Owned(z) && SameVersion(y, z) && e.Write?
    ensures SameVersion(y, Next(max, z, e))
  {
  }

  lemma OtherAfterStamp(max: int, y: System, z: System, e: Event)
    requires AtStamp(max, y) && Owned(z) && SameVersion(y, z) && !e.Write?
    ensures AfterStamp(y, Next(max, z, e))
  {
  }

  lemma {:induction false} StampUntilNextVersion(max: int, ys: seq<System>, events: seq<Event>, n: nat)
    requires Connects(max, ys, events) && n < |ys| && AtStamp(max, ys[0])
    ensures Inv(max, ys[n])
    ensures AfterStamp(ys[0], ys[n])
  {
    if n > 0 {
      StampUntilNextVersion(max, ys, events, n - 1);
      var z, e := ys[n - 1], events[n - 1];
      assert ys[n - 1 + 1] == Next(max, z, e);
      StepKeepsInv(max, z, e);
      EpochStep(max, z, e);
      if z.s.epoch == ys[0].s.epoch {
        if e.Write? { WriteAfterStamp(max, ys[0], z, e); } else { OtherAfterStamp(max, ys[0], z, e); }
      }
    }
  }

  /** A different pending action, to show that one can be written. */
  function Other(p: Option<Action>): Option<Action> {
    if p == None then Some(Action("", "", "")) else None
  }

  lemma OrphanSlipsIn(max: int, y: System, orphan: nat)
    requires AtStamp(max, y) && orphan in y.orphans && !y.phase.late
    ensures !StampHolds(max, y)
  {
    var write, end := Write(orphan, false, Other(y.s.pending)), End;
    var z := Next(max, y, write);
    var w := Next(max, z, end);
    var ys, events := [y, z, w], [write, end];
    assert ys[0 + 1] == Next(max, ys[0], events[0]) && ys[1 + 1] == Next(max, ys[1], events[1]);
    assert Connects(max, ys, events);
    assert ys[|events|].s.pending != y.s.pending;
  }

  /** The stamped version identifies the state exactly when no orphan worker is left or the answer
      itself came from the wall-budget path: an orphan of an earlier turn may attach a pending action
      to the active turn between stamp and release. */
  lemma StampHoldsIff(max: int, y: System)
    requires AtStamp(max, y)
    ensures StampHolds(max, y) <==> y.orphans == {} || y.phase.late
  {
    if y.orphans == {} || y.phase.late {
      forall ys: seq<System>, events: seq<Event> |
        Connects(max, ys, events) && ys[0] == y && !ys[|events|].s.busy && ys[|events|].s.epoch == y.s.epoch
        ensures ys[|events|].s.history == y.s.history && ys[|events|].s.pending == y.s.pending
      {
        StampUntilNextVersion(max, ys, events, |events|);
      }
    } else {
      var orphan :| orphan in y.orphans;
      OrphanSlipsIn(max, y, orphan);
    }
  }

  lemma {:induction false} OrphansNeedTimeout(max: int, ys: seq<System>, events: seq<Event>, n: nat)
    requires IsRun(max, ys, events) && n < |ys|
    requires forall i :: 0 <= i < n ==> events[i] != BudgetExceeded
    ensures ys[n].orphans == {}
  {
    if n > 0 {
      OrphansNeedTimeout(max, ys, events, n - 1);
      assert ys[n - 1 + 1] == Next(max, ys[n - 1], events[n - 1]);
    }
  }

  /** A client can rely on every stamp of a session none of whose calls ran out of its wall budget. */
  lemma StampHoldsWithoutTimeouts(max: int, ys: seq<System>, events: seq<Event>, n: nat)
    requires IsRun(max, ys, events) && n < |ys| && ys[n].phase.Stamped?
    requires forall i :: 0 <= i < n ==> events[i] != BudgetExceeded
    ensures StampHolds(max, ys[n])
  {
    AlwaysInv(max, ys, events, n);
    OrphansNeedTimeout(max, ys, events, n);
    StampHoldsIff(max, ys[n]);
  }

  lemma Extend(max: int, ys: seq<System>, events: seq<Event>, e: Event)
    requires IsRun(max, ys, events)
    ensures IsRun(max, ys + [Next(max, ys[|events|], e)], events + [e])
  {
    var zs, es := ys + [Next(max, ys[|events|], e)], events + [e];
    forall i | 0 <= i < |es| ensures zs[i + 1] == Next(max, zs[i], es[i]) {
      if i < |events| { assert ys[i + 1] == Next(max, ys[i], events[i]); }
    }
  }

  /** A turn that times out, and after it an ordinary one up to its stamp. */
  const TIMEOUT_THEN_TURN := [Begin(None), BudgetExceeded, MakeStale, Answer("", ""), Stamp, End,
                              Begin(None), Answer("", ""), Stamp]

  function Reached(max: int, events: seq<Event>): System {
    if events == [] then START else Next(max, Reached(max, events[..|events| - 1]), events[|events| - 1])
  }

  lemma {:induction false} ReachedByRun(max: int, events: seq<Event>) returns (ys: seq<System>)
    ensures IsRun(max, ys, events) && ys[|events|] == Reached(max, events)
  {
    if events == [] {
      ys := [START];
    } else {
      var front, e := events[..|events| - 1], events[|events| - 1];
      ys := ReachedByRun(max, front);
      Extend(max, ys, front, e);
      assert events == front + [e];
      ys := ys + [Next(max, ys[|front|], e)];
    }
  }

  lemma TimedOutTurn(max: int)
    ensures var y := Reached(max, TIMEOUT_THEN_TURN[..3]);
            y.phase == Invalidated(1) && y.s.epoch == 2 && y.orphans == {1}
  {
    var t := TIMEOUT_THEN_TURN;
    assert t[..1][..0] == [] && t[..2][..1] == t[..1] && t[..3][..2] == t[..2];
    assert t[..1] != [] && Reached(max, t[..1]) == Next(max, Reached(max, []), t[0]);
    var y1 := Reached(max, t[..1]);
    assert y1.phase == Working(1) && y1.s.epoch == 1 && y1.orphans == {};
    var y2 := Reached(max, t[..2]);
    assert y2.phase == TimedOut(1) && y2.s == y1.s && y2.orphans == {1};
  }

  lemma AfterTimeout(max: int)
    ensures var y := Reached(max, TIMEOUT_THEN_TURN[..6]);
            !y.s.busy && y.phase.NoTurn? && y.s.epoch == 2 && y.orphans == {1}
  {
    var t := TIMEOUT_THEN_TURN;
    TimedOutTurn(max);
    assert t[..4][..3] == t[..3] && t[..5][..4] == t[..4] && t[..6][..5] == t[..5];
    var y4 := Reached(max, t[..4]);
    assert y4.phase == Appended(1, true) && y4.s.epoch == 2 && y4.orphans == {1};
    var y5 := Reached(max, t[..5]);
    assert y5.phase.Stamped? && y5.phase.turn == 1 && y5.s.epoch == 2 && y5.orphans == {1};
  }

  /** The failing side of `StampHoldsIff` is reachable: after one timeout, the stamp of the next,
      ordinary answer does not identify the state it left. */
  lemma StampFailsAfterTimeout(max: int) returns (ys: seq<System>)
    ensures IsRun(max, ys, TIMEOUT_THEN_TURN)
    ensures ys[9].phase.Stamped? && !ys[9].phase.late && !StampHolds(max, ys[9])
  {
    var t := TIMEOUT_THEN_TURN;
    ys := ReachedByRun(max, t);
    AfterTimeout(max);
    assert t[..7][..6] == t[..6] && t[..8][..7] == t[..7] && t[..9] == t && t[..8] == t[..|t| - 1];
    var y7 := Reached(max, t[..7]);
    assert y7.phase == Working(3) && y7.orphans == {1};
    var y8 := Reached(max, t[..8]);
    assert y8.phase == Appended(3, false) && y8.orphans == {1};
    AlwaysInv(max, ys, t, 9);
    OrphanSlipsIn(max, ys[9], 1);
  }

  /** The history part of a stamp holds without any condition. */
  lemma StampedHistoryHolds(max: int, ys: seq<System>, events: seq<Event>)
    requires Connects(max, ys, events) && AtStamp(max, ys[0])
    requires ys[|events|].s.epoch == ys[0].s.epoch
    ensures ys[|events|].s.history == ys[0].s.history
  {
    StampUntilNextVersion(max, ys, events, |events|);
  }

  // ----- Exclusion -----

  ghost predicate Starts(max: int, ys: seq<System>, events: seq<Event>, i: nat, turn: nat) {
    Connects(max, ys, events) && i < |events| && events[i].Begin?
    && Acquire(ys[i].s, events[i].expected).1 == Turn(turn)
  }

  /** A turn keeps the session busy until it ends. */
  lemma {:induction false} BusyUntilEnd(max: int, ys: seq<System>, events: seq<Event>, i: nat, j: nat, turn: nat)
    requires IsRun(max, ys, events) && Starts(max, ys, events, i, turn) && i < j < |ys|
    requires forall n :: i < n < j ==> events[n] != End
    ensures ys[j].s.busy && !ys[j].phase.NoTurn? && ys[j].phase.turn == turn
    decreases j - i
  {
    AlwaysInv(max, ys, events, j - 1);
    assert ys[j - 1 + 1] == Next(max, ys[j - 1], events[j - 1]);
    if i < j - 1 {
      BusyUntilEnd(max, ys, events, i, j - 1, turn);
    }
  }

  /** At most one turn is in progress, and turn numbers strictly increase: a second turn starts only
      after the first has ended, with a larger number. */
  lemma TurnsExclude(max: int, ys: seq<System>, events: seq<Event>, i: nat, j: nat, first: nat, second: nat)
    requires IsRun(max, ys, events) && i < j
    requires Starts(max, ys, events, i, first) && Starts(max, ys, events, j, second)
    ensures first < second
    ensures exists n :: i < n < j && events[n] == End
  {
    assert ys[i + 1] == Next(max, ys[i], events[i]);
    EpochGrows(max, ys, events, i + 1, j);
    if forall n :: i < n < j ==> events[n] != End {
      BusyUntilEnd(max, ys, events, i, j, first);
      assert false;
    }
  }

  /** Each turn appends at most one question/answer pair. */
  lemma OnePairPerTurn(max: int, ys: seq<System>, events: seq<Event>, n: nat, i: nat, j: nat)
    requires IsRun(max, ys, events) && n < |ys| && i < |ys[n].log| && j < |ys[n].log|
    requires ys[n].log[i].turn == ys[n].log[j].turn
    ensures i == j
  {
    AlwaysInv(max, ys, events, n);
  }

  /** And the answer of every turn that gives one is logged under that turn, the timeout answer of an
      invalidated turn included. */
  lemma AnswerIsLogged(max: int, ys: seq<System>, events: seq<Event>, n: nat)
    requires IsRun(max, ys, events) && n < |events| && events[n].Answer?
    requires ys[n].phase.Working? || ys[n].phase.Invalidated?
    ensures ys[n + 1].log == ys[n].log + [Logged(ys[n].phase.turn, events[n].question, events[n].answer)]
  {
    AlwaysInv(max, ys, events, n);
    StepAt(max, ys, events, n);
  }

  // ----- History window -----

  /** The stored history is the last `2 * max_history` messages of the log exactly when the bound is
      not zero (or nothing was logged): a slice from `-0` keeps everything. */
  lemma HistoryWindowIff(max: int, ys: seq<System>, events: seq<Event>, n: nat)
    requires IsRun(max, ys, events) && n < |ys|
    ensures ys[n].s.history == Last(Flat(ys[n].log), 2 * max) <==> max != 0 || ys[n].log == []
  {
    AlwaysInv(max, ys, events, n);
    FlatShape(ys[n].log);
  }

  ghost predicate WholePairs(h: seq<Message>) {
    |h| % 2 == 0 && forall i :: 0 <= i < |h| ==> h[i].role == if i % 2 == 0 then User else Assistant
  }

  lemma LastWholePairs(h: seq<Message>, pairs: nat)
    requires WholePairs(h)
    ensures WholePairs(Last(h, 2 * pairs))
  {
    var l := Last(h, 2 * pairs);
    if pairs > 0 && |h| > 2 * pairs {
      forall i | 0 <= i < |l| ensures l[i].role == if i % 2 == 0 then User else Assistant {
        assert l[i] == h[i + (|h| - 2 * pairs)];
      }
    }
  }

  /** It always holds whole pairs in alternating roles, and no more than twice a positive bound. */
  lemma HistoryShape(max: int, ys: seq<System>, events: seq<Event>, n: nat)
    requires IsRun(max, ys, events) && n < |ys|
    ensures WholePairs(ys[n].s.history) && (max >= 1 ==> |ys[n].s.history| <= 2 * max)
  {
    AlwaysInv(max, ys, events, n);
    FlatShape(ys[n].log);
    assert WholePairs(Flat(ys[n].log));
    if max > 0 { LastWholePairs(Flat(ys[n].log), max); }
  }

  /** The log, flattened, is question and answer of each entry in turn. */
  lemma {:induction false} LogAsMessages(log: seq<Logged>, i: nat)
    requires i < |log|
    ensures |Flat(log)| == 2 * |log|
    ensures Flat(log)[2 * i] == Message(User, log[i].question)
    ensures Flat(log)[2 * i + 1] == Message(Assistant, log[i].answer)
  {
    FlatShape(log);
    FlatShape(log[..|log| - 1]);
    if i < |log| - 1 { LogAsMessages(log[..|log| - 1], i); }
  }

  /** What is stored, counted from the end: the i-th latest pair is the i-th latest logged question from
      the user followed by its answer from the assistant, for as many pairs as a positive bound allows. */
  lemma HistoryFromTheEnd(max: int, ys: seq<System>, events: seq<Event>, n: nat, i: nat)
    requires IsRun(max, ys, events) && n < |ys| && max >= 1
    requires i < |ys[n].log| && i < max
    ensures var h, log := ys[n].s.history, ys[n].log;
            && |h| == (if |log| <= max then 2 * |log| else 2 * max)
            && h[|h| - 2 - 2 * i] == Message(User, log[|log| - 1 - i].question)
            && h[|h| - 1 - 2 * i] == Message(Assistant, log[|log| - 1 - i].answer)
  {
    AlwaysInv(max, ys, events, n);
    LogAsMessages(ys[n].log, |ys[n].log| - 1 - i);
  }

  // ----- Orphans -----

  /** A write that names its own finished turn is always discarded; only the turn-less form can
      attach to somebody else's turn. */
  lemma OrphanNeedsTurnlessWrite(max: int, ys: seq<System>, events: seq<Event>, n: nat, orphan: nat, named: bool,
                                 value: Option<Action>)
    requires IsRun(max, ys, events) && n < |ys| && orphan in ys[n].orphans && ys[n].phase != TimedOut(orphan)
    ensures var z := Next(max, ys[n], Write(orphan, named, value));
            z.s.pending != ys[n].s.pending ==> !named && !ys[n].phase.NoTurn? && ys[n].phase.turn > orphan
  {
    AlwaysInv(max, ys, events, n);
  }

  /** After a timeout the pending action is empty when the session becomes idle, whatever the orphan
      wrote before it was made stale. */
  lemma {:induction false} TimeoutDropsPending(max: int, ys: seq<System>, events: seq<Event>, n: nat)
    requires IsRun(max, ys, events) && n < |ys|
    requires ys[n].phase.Invalidated? || ((ys[n].phase.Appended? || ys[n].phase.Stamped?) && ys[n].phase.late)
    ensures ys[n].s.pending == None
  {
    assert ys[n - 1 + 1] == Next(max, ys[n - 1], events[n - 1]);
    AlwaysInv(max, ys, events, n - 1);
    if !ys[n - 1].phase.TimedOut? {
      TimeoutDropsPending(max, ys, events, n - 1);
    }
  }
}
