/** The multi-turn session monitor `ConversationSession` (agent/graph.py).

    Each method is one critical section under the session lock. Waiting on the condition variable is
    the outcome `Blocked`: the caller tries again later. */
module ConversationSession {
  import opened Options

  datatype Role = User | Assistant
  datatype Message = Message(role: Role, content: string)
  datatype Action = Action(summary: string, priority: string, actionSummary: string)

  datatype Session = Session(
    history: seq<Message>, pending: Option<Action>, busy: bool, epoch: nat, active: Option<nat>)

  const NEW_SESSION := Session([], None, false, 0, None)

  datatype Acquired = Blocked | Conflict(actual: nat) | Turn(turn: nat)

  /** Python's `h[-(2 * max):]`, taken only when the history is longer than `2 * max`. */
  function Trim(h: seq<Message>, max: int): seq<Message> {
    if |h| <= 2 * max then h
    else if max > 0 then h[|h| - 2 * max..]
    else if -2 * max >= |h| then []
    else h[-2 * max..]
  }

  /** What is kept of the full history: all of it within a positive bound, its end beyond; a bound of
      zero keeps everything, and a negative one cuts that much off the front. */
  predicate Windowed(full: seq<Message>, kept: seq<Message>, max: int) {
    if max == 0 then kept == full
    else if max > 0 then
      |kept| <= |full| && kept == full[|full| - |kept|..] && |kept| == (if |full| <= 2 * max then |full| else 2 * max)
    else if |full| <= -2 * max then kept == []
    else kept == full[-2 * max..]
  }

  lemma TrimWindows(full: seq<Message>, max: int)
    requires full != []
    ensures Windowed(full, Trim(full, max), max)
  {
    assert full[0..] == full;
  }

  function Pair(question: string, answer: string): seq<Message> {
    [Message(User, question), Message(Assistant, answer)]
  }

  predicate Current(s: Session, turn: nat) { turn == s.epoch }

  /** A pending-action write: with an explicit turn it must be current, without one it attaches to
      whichever turn is active. */
  predicate MayWrite(s: Session, turn: Option<nat>) {
    if turn.Some? then Current(s, turn.value)
    else s.active.Some? && Current(s, s.active.value)
  }

  function Acquire(s: Session, expected: Option<int>): (Session, Acquired) {
    if s.busy then (s, Blocked)
    else if expected.Some? && expected.value != s.epoch then (s, Conflict(s.epoch))
    else (s.(busy := true, epoch := s.epoch + 1, active := Some(s.epoch + 1)), Turn(s.epoch + 1))
  }

  function Release(s: Session, turn: nat, invalidate: bool): Session {
    s.(epoch := if invalidate && s.epoch == turn then s.epoch + 1 else s.epoch,
       active := if s.active == Some(turn) then None else s.active,
       busy := false)
  }

  function Append(s: Session, max: int, question: string, answer: string, turn: Option<nat>, force: bool): Session {
    if !force && turn.Some? && !Current(s, turn.value) then s
    else s.(history := Trim(s.history + Pair(question, answer), max))
  }

  function SetPending(s: Session, value: Option<Action>, turn: Option<nat>): Session {
    if MayWrite(s, turn) then s.(pending := value) else s
  }

  /** The locked block on the wall-budget path: make the orphan stale and drop its pending action. */
  function Invalidate(s: Session, turn: nat): Session {
    s.(epoch := if s.epoch == turn then s.epoch + 1 else s.epoch, pending := None)
  }

  function Clear(s: Session): Session {
    if s.busy then s else Session([], None, false, s.epoch + 1, None)
  }

  class ConversationSession {
    const maxHistory: int
    var history: seq<Message>
    var pendingAction: Option<Action>
    var busy: bool
    var mutationEpoch: nat
    var activeTurn: Option<nat>

    function State(): Session
      reads this
    {
      Session(history, pendingAction, busy, mutationEpoch, activeTurn)
    }

    constructor (maxHistory: int := 10)
      ensures State() == NEW_SESSION && this.maxHistory == maxHistory
    {
      this.maxHistory := maxHistory;
      history, pendingAction, busy, mutationEpoch, activeTurn := [], None, false, 0, None;
    }

    method AcquireTurn(expected: Option<int>) returns (r: Acquired)
      modifies this
      ensures (State(), r) == Acquire(old(State()), expected)
      ensures history == old(history) && pendingAction == old(pendingAction)
      ensures r == if old(busy) then Blocked
                   else if expected.Some? && expected.value != old(mutationEpoch) then Conflict(old(mutationEpoch))
                   else Turn(old(mutationEpoch) + 1)
      ensures if r.Turn? then busy && mutationEpoch == r.turn && activeTurn == Some(r.turn)
              else busy == old(busy) && mutationEpoch == old(mutationEpoch) && activeTurn == old(activeTurn)
    {
      if busy {
        return Blocked;
      }
      if expected.Some? && expected.value != mutationEpoch {
        return Conflict(mutationEpoch);
      }
      busy := true;
      mutationEpoch := mutationEpoch + 1;
      activeTurn := Some(mutationEpoch);
      return Turn(mutationEpoch);
    }

    method ReleaseTurn(turn: nat, invalidate: bool := false)
      modifies this
      ensures State() == Release(old(State()), turn, invalidate)
      ensures history == old(history) && pendingAction == old(pendingAction) && !busy
      ensures mutationEpoch == old(mutationEpoch) + (if invalidate && old(mutationEpoch) == turn then 1 else 0)
      ensures activeTurn == if old(activeTurn) == Some(turn) then None else old(activeTurn)
    {
      if invalidate && mutationEpoch == turn {
        mutationEpoch := mutationEpoch + 1;
      }
      if activeTurn == Some(turn) {
        activeTurn := None;
      }
      busy := false;
    }

    method AppendHistory(question: string, answer: string, turn: Option<nat>, force: bool := false)
      modifies this
      ensures State() == Append(old(State()), maxHistory, question, answer, turn, force)
      ensures pendingAction == old(pendingAction) && busy == old(busy)
      ensures mutationEpoch == old(mutationEpoch) && activeTurn == old(activeTurn)
      ensures if !force && turn.Some? && turn.value != mutationEpoch then history == old(history)
              else Windowed(old(history) + [Message(User, question), Message(Assistant, answer)], history, maxHistory)
    {
      if !force && turn.Some? && turn.value != mutationEpoch {
        return;
      }
      history := history + [Message(User, question)];
      history := history + [Message(Assistant, answer)];
      assert history == old(history) + Pair(question, answer);
      TrimWindows(history, maxHistory);
      if |history| > maxHistory * 2 {
        history := Trim(history, maxHistory);
      }
    }

    method SetPendingAction(value: Option<Action>, turn: Option<nat>) returns (ok: bool)
      modifies this
      ensures State() == SetPending(old(State()), value, turn)
      ensures ok <==> if turn.Some? then turn.value == mutationEpoch else activeTurn == Some(mutationEpoch)
      ensures pendingAction == if ok then value else old(pendingAction)
      ensures history == old(history) && busy == old(busy)
      ensures mutationEpoch == old(mutationEpoch) && activeTurn == old(activeTurn)
    {
      if turn == None {
        if activeTurn == None || activeTurn.value != mutationEpoch {
          return false;
        }
      } else if turn.value != mutationEpoch {
        return false;
      }
      pendingAction := value;
      return true;
    }

    method TakePendingAction(turn: Option<nat>) returns (taken: Option<Action>)
      modifies this
      ensures State() == SetPending(old(State()), None, turn)
      ensures var may := if turn.Some? then turn.value == mutationEpoch else activeTurn == Some(mutationEpoch);
              && taken == (if may then old(pendingAction) else None)
              && pendingAction == (if may then None else old(pendingAction))
      ensures history == old(history) && busy == old(busy)
      ensures mutationEpoch == old(mutationEpoch) && activeTurn == old(activeTurn)
    {
      if turn.Some? && turn.value != mutationEpoch {
        return None;
      }
      if turn == None && (activeTurn == None || activeTurn.value != mutationEpoch) {
        return None;
      }
      taken := pendingAction;
      pendingAction := None;
    }

    method InvalidateTimedOut(turn: nat)
      modifies this
      ensures State() == Invalidate(old(State()), turn)
      ensures mutationEpoch == old(mutationEpoch) + (if old(mutationEpoch) == turn then 1 else 0)
      ensures pendingAction == None
      ensures history == old(history) && busy == old(busy) && activeTurn == old(activeTurn)
    {
      if mutationEpoch == turn {
        mutationEpoch := mutationEpoch + 1;
      }
      pendingAction := None;
    }

    /** Returns false while a turn is in progress: the caller waits and tries again. */
    method ClearSession() returns (done: bool)
      modifies this
      ensures State() == Clear(old(State())) && done == !old(busy)
      ensures if done then history == [] && pendingAction == None && !busy && activeTurn == None
                           && mutationEpoch == old(mutationEpoch) + 1
              else State() == old(State())
    {
      if busy {
        return false;
      }
      mutationEpoch := mutationEpoch + 1;
      activeTurn := None;
      history := [];
      pendingAction := None;
      return true;
    }
  }
}
