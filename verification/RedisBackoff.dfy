/** Connection state and retry backoff of the Redis client (cache/redis_cache.py). */
module RedisBackoff {
  import opened Options

  type Client = nat

  const INITIAL_DELAY: real := 1.0
  const MAX_DELAY: real := 30.0

  datatype State = State(client: Option<Client>, useFallback: bool, retryAt: real, delay: real)

  const FRESH := State(None, false, 0.0, INITIAL_DELAY)

  function Min(x: real, y: real): real { if x <= y then x else y }

  function Scheduled(s: State, now: real): State {
    State(None, true, now + s.delay, Min(s.delay * 2.0, MAX_DELAY))
  }

  /** True when a call to `_get_redis` reading clock value `now` goes out to the server. */
  predicate Attempts(s: State, now: real) {
    s.client == None && !(s.useFallback && (s.retryAt <= 0.0 || now < s.retryAt))
  }

  /** What happens to the connection: a lookup at `now`, whose ping fails (reported at `after`) or
      yields a client, or a failed command on some client. */
  datatype Event =
    | Lookup(now: real, after: real, ping: Option<Client>)
    | CommandFailed(client: Client, now: real)

  function Next(s: State, e: Event): State {
    match e
    case Lookup(now, after, ping) =>
      if !Attempts(s, now) then s
      else if ping == None then Scheduled(s, after)
      else State(ping, false, 0.0, INITIAL_DELAY)
    case CommandFailed(client, now) =>
      if s.client == Some(client) then Scheduled(s, now) else s
  }

  /** The module globals and the two functions that change them. */
  class RedisConnection {
    var client: Option<Client>
    var useFallback: bool
    var retryAt: real
    var delay: real

    function Now(): State
      reads this
    {
      State(client, useFallback, retryAt, delay)
    }

    constructor ()
      ensures Now() == FRESH
    {
      client, useFallback, retryAt, delay := None, false, 0.0, INITIAL_DELAY;
    }

    method ScheduleRetry(now: real)
      modifies this
      ensures Now() == Scheduled(old(Now()), now)
      ensures client == None && useFallback && retryAt == now + old(delay)
      ensures delay == if old(delay) * 2.0 <= 30.0 then old(delay) * 2.0 else 30.0
    {
      client := None;
      useFallback := true;
      retryAt := now + delay;
      delay := Min(delay * 2.0, MAX_DELAY);
    }

    method RecordOperationFailure(failed: Client, now: real)
      modifies this
      ensures Now() == Next(old(Now()), CommandFailed(failed, now))
      ensures if old(client) == Some(failed)
              then && client == None && useFallback && retryAt == now + old(delay)
                   && delay == (if old(delay) * 2.0 <= 30.0 then old(delay) * 2.0 else 30.0)
              else Now() == old(Now())
    {
      if client == Some(failed) {
        ScheduleRetry(now);
      }
    }

    method GetRedis(now: real, after: real, ping: Option<Client>) returns (r: Option<Client>)
      modifies this
      ensures Now() == Next(old(Now()), Lookup(now, after, ping))
      ensures r == client
      ensures if old(client).Some? || (old(useFallback) && (old(retryAt) <= 0.0 || now < old(retryAt)))
              then Now() == old(Now())
              else if ping.Some? then client == ping && !useFallback && retryAt == 0.0 && delay == 1.0
              else && client == None && useFallback && retryAt == after + old(delay)
                   && delay == (if old(delay) * 2.0 <= 30.0 then old(delay) * 2.0 else 30.0)
    {
      if client.Some? {
        return client;
      }
      if useFallback && (retryAt <= 0.0 || now < retryAt) {
        return None;
      }
      if ping == None {
        ScheduleRetry(after);
        return None;
      }
      client := ping;
      useFallback := false;
      retryAt := 0.0;
      delay := INITIAL_DELAY;
      return client;
    }
  }

  // ----- Outages -----

  /** During an outage no ping succeeds; a failure is reported no earlier than its lookup began. */
  ghost predicate Outage(events: seq<Event>) {
    forall i :: 0 <= i < |events| && events[i].Lookup? ==> events[i].ping == None && events[i].now <= events[i].after
  }

  /** Clock values of the lookups that tried to connect. */
  ghost function AttemptTimes(s: State, events: seq<Event>): seq<real>
    decreases |events|
  {
    if events == [] then []
    else
      (if events[0].Lookup? && Attempts(s, events[0].now) then [events[0].now] else [])
      + AttemptTimes(Next(s, events[0]), events[1..])
  }

  /** The wait forced after the k-th attempt of an outage: 1, 2, 4, 8, 16, 30, 30, ... */
  function Gap(k: nat): real {
    if k == 0 then INITIAL_DELAY else Min(Gap(k - 1) * 2.0, MAX_DELAY)
  }

  /** Least time between the first and the k-th later attempt. */
  function Elapsed(k: nat): real {
    if k == 0 then 0.0 else Elapsed(k - 1) + Gap(k - 1)
  }

  /** The state after `k >= 1` failed attempts, the last of which began at `last`. */
  ghost predicate Waiting(s: State, k: nat, last: real) {
    k >= 1 && s.client == None && s.useFallback && s.retryAt >= last + Gap(k - 1) && s.delay >= Gap(k)
  }

  /** Times that follow the schedule from its k-th entry on, the previous attempt being at `last`. */
  ghost predicate Follows(ts: seq<real>, k: nat, last: real) {
    k >= 1 && forall i: nat :: i < |ts| ==> ts[i] >= last + Elapsed(k + i) - Elapsed(k - 1)
  }

  lemma FollowsCons(t: real, ts: seq<real>, k: nat, last: real)
    requires k >= 1 && t >= last + Gap(k - 1) && Follows(ts, k + 1, t)
    ensures Follows([t] + ts, k, last)
  {
    var all := [t] + ts;
    forall i: nat | i < |all| ensures all[i] >= last + Elapsed(k + i) - Elapsed(k - 1) {
      if i > 0 {
        var j: nat := i - 1;
        assert ts[j] >= t + Elapsed(k + 1 + j) - Elapsed(k);
      }
    }
  }

  lemma {:induction false} Spacing(s: State, events: seq<Event>, k: nat, last: real)
    requires Outage(events) && Waiting(s, k, last)
    ensures Follows(AttemptTimes(s, events), k, last)
    decreases |events|
  {
    if events != [] {
      var e, rest := events[0], events[1..];
      if e.Lookup? && Attempts(s, e.now) {
        Spacing(Next(s, e), rest, k + 1, e.now);
        FollowsCons(e.now, AttemptTimes(Next(s, e), rest), k, last);
      } else {
        Spacing(s, rest, k, last);
        assert AttemptTimes(s, events) == AttemptTimes(s, rest);
      }
    }
  }

  /** From any state whose delay is at least the initial one, the attempts of an outage are spread
      out at least as far as the doubling schedule, whatever other threads do. */
  lemma {:induction false} AttemptsSpread(s: State, events: seq<Event>)
    requires Outage(events) && s.delay >= INITIAL_DELAY
    ensures var ts := AttemptTimes(s, events);
            forall i :: 0 <= i < |ts| ==> ts[i] >= ts[0] + Elapsed(i)
    decreases |events|
  {
    if events != [] {
      var e, rest := events[0], events[1..];
      if e.Lookup? && Attempts(s, e.now) {
        Spacing(Next(s, e), rest, 1, e.now);
        var ts, later := AttemptTimes(s, events), AttemptTimes(Next(s, e), rest);
        assert ts == [e.now] + later;
        forall i | 0 <= i < |ts| ensures ts[i] >= ts[0] + Elapsed(i) {
          if i > 0 {
            var j: nat := i - 1;
            assert ts[i] == later[j] >= e.now + Elapsed(1 + j) - Elapsed(0);
          }
        }
      } else {
        AttemptsSpread(Next(s, e), rest);
        assert AttemptTimes(s, events) == AttemptTimes(Next(s, e), rest);
      }
    }
  }

  lemma ElapsedTable()
    ensures Gap(5) == 30.0 && Elapsed(5) == 31.0
  {
    assert Gap(1) == 2.0 && Gap(2) == 4.0;
    assert Gap(3) == 8.0 && Gap(4) == 16.0;
    assert Elapsed(1) == 1.0 && Elapsed(2) == 3.0;
    assert Elapsed(3) == 7.0 && Elapsed(4) == 15.0;
  }

  lemma {:induction false} ElapsedClosedForm(k: nat)
    requires k >= 5
    ensures Gap(k) == 30.0 && Elapsed(k) == 31.0 + 30.0 * (k - 5) as real
  {
    if k == 5 {
      ElapsedTable();
    } else {
      ElapsedClosedForm(k - 1);
    }
  }

  /** An outage lasting `span` seconds sees at most 6 + span/30 connection attempts. */
  lemma OutageAttempts(s: State, events: seq<Event>, start: real, span: real)
    requires Outage(events) && s.delay >= INITIAL_DELAY && span >= 0.0
    requires forall i :: 0 <= i < |events| && events[i].Lookup? ==> start <= events[i].now <= start + span
    ensures |AttemptTimes(s, events)| as real <= 6.0 + span / 30.0
  {
    var ts := AttemptTimes(s, events);
    var n := |ts|;
    Shares(span, n);
    if n > 6 {
      AttemptsSpread(s, events);
      TimesInWindow(s, events, start, span);
      ElapsedClosedForm(n - 1);
      assert ts[0] in ts && ts[n - 1] in ts;
      assert span >= Elapsed(n - 1) == 31.0 + 30.0 * (n - 6) as real;
    }
  }

  lemma Shares(span: real, n: nat)
    requires span >= 0.0
    ensures span / 30.0 >= 0.0
    ensures span >= 30.0 * (n - 6) as real ==> n as real <= 6.0 + span / 30.0
  {
    assert (span / 30.0) * 30.0 == span;
  }

  lemma {:induction false} TimesInWindow(s: State, events: seq<Event>, start: real, span: real)
    requires forall i :: 0 <= i < |events| && events[i].Lookup? ==> start <= events[i].now <= start + span
    ensures forall t :: t in AttemptTimes(s, events) ==> start <= t <= start + span
    decreases |events|
  {
    if events != [] {
      TimesInWindow(Next(s, events[0]), events[1..], start, span);
    }
  }

  /** Polling exactly at each retry time, from the k-th attempt on. */
  ghost function Poll(k: nat, n: nat): seq<Event>
    decreases n
  {
    if n == 0 then [] else [Lookup(Elapsed(k), Elapsed(k), None)] + Poll(k + 1, n - 1)
  }

  lemma {:induction false} PollAttempts(s: State, k: nat, n: nat)
    requires if k == 0 then s == FRESH
             else s == State(None, true, Elapsed(k), Gap(k)) && Elapsed(k) > 0.0
    ensures Outage(Poll(k, n)) && |AttemptTimes(s, Poll(k, n))| == n
    ensures forall i :: 0 <= i < n ==> AttemptTimes(s, Poll(k, n))[i] == Elapsed(k + i)
    decreases n
  {
    if n > 0 {
      var e := Lookup(Elapsed(k), Elapsed(k), None);
      assert Poll(k, n)[0] == e && Poll(k, n)[1..] == Poll(k + 1, n - 1);
      PositiveGap(k);
      PollAttempts(Next(s, e), k + 1, n - 1);
      var ts, later := AttemptTimes(s, Poll(k, n)), AttemptTimes(Next(s, e), Poll(k + 1, n - 1));
      assert ts == [Elapsed(k)] + later;
      forall i | 0 <= i < n ensures ts[i] == Elapsed(k + i) {
        if i > 0 { assert ts[i] == later[i - 1] && (k + 1) + (i - 1) == k + i; }
      }
    }
  }

  lemma PositiveGap(k: nat)
    ensures Gap(k) > 0.0 && Elapsed(k) >= 0.0
  {
  }

  /** The doubling schedule is attained, so no smaller spread holds for every run. */
  lemma SpreadIsTight(n: nat)
    requires n > 0
    ensures var ts := AttemptTimes(FRESH, Poll(0, n));
            Outage(Poll(0, n)) && |ts| == n && ts[n - 1] == ts[0] + Elapsed(n - 1)
  {
    PollAttempts(FRESH, 0, n);
  }

  // ----- After a failed command -----

  /** A failed command on the held client drops it and opens a waiting period of the delay in force:
      within it no lookup goes out to the server, whatever other commands fail; the first lookup
      from its end on does. */
  lemma FailedCommandWaits(s: State, client: Client, at: real, events: seq<Event>)
    requires s.client == Some(client) && at + s.delay > 0.0
    requires forall i :: 0 <= i < |events| && events[i].Lookup? ==> events[i].now < at + s.delay
    ensures var t := After(Next(s, CommandFailed(client, at)), events);
            && t.client == None && t.useFallback && t.retryAt == at + s.delay
            && AttemptTimes(Next(s, CommandFailed(client, at)), events) == []
            && (forall now: real :: Attempts(t, now) <==> now >= at + s.delay)
  {
    QuietUntil(Next(s, CommandFailed(client, at)), at + s.delay, events);
  }

  lemma {:induction false} QuietUntil(s: State, until: real, events: seq<Event>)
    requires s.client == None && s.useFallback && s.retryAt == until && until > 0.0
    requires forall i :: 0 <= i < |events| && events[i].Lookup? ==> events[i].now < until
    ensures After(s, events) == s && AttemptTimes(s, events) == []
    decreases |events|
  {
    if events != [] {
      assert Next(s, events[0]) == s;
      QuietUntil(s, until, events[1..]);
    }
  }

  /** A failure reported by any other client changes nothing. */
  lemma OtherClientIgnored(s: State, client: Client, at: real)
    requires s.client != Some(client)
    ensures Next(s, CommandFailed(client, at)) == s
  {
  }

  /** A successful attempt ends the outage: the client is handed out by every lookup until a command on
      it fails, and a new outage starts over with the shortest delay. */
  lemma {:induction false} SuccessResets(s: State, now: real, after: real, client: Client, events: seq<Event>)
    requires Attempts(s, now)
    requires forall i :: 0 <= i < |events| && events[i].CommandFailed? ==> events[i].client != client
    ensures After(Next(s, Lookup(now, after, Some(client))), events) == State(Some(client), false, 0.0, 1.0)
    decreases |events|
  {
    if events != [] {
      var front := events[..|events| - 1];
      SuccessResets(s, now, after, client, front);
      AfterAppend(Next(s, Lookup(now, after, Some(client))), front, events[|events| - 1]);
      assert events == front + [events[|events| - 1]];
    }
  }

  lemma {:induction false} AfterAppend(s: State, events: seq<Event>, e: Event)
    ensures After(s, events + [e]) == Next(After(s, events), e)
    decreases |events|
  {
    if events != [] {
      AfterAppend(Next(s, events[0]), events[1..], e);
      assert (events + [e])[1..] == events[1..] + [e];
    } else {
      assert ([] + [e])[1..] == [];
    }
  }

  // ----- Invariants of every run -----

  function After(s: State, events: seq<Event>): State
    decreases |events|
  {
    if events == [] then s else After(Next(s, events[0]), events[1..])
  }

  /** In every reachable state the delay stays between its bounds and a held client means the
      fallback is off. */
  lemma {:induction false} ReachableState(s: State, events: seq<Event>)
    requires INITIAL_DELAY <= s.delay <= MAX_DELAY && (s.client.Some? ==> !s.useFallback)
    ensures var t := After(s, events);
            INITIAL_DELAY <= t.delay <= MAX_DELAY && (t.client.Some? ==> !t.useFallback)
    decreases |events|
  {
    if events != [] {
      ReachableState(Next(s, events[0]), events[1..]);
    }
  }
}
