/** The shared per-request LLM budget (llm/request_budget.py).

    A call checks the budget, runs at the provider, and is charged afterwards unless the provider
    fails (llm/providers/base.py); check and charge are separate atomic steps, so several calls may
    be between the two. */
module RequestBudget {
  /** A limit of zero or less is inactive. */
  datatype Limits = Limits(maxCalls: int, maxInput: int, maxOutput: int, maxTotal: int, enabled: bool)

  datatype Counters = Counters(calls: nat, input: nat, output: nat) {
    predicate Below(other: Counters) {
      calls <= other.calls && input <= other.input && output <= other.output
    }
  }

  datatype Reason = MaxCalls | MaxInputTokens | MaxTotalTokens | MaxOutputTokens
  datatype Verdict = Allowed | Refused(reason: Reason)

  function Clip(x: int): nat { if x < 0 then 0 else x }

  function Check(l: Limits, c: Counters, estimate: int): Verdict {
    var est := Clip(estimate);
    if !l.enabled then Allowed
    else if l.maxCalls > 0 && c.calls >= l.maxCalls then Refused(MaxCalls)
    else if l.maxInput > 0 && c.input + est > l.maxInput then Refused(MaxInputTokens)
    else if l.maxTotal > 0 && c.input + c.output + est > l.maxTotal then Refused(MaxTotalTokens)
    else if l.maxOutput > 0 && c.output >= l.maxOutput then Refused(MaxOutputTokens)
    else Allowed
  }

  function Charged(l: Limits, c: Counters, input: int, output: int): Counters {
    if l.enabled then Counters(c.calls + 1, c.input + Clip(input), c.output + Clip(output)) else c
  }

  /** The counters object itself, shared by the threads of one request. */
  class LLMRequestBudget {
    const limits: Limits
    var calls: nat
    var inputTokens: nat
    var outputTokens: nat

    function Now(): Counters
      reads this
    {
      Counters(calls, inputTokens, outputTokens)
    }

    constructor (limits: Limits)
      ensures this.limits == limits && Now() == Counters(0, 0, 0)
    {
      this.limits := limits;
      calls, inputTokens, outputTokens := 0, 0, 0;
    }

    method CheckCanStartCall(estimate: int) returns (v: Verdict)
      ensures v == Check(limits, Now(), estimate)
      ensures var est := if estimate < 0 then 0 else estimate;
              v == if !limits.enabled then Allowed
                   else if limits.maxCalls > 0 && calls + 1 > limits.maxCalls then Refused(MaxCalls)
                   else if limits.maxInput > 0 && inputTokens + est > limits.maxInput then Refused(MaxInputTokens)
                   else if limits.maxTotal > 0 && inputTokens + outputTokens + est > limits.maxTotal
                        then Refused(MaxTotalTokens)
                   else if limits.maxOutput > 0 && outputTokens + 1 > limits.maxOutput then Refused(MaxOutputTokens)
                   else Allowed
    {
      if !limits.enabled {
        return Allowed;
      }
      if limits.maxCalls > 0 && calls >= limits.maxCalls {
        return Refused(MaxCalls);
      }
      var est := Clip(estimate);
      if limits.maxInput > 0 && inputTokens + est > limits.maxInput {
        return Refused(MaxInputTokens);
      }
      var total := inputTokens + outputTokens;
      if limits.maxTotal > 0 && total + est > limits.maxTotal {
        return Refused(MaxTotalTokens);
      }
      if limits.maxOutput > 0 && outputTokens >= limits.maxOutput {
        return Refused(MaxOutputTokens);
      }
      return Allowed;
    }

    method Charge(input: int, output: int)
      modifies this
      ensures Now() == Charged(limits, old(Now()), input, output)
      ensures if !limits.enabled then Now() == old(Now())
              else && calls == old(calls) + 1
                   && inputTokens == old(inputTokens) + (if input < 0 then 0 else input)
                   && outputTokens == old(outputTokens) + (if output < 0 then 0 else output)
    {
      if !limits.enabled {
        return;
      }
      calls := calls + 1;
      inputTokens := inputTokens + Clip(input);
      outputTokens := outputTokens + Clip(output);
    }
  }

  // ----- Interleaved calls -----

  /** The counters and the estimates of the calls that were allowed but not yet charged. */
  datatype System = System(c: Counters, inFlight: seq<nat>)

  /** What the callers keep to: at most `width` calls in flight, estimates at most `est`,
      outputs at most `out`. */
  datatype Callers = Callers(width: nat, est: nat, out: nat)

  const START := System(Counters(0, 0, 0), [])

  function Without(s: seq<nat>, i: nat): seq<nat>
    requires i < |s|
  {
    s[..i] + s[i + 1..]
  }

  function Sum(s: seq<nat>): nat {
    if s == [] then 0 else s[0] + Sum(s[1..])
  }

  ghost predicate Begins(l: Limits, w: Callers, s: System, t: System, estimate: int) {
    && |s.inFlight| < w.width && Clip(estimate) <= w.est
    && t == if Check(l, s.c, estimate) == Allowed then s.(inFlight := s.inFlight + [Clip(estimate)]) else s
  }

  ghost predicate Finishes(l: Limits, w: Callers, s: System, t: System, i: nat, input: int, output: int) {
    && i < |s.inFlight| && Clip(input) <= s.inFlight[i] && Clip(output) <= w.out
    && t == System(Charged(l, s.c, input, output), Without(s.inFlight, i))
  }

  /** A provider call that raises was checked and is never charged. */
  ghost predicate Fails(s: System, t: System, i: nat) {
    i < |s.inFlight| && t == s.(inFlight := Without(s.inFlight, i))
  }

  /** Either end of a call takes just that call out of flight; only a finished one is counted. */
  lemma EndsOneCall(l: Limits, w: Callers, s: System, t: System, i: nat, input: int, output: int)
    requires Fails(s, t, i) || (l.enabled && Finishes(l, w, s, t, i, input, output))
    ensures i < |s.inFlight| && multiset(t.inFlight) + multiset{s.inFlight[i]} == multiset(s.inFlight)
    ensures t.c.calls == s.c.calls || t.c.calls == s.c.calls + 1
    ensures Fails(s, t, i) ==> t.c == s.c
  {
    assert s.inFlight == s.inFlight[..i] + [s.inFlight[i]] + s.inFlight[i + 1..];
  }

  ghost predicate Step(l: Limits, w: Callers, s: System, t: System) {
    || (exists estimate: int :: Begins(l, w, s, t, estimate))
    || (exists i: nat, input: int, output: int :: Finishes(l, w, s, t, i, input, output))
    || (exists i: nat :: Fails(s, t, i))
  }

  ghost predicate IsRun(l: Limits, w: Callers, run: seq<System>) {
    && run != [] && run[0] == START
    && forall i :: 0 <= i < |run| - 1 ==> Step(l, w, run[i], run[i + 1])
  }

  /** Counters plus everything the calls in flight may still add. */
  ghost predicate Inv(l: Limits, w: Callers, s: System) {
    && |s.inFlight| <= w.width
    && (forall k :: 0 <= k < |s.inFlight| ==> s.inFlight[k] <= w.est)
    && (l.maxCalls > 0 ==> s.c.calls + |s.inFlight| <= l.maxCalls - 1 + w.width)
    && (l.maxInput > 0 ==> s.c.input + Sum(s.inFlight) <= l.maxInput + (w.width - 1) * w.est)
    && (l.maxOutput > 0 ==> s.c.output + |s.inFlight| * w.out <= l.maxOutput - 1 + w.width * w.out)
    && (l.maxTotal > 0 ==>
          s.c.input + s.c.output + Sum(s.inFlight) + |s.inFlight| * w.out
          <= l.maxTotal + (w.width - 1) * w.est + w.width * w.out)
  }

  lemma {:induction false} SumAppend(s: seq<nat>, x: nat)
    ensures Sum(s + [x]) == Sum(s) + x
  {
    if s != [] {
      assert (s + [x])[1..] == s[1..] + [x];
      SumAppend(s[1..], x);
    }
  }

  lemma {:induction false} SumWithout(s: seq<nat>, i: nat)
    requires i < |s|
    ensures Sum(s) == Sum(Without(s, i)) + s[i]
  {
    if i == 0 {
      assert Without(s, 0) == s[1..];
    } else {
      SumWithout(s[1..], i - 1);
      assert Without(s, i)[1..] == Without(s[1..], i - 1);
    }
  }

  lemma {:induction false} SumBound(s: seq<nat>, e: nat)
    requires forall k :: 0 <= k < |s| ==> s[k] <= e
    ensures Sum(s) <= |s| * e
  {
    if s != [] {
      SumBound(s[1..], e);
      assert |s| * e == e + |s[1..]| * e;
    }
  }

  lemma Times(a: int, b: int, x: nat)
    requires a <= b
    ensures a * x <= b * x && (a + 1) * x == a * x + x
  {
  }

  lemma BeginKeeps(l: Limits, w: Callers, s: System, t: System, estimate: int)
    requires l.enabled && Inv(l, w, s) && Begins(l, w, s, t, estimate)
    ensures Inv(l, w, t)
  {
    var n, e := |s.inFlight|, Clip(estimate);
    SumAppend(s.inFlight, e);
    SumBound(s.inFlight, w.est);
    Times(n, w.width - 1, w.est);
    Times(n, w.width - 1, w.out);
    assert w.width * w.out == (w.width - 1) * w.out + w.out;
  }

  lemma FinishKeeps(l: Limits, w: Callers, s: System, t: System, i: nat, input: int, output: int)
    requires l.enabled && Inv(l, w, s) && Finishes(l, w, s, t, i, input, output)
    ensures Inv(l, w, t)
  {
    SumWithout(s.inFlight, i);
    Times(|t.inFlight|, |s.inFlight|, w.out);
  }

  lemma FailKeeps(l: Limits, w: Callers, s: System, t: System, i: nat)
    requires Inv(l, w, s) && Fails(s, t, i)
    ensures Inv(l, w, t)
  {
    SumWithout(s.inFlight, i);
    Times(|t.inFlight|, |s.inFlight|, w.out);
  }

  lemma {:induction false} RunKeeps(l: Limits, w: Callers, run: seq<System>)
    requires l.enabled && w.width >= 1 && IsRun(l, w, run)
    ensures Inv(l, w, run[|run| - 1])
  {
    if |run| == 1 {
      assert w.width * w.out >= 0 && (w.width - 1) * w.est >= 0;
    } else {
      var shorter := run[..|run| - 1];
      RunKeeps(l, w, shorter);
      var s, t := shorter[|shorter| - 1], run[|run| - 1];
      assert Step(l, w, run[|run| - 2], run[|run| - 2 + 1]);
      if estimate: int :| Begins(l, w, s, t, estimate) {
        BeginKeeps(l, w, s, t, estimate);
      } else if i: nat, input: int, output: int :| Finishes(l, w, s, t, i, input, output) {
        FinishKeeps(l, w, s, t, i, input, output);
      } else {
        var i: nat :| Fails(s, t, i);
        FailKeeps(l, w, s, t, i);
      }
    }
  }

  /** Every active limit is overshot by no more than the calls in flight can carry. */
  lemma OvershootBound(l: Limits, w: Callers, run: seq<System>)
    requires l.enabled && w.width >= 1 && IsRun(l, w, run)
    ensures var c := run[|run| - 1].c;
            && (l.maxCalls > 0 ==> c.calls <= l.maxCalls + w.width - 1)
            && (l.maxInput > 0 ==> c.input <= l.maxInput + (w.width - 1) * w.est)
            && (l.maxOutput > 0 ==> c.output <= l.maxOutput - 1 + w.width * w.out)
            && (l.maxTotal > 0 ==> c.input + c.output <= l.maxTotal + (w.width - 1) * w.est + w.width * w.out)
  {
    RunKeeps(l, w, run);
    assert |run[|run| - 1].inFlight| * w.out >= 0;
  }

  // ----- Refusal is permanent -----

  lemma StepGrows(l: Limits, w: Callers, s: System, t: System)
    requires Step(l, w, s, t)
    ensures s.c.Below(t.c)
  {
  }

  lemma {:induction false} RunGrows(l: Limits, w: Callers, run: seq<System>, i: nat, j: nat)
    requires IsRun(l, w, run) && i <= j < |run|
    ensures run[i].c.Below(run[j].c)
    decreases j - i
  {
    if i < j {
      RunGrows(l, w, run, i, j - 1);
      assert Step(l, w, run[j - 1], run[j - 1 + 1]);
      StepGrows(l, w, run[j - 1], run[j]);
    }
  }

  /** A call refused at one point of a run is refused at every later point, even when asked again
      with a larger estimate. */
  lemma RefusalIsPermanent(l: Limits, w: Callers, run: seq<System>, i: nat, j: nat, estimate: int, again: int)
    requires IsRun(l, w, run) && i <= j < |run| && estimate <= again
    requires Check(l, run[i].c, estimate) != Allowed
    ensures Check(l, run[j].c, again) != Allowed
  {
    RunGrows(l, w, run, i, j);
  }

  /** A disabled budget allows every call and never counts one. */
  lemma {:induction false} DisabledNeverRefuses(l: Limits, w: Callers, run: seq<System>, estimate: int)
    requires !l.enabled && IsRun(l, w, run)
    ensures run[|run| - 1].c == Counters(0, 0, 0)
    ensures Check(l, run[|run| - 1].c, estimate) == Allowed
  {
    if |run| > 1 {
      DisabledNeverRefuses(l, w, run[..|run| - 1], estimate);
      assert Step(l, w, run[|run| - 2], run[|run| - 2 + 1]);
    }
  }

  // ----- The bounds are attained -----

  ghost predicate Reachable(l: Limits, w: Callers, s: System) {
    exists run :: IsRun(l, w, run) && run[|run| - 1] == s
  }

  lemma ReachableStep(l: Limits, w: Callers, s: System, t: System)
    requires Reachable(l, w, s) && Step(l, w, s, t)
    ensures Reachable(l, w, t)
  {
    var run :| IsRun(l, w, run) && run[|run| - 1] == s;
    var longer := run + [t];
    forall i | 0 <= i < |longer| - 1 ensures Step(l, w, longer[i], longer[i + 1]) {
      if i < |run| - 1 { assert Step(l, w, run[i], run[i + 1]); }
    }
    assert IsRun(l, w, longer);
  }

  lemma StartIsReachable(l: Limits, w: Callers)
    ensures Reachable(l, w, START)
  {
    assert IsRun(l, w, [START]);
  }

  /** What every call of a burst estimates and is charged. */
  datatype Call = Call(estimate: nat, output: nat)

  predicate Fits(w: Callers, call: Call) { call.estimate <= w.est && call.output <= w.out }

  /** The counters after `n` more calls, each charged its whole estimate. */
  function Plus(c: Counters, n: nat, call: Call): Counters {
    Counters(c.calls + n, c.input + n * call.estimate, c.output + n * call.output)
  }

  function Waiting(n: nat, call: Call): seq<nat> { seq(n, _ => call.estimate) }

  /** Several calls check the budget before any of them is charged. */
  lemma {:induction false} BeginAll(l: Limits, w: Callers, c: Counters, call: Call, n: nat)
    requires Reachable(l, w, System(c, [])) && l.enabled && Fits(w, call) && n <= w.width
    requires Check(l, c, call.estimate) == Allowed
    ensures Reachable(l, w, System(c, Waiting(n, call)))
  {
    if n > 0 {
      BeginAll(l, w, c, call, n - 1);
      var s, t := System(c, Waiting(n - 1, call)), System(c, Waiting(n, call));
      assert Waiting(n, call) == Waiting(n - 1, call) + [call.estimate];
      assert Begins(l, w, s, t, call.estimate);
      ReachableStep(l, w, s, t);
    }
  }

  lemma OneMore(c: Counters, n: nat, call: Call, l: Limits)
    requires n > 0 && l.enabled
    ensures Plus(Charged(l, c, call.estimate, call.output), n - 1, call) == Plus(c, n, call)
  {
    assert n * call.estimate == (n - 1) * call.estimate + call.estimate;
    assert n * call.output == (n - 1) * call.output + call.output;
  }

  lemma {:induction false} FinishAll(l: Limits, w: Callers, c: Counters, call: Call, n: nat)
    requires Reachable(l, w, System(c, Waiting(n, call))) && l.enabled && Fits(w, call)
    ensures Reachable(l, w, System(Plus(c, n, call), []))
    decreases n
  {
    if n > 0 {
      var s := System(c, Waiting(n, call));
      var t := System(Charged(l, c, call.estimate, call.output), Waiting(n - 1, call));
      assert Waiting(n - 1, call) == Without(Waiting(n, call), 0);
      assert Finishes(l, w, s, t, 0, call.estimate, call.output);
      ReachableStep(l, w, s, t);
      OneMore(c, n, call, l);
      FinishAll(l, w, t.c, call, n - 1);
    }
  }

  /** `n` calls at once from an idle state that allows one. */
  lemma Burst(l: Limits, w: Callers, c: Counters, call: Call, n: nat)
    requires Reachable(l, w, System(c, [])) && l.enabled && Fits(w, call) && n <= w.width
    requires Check(l, c, call.estimate) == Allowed
    ensures Reachable(l, w, System(Plus(c, n, call), []))
  {
    BeginAll(l, w, c, call, n);
    FinishAll(l, w, c, call, n);
  }

  lemma {:induction false} ReachCalls(l: Limits, w: Callers, n: nat)
    requires l == Limits(l.maxCalls, 0, 0, 0, true) && w.width >= 1 && n <= l.maxCalls
    ensures Reachable(l, w, System(Counters(n, 0, 0), []))
  {
    if n == 0 {
      StartIsReachable(l, w);
    } else {
      ReachCalls(l, w, n - 1);
      Burst(l, w, Counters(n - 1, 0, 0), Call(0, 0), 1);
    }
  }

  /** Any input up to the limits is reachable by one call at a time. */
  lemma {:induction false} ReachInput(l: Limits, w: Callers, x: nat)
    requires l == Limits(0, l.maxInput, 0, l.maxTotal, true) && w.width >= 1 && w.est >= 1
    requires (l.maxInput > 0 ==> x <= l.maxInput) && (l.maxTotal > 0 ==> x <= l.maxTotal)
    ensures Reachable(l, w, System(Counters(x, x, 0), []))
  {
    if x == 0 {
      StartIsReachable(l, w);
    } else {
      ReachInput(l, w, x - 1);
      Burst(l, w, Counters(x - 1, x - 1, 0), Call(1, 0), 1);
    }
  }

  lemma {:induction false} ReachOutput(l: Limits, w: Callers, x: nat)
    requires l == Limits(0, 0, l.maxOutput, 0, true) && w.width >= 1 && w.out >= 1 && x <= l.maxOutput
    ensures Reachable(l, w, System(Counters(x, 0, x), []))
  {
    if x == 0 {
      StartIsReachable(l, w);
    } else {
      ReachOutput(l, w, x - 1);
      Burst(l, w, Counters(x - 1, 0, x - 1), Call(0, 1), 1);
    }
  }

  /** The bound on calls is exact: some run reaches it. */
  lemma CallBoundIsAttained(maxCalls: nat, w: Callers)
    requires maxCalls > 0 && w.width >= 1
    ensures exists s :: Reachable(Limits(maxCalls, 0, 0, 0, true), w, s) && s.c.calls == maxCalls + w.width - 1
  {
    var l := Limits(maxCalls, 0, 0, 0, true);
    ReachCalls(l, w, maxCalls - 1);
    Burst(l, w, Counters(maxCalls - 1, 0, 0), Call(0, 0), w.width);
  }

  /** So is the bound on input, as soon as one call of the largest estimate is allowed at all. */
  lemma InputBoundIsAttained(maxInput: nat, w: Callers)
    requires w.width >= 1 && 1 <= w.est <= maxInput
    ensures exists s :: && Reachable(Limits(0, maxInput, 0, 0, true), w, s)
                        && s.c.input == maxInput + (w.width - 1) * w.est
  {
    var l, x := Limits(0, maxInput, 0, 0, true), maxInput - w.est;
    ReachInput(l, w, x);
    Burst(l, w, Counters(x, x, 0), Call(w.est, 0), w.width);
    Times(w.width - 1, w.width, w.est);
  }

  lemma OutputBoundIsAttained(maxOutput: nat, w: Callers)
    requires w.width >= 1 && w.out >= 1 && maxOutput > 0
    ensures exists s :: && Reachable(Limits(0, 0, maxOutput, 0, true), w, s)
                        && s.c.output == maxOutput - 1 + w.width * w.out
  {
    var l, x := Limits(0, 0, maxOutput, 0, true), maxOutput - 1;
    ReachOutput(l, w, x);
    Burst(l, w, Counters(x, 0, x), Call(0, w.out), w.width);
  }

  lemma TotalBoundIsAttained(maxTotal: nat, w: Callers)
    requires w.width >= 1 && 1 <= w.est <= maxTotal
    ensures exists s :: && Reachable(Limits(0, 0, 0, maxTotal, true), w, s)
                        && s.c.input + s.c.output == maxTotal + (w.width - 1) * w.est + w.width * w.out
  {
    var l, x := Limits(0, 0, 0, maxTotal, true), maxTotal - w.est;
    ReachInput(l, w, x);
    Burst(l, w, Counters(x, x, 0), Call(w.est, w.out), w.width);
    Times(w.width - 1, w.width, w.est);
  }
}
