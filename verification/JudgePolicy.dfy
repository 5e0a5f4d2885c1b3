/** Independence of the quality judge from the answer generator (agent/judge_policy.py). */
module JudgePolicy {
  import opened Options

  /** A language model: normalised provider and model names (empty when unlabelled), the object itself,
      and the value that `==` compares. */
  datatype Llm = Llm(provider: string, model: string, instance: nat, value: nat)

  datatype JudgeStatus = Ok | Unavailable | Error | ParseFailure

  datatype Resolution = Resolution(judge: Option<Llm>, independent: bool)

  predicate Labelled(l: Llm) { l.provider != "" || l.model != "" }

  predicate SameIdentity(a: Llm, b: Llm) {
    || a.instance == b.instance
    || (Labelled(a) && Labelled(b) && a.provider == b.provider && a.model == b.model)
  }

  /** Python's `in`: the same object, or equal by `==`. */
  predicate Equal(a: Llm, b: Llm) { a.instance == b.instance || a.value == b.value }

  /** The candidates in order of preference, equal ones listed once. */
  function Ordered(fast: Option<Llm>, strong: Option<Llm>): seq<Llm> {
    match (fast, strong)
    case (None, None) => []
    case (Some(f), None) => [f]
    case (None, Some(s)) => [s]
    case (Some(f), Some(s)) => if Equal(f, s) then [f] else [f, s]
  }

  function IndependentOf(candidates: seq<Llm>, generator: Llm): seq<Llm> {
    if candidates == [] then []
    else
      (if SameIdentity(candidates[0], generator) then [] else [candidates[0]])
      + IndependentOf(candidates[1..], generator)
  }

  function Resolve(fast: Option<Llm>, strong: Option<Llm>, generator: Llm, requireIndependence: bool): Resolution {
    var ordered := Ordered(fast, strong);
    if ordered == [] then Resolution(None, false)
    else if requireIndependence then
      var independent := IndependentOf(ordered, generator);
      if independent == [] then Resolution(None, false) else Resolution(Some(independent[0]), true)
    else
      Resolution(Some(ordered[0]), !SameIdentity(ordered[0], generator))
  }

  /** Under the policy a judge is found exactly when some candidate differs from the generator (a strong
      one equal to the fast one is no candidate), and then it differs; without the policy the flag
      still tells the truth. The fast candidate is preferred whenever it is admissible. */
  lemma JudgeIsIndependent(fast: Option<Llm>, strong: Option<Llm>, generator: Llm, require: bool)
    ensures var r := Resolve(fast, strong, generator, require);
            && (r.judge.Some? ==> (r.independent <==> !SameIdentity(r.judge.value, generator)))
            && (r.judge == None ==> !r.independent)
            && (r.judge.Some? ==> r.judge == fast || r.judge == strong)
            && (require ==>
                  (r.judge.Some? <==> (fast.Some? && !SameIdentity(fast.value, generator))
                                      || (strong.Some? && !SameIdentity(strong.value, generator)
                                          && (fast.Some? ==> !Equal(fast.value, strong.value)))))
            && (require && r.judge.Some? ==> r.independent)
            && (fast.Some? && (!require || !SameIdentity(fast.value, generator)) ==> r.judge == fast)
  {
    var ordered := Ordered(fast, strong);
    IndependentFacts(ordered, generator);
    assert fast.Some? ==> fast.value == ordered[0];
    assert strong.Some? && (fast.Some? ==> !Equal(fast.value, strong.value)) ==> ordered[|ordered| - 1] == strong.value;
  }

  /** The kept candidates are those that differ from the generator, the earliest first. */
  lemma {:induction false} IndependentFacts(candidates: seq<Llm>, generator: Llm)
    ensures var kept := IndependentOf(candidates, generator);
            && (kept == [] <==> forall k :: 0 <= k < |candidates| ==> SameIdentity(candidates[k], generator))
            && (kept != [] ==> kept[0] in candidates && !SameIdentity(kept[0], generator))
            && (candidates != [] && !SameIdentity(candidates[0], generator) ==> kept != [] && kept[0] == candidates[0])
  {
    if candidates != [] {
      IndependentFacts(candidates[1..], generator);
      assert forall k :: 0 < k < |candidates| ==> candidates[k] == candidates[1..][k - 1];
    }
  }
}
