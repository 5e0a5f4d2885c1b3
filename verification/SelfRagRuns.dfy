/** Theorems about whole runs of the Self-RAG graph (agent/graph.py), for every behaviour of the LLMs,
    the retriever and the judge and every pattern of failures. */
module SelfRagRuns {
  import opened Options
  import opened Grounding
  import DocGrade
  import JudgePolicy
  import opened SelfRag

  // ----- What an automatic answer must have earned -----

  /** Supported, bound, and every index of the binding is a marker of the answer naming a document that
      grounds the claim. */
  ghost predicate ClaimGrounded(m: Matcher, draft: string, c: Claim, docs: seq<Doc>) {
    && c.supported && c.bound && c.indices != []
    && forall i :: i in c.indices ==> GroundedBy(m, draft, c.text, c.evidence, docs, i)
  }

  ghost predicate ChecksOut(c: Config, k: Check, draft: string, docs: seq<Doc>) {
    && k.claims != [] && |k.claims| == k.extracted && k.extracted <= MAX_CLAIMS && k.factuality == 100
    && docs != [] && draft != "" && c.texts.words(draft) >= 3
    && forall i :: 0 <= i < |k.claims| ==> ClaimGrounded(c.texts.matcher, draft, k.claims[i], docs)
  }

  /** Every graded document comes from the retrieval of the same iteration. */
  ghost predicate Retrieved(s: State) { forall d :: d in s.graded ==> d in s.context }

  ghost predicate Earned(c: Config, s: State, draft: string) {
    && !s.error && s.complexity != Simple
    && s.scores.judge == Some(JudgePolicy.Ok) && (c.requireIndependence ==> s.scores.independent)
    && s.scores.quality.Some? && s.scores.quality.value >= c.minQuality
    && s.scores.relevance.Some? && s.scores.relevance.value >= c.minRelevance
    && s.check.grounding.Verified? && ChecksOut(c, s.check, draft, s.graded) && s.check.factuality >= c.minFactuality
    && |s.graded| >= 2 && Retrieved(s) && !s.scores.knowledgeGap && !c.texts.gap(draft)
  }

  /** The delivered answer is the draft with PII redacted, and neither the draft nor any document it
      was generated from carries an injection marker. */
  ghost predicate Cleared(c: Config, s: State, draft: string) {
    && s.answer == Some(if c.texts.pii(draft) then c.texts.redact(draft) else draft)
    && !c.texts.injected(draft)
    && forall k :: 0 <= k < |s.graded| ==> !c.texts.injected(s.graded[k].content)
  }

  ghost predicate Delivered(c: Config, s: State) {
    exists draft :: Earned(c, s, draft) && Cleared(c, s, draft)
  }

  // ----- The pipeline invariant -----

  /** What verification guarantees on entry to the evaluation: stale grounding never gets this far. */
  ghost predicate FactsOk(c: Config, s: State) {
    && (s.complexity == Simple ==> s.check.grounding.NotVerified? && s.check.skipped)
    && CheckOk(c, s.check, s.answer.GetOr(""), s.graded)
  }

  ghost predicate JudgedNow(c: Config, s: State) {
    && s.scores.judge.Some?
    && (s.scores.judge.value.Ok? ==>
          && s.scores.knowledgeGap == KnowledgeGap(c, ShownDocs(s), s.answer.GetOr(""), s.check.factuality)
          && (c.requireIndependence ==> s.scores.independent))
  }

  ghost predicate AutoOnlyWhenEarned(c: Config, p: Point) {
    p.s.route == Some(Auto) ==>
      match p.node
      case Safety => p.s.answer.Some? && Earned(c, p.s, p.s.answer.value)
      case Suggest => Delivered(c, p.s)
      case Log => Delivered(c, p.s)
      case End => Delivered(c, p.s)
      case Aborted => true
      case _ => false
  }

  ghost predicate Inv(c: Config, p: Point) {
    && (p.s.error && !p.node.End? ==> p.s.route == Some(Failed))
    && (p.s.route == Some(Failed) ==> p.s.error)
    && (p.s.complexity == Simple ==>
          && p.s.iteration == 0 && p.s.route != Some(Retry) && !p.node.Rewrite?
          && (p.s.error || (!p.node.Grade? && !p.node.Verify?)))
    && (p.node.Classify? ==> p.s.iteration == 0 && !p.s.error && p.s.route == None)
    && (p.node.Rewrite? ==> !p.s.error && p.s.iteration < c.maxIterations)
    && 0 <= p.s.iteration && (p.s.iteration > 0 ==> p.s.iteration <= c.maxIterations)
    && (!p.s.error && (p.node.Verify? || (p.node.Generate? && p.s.complexity != Simple)) ==> p.s.gradeRan)
    && Retrieved(p.s)
    && ((p.node.Classify? || p.node.Transform? || p.node.Retrieve?) && !p.s.error ==> p.s.graded == [])
    && (p.node.Evaluate? && !p.s.error ==> FactsOk(c, p.s))
    && (p.node.RouteOrRetry? && !p.s.error ==> FactsOk(c, p.s) && JudgedNow(c, p.s))
    && AutoOnlyWhenEarned(c, p)
  }

  lemma ScoredFacts(m: Matcher, answer: string, raw: seq<Claim>, docs: seq<Doc>, extracted: nat)
    requires |raw| <= extracted
    ensures var (claims, g) := Scored(m, answer, raw, docs, extracted);
            && |claims| == |raw|
            && (g.status.Verified? ==>
                  && claims != [] && g.factuality == 100
                  && (extracted > MAX_CLAIMS ==> |raw| == extracted)
                  && forall k :: 0 <= k < |claims| ==> ClaimGrounded(m, answer, claims[k], docs))
  {
    var (claims, g) := Scored(m, answer, raw, docs, extracted);
    StatusMeaning(claims, true);
    if g.status.Verified? {
      forall k | 0 <= k < |claims| ensures ClaimGrounded(m, answer, claims[k], docs) {
        assert Effective(claims[k], true);
        forall i | i in claims[k].indices ensures GroundedBy(m, answer, claims[k].text, claims[k].evidence, docs, i) {
          BindingIsSound(m, answer, raw, docs, k, i);
        }
        BindingIsSound(m, answer, raw, docs, k, 0);
      }
    }
  }

  /** What a check says about the answer and documents it was made from. */
  ghost predicate CheckOk(c: Config, k: Check, answer: string, docs: seq<Doc>) {
    k.grounding.Verified? ==>
      (k.claims == [] && k.factuality == 0) || ChecksOut(c, k, answer, docs)
  }

  lemma LinesGiveFacts(c: Config, answer: string, docs: seq<Doc>, lines: seq<string>, verdict: nat -> ClaimVerdict)
    requires docs != [] && answer != "" && c.texts.words(answer) >= 3
    ensures CheckOk(c, CheckLines(c.texts.matcher, answer, docs, lines, verdict), answer, docs)
  {
    if lines != [] && !AnyCallFails(verdict, |Kept(lines)|) {
      ScoredFacts(c.texts.matcher, answer, RawClaims(Kept(lines), verdict), docs, |lines|);
    }
  }

  lemma VerifyGivesFacts(c: Config, answer: string, docs: seq<Doc>, o: Oracle)
    ensures CheckOk(c, CheckAnswer(c, answer, docs, o), answer, docs)
  {
    if docs != [] && answer != "" && c.texts.words(answer) >= 3 && o.extraction.Lines? {
      LinesGiveFacts(c, answer, docs, o.extraction.lines, o.extraction.verdict);
    }
  }

  lemma JudgeFollowsPolicy(c: Config, complexity: Complexity)
    ensures var r := Judge(c, complexity); r.judge.Some? && c.requireIndependence ==> r.independent
  {
    var generator := if complexity == Simple then c.fast else c.strong;
    JudgePolicy.JudgeIsIndependent(Some(c.fast), Some(c.strong), generator, c.requireIndependence);
  }

  /** The vacuous branch of the gate, verified without claims, is unreachable as auto: its factuality
      is 0, so the recomputed knowledge gap is set. */
  lemma AutoDecisionIsEarned(c: Config, s: State)
    requires FactsOk(c, s) && JudgedNow(c, s) && Retrieved(s) && !s.error && Decide(c, s) == Auto
    ensures s.answer.Some? && Earned(c, s.(route := Some(Auto)), s.answer.value)
  {
    assert s.scores.judge == Some(JudgePolicy.Ok);
    assert !KnowledgeGap(c, ShownDocs(s), s.answer.GetOr(""), s.check.factuality);
  }

  lemma SafetyKeepsEarned(c: Config, s: State)
    requires c.Sane() && s.answer.Some? && Earned(c, s, s.answer.value)
    ensures ApplySafety(c, s).route == Some(Auto) ==> Delivered(c, ApplySafety(c, s))
  {
    var draft, t := s.answer.value, ApplySafety(c, s);
    assert c.texts.words(draft) > 0;
    if t.route == Some(Auto) {
      assert !Unsafe(c, s) && ShownDocs(s) == s.graded;
      forall k | 0 <= k < |t.graded| ensures !c.texts.injected(t.graded[k].content) {
        assert ShownDocs(s)[k] == t.graded[k];
      }
      assert t == s.(answer := t.answer);
      assert Earned(c, t, draft);
      assert Cleared(c, t, draft);
    }
  }

  predicate Works(p: Point, o: Oracle) { !Stopped(p) && !p.s.error && o.fault.Fine? }

  lemma PassThroughKeepsInv(c: Config, p: Point, o: Oracle)
    requires Inv(c, p) && (Stopped(p) || o.fault.Escapes? || p.s.error)
    ensures Inv(c, Next(c, p, o))
  {
  }

  lemma RaiseKeepsInv(c: Config, p: Point, o: Oracle)
    requires Inv(c, p) && !Stopped(p) && !p.s.error && o.fault.Raises?
    ensures Inv(c, Next(c, p, o))
  {
  }

  lemma QueryKeepsInv(c: Config, p: Point, o: Oracle)
    requires Inv(c, p) && (p.node.Classify? || p.node.Transform? || p.node.Retrieve? || p.node.Rewrite?) && Works(p, o)
    ensures Inv(c, Next(c, p, o))
  {
  }

  lemma GradedAreRetrieved(context: seq<Doc>, keep: nat -> bool)
    ensures forall d :: d in Graded(context, keep) ==> d in context
  {
    forall d | d in Graded(context, keep) ensures d in context {
      DocGrade.ReplacementFacts(context, KeepOnly(context, keep), d);
    }
  }

  lemma GradeKeepsInv(c: Config, p: Point, o: Oracle)
    requires Inv(c, p) && p.node.Grade? && Works(p, o)
    ensures Inv(c, Next(c, p, o))
  {
    GradedAreRetrieved(p.s.context, o.keep);
  }

  lemma GenerateKeepsInv(c: Config, p: Point, o: Oracle)
    requires Inv(c, p) && p.node.Generate? && Works(p, o)
    ensures Inv(c, Next(c, p, o))
  {
  }

  lemma VerifyKeepsInv(c: Config, p: Point, o: Oracle)
    requires Inv(c, p) && p.node.Verify? && Works(p, o)
    ensures Inv(c, Next(c, p, o))
  {
    VerifyGivesFacts(c, p.s.answer.GetOr(""), GenerationDocs(p.s), o);
  }

  lemma EvaluateKeepsInv(c: Config, p: Point, o: Oracle)
    requires Inv(c, p) && p.node.Evaluate? && Works(p, o)
    ensures Inv(c, Next(c, p, o))
  {
    JudgeFollowsPolicy(c, p.s.complexity);
  }

  lemma RouteKeepsInv(c: Config, p: Point, o: Oracle)
    requires Inv(c, p) && p.node.RouteOrRetry? && Works(p, o)
    ensures Inv(c, Next(c, p, o))
  {
    if Decide(c, p.s) == Auto { AutoDecisionIsEarned(c, p.s); }
  }

  lemma SafetyKeepsInv(c: Config, p: Point, o: Oracle)
    requires c.Sane() && Inv(c, p) && p.node.Safety? && Works(p, o)
    ensures Inv(c, Next(c, p, o))
  {
    if p.s.route == Some(Auto) { SafetyKeepsEarned(c, p.s); }
  }

  lemma EndingKeepsInv(c: Config, p: Point, o: Oracle)
    requires Inv(c, p) && (p.node.Suggest? || p.node.Log? || p.node.HandleError?) && Works(p, o)
    ensures Inv(c, Next(c, p, o))
  {
  }

  lemma NextKeepsInv(c: Config, p: Point, o: Oracle)
    requires c.Sane() && Inv(c, p)
    ensures Inv(c, Next(c, p, o))
  {
    if Stopped(p) || o.fault.Escapes? || p.s.error { PassThroughKeepsInv(c, p, o); }
    else if o.fault.Raises? { RaiseKeepsInv(c, p, o); }
    else if p.node.Grade? { GradeKeepsInv(c, p, o); }
    else if p.node.Generate? { GenerateKeepsInv(c, p, o); }
    else if p.node.Verify? { VerifyKeepsInv(c, p, o); }
    else if p.node.Evaluate? { EvaluateKeepsInv(c, p, o); }
    else if p.node.RouteOrRetry? { RouteKeepsInv(c, p, o); }
    else if p.node.Safety? { SafetyKeepsInv(c, p, o); }
    else if p.node.Suggest? || p.node.Log? || p.node.HandleError? { EndingKeepsInv(c, p, o); }
    else { QueryKeepsInv(c, p, o); }
  }

  lemma {:induction false} AlwaysInv(c: Config, os: seq<Oracle>)
    requires c.Sane()
    ensures Inv(c, Run(c, START, os))
  {
    if os != [] {
      AlwaysInv(c, os[..|os| - 1]);
      NextKeepsInv(c, Run(c, START, os[..|os| - 1]), os[|os| - 1]);
    }
  }

  /** Auto is earned over whole runs. */
  lemma AutoIsEarned(c: Config, os: seq<Oracle>)
    requires c.Sane()
    ensures var p := Run(c, START, os); p.node.End? && p.s.route == Some(Auto) ==> Delivered(c, p.s)
  {
    AlwaysInv(c, os);
  }

  /** A question classified as simple never enters the retry loop and never ends as auto. */
  lemma SimpleNeverRetriesNorAutos(c: Config, os: seq<Oracle>)
    requires c.Sane()
    ensures var p := Run(c, START, os);
            p.s.complexity == Simple ==>
              p.s.iteration == 0 && !p.node.Rewrite? && p.s.route != Some(Retry)
              && (p.node.End? ==> p.s.route != Some(Auto))
  {
    AlwaysInv(c, os);
  }

  // ----- Termination -----

  function Positive(n: int): nat { if n < 0 then 0 else n }

  /** Nodes from this one to the end when an error is passed through. */
  function ErrorRank(n: Node): nat {
    match n
    case Classify => 4
    case Transform => 3
    case Retrieve => 2
    case Grade => 3
    case Generate => 2
    case Verify => 2
    case Evaluate => 3
    case RouteOrRetry => 2
    case Rewrite => 3
    case Safety => 2
    case Suggest => 2
    case Log => 1
    case HandleError => 1
    case End => 0
    case Aborted => 0
  }

  /** Nodes from this one to the end without a retry, in the longest case; a rewrite, which is one
      retry, counts what the retry leaves over. */
  function Rank(n: Node): nat {
    match n
    case Classify => 11
    case Transform => 10
    case Retrieve => 9
    case Grade => 8
    case Generate => 7
    case Verify => 6
    case Evaluate => 5
    case RouteOrRetry => 4
    case Rewrite => 3
    case Safety => 3
    case Suggest => 2
    case Log => 1
    case HandleError => 1
    case End => 0
    case Aborted => 0
  }

  predicate Terminal(n: Node) {
    n.Safety? || n.Suggest? || n.Log? || n.HandleError? || n.End? || n.Aborted?
  }

  function RetriesLeft(c: Config, s: State): nat { Positive(c.maxIterations - s.iteration) }

  /** Nodes still to execute, at most: the retries left, then the rank of the node. */
  function Budget(c: Config, p: Point): nat {
    if p.s.error then ErrorRank(p.node) else Rank(p.node) + (if Terminal(p.node) then 0 else 7 * RetriesLeft(c, p.s))
  }

  function Bound(c: Config): nat { 7 * Positive(c.maxIterations) + 11 }

  lemma ErrorBudget(c: Config, p: Point, o: Oracle)
    requires Inv(c, p) && !Stopped(p) && p.s.error
    ensures Budget(c, Next(c, p, o)) < Budget(c, p)
  {
  }

  lemma FaultBudget(c: Config, p: Point, o: Oracle)
    requires Inv(c, p) && !Stopped(p) && !p.s.error && !o.fault.Fine?
    ensures Budget(c, Next(c, p, o)) < Budget(c, p)
  {
    if o.fault.Raises? && !p.node.HandleError? && !p.node.Suggest? && !p.node.Log? {
      assert Next(c, p, o) == Point(Edge(p.node, Broken(p.s)), Broken(p.s));
      assert ErrorRank(Edge(p.node, Broken(p.s))) < Rank(p.node);
    }
  }

  lemma AnswerBudget(c: Config, p: Point, o: Oracle)
    requires Works(p, o) && (p.node.Grade? || p.node.Generate?)
    ensures Budget(c, Next(c, p, o)) < Budget(c, p)
  {
  }

  lemma CheckBudget(c: Config, p: Point, o: Oracle)
    requires Inv(c, p) && Works(p, o) && (p.node.Verify? || p.node.Evaluate?)
    ensures Budget(c, Next(c, p, o)) < Budget(c, p)
  {
  }

  lemma RouteBudget(c: Config, p: Point, o: Oracle)
    requires Inv(c, p) && Works(p, o) && (p.node.RouteOrRetry? || p.node.Rewrite?)
    ensures Budget(c, Next(c, p, o)) < Budget(c, p)
  {
  }

  lemma OtherBudget(c: Config, p: Point, o: Oracle)
    requires Works(p, o)
    requires p.node.Classify? || p.node.Transform? || p.node.Retrieve? || Terminal(p.node)
    ensures Budget(c, Next(c, p, o)) < Budget(c, p)
  {
  }

  lemma BudgetDecreases(c: Config, p: Point, o: Oracle)
    requires Inv(c, p) && !Stopped(p)
    ensures Budget(c, Next(c, p, o)) < Budget(c, p)
  {
    if p.s.error { ErrorBudget(c, p, o); }
    else if !o.fault.Fine? { FaultBudget(c, p, o); }
    else if p.node.Grade? || p.node.Generate? { AnswerBudget(c, p, o); }
    else if p.node.Verify? || p.node.Evaluate? { CheckBudget(c, p, o); }
    else if p.node.RouteOrRetry? || p.node.Rewrite? { RouteBudget(c, p, o); }
    else { OtherBudget(c, p, o); }
  }

  lemma {:induction false} BudgetCoversRun(c: Config, os: seq<Oracle>)
    requires c.Sane()
    ensures Stopped(Run(c, START, os)) || Budget(c, Run(c, START, os)) + |os| <= Bound(c)
  {
    if os != [] {
      var before := os[..|os| - 1];
      BudgetCoversRun(c, before);
      AlwaysInv(c, before);
      if !Stopped(Run(c, START, before)) {
        BudgetDecreases(c, Run(c, START, before), os[|os| - 1]);
      }
    }
  }

  lemma RunningHasBudget(c: Config, p: Point)
    requires !Stopped(p)
    ensures Budget(c, p) > 0
  {
  }

  /** Every run has ended after at most 7 * max_iterations + 11 nodes. */
  lemma StopsWithinBound(c: Config, os: seq<Oracle>)
    requires c.Sane() && |os| >= Bound(c)
    ensures Stopped(Run(c, START, os))
  {
    BudgetCoversRun(c, os);
    if !Stopped(Run(c, START, os)) { RunningHasBudget(c, Run(c, START, os)); }
  }

  /** Generations of a run: generate nodes that were not passed through with an error. */
  function Generations(c: Config, os: seq<Oracle>): nat {
    if os == [] then 0
    else
      var p := Run(c, START, os[..|os| - 1]);
      Generations(c, os[..|os| - 1]) + (if p.node.Generate? && !p.s.error then 1 else 0)
  }

  function GenerationsLeft(c: Config, p: Point): nat {
    if p.s.error then 0
    else
      match p.node
      case Classify => Positive(c.maxIterations - p.s.iteration) + 1
      case Transform => Positive(c.maxIterations - p.s.iteration) + 1
      case Retrieve => Positive(c.maxIterations - p.s.iteration) + 1
      case Grade => Positive(c.maxIterations - p.s.iteration) + 1
      case Generate => Positive(c.maxIterations - p.s.iteration) + 1
      case Verify => Positive(c.maxIterations - p.s.iteration)
      case Evaluate => Positive(c.maxIterations - p.s.iteration)
      case RouteOrRetry => Positive(c.maxIterations - p.s.iteration)
      case Rewrite => Positive(c.maxIterations - p.s.iteration)
      case _ => 0
  }

  lemma GenerationsLeftDecreases(c: Config, p: Point, o: Oracle)
    requires Inv(c, p)
    ensures GenerationsLeft(c, Next(c, p, o)) + (if p.node.Generate? && !p.s.error then 1 else 0)
            <= GenerationsLeft(c, p)
  {
  }

  /** At most max_iterations + 1 answers are generated. */
  lemma {:induction false} GenerationBound(c: Config, os: seq<Oracle>)
    requires c.Sane()
    ensures Generations(c, os) + GenerationsLeft(c, Run(c, START, os)) <= Positive(c.maxIterations) + 1
  {
    if os != [] {
      var before := os[..|os| - 1];
      GenerationBound(c, before);
      AlwaysInv(c, before);
      GenerationsLeftDecreases(c, Run(c, START, before), os[|os| - 1]);
    }
  }

  // ----- How runs end -----

  ghost predicate Routed(p: Point) {
    match p.node
    case Safety => !p.s.error && (p.s.route == Some(Human) || p.s.route == Some(Auto))
    case Suggest => !p.s.error && p.s.route == Some(Auto)
    case Log => if p.s.error then p.s.route == Some(Failed) else p.s.route == Some(Human) || p.s.route == Some(Auto)
    case HandleError => p.s.error
    case End =>
      if p.s.error then p.s.route == Some(Escalated) || p.s.route == Some(Failed)
      else p.s.route == Some(Human) || p.s.route == Some(Auto)
    case _ => true
  }

  lemma NextRouted(c: Config, p: Point, o: Oracle)
    requires Inv(c, p) && Routed(p)
    ensures Routed(Next(c, p, o))
  {
    if p.node.RouteOrRetry? && !p.s.error { assert Decide(c, p.s) != Failed; }
  }

  /** A finished run is automatic, human, escalated by `handle_error`, or failed; it carries an error
      in the last two cases and in no other. */
  lemma {:induction false} EndsRouted(c: Config, os: seq<Oracle>)
    requires c.Sane()
    ensures Routed(Run(c, START, os))
  {
    if os != [] {
      var before := os[..|os| - 1];
      EndsRouted(c, before);
      AlwaysInv(c, before);
      NextRouted(c, Run(c, START, before), os[|os| - 1]);
    }
  }

  ghost predicate SafetyRaised(c: Config, os: seq<Oracle>, n: nat)
    requires n < |os|
  {
    Run(c, START, os[..n]).node.Safety? && os[n].fault.Raises?
  }

  lemma OnlySafetyFails(c: Config, p: Point, o: Oracle)
    requires Inv(c, p) && Routed(p)
    requires var q := Next(c, p, o); (q.node.Log? || q.node.End?) && q.s.route == Some(Failed)
    ensures (p.node.Safety? && o.fault.Raises?) || ((p.node.Log? || p.node.End?) && p.s.route == Some(Failed))
  {
  }

  /** A run ends as failed, past `handle_error`, only by way of a response safety node that raised. */
  lemma {:induction false} FailedMeansSafetyRaised(c: Config, os: seq<Oracle>)
    requires c.Sane()
    requires var p := Run(c, START, os); (p.node.Log? || p.node.End?) && p.s.route == Some(Failed)
    ensures exists n :: 0 <= n < |os| && SafetyRaised(c, os, n)
  {
    if os != [] {
      var last := |os| - 1;
      var before := os[..last];
      EndsRouted(c, before);
      AlwaysInv(c, before);
      OnlySafetyFails(c, Run(c, START, before), os[last]);
      if SafetyRaised(c, os, last) {
      } else {
        FailedMeansSafetyRaised(c, before);
        var n :| 0 <= n < last && SafetyRaised(c, before, n);
        assert before[..n] == os[..n];
        assert SafetyRaised(c, os, n);
      }
    }
  }

  lemma {:induction false} FailedAfterRaise(c: Config, os: seq<Oracle>, n: nat)
    requires c.Sane() && n < |os| && SafetyRaised(c, os, n)
    ensures var p := Run(c, START, os); (p.node.Log? || p.node.End? || p.node.Aborted?) && p.s.route == Some(Failed)
  {
    var before := os[..|os| - 1];
    if n == |os| - 1 {
      EndsRouted(c, before);
    } else {
      assert before[..n] == os[..n];
      FailedAfterRaise(c, before, n);
    }
  }

  /** A run at or past the log node ends as failed exactly when its response safety node raised. */
  lemma FailedIffSafetyRaised(c: Config, os: seq<Oracle>)
    requires c.Sane() && (Run(c, START, os).node.Log? || Run(c, START, os).node.End?)
    ensures Run(c, START, os).s.route == Some(Failed) <==> exists n :: 0 <= n < |os| && SafetyRaised(c, os, n)
  {
    if Run(c, START, os).s.route == Some(Failed) {
      FailedMeansSafetyRaised(c, os);
    } else if n :| 0 <= n < |os| && SafetyRaised(c, os, n) {
      FailedAfterRaise(c, os, n);
    }
  }
}
