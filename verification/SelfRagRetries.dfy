/** Retries carry no stale evidence: `rewrite_query` leaves several fields of the record as they are
    (agent/graph.py:2579-2593), and none of them reaches a later decision. */
module SelfRagRetries {
  import opened Options
  import opened Grounding
  import opened SelfRag
  import opened SelfRagRuns

  // ----- Records that the rest of a run cannot tell apart -----

  ghost predicate SameDocs(s: State, t: State) {
    s.context == t.context && s.graded == t.graded && s.gradeRan && t.gradeRan
  }

  ghost predicate BothSkipped(s: State, t: State) {
    s.check.skipped && t.check.skipped && s.check.grounding.NotVerified? && t.check.grounding.NotVerified?
  }

  ghost predicate SameFacts(s: State, t: State) {
    SameDocs(s, t) && s.answer == t.answer && s.check == t.check
  }

  ghost predicate SameOutcome(s: State, t: State) {
    s.route == t.route && (s.route == Some(Auto) ==> SameFacts(s, t) && s.scores == t.scores)
  }

  /** What the node about to run needs from the two records, beyond the iteration it belongs to. */
  ghost predicate SameInput(n: Node, s: State, t: State) {
    match n
    case Grade => s.complexity != Simple && s.context == t.context
    case Generate => s.complexity != Simple ==> SameDocs(s, t)
    case Verify => s.complexity != Simple && SameDocs(s, t) && s.answer == t.answer
    case Evaluate => if s.complexity == Simple then BothSkipped(s, t) else SameFacts(s, t)
    case RouteOrRetry => if s.complexity == Simple then BothSkipped(s, t) else SameFacts(s, t) && s.scores == t.scores
    case Rewrite => s.route == t.route == Some(Retry)
    case Safety => SameOutcome(s, t) && (s.route == Some(Human) || s.route == Some(Auto))
    case Suggest => SameOutcome(s, t)
    case Log => SameOutcome(s, t)
    case End => SameOutcome(s, t)
    case HandleError => s.error
    case _ => true
  }

  /** `complexity`, `iteration` and `error` are all an iteration starts from. */
  ghost predicate AgreeAt(n: Node, s: State, t: State) {
    && s.complexity == t.complexity && s.iteration == t.iteration && s.error == t.error
    && (s.error && !n.End? ==> s.route == t.route == Some(Failed))
    && (!s.error ==> s.route != Some(Failed) && t.route != Some(Failed) && SameInput(n, s, t))
    && (n.End? ==> SameOutcome(s, t))
  }

  ghost predicate Agree(p: Point, q: Point) {
    p.node == q.node && (!p.node.Aborted? ==> AgreeAt(p.node, p.s, q.s))
  }

  lemma FaultAgrees(c: Config, p: Point, q: Point, o: Oracle)
    requires Agree(p, q) && !Works(p, o)
    ensures Agree(Next(c, p, o), Next(c, q, o))
  {
  }

  lemma SafetyFrame(c: Config, s: State)
    ensures var u := ApplySafety(c, s);
            && u.complexity == s.complexity && u.iteration == s.iteration && u.error == s.error
            && (u.route == s.route || u.route == Some(Human))
  {
  }

  lemma SafetyOnAuto(c: Config, s: State, t: State)
    requires SameFacts(s, t) && s.scores == t.scores && s.route == t.route == Some(Auto)
    ensures SameOutcome(ApplySafety(c, s), ApplySafety(c, t))
  {
    assert ShownDocs(s) == ShownDocs(t);
    assert Unsafe(c, s) == Unsafe(c, t);
  }

  lemma EvaluateSame(c: Config, s: State, t: State, o: Oracle)
    requires SameFacts(s, t) && s.complexity == t.complexity
    ensures var u, v := EvaluateAnswer(c, s, o), EvaluateAnswer(c, t, o); SameFacts(u, v) && u.scores == v.scores
  {
    assert ShownDocs(s) == ShownDocs(t);
  }

  lemma ClassifyAgrees(c: Config, p: Point, q: Point, o: Oracle)
    requires Agree(p, q) && p.node.Classify? && Works(p, o)
    ensures Agree(Next(c, p, o), Next(c, q, o))
  {
  }

  lemma TransformAgrees(c: Config, p: Point, q: Point, o: Oracle)
    requires Agree(p, q) && p.node.Transform? && Works(p, o)
    ensures Agree(Next(c, p, o), Next(c, q, o))
  {
  }

  lemma RetrieveAgrees(c: Config, p: Point, q: Point, o: Oracle)
    requires Agree(p, q) && p.node.Retrieve? && Works(p, o)
    ensures Agree(Next(c, p, o), Next(c, q, o))
  {
  }

  lemma GradeAgrees(c: Config, p: Point, q: Point, o: Oracle)
    requires Agree(p, q) && p.node.Grade? && Works(p, o)
    ensures Agree(Next(c, p, o), Next(c, q, o))
  {
  }

  lemma GenerateAgrees(c: Config, p: Point, q: Point, o: Oracle)
    requires Agree(p, q) && p.node.Generate? && Works(p, o)
    ensures Agree(Next(c, p, o), Next(c, q, o))
  {
  }

  lemma VerifyAgrees(c: Config, p: Point, q: Point, o: Oracle)
    requires Agree(p, q) && p.node.Verify? && Works(p, o)
    ensures Agree(Next(c, p, o), Next(c, q, o))
  {
  }

  lemma EvaluateAgrees(c: Config, p: Point, q: Point, o: Oracle)
    requires Agree(p, q) && p.node.Evaluate? && Works(p, o)
    ensures Agree(Next(c, p, o), Next(c, q, o))
  {
    if p.s.complexity != Simple { EvaluateSame(c, p.s, q.s, o); }
  }

  lemma RouteOrRetryAgrees(c: Config, p: Point, q: Point, o: Oracle)
    requires Agree(p, q) && p.node.RouteOrRetry? && Works(p, o)
    ensures Agree(Next(c, p, o), Next(c, q, o))
  {
  }

  lemma RewriteAgrees(c: Config, p: Point, q: Point, o: Oracle)
    requires Agree(p, q) && p.node.Rewrite? && Works(p, o)
    ensures Agree(Next(c, p, o), Next(c, q, o))
  {
  }

  lemma SafetyAgrees(c: Config, p: Point, q: Point, o: Oracle)
    requires Agree(p, q) && p.node.Safety? && Works(p, o)
    ensures Agree(Next(c, p, o), Next(c, q, o))
  {
    SafetyFrame(c, p.s);
    SafetyFrame(c, q.s);
    if p.s.route == Some(Auto) { SafetyOnAuto(c, p.s, q.s); }
  }

  lemma SuggestAgrees(c: Config, p: Point, q: Point, o: Oracle)
    requires Agree(p, q) && p.node.Suggest? && Works(p, o)
    ensures Agree(Next(c, p, o), Next(c, q, o))
  {
  }

  lemma LogAgrees(c: Config, p: Point, q: Point, o: Oracle)
    requires Agree(p, q) && p.node.Log? && Works(p, o)
    ensures Agree(Next(c, p, o), Next(c, q, o))
  {
  }

  lemma NextAgrees(c: Config, p: Point, q: Point, o: Oracle)
    requires Agree(p, q)
    ensures Agree(Next(c, p, o), Next(c, q, o))
  {
    if !Works(p, o) { FaultAgrees(c, p, q, o); }
    else {
      match p.node
      case Classify => ClassifyAgrees(c, p, q, o);
      case Transform => TransformAgrees(c, p, q, o);
      case Retrieve => RetrieveAgrees(c, p, q, o);
      case Grade => GradeAgrees(c, p, q, o);
      case Generate => GenerateAgrees(c, p, q, o);
      case Verify => VerifyAgrees(c, p, q, o);
      case Evaluate => EvaluateAgrees(c, p, q, o);
      case RouteOrRetry => RouteOrRetryAgrees(c, p, q, o);
      case Rewrite => RewriteAgrees(c, p, q, o);
      case Safety => SafetyAgrees(c, p, q, o);
      case Suggest => SuggestAgrees(c, p, q, o);
      case Log => LogAgrees(c, p, q, o);
      case _ =>
    }
  }

  lemma {:induction false} RunAgrees(c: Config, p: Point, q: Point, os: seq<Oracle>)
    requires Agree(p, q)
    ensures Agree(Run(c, p, os), Run(c, q, os))
  {
    if os != [] {
      var before := os[..|os| - 1];
      RunAgrees(c, p, q, before);
      NextAgrees(c, Run(c, p, before), Run(c, q, before), os[|os| - 1]);
    }
  }

  /** The record of an iteration with everything earlier iterations left behind erased. */
  function Erased(s: State): State { INITIAL.(complexity := s.complexity, iteration := s.iteration) }

  /** Whenever a run comes back to retrieval, the nodes it visits from there on, every route it
      chooses, and an automatic answer with its claims and scores are those of a run from the erased
      record. */
  lemma RetriesCarryNothing(c: Config, before: seq<Oracle>, after: seq<Oracle>)
    requires c.Sane() && Run(c, START, before).node.Retrieve? && !Run(c, START, before).s.error
    ensures var s := Run(c, START, before).s;
            var p, q := Run(c, Point(Retrieve, s), after), Run(c, Point(Retrieve, Erased(s)), after);
            && p.node == q.node
            && (p.node.Rewrite? && !p.s.error ==> p.s.route == q.s.route == Some(Retry))
            && (p.node.End? ==> SameOutcome(p.s, q.s))
  {
    AlwaysInv(c, before);
    var s := Run(c, START, before).s;
    RunAgrees(c, Point(Retrieve, s), Point(Retrieve, Erased(s)), after);
  }
}
