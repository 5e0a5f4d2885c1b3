/** The Self-RAG graph: its nodes and edges (agent/graph.py, agent/response_safety.py).

    Everything an LLM, the retriever, the clock or a failing call decides is read from an `Oracle`,
    one per executed node. */
module SelfRag {
  import opened Options
  import opened Grounding
  import DocGrade
  import JudgePolicy

  datatype Complexity = Simple | Complex | Global | Unknown
  datatype Route = Auto | Human | Retry | Failed | Escalated

  /** Tests on texts: word count, knowledge-gap phrases, PII, its redaction, and injection markers. */
  datatype Texts = Texts(
    matcher: Matcher, words: string -> nat, gap: string -> bool,
    pii: string -> bool, redact: string -> string, injected: string -> bool)

  datatype Config = Config(
    texts: Texts, fast: JudgePolicy.Llm, strong: JudgePolicy.Llm, requireIndependence: bool,
    minQuality: int, minRelevance: real, minFactuality: int, maxIterations: int)
  {
    /** A text with a word in it is not blank. */
    ghost predicate Sane() {
      forall t: string {:trigger texts.words(t)} :: texts.words(t) > 0 ==> texts.matcher.strip(t) != ""
    }
  }

  /** Fields written by fact verification; `extracted` counts the claims it extracted, `failed` is
      a dead verifier. */
  datatype Check = Check(
    claims: seq<Claim>, extracted: nat, factuality: int, grounding: GroundingStatus, skipped: bool, failed: bool)

  /** Fields written by the judge. */
  datatype Scores = Scores(
    quality: Option<int>, relevance: Option<real>, knowledgeGap: bool, judge: Option<JudgePolicy.JudgeStatus>,
    independent: bool)

  /** The shared record. `gradeRan` tells whether `doc_grade_reason` is set. */
  datatype State = State(
    complexity: Complexity,
    iteration: int,
    context: seq<Doc>,
    graded: seq<Doc>,
    gradeRan: bool,
    answer: Option<string>,
    generationError: bool,
    check: Check,
    scores: Scores,
    route: Option<Route>,
    error: bool)

  const INITIAL := State(Unknown, 0, [], [], false, None, false, Check([], 0, 0, NotVerified, false, false),
                         Scores(None, None, false, None, false), None, false)

  datatype Node =
    | Classify | Transform | Retrieve | Grade | Generate | Verify | Evaluate | RouteOrRetry | Rewrite
    | Safety | Suggest | Log | HandleError
    | End | Aborted

  // ----- What the outside world decides -----

  /** `Raises` is an exception the node turns into an error state; `Escapes` one that leaves the
      graph, such as the request deadline in the retrieve node. */
  datatype Fault = Fine | Raises | Escapes

  datatype Generation = Text(text: string) | ProviderUnavailable
  datatype ClaimVerdict = Judged(supported: bool, evidence: string) | CallFails
  datatype Extraction = Fails | SaysNone | Lines(lines: seq<string>, verdict: nat -> ClaimVerdict)
  datatype Judgement = JudgeFails | Unparseable | Score(n: int)

  datatype Oracle = Oracle(
    fault: Fault,
    complexity: Complexity,
    docs: seq<Doc>,
    keep: nat -> bool,
    graderErrors: nat,
    generation: Generation,
    verificationEnabled: bool,
    contextCutToNothing: bool,
    extraction: Extraction,
    judgement: Judgement,
    relevance: Option<real>,
    escalation: string)

  // ----- Nodes -----

  const FAILURE_ANSWER := "generation provider unavailable"
  const REFUSAL_ANSWER := "answer refused"
  const MAX_CLAIMS: nat := 10

  function Broken(s: State): State { s.(error := true, route := Some(Failed)) }

  function KeepOnly(docs: seq<Doc>, keep: nat -> bool): (r: seq<Doc>)
    ensures forall d :: d in r ==> d in docs
  {
    if docs == [] then []
    else
      var n := |docs| - 1;
      KeepOnly(docs[..n], keep) + (if keep(n) then [docs[n]] else [])
  }

  function Graded(context: seq<Doc>, keep: nat -> bool): seq<Doc> {
    if context == [] then [] else DocGrade.Resolved(context, KeepOnly(context, keep))
  }

  function GradeDocs(s: State, o: Oracle): State {
    var graded := Graded(s.context, o.keep);
    if DocGrade.FailClosed(DocGrade.ClassifyGradeOutcome(|s.context|, |graded|, o.graderErrors)) then
      s.(graded := graded, gradeRan := true, check := s.check.(grounding := NotVerified, factuality := 0),
         scores := s.scores.(knowledgeGap := true))
    else s.(graded := graded, gradeRan := true)
  }

  /** `resolve_generation_context_docs`: after grading, only what grading kept. */
  function GenerationDocs(s: State): seq<Doc> {
    if s.gradeRan then s.graded else if s.graded != [] then s.graded else s.context
  }

  function ProviderDown(s: State): State {
    s.(answer := Some(FAILURE_ANSWER), generationError := true,
       check := s.check.(claims := [], factuality := 0, grounding := NotVerified, skipped := true),
       scores := s.scores.(quality := Some(0), relevance := Some(0.0)), route := Some(Human))
  }

  function GenerateAnswer(s: State, o: Oracle): State {
    match o.generation
    case ProviderUnavailable => ProviderDown(s)
    case Text(text) =>
      s.(answer := Some(text), generationError := false,
         check := if s.complexity == Simple
                  then s.check.(claims := [], skipped := true, factuality := 0, grounding := NotVerified)
                  else s.check)
  }

  function Recorded(claims: seq<Claim>, extracted: nat, g: Measured): Check {
    Check(claims, extracted, g.factuality, g.status, g.skipped, false)
  }

  const VERIFIER_DOWN := Check([], 0, 0, NotVerified, true, true)

  predicate AnyCallFails(verdict: nat -> ClaimVerdict, n: nat) {
    exists k :: 0 <= k < n && verdict(k).CallFails?
  }

  function RawClaims(lines: seq<string>, verdict: nat -> ClaimVerdict): (r: seq<Claim>)
    requires !AnyCallFails(verdict, |lines|)
    ensures |r| == |lines|
  {
    seq(|lines|, k requires 0 <= k < |lines| =>
      if verdict(k).Judged? then Claim(lines[k], verdict(k).supported, verdict(k).evidence, false, [])
      else Claim(lines[k], false, "", false, []))
  }

  predicate AnyBound(claims: seq<Claim>) { exists k :: 0 <= k < |claims| && claims[k].bound }

  /** Binding, scoring, and the two overrides: missing citations and truncated coverage. */
  function Scored(m: Matcher, answer: string, raw: seq<Claim>, docs: seq<Doc>, extracted: nat): (seq<Claim>, Measured) {
    var (claims, citationOverride) := BindClaims(m, answer, raw, docs);
    var g := StatusForClaims(claims, true);
    var g1 := if citationOverride == None then g
              else g.(status := citationOverride.value,
                      factuality := if citationOverride == Some(NotVerified) && g.factuality > 0 && !AnyBound(claims)
                                    then 0 else g.factuality);
    var truncated := TruncatedCoverage(extracted, |claims|, MAX_CLAIMS);
    var g2 := if truncated == None then g1
              else g1.(status := truncated.value, factuality := if claims == [] then 0 else g1.factuality);
    (claims, g2)
  }

  function Kept(lines: seq<string>): seq<string> {
    if |lines| > MAX_CLAIMS then lines[..MAX_CLAIMS] else lines
  }

  /** At most ten extracted claims are checked, each by one call. */
  function CheckLines(m: Matcher, answer: string, docs: seq<Doc>, lines: seq<string>, verdict: nat -> ClaimVerdict)
    : Check
  {
    if Kept(lines) == [] then Recorded([], 0, NO_PARSE)
    else if AnyCallFails(verdict, |Kept(lines)|) then VERIFIER_DOWN
    else
      var (claims, g) := Scored(m, answer, RawClaims(Kept(lines), verdict), docs, |lines|);
      Recorded(claims, |lines|, g)
  }

  function CheckAnswer(c: Config, answer: string, docs: seq<Doc>, o: Oracle): Check {
    if !o.verificationEnabled then Recorded([], 0, SKIPPED)
    else if answer == "" || docs == [] || o.contextCutToNothing then Recorded([], 0, SKIPPED)
    else if c.texts.words(answer) < 3 then Recorded([], 0, SHORT_ANSWER)
    else
      match o.extraction
      case Fails => VERIFIER_DOWN
      case SaysNone => Recorded([], 0, NO_CLAIMS)
      case Lines(lines, verdict) => CheckLines(c.texts.matcher, answer, docs, lines, verdict)
  }

  function VerifyFacts(c: Config, s: State, o: Oracle): State {
    var check := CheckAnswer(c, s.answer.GetOr(""), GenerationDocs(s), o);
    s.(check := check, route := if check.failed then Some(Human) else s.route)
  }

  function ShownDocs(s: State): seq<Doc> { if s.graded != [] then s.graded else s.context }

  predicate KnowledgeGap(c: Config, shown: seq<Doc>, answer: string, factuality: int) {
    |shown| < 2 || factuality < 50 || c.texts.gap(answer)
  }

  function Clamp(n: int): int { if n < 1 then 1 else if n > 100 then 100 else n }

  function Judge(c: Config, complexity: Complexity): JudgePolicy.Resolution {
    JudgePolicy.Resolve(Some(c.fast), Some(c.strong), if complexity == Simple then c.fast else c.strong,
                        c.requireIndependence)
  }

  /** A judge that is missing, fails or cannot be parsed leaves nothing measured. */
  function Verdict(r: JudgePolicy.Resolution, j: Judgement): JudgePolicy.JudgeStatus {
    if r.judge == None then JudgePolicy.Unavailable
    else if j.JudgeFails? then JudgePolicy.Error
    else if j.Unparseable? then JudgePolicy.ParseFailure
    else JudgePolicy.Ok
  }

  function Evaluation(c: Config, r: JudgePolicy.Resolution, shown: seq<Doc>, answer: string, check: Check, o: Oracle)
    : (Check, Scores)
  {
    var verdict := Verdict(r, o.judgement);
    if verdict.Ok? then
      (check, Scores(Some(Clamp(o.judgement.n)), o.relevance, KnowledgeGap(c, shown, answer, check.factuality),
                     Some(JudgePolicy.Ok), r.independent))
    else
      (check.(grounding := NotVerified, factuality := 0),
       Scores(Some(0), Some(0.0), KnowledgeGap(c, shown, answer, 0), Some(verdict),
              !verdict.Unavailable? && r.independent))
  }

  function EvaluateAnswer(c: Config, s: State, o: Oracle): State {
    var (check, scores) :=
      Evaluation(c, Judge(c, s.complexity), ShownDocs(s), s.answer.GetOr(""), s.check, o);
    s.(check := check, scores := scores)
  }

  predicate GroundingAllowsAuto(c: Config, s: State) {
    && !s.error && !s.scores.knowledgeGap && ShownDocs(s) != [] && s.check.grounding.Verified?
    && (s.check.claims != [] ==>
          (forall k :: 0 <= k < |s.check.claims| ==> s.check.claims[k].bound) && s.check.factuality >= c.minFactuality)
  }

  function Decide(c: Config, s: State): Route {
    if s.scores.judge.Some? && !s.scores.judge.value.Ok? then Human
    else if s.scores.quality == None || s.scores.relevance == None then Human
    else if s.scores.quality.value >= c.minQuality && s.scores.relevance.value >= c.minRelevance
            && GroundingAllowsAuto(c, s) then Auto
    else if s.iteration < c.maxIterations then
      if s.complexity == Simple && s.check.skipped then Human else Retry
    else Human
  }

  /** `grounding`, `knowledgeGap`, `gradeRan`, `judge` and `route` are left as they are. */
  function RewriteQuery(s: State): State {
    s.(iteration := s.iteration + 1, context := [], graded := [], answer := None,
       check := s.check.(claims := [], factuality := 0, skipped := false, failed := false),
       scores := s.scores.(quality := None, relevance := None))
  }

  predicate Unsafe(c: Config, s: State) {
    || c.texts.injected(s.answer.GetOr(""))
    || exists k :: 0 <= k < |ShownDocs(s)| && c.texts.injected(ShownDocs(s)[k].content)
  }

  function ApplySafety(c: Config, s: State): State {
    var text := s.answer.GetOr("");
    if s.answer == None || c.texts.matcher.strip(text) == "" then s
    else if Unsafe(c, s) then
      s.(answer := Some(REFUSAL_ANSWER), route := Some(Human),
         check := s.check.(grounding := NotVerified, factuality := 0),
         scores := s.scores.(quality := Some(0), relevance := Some(0.0)))
    else if c.texts.pii(text) then s.(answer := Some(c.texts.redact(text)))
    else s
  }

  /** The body of a node that has not been passed an error. */
  function Work(c: Config, n: Node, s: State, o: Oracle): State {
    match n
    case Classify => s.(complexity := o.complexity)
    case Retrieve => s.(context := o.docs)
    case Grade => GradeDocs(s, o)
    case Generate => GenerateAnswer(s, o)
    case Verify => VerifyFacts(c, s, o)
    case Evaluate => EvaluateAnswer(c, s, o)
    case RouteOrRetry => s.(route := Some(Decide(c, s)))
    case Rewrite => RewriteQuery(s)
    case Safety => ApplySafety(c, s)
    case _ => s
  }

  /** One node on the record. Every node but `handle_error` passes an error state through. */
  function Execute(c: Config, n: Node, s: State, o: Oracle): State {
    if n.HandleError? then s.(answer := Some(o.escalation), route := Some(Escalated))
    else if s.error || n.Suggest? || n.Log? then s
    else if o.fault.Raises? then Broken(s)
    else Work(c, n, s, o)
  }

  // ----- Edges -----

  function Edge(n: Node, s: State): Node {
    match n
    case Classify => Transform
    case Transform => Retrieve
    case Retrieve => if s.error then HandleError else if s.complexity == Simple then Generate else Grade
    case Grade => Generate
    case Generate =>
      if s.error then HandleError else if s.generationError then Safety
      else if s.complexity == Simple then Evaluate else Verify
    case Verify =>
      if s.error || s.route == Some(Failed) then HandleError else if s.check.failed then Safety else Evaluate
    case Evaluate => RouteOrRetry
    case RouteOrRetry =>
      if s.error || s.route == Some(Failed) then HandleError else if s.route == Some(Retry) then Rewrite else Safety
    case Rewrite => Retrieve
    case Safety => if s.route == Some(Auto) then Suggest else Log
    case Suggest => Log
    case Log => End
    case HandleError => End
    case End => End
    case Aborted => Aborted
  }

  datatype Point = Point(node: Node, s: State)

  predicate Stopped(p: Point) { p.node.End? || p.node.Aborted? }

  function Next(c: Config, p: Point, o: Oracle): Point {
    if Stopped(p) then p
    else if o.fault.Escapes? then Point(Aborted, p.s)
    else
      var t := Execute(c, p.node, p.s, o);
      Point(Edge(p.node, t), t)
  }

  const START := Point(Classify, INITIAL)

  /** Where a run is after the given oracles, one per executed node. */
  function Run(c: Config, p: Point, os: seq<Oracle>): Point {
    if os == [] then p else Next(c, Run(c, p, os[..|os| - 1]), os[|os| - 1])
  }
}
