/** The longest run of the Self-RAG graph: the bound of `SelfRagRuns.StopsWithinBound` is attained,
    and by a run that is allowed to answer automatically. */
module SelfRagWitness {
  import opened Options
  import opened Grounding
  import DocGrade
  import JudgePolicy
  import opened SelfRag
  import opened SelfRagRuns

  const PLAIN_TEXTS := Texts(
    Matcher((t: string) => {1}, (quote: string, text: string) => true, (t: string) => t),
    (t: string) => |t|, (t: string) => false, (t: string) => false, (t: string) => t, (t: string) => false)

  function Setup(max: nat): Config {
    Config(PLAIN_TEXTS, JudgePolicy.Llm("fast", "f", 0, 0), JudgePolicy.Llm("strong", "s", 1, 1), true,
           80, 0.8, 100, max)
  }

  const DOC := Doc("text", None, false, map[])

  /** A judge that is never satisfied, and one that is. */
  function World(score: int): Oracle {
    Oracle(Fine, Complex, [DOC, DOC], (k: nat) => true, 0, Text("text"), true, false,
           Lines(["text"], (k: nat) => Judged(true, "text")), Score(score), Some(1.0), "")
  }

  function Steps(c: Config, p: Point, o: Oracle, n: nat): Point {
    if n == 0 then p else Next(c, Steps(c, p, o, n - 1), o)
  }

  function Repeat(o: Oracle, n: nat): seq<Oracle> { seq(n, _ => o) }

  lemma {:induction false} RunOfRepeat(c: Config, p: Point, o: Oracle, n: nat)
    ensures Run(c, p, Repeat(o, n)) == Steps(c, p, o, n)
  {
    if n > 0 {
      RunOfRepeat(c, p, o, n - 1);
      assert Repeat(o, n)[..n - 1] == Repeat(o, n - 1);
    }
  }

  lemma {:induction false} RunAppend(c: Config, p: Point, a: seq<Oracle>, b: seq<Oracle>)
    ensures Run(c, p, a + b) == Run(c, Run(c, p, a), b)
  {
    if b == [] {
      assert a + b == a;
    } else {
      var n := |b| - 1;
      RunAppend(c, p, a, b[..n]);
      assert (a + b)[..|a + b| - 1] == a + b[..n];
    }
  }

  lemma {:induction false} StepsAppend(c: Config, p: Point, o: Oracle, m: nat, n: nat)
    ensures Steps(c, p, o, m + n) == Steps(c, Steps(c, p, o, m), o, n)
  {
    if n > 0 { StepsAppend(c, p, o, m, n - 1); }
  }

  /** The claim of the answer is bound to the first document, so the answer is verified. */
  lemma ClaimBinds()
    ensures var raw := [Claim("text", true, "text", false, [])];
            var (claims, citationOverride) := BindClaims(PLAIN_TEXTS.matcher, "text", raw, [DOC, DOC]);
            |claims| == 1 && claims[0].supported && claims[0].bound && citationOverride == None
  {
    var m, raw, docs := PLAIN_TEXTS.matcher, [Claim("text", true, "text", false, [])], [DOC, DOC];
    assert m.strip("text") == "text" && docs[0].content == "text";
    assert GroundedBy(m, "text", "text", "text", docs, 1);
    BindingRewrites(m, "text", raw, docs);
    BoundIff(m, "text", raw, docs, 0);
  }

  lemma CheckPasses(max: nat, score: int)
    ensures var k := CheckAnswer(Setup(max), "text", [DOC, DOC], World(score));
            k.grounding.Verified? && k.factuality == 100 && !k.failed && |k.claims| == 1 && k.claims[0].bound
  {
    var o := World(score);
    var lines, verdict := o.extraction.lines, o.extraction.verdict;
    ClaimBinds();
    assert Kept(lines) == ["text"];
    assert RawClaims(["text"], verdict) == [Claim("text", true, "text", false, [])];
    StatusMeaning(BindClaims(PLAIN_TEXTS.matcher, "text", RawClaims(["text"], verdict), [DOC, DOC]).0, true);
  }

  lemma BothKept(score: int)
    ensures Graded([DOC, DOC], World(score).keep) == [DOC, DOC]
  {
    var keep := World(score).keep;
    assert [DOC, DOC][..1] == [DOC] && [DOC][..0] == [];
    assert KeepOnly([DOC], keep) == [DOC];
    assert KeepOnly([DOC, DOC], keep) == [DOC, DOC];
    assert DocGrade.HeaderKeys([DOC, DOC]) == {};
  }

  /** Between passes: a complex question on its k-th retry. */
  predicate Between(p: Point, k: int) {
    p.node.Retrieve? && p.s.complexity == Complex && p.s.iteration == k && !p.s.error
    && p.s.route != Some(Failed)
  }

  predicate Answered(p: Point, k: int) {
    p.node.Verify? && p.s.complexity == Complex && p.s.iteration == k && !p.s.error && p.s.route != Some(Failed)
    && p.s.graded == [DOC, DOC] && p.s.gradeRan && p.s.answer == Some("text")
  }

  /** At the routing decision, with everything but the quality as good as it gets. */
  predicate Scored(p: Point, k: int, quality: int) {
    && p.node.RouteOrRetry? && p.s.complexity == Complex && p.s.iteration == k && !p.s.error
    && p.s.graded == [DOC, DOC]
    && p.s.scores == Scores(Some(quality), Some(1.0), false, Some(JudgePolicy.Ok), true)
    && p.s.check.grounding.Verified? && p.s.check.factuality == 100
    && |p.s.check.claims| == 1 && p.s.check.claims[0].bound
    && p.s.answer == Some("text")
  }

  lemma PassToVerify(max: nat, p: Point, k: int, score: int)
    requires Between(p, k)
    ensures Answered(Steps(Setup(max), p, World(score), 3), k)
  {
    var c, o := Setup(max), World(score);
    var p1 := Next(c, p, o);
    assert Steps(c, p, o, 1) == p1 && p1.node.Grade? && p1.s.context == [DOC, DOC];
    BothKept(score);
    var p2 := Next(c, p1, o);
    assert Steps(c, p, o, 2) == p2 && p2.node.Generate? && p2.s.graded == [DOC, DOC] && p2.s.gradeRan;
    assert Steps(c, p, o, 3) == Next(c, p2, o);
  }

  predicate Checked(p: Point, k: int) {
    p.node.Evaluate? && p.s.complexity == Complex && p.s.iteration == k && !p.s.error
    && p.s.graded == [DOC, DOC] && p.s.answer == Some("text")
    && p.s.check.grounding.Verified? && p.s.check.factuality == 100
    && |p.s.check.claims| == 1 && p.s.check.claims[0].bound
  }

  predicate Retrying(p: Point, k: int) {
    p.node.Rewrite? && p.s.complexity == Complex && p.s.iteration == k && !p.s.error && p.s.route == Some(Retry)
  }

  predicate Approved(p: Point) {
    p.node.Safety? && !p.s.error && p.s.route == Some(Auto) && p.s.graded == [DOC, DOC] && p.s.answer == Some("text")
  }

  lemma VerifyStep(max: nat, p: Point, k: int, score: int)
    requires Answered(p, k)
    ensures Checked(Next(Setup(max), p, World(score)), k)
  {
    CheckPasses(max, score);
  }

  lemma EvaluateStep(max: nat, p: Point, k: int, score: int)
    requires Checked(p, k)
    ensures Scored(Next(Setup(max), p, World(score)), k, Clamp(score))
  {
    JudgeFollowsPolicy(Setup(max), Complex);
    assert Judge(Setup(max), Complex) == JudgePolicy.Resolution(Some(Setup(max).fast), true);
  }

  lemma RetryStep(max: nat, p: Point, k: int, score: int)
    requires Scored(p, k, 1) && k < max
    ensures Retrying(Next(Setup(max), p, World(score)), k)
  {
  }

  lemma RewriteStep(max: nat, p: Point, k: int, score: int)
    requires Retrying(p, k)
    ensures Between(Next(Setup(max), p, World(score)), k + 1)
  {
  }

  lemma AutoStep(max: nat, p: Point, k: int, score: int)
    requires Scored(p, k, 100)
    ensures Approved(Next(Setup(max), p, World(score)))
  {
    assert Decide(Setup(max), p.s) == Auto;
  }

  lemma SafetyStep(max: nat, p: Point, score: int)
    requires Approved(p)
    ensures var q := Next(Setup(max), p, World(score)); q.node.Suggest? && q.s == p.s
  {
    assert !Unsafe(Setup(max), p.s);
  }

  lemma PassToRoute(max: nat, p: Point, k: int, score: int)
    requires Between(p, k)
    ensures Scored(Steps(Setup(max), p, World(score), 5), k, Clamp(score))
  {
    var c, o := Setup(max), World(score);
    PassToVerify(max, p, k, score);
    VerifyStep(max, Steps(c, p, o, 3), k, score);
    EvaluateStep(max, Steps(c, p, o, 4), k, score);
  }

  /** One retry takes seven nodes. */
  lemma WeakPass(max: nat, p: Point, k: nat)
    requires Between(p, k) && k < max
    ensures Between(Steps(Setup(max), p, World(0), 7), k + 1)
  {
    var c, o := Setup(max), World(0);
    PassToRoute(max, p, k, 0);
    RetryStep(max, Steps(c, p, o, 5), k, 0);
    RewriteStep(max, Steps(c, p, o, 6), k, 0);
  }

  lemma FirstSteps(max: nat)
    ensures Between(Steps(Setup(max), START, World(0), 2), 0)
  {
    var c, o := Setup(max), World(0);
    var p := Next(c, START, o);
    assert p.node.Transform? && p.s.complexity == Complex && p.s.iteration == 0 && !p.s.error;
    assert Steps(c, START, o, 1) == p;
  }

  lemma OneMorePass(max: nat, n: nat, k: nat)
    requires Between(Steps(Setup(max), START, World(0), n), k) && k < max
    ensures Between(Steps(Setup(max), START, World(0), n + 7), k + 1)
  {
    WeakPass(max, Steps(Setup(max), START, World(0), n), k);
    StepsAppend(Setup(max), START, World(0), n, 7);
  }

  lemma {:induction false} WeakPasses(max: nat, k: nat)
    requires k <= max
    ensures Between(Steps(Setup(max), START, World(0), 2 + 7 * k), k)
  {
    if k == 0 {
      FirstSteps(max);
    } else {
      var n := 2 + 7 * (k - 1);
      WeakPasses(max, k - 1);
      OneMorePass(max, n, k - 1);
      assert n + 7 == 2 + 7 * k;
    }
  }

  lemma LastSteps(max: nat, p: Point)
    requires p.node.Suggest? && !p.s.error && p.s.route == Some(Auto)
    ensures Steps(Setup(max), p, World(100), 1).node.Log?
    ensures var q := Steps(Setup(max), p, World(100), 2); q.node.End? && q.s.route == Some(Auto)
  {
    var q := Next(Setup(max), p, World(100));
    assert Steps(Setup(max), p, World(100), 1) == q && q.node.Log? && q.s == p.s;
  }

  /** The last pass takes nine nodes and delivers. */
  lemma StrongPass(max: nat, p: Point, k: nat)
    requires Between(p, k)
    ensures Steps(Setup(max), p, World(100), 8).node.Log?
    ensures var q := Steps(Setup(max), p, World(100), 9); q.node.End? && q.s.route == Some(Auto)
  {
    var c, o := Setup(max), World(100);
    PassToRoute(max, p, k, 100);
    AutoStep(max, Steps(c, p, o, 5), k, 100);
    SafetyStep(max, Steps(c, p, o, 6), 100);
    LastSteps(max, Steps(c, p, o, 7));
    StepsAppend(c, p, o, 7, 1);
    StepsAppend(c, p, o, 7, 2);
  }

  /** For every number of retries some run needs all 7 * max_iterations + 11 nodes, and ends in auto. */
  lemma BoundIsAttained(max: nat)
    ensures var c, os := Setup(max), Repeat(World(0), 2 + 7 * max) + Repeat(World(100), 9);
            && c.Sane() && c.maxIterations == max && |os| == Bound(c)
            && !Stopped(Run(c, START, os[..|os| - 1]))
            && Run(c, START, os).node.End? && Run(c, START, os).s.route == Some(Auto)
  {
    var c, n := Setup(max), 2 + 7 * max;
    var p := Steps(c, START, World(0), n);
    WeakPasses(max, max);
    StrongPass(max, p, max);
    RunOfRepeat(c, START, World(0), n);
    RunOfRepeat(c, p, World(100), 8);
    RunOfRepeat(c, p, World(100), 9);
    RunAppend(c, START, Repeat(World(0), n), Repeat(World(100), 8));
    RunAppend(c, START, Repeat(World(0), n), Repeat(World(100), 9));
    var os := Repeat(World(0), n) + Repeat(World(100), 9);
    assert os[..|os| - 1] == Repeat(World(0), n) + Repeat(World(100), 8);
  }
}
