/** Where a delivered answer comes from: for every run of the Self-RAG graph (agent/graph.py), which replies
    of the retriever, document grading, the generator, the verifier and the judge the record shows, and exactly
    which replies make a run end in auto. */
module SelfRagProvenance {
  import opened Options
  import opened Grounding
  import DocGrade
  import JudgePolicy
  import opened SelfRag
  import opened SelfRagRuns

  // ----- What a check makes of the verifier's replies -----

  /** The verifier is asked for claims at all. */
  ghost predicate Asked(c: Config, answer: string, docs: seq<Doc>, o: Oracle) {
    && o.verificationEnabled && !o.contextCutToNothing && answer != "" && docs != []
    && c.texts.words(answer) >= 3
  }

  /** The verifier supports line `i`, and some document cited by the answer grounds it. */
  ghost predicate Upheld(m: Matcher, answer: string, docs: seq<Doc>, lines: seq<string>, verdict: nat -> ClaimVerdict,
                         i: nat)
    requires i < |lines|
  {
    && verdict(i).Judged? && verdict(i).supported
    && exists j :: GroundedBy(m, answer, lines[i], verdict(i).evidence, docs, j)
  }

  /** One reply per line that is checked, and there are at most ten of those. */
  ghost predicate AllJudged(lines: seq<string>, verdict: nat -> ClaimVerdict) {
    forall i: nat :: i < |lines| && i < 10 ==> verdict(i).Judged?
  }

  lemma NoCallFails(lines: seq<string>, verdict: nat -> ClaimVerdict)
    ensures AllJudged(lines, verdict) <==> !AnyCallFails(verdict, |Kept(lines)|)
  {
    if k :| 0 <= k < |Kept(lines)| && verdict(k).CallFails? { assert !verdict(k).Judged?; }
  }

  /** Claim `i` of the record is line `i` with the verifier's verdict and evidence for it. */
  lemma ClaimsFollowVerdicts(c: Config, answer: string, docs: seq<Doc>, o: Oracle)
    requires Asked(c, answer, docs, o) && o.extraction.Lines? && AllJudged(o.extraction.lines, o.extraction.verdict)
    ensures var (lines, verdict) := (o.extraction.lines, o.extraction.verdict);
            var k := CheckAnswer(c, answer, docs, o);
            && |k.claims| == (if |lines| > 10 then 10 else |lines|) && k.extracted == |lines|
            && !k.failed && !k.skipped
            && forall i: nat :: i < |k.claims| ==>
                 && k.claims[i].text == lines[i]
                 && (k.claims[i].supported <==> verdict(i).supported)
                 && k.claims[i].evidence == verdict(i).evidence
                 && (k.claims[i].supported && k.claims[i].bound
                     <==> Upheld(c.texts.matcher, answer, docs, lines, verdict, i))
  {
    var (lines, verdict) := (o.extraction.lines, o.extraction.verdict);
    NoCallFails(lines, verdict);
    if lines != [] {
      var raw := RawClaims(Kept(lines), verdict);
      BindingRewrites(c.texts.matcher, answer, raw, docs);
      forall i: nat | i < |raw|
        ensures BindClaims(c.texts.matcher, answer, raw, docs).0[i].bound
                <==> Upheld(c.texts.matcher, answer, docs, lines, verdict, i)
      {
        BoundIff(c.texts.matcher, answer, raw, docs, i);
      }
    }
  }

  ghost predicate Citing(m: Matcher, answer: string, docs: seq<Doc>) {
    exists j :: j in m.cites(answer) && 1 <= j <= |docs| && m.strip(docs[j - 1].content) != ""
  }

  ghost function UpheldLines(m: Matcher, answer: string, docs: seq<Doc>, lines: seq<string>,
                             verdict: nat -> ClaimVerdict): set<nat>
  {
    set i: nat | i < |lines| && i < 10 && Upheld(m, answer, docs, lines, verdict, i)
  }

  lemma SameSets(claims: seq<Claim>, upheld: set<nat>)
    requires forall i: nat :: i in upheld <==> i < |claims| && claims[i].supported && claims[i].bound
    ensures (set k | 0 <= k < |claims| && claims[k].supported && claims[k].bound) == upheld
  {
  }

  lemma SubsetSize(s: set<nat>, n: nat)
    requires forall i :: i in s ==> i < n
    ensures |s| <= n
    ensures |s| == n ==> forall i: nat :: i < n ==> i in s
  {
    if n > 0 {
      SubsetSize(s - {n - 1}, n - 1);
      if n - 1 !in s { assert s - {n - 1} == s; }
    }
  }

  /** The counted claims of a check are the upheld lines. */
  lemma CountedAreUpheld(c: Config, answer: string, docs: seq<Doc>, o: Oracle)
    requires Asked(c, answer, docs, o) && o.extraction.Lines? && AllJudged(o.extraction.lines, o.extraction.verdict)
    ensures var claims := CheckAnswer(c, answer, docs, o).claims;
            (set k | 0 <= k < |claims| && claims[k].supported && claims[k].bound)
            == UpheldLines(c.texts.matcher, answer, docs, o.extraction.lines, o.extraction.verdict)
  {
    ClaimsFollowVerdicts(c, answer, docs, o);
    SameSets(CheckAnswer(c, answer, docs, o).claims,
             UpheldLines(c.texts.matcher, answer, docs, o.extraction.lines, o.extraction.verdict));
  }

  /** Both overrides keep the score and replace the status. */
  lemma OverridesKeepScore(m: Matcher, answer: string, raw: seq<Claim>, docs: seq<Doc>, extracted: nat)
    requires raw != [] && |raw| == (if extracted > 10 then 10 else extracted)
    ensures var (claims, g) := Scored(m, answer, raw, docs, extracted);
            var unadjusted := StatusForClaims(claims, true);
            && g.factuality == unadjusted.factuality
            && g.status == (if extracted > 10 || !Citing(m, answer, docs) then NotVerified else unadjusted.status)
  {
    var (claims, override) := BindClaims(m, answer, raw, docs);
    BindingRewrites(m, answer, raw, docs);
    if override == Some(NotVerified) {
      ScoreIsPercentage(claims);
      assert (set k | 0 <= k < |claims| && claims[k].supported && claims[k].bound) == {};
      StatusMeaning(claims, true);
      ZeroPercent(StatusForClaims(claims, true).factuality, |claims|);
    }
  }

  lemma CheckIsScored(c: Config, answer: string, docs: seq<Doc>, o: Oracle)
    requires Asked(c, answer, docs, o) && o.extraction.Lines? && AllJudged(o.extraction.lines, o.extraction.verdict)
    requires o.extraction.lines != []
    ensures var k := CheckAnswer(c, answer, docs, o);
            var g := StatusForClaims(k.claims, true);
            && k.factuality == g.factuality
            && k.grounding == (if |o.extraction.lines| > 10 || !Citing(c.texts.matcher, answer, docs) then NotVerified
                               else g.status)
  {
    var lines, verdict := o.extraction.lines, o.extraction.verdict;
    NoCallFails(lines, verdict);
    OverridesKeepScore(c.texts.matcher, answer, RawClaims(Kept(lines), verdict), docs, |lines|);
  }

  lemma CheckIsPercentage(c: Config, answer: string, docs: seq<Doc>, o: Oracle)
    requires Asked(c, answer, docs, o) && o.extraction.Lines? && AllJudged(o.extraction.lines, o.extraction.verdict)
    requires o.extraction.lines != []
    ensures var k := CheckAnswer(c, answer, docs, o);
            var counted := set i | 0 <= i < |k.claims| && k.claims[i].supported && k.claims[i].bound;
            && |k.claims| == Checked(o.extraction.lines)
            && k.factuality * |k.claims| <= 100 * |counted| < k.factuality * |k.claims| + |k.claims|
            && k.grounding == (if |o.extraction.lines| > 10 || !Citing(c.texts.matcher, answer, docs) then NotVerified
                               else if |counted| == |k.claims| then GroundingStatus.Verified else Unsupported)
  {
    ClaimsFollowVerdicts(c, answer, docs, o);
    CheckIsScored(c, answer, docs, o);
    var claims := CheckAnswer(c, answer, docs, o).claims;
    ScoreIsPercentage(claims);
    SubsetSize(set i | 0 <= i < |claims| && claims[i].supported && claims[i].bound, |claims|);
  }

  lemma ZeroPercent(score: int, whole: nat)
    requires whole > 0 && score >= 0 && score * whole <= 0
    ensures score == 0
  {
    if score > 0 { TimesMonotone(1, score, whole); }
  }

  function Checked(lines: seq<string>): nat { if |lines| > 10 then 10 else |lines| }

  lemma AllUpheldIff(m: Matcher, answer: string, docs: seq<Doc>, lines: seq<string>, verdict: nat -> ClaimVerdict)
    ensures |UpheldLines(m, answer, docs, lines, verdict)| == Checked(lines)
            <==> forall i: nat :: i < Checked(lines) ==> Upheld(m, answer, docs, lines, verdict, i)
  {
    var upheld := UpheldLines(m, answer, docs, lines, verdict);
    SubsetSize(upheld, Checked(lines));
    if forall i: nat :: i < Checked(lines) ==> Upheld(m, answer, docs, lines, verdict, i) {
      forall i: nat ensures i in upheld <==> i < Checked(lines) {}
      AllUpTo(upheld, Checked(lines));
    }
    if |upheld| == Checked(lines) {
      forall i: nat | i < Checked(lines) ensures Upheld(m, answer, docs, lines, verdict, i) { assert i in upheld; }
    }
  }

  lemma UpheldIsCited(m: Matcher, answer: string, docs: seq<Doc>, lines: seq<string>, verdict: nat -> ClaimVerdict)
    ensures |UpheldLines(m, answer, docs, lines, verdict)| > 0 ==> Citing(m, answer, docs)
  {
    var upheld := UpheldLines(m, answer, docs, lines, verdict);
    if |upheld| > 0 {
      var i :| i in upheld;
      var j :| GroundedBy(m, answer, lines[i], verdict(i).evidence, docs, j);
    }
  }

  /** The score is the whole percentage of checked lines that are upheld. The status is verified when all are,
      and not even unsupported when no document is cited or more than ten lines were extracted. */
  lemma ScoreFollowsVerdicts(c: Config, answer: string, docs: seq<Doc>, o: Oracle)
    requires Asked(c, answer, docs, o) && o.extraction.Lines? && AllJudged(o.extraction.lines, o.extraction.verdict)
    requires o.extraction.lines != []
    ensures var (m, lines, verdict) := (c.texts.matcher, o.extraction.lines, o.extraction.verdict);
            var k := CheckAnswer(c, answer, docs, o);
            var checked, upheld := if |lines| > 10 then 10 else |lines|, |UpheldLines(m, answer, docs, lines, verdict)|;
            && k.factuality * checked <= 100 * upheld < k.factuality * checked + checked
            && (k.grounding.NotVerified? <==> |lines| > 10 || !Citing(m, answer, docs))
            && (k.grounding.Verified? <==> |lines| <= 10 && upheld == checked)
  {
    CountedAreUpheld(c, answer, docs, o);
    CheckIsPercentage(c, answer, docs, o);
    UpheldIsCited(c.texts.matcher, answer, docs, o.extraction.lines, o.extraction.verdict);
  }

  lemma AllUpTo(s: set<nat>, n: nat)
    requires forall i: nat :: i in s <==> i < n
    ensures |s| == n
  {
    if n > 0 {
      AllUpTo(s - {n - 1}, n - 1);
    }
  }

  /** Every other check records no claims and the score 0. Only "no claims" counts as verified; a failed call is
      the one way to a dead verifier. */
  lemma OtherChecks(c: Config, answer: string, docs: seq<Doc>, o: Oracle)
    ensures var k := CheckAnswer(c, answer, docs, o);
            var dies := o.extraction.Fails?
                        || (o.extraction.Lines? && !AllJudged(o.extraction.lines, o.extraction.verdict));
            && (k.failed <==> Asked(c, answer, docs, o) && dies)
            && (!Asked(c, answer, docs, o) || dies || !o.extraction.Lines? || o.extraction.lines == [] ==>
                  && k.claims == [] && k.extracted == 0 && k.factuality == 0
                  && (k.grounding.Verified? <==> Asked(c, answer, docs, o) && o.extraction.SaysNone?)
                  && (k.skipped <==> || k.failed || !o.verificationEnabled || o.contextCutToNothing
                                     || answer == "" || docs == []))
  {
    if o.extraction.Lines? { NoCallFails(o.extraction.lines, o.extraction.verdict); }
  }

  /** The verifier was asked, extracted one to ten lines, and upholds every one of them. */
  ghost predicate Confirmed(c: Config, answer: string, docs: seq<Doc>, o: Oracle) {
    && Asked(c, answer, docs, o)
    && o.extraction.Lines? && 1 <= |o.extraction.lines| <= 10
    && forall i: nat :: i < |o.extraction.lines| ==>
         Upheld(c.texts.matcher, answer, docs, o.extraction.lines, o.extraction.verdict, i)
  }

  /** A check is verified on the strength of claims exactly when the verifier confirmed the answer. */
  lemma ConfirmedIff(c: Config, answer: string, docs: seq<Doc>, o: Oracle)
    ensures var k := CheckAnswer(c, answer, docs, o);
            && (Confirmed(c, answer, docs, o) <==> k.grounding.Verified? && k.claims != [])
            && (k.claims == [] ==> k.factuality == 0)
            && (Confirmed(c, answer, docs, o) ==>
                  !k.failed && k.factuality == 100 && forall i :: 0 <= i < |k.claims| ==> k.claims[i].bound)
  {
    OtherChecks(c, answer, docs, o);
    if Asked(c, answer, docs, o) && o.extraction.Lines? && o.extraction.lines != [] {
      if AllJudged(o.extraction.lines, o.extraction.verdict) {
        LinesConfirmedIff(c, answer, docs, o);
      } else {
        var i: nat :| i < |o.extraction.lines| && i < 10 && !o.extraction.verdict(i).Judged?;
        assert !Upheld(c.texts.matcher, answer, docs, o.extraction.lines, o.extraction.verdict, i);
      }
    }
  }

  lemma LinesConfirmedIff(c: Config, answer: string, docs: seq<Doc>, o: Oracle)
    requires Asked(c, answer, docs, o) && o.extraction.Lines? && AllJudged(o.extraction.lines, o.extraction.verdict)
    requires o.extraction.lines != []
    ensures var k := CheckAnswer(c, answer, docs, o);
            && (Confirmed(c, answer, docs, o) <==> k.grounding.Verified?) && k.claims != []
            && (Confirmed(c, answer, docs, o) ==>
                  !k.failed && k.factuality == 100 && forall i :: 0 <= i < |k.claims| ==> k.claims[i].bound)
  {
    ScoreFollowsVerdicts(c, answer, docs, o);
    AllUpheldIff(c.texts.matcher, answer, docs, o.extraction.lines, o.extraction.verdict);
    ClaimsFollowVerdicts(c, answer, docs, o);
    var k := CheckAnswer(c, answer, docs, o);
    if Confirmed(c, answer, docs, o) { FullPercent(k.factuality, |k.claims|); }
  }

  lemma FullPercent(score: int, whole: nat)
    requires whole > 0 && score * whole <= 100 * whole < score * whole + whole
    ensures score == 100
  {
    if score > 100 { TimesMonotone(101, score, whole); }
    if score < 100 { TimesMonotone(score, 99, whole); }
  }

  // ----- What grading makes of the verdicts -----

  lemma {:induction false} KeptCount(docs: seq<Doc>, keep: nat -> bool)
    ensures |KeepOnly(docs, keep)| == |set j | 0 <= j < |docs| && keep(j)|
  {
    if docs != [] {
      var n := |docs| - 1;
      KeptCount(docs[..n], keep);
      var before, all := set j | 0 <= j < n && keep(j), set j | 0 <= j < |docs| && keep(j);
      if keep(n) { assert all == before + {n}; } else { assert all == before; }
    }
  }

  /** Document `k`, if grading keeps it, stands behind as many documents as it kept before. */
  lemma {:induction false} KeptStandsAt(docs: seq<Doc>, keep: nat -> bool, k: nat)
    requires k < |docs| && keep(k)
    ensures var at := |set j | 0 <= j < k && keep(j)|;
            at < |KeepOnly(docs, keep)| && KeepOnly(docs, keep)[at] == docs[k]
  {
    var n := |docs| - 1;
    if k < n { KeptStandsAt(docs[..n], keep, k); } else { KeptCount(docs[..n], keep); }
  }

  lemma {:induction false} KeptIff(docs: seq<Doc>, keep: nat -> bool, d: Doc)
    ensures d in KeepOnly(docs, keep) <==> exists k: nat :: k < |docs| && keep(k) && docs[k] == d
  {
    if docs != [] {
      var n := |docs| - 1;
      KeptIff(docs[..n], keep, d);
      if k: nat :| k < n && keep(k) && docs[..n][k] == d { assert docs[k] == d; }
      if k: nat :| k < |docs| && keep(k) && docs[k] == d {
        if k < n { assert docs[..n][k] == d; } else { assert keep(n) && docs[n] == d; }
      }
    }
  }

  ghost predicate KeptDoc(docs: seq<Doc>, keep: nat -> bool, d: Doc) {
    exists k: nat :: k < |docs| && keep(k) && docs[k] == d
  }

  /** The graded documents: what grading kept, except that the kept header shells of a source with
      content give way to all the retrieved content of that source. */
  lemma GradedIff(docs: seq<Doc>, keep: nat -> bool, d: Doc)
    ensures d in Graded(docs, keep)
            <==> if && d.key.Some? && (exists h :: KeptDoc(docs, keep, h) && h.headerOnly && h.key == d.key)
                    && (exists x :: x in docs && x.key == d.key && !x.headerOnly)
                 then d in docs && !d.headerOnly else KeptDoc(docs, keep, d)
  {
    var kept := KeepOnly(docs, keep);
    forall x ensures x in kept <==> KeptDoc(docs, keep, x) { KeptIff(docs, keep, x); }
    DocGrade.ReplacementIff(docs, kept, d);
  }

  /** Grading writes the graded documents, and fails closed exactly when there are none. */
  lemma GradeRecords(s: State, o: Oracle)
    ensures var (t, none) := (GradeDocs(s, o), s.context == [] || Graded(s.context, o.keep) == []);
            && t == s.(graded := Graded(s.context, o.keep), gradeRan := true, check := t.check, scores := t.scores)
            && t.check == (if none then s.check.(grounding := NotVerified, factuality := 0) else s.check)
            && t.scores == (if none then s.scores.(knowledgeGap := true) else s.scores)
  {
    DocGrade.FailClosedIff(|s.context|, |Graded(s.context, o.keep)|, o.graderErrors);
  }

  /** Graded documents stand in retrieval order. */
  lemma GradedInOrder(docs: seq<Doc>, keep: nat -> bool)
    ensures DocGrade.Subsequence(Graded(docs, keep), docs)
  {
    KeptInOrder(docs, keep);
    DocGrade.ReplacementKeepsOrder(docs, KeepOnly(docs, keep));
  }

  lemma {:induction false} KeptInOrder(docs: seq<Doc>, keep: nat -> bool)
    ensures DocGrade.Subsequence(KeepOnly(docs, keep), docs)
  {
    if docs != [] {
      var n := |docs| - 1;
      KeptInOrder(docs[..n], keep);
      var kept := KeepOnly(docs, keep);
      if keep(n) {
        assert kept[..|kept| - 1] == KeepOnly(docs[..n], keep);
      } else {
        assert kept == KeepOnly(docs[..n], keep);
      }
    }
  }

  // ----- What evaluation makes of the judge's replies -----

  /** The same object, or the same provider and model under a label. */
  ghost predicate SameModel(a: JudgePolicy.Llm, b: JudgePolicy.Llm) {
    || a.instance == b.instance
    || ((a.provider != "" || a.model != "") && a.provider == b.provider && a.model == b.model)
  }

  /** A simple question is answered by the fast model and judged by the strong one where independence is
      required; any other is answered by the strong model and judged by the fast one. */
  lemma JudgeChoice(c: Config, complexity: Complexity)
    ensures var r := Judge(c, complexity);
            && (complexity != Simple ==>
                  && r.judge == (if c.requireIndependence && SameModel(c.fast, c.strong) then None else Some(c.fast))
                  && (r.independent <==> !SameModel(c.fast, c.strong)))
            && (complexity == Simple ==>
                  && r.judge == (if !c.requireIndependence then Some(c.fast)
                                 else if SameModel(c.fast, c.strong) || c.fast.value == c.strong.value then None
                                 else Some(c.strong))
                  && (r.independent <==> r.judge == Some(c.strong) && !SameModel(c.fast, c.strong)))
  {
    var generator := if complexity == Simple then c.fast else c.strong;
    assert JudgePolicy.SameIdentity(c.fast, c.strong) <==> SameModel(c.fast, c.strong);
    JudgePolicy.JudgeIsIndependent(Some(c.fast), Some(c.strong), generator, c.requireIndependence);
  }

  /** A judge was found and gave a score. */
  ghost predicate JudgeScores(c: Config, complexity: Complexity, o: Oracle) {
    Judge(c, complexity).judge.Some? && o.judgement.Score?
  }

  /** What the evaluation records: the judge's score held within 1 to 100 and the relevance as reported, or
      nothing measured and the check void; the knowledge gap is computed anew either way. */
  lemma EvaluationRecords(c: Config, s: State, o: Oracle)
    ensures var t := EvaluateAnswer(c, s, o);
            var n := if o.judgement.Score? then o.judgement.n else 0;
            var shown := if s.graded != [] then s.graded else s.context;
            && t == s.(check := t.check, scores := t.scores)
            && (if JudgeScores(c, s.complexity, o) then
                  && t.check == s.check && t.scores.judge == Some(JudgePolicy.Ok)
                  && t.scores.quality == Some(if n < 1 then 1 else if n > 100 then 100 else n)
                  && t.scores.relevance == o.relevance
                  && t.scores.independent == Judge(c, s.complexity).independent
                else
                  && t.check == s.check.(grounding := NotVerified, factuality := 0)
                  && t.scores.judge.Some? && !t.scores.judge.value.Ok?
                  && (t.scores.judge.value.Unavailable? <==> Judge(c, s.complexity).judge == None)
                  && (t.scores.judge.value.Error? <==> Judge(c, s.complexity).judge.Some? && o.judgement.JudgeFails?)
                  && t.scores.quality == Some(0) && t.scores.relevance == Some(0.0))
            && (t.scores.knowledgeGap <==> || |shown| < 2 || t.check.factuality < 50
                                           || c.texts.gap(s.answer.GetOr("")))
  {
  }

  // ----- One pass from retrieval to the end -----

  /** The points a run visits. */
  function Trail(c: Config, os: seq<Oracle>): (ps: seq<Point>)
    ensures |ps| == |os| + 1
  {
    if os == [] then [START] else Trail(c, os[..|os| - 1]) + [Run(c, START, os)]
  }

  function At(c: Config, os: seq<Oracle>, i: nat): Point
    requires i <= |os|
  {
    Trail(c, os)[i]
  }

  lemma {:induction false} AtIsRun(c: Config, os: seq<Oracle>, i: nat)
    requires i <= |os|
    ensures At(c, os, i) == Run(c, START, os[..i])
  {
    if i == |os| {
      assert os[..i] == os;
    } else {
      AtIsRun(c, os[..|os| - 1], i);
      assert os[..|os| - 1][..i] == os[..i];
    }
  }

  lemma AtStart(c: Config, os: seq<Oracle>)
    ensures At(c, os, 0) == START
  {
    AtIsRun(c, os, 0);
  }

  lemma NextKeepsComplexity(c: Config, p: Point, o: Oracle)
    requires !p.node.Classify?
    ensures !Next(c, p, o).node.Classify? && Next(c, p, o).s.complexity == p.s.complexity
  {
  }

  lemma ClassifyStep(c: Config, o: Oracle)
    ensures var q := Next(c, START, o);
            !q.node.Classify? && q.s.complexity == if o.fault.Fine? then o.complexity else Complexity.Unknown
  {
  }

  /** The complexity of the record is what the first node was told, for good. */
  lemma {:induction false} ComplexityIsClassified(c: Config, os: seq<Oracle>, i: nat)
    requires 0 < i <= |os|
    ensures !At(c, os, i).node.Classify?
    ensures At(c, os, i).s.complexity == if os[0].fault.Fine? then os[0].complexity else Complexity.Unknown
  {
    AtStep(c, os, i - 1);
    if i == 1 {
      AtStart(c, os);
      ClassifyStep(c, os[0]);
    } else {
      ComplexityIsClassified(c, os, i - 1);
      NextKeepsComplexity(c, At(c, os, i - 1), os[i - 1]);
    }
  }

  lemma AtInv(c: Config, os: seq<Oracle>, i: nat)
    requires c.Sane() && i <= |os|
    ensures Inv(c, At(c, os, i))
  {
    AtIsRun(c, os, i);
    AlwaysInv(c, os[..i]);
  }

  lemma AtStep(c: Config, os: seq<Oracle>, i: nat)
    requires i < |os|
    ensures At(c, os, i + 1) == Next(c, At(c, os, i), os[i])
  {
    AtIsRun(c, os, i);
    AtIsRun(c, os, i + 1);
    assert os[..i + 1][..i] == os[..i];
  }

  /** A pass through the whole pipeline without a failing node: `r` is its retrieval. */
  ghost predicate Pass(c: Config, os: seq<Oracle>, r: nat) {
    && r + 9 <= |os| && At(c, os, r).node.Retrieve? && !At(c, os, r).s.error && At(c, os, r).s.complexity != Simple
    && (forall i :: r <= i < r + 7 ==> os[i].fault.Fine?)
    && !os[r + 7].fault.Escapes? && !os[r + 8].fault.Escapes?
  }

  /** The record after retrieval, grading and generation. */
  function Drafted(s: State, ret: Oracle, grade: Oracle, gen: Oracle): State {
    GenerateAnswer(GradeDocs(s.(context := ret.docs), grade), gen)
  }

  lemma DraftPoint(c: Config, p: Point, ret: Oracle, grade: Oracle, gen: Oracle)
    requires p.node.Retrieve? && !p.s.error && p.s.complexity != Simple
    requires ret.fault.Fine? && grade.fault.Fine? && gen.fault.Fine?
    ensures Next(c, Next(c, Next(c, p, ret), grade), gen)
            == Point(if gen.generation.Text? then Verify else Safety, Drafted(p.s, ret, grade, gen))
  {
    assert Next(c, p, ret) == Point(Grade, p.s.(context := ret.docs));
    assert Next(c, Next(c, p, ret), grade) == Point(Generate, GradeDocs(p.s.(context := ret.docs), grade));
  }

  lemma PassToDraft(c: Config, os: seq<Oracle>, r: nat)
    requires Pass(c, os, r)
    ensures At(c, os, r + 3) == Point(if os[r + 2].generation.Text? then Verify else Safety,
                                      Drafted(At(c, os, r).s, os[r], os[r + 1], os[r + 2]))
  {
    AtStep(c, os, r);
    AtStep(c, os, r + 1);
    AtStep(c, os, r + 2);
    DraftPoint(c, At(c, os, r), os[r], os[r + 1], os[r + 2]);
  }

  lemma DraftRecords(s: State, ret: Oracle, grade: Oracle, gen: Oracle)
    ensures var t := Drafted(s, ret, grade, gen);
            && t.context == ret.docs && t.graded == Graded(ret.docs, grade.keep) && t.gradeRan
            && t.complexity == s.complexity && t.iteration == s.iteration && t.error == s.error
            && (gen.generation.Text? ==>
                  t.answer == Some(gen.generation.text) && !t.generationError && t.route == s.route)
            && (gen.generation.ProviderUnavailable? ==> t.generationError && t.route == Some(Human) && Unmeasured(t))
  {
  }

  /** What a dead provider leaves: its own answer, and nothing claimed, verified or measured. */
  predicate Unmeasured(s: State) {
    && s.answer == Some(FAILURE_ANSWER) && s.check.claims == [] && s.check.factuality == 0
    && s.check.grounding.NotVerified? && s.check.skipped
    && s.scores.quality == Some(0) && s.scores.relevance == Some(0.0)
  }

  /** A retry counts up and forgets documents, answer, claims and figures; nothing else changes. */
  lemma RewriteClears(s: State)
    ensures var t := RewriteQuery(s);
            && t.iteration == s.iteration + 1 && t.context == [] && t.graded == [] && t.answer == None
            && t.check.claims == [] && t.check.factuality == 0 && !t.check.skipped && !t.check.failed
            && t.check.grounding == s.check.grounding && t.check.extracted == s.check.extracted
            && t.scores == Scores(None, None, s.scores.knowledgeGap, s.scores.judge, s.scores.independent)
            && (t.complexity, t.gradeRan, t.generationError, t.route, t.error)
               == (s.complexity, s.gradeRan, s.generationError, s.route, s.error)
  {
  }

  /** From the draft to the decision, unless the verifier is dead. */
  lemma DecisionPoint(c: Config, p: Point, ver: Oracle, eval: Oracle)
    requires p.node.Verify? && !p.s.error && p.s.complexity != Simple && p.s.gradeRan && p.s.route != Some(Failed)
    requires ver.fault.Fine? && eval.fault.Fine?
    ensures var check := CheckAnswer(c, p.s.answer.GetOr(""), p.s.graded, ver);
            var (q, s) := (Next(c, p, ver), p.s.(check := check));
            && (check.failed ==> q == Point(Safety, s.(route := Some(Human))))
            && (!check.failed ==>
                  q == Point(Evaluate, s) && Next(c, q, eval) == Point(RouteOrRetry, EvaluateAnswer(c, s, eval)))
  {
    var check := CheckAnswer(c, p.s.answer.GetOr(""), p.s.graded, ver);
    assert VerifyFacts(c, p.s, ver)
           == p.s.(check := check, route := if check.failed then Some(Human) else p.s.route);
  }

  /** What the record holds when the route is decided. */
  lemma PassToDecision(c: Config, os: seq<Oracle>, r: nat)
    requires c.Sane() && Pass(c, os, r) && os[r + 2].generation.Text?
    ensures var (draft, docs) := (os[r + 2].generation.text, Graded(os[r].docs, os[r + 1].keep));
            var (check, p) := (CheckAnswer(c, draft, docs, os[r + 3]), At(c, os, r + 5));
            && (check.failed ==> At(c, os, r + 4).node.Safety? && At(c, os, r + 4).s.route == Some(Human))
            && (!check.failed ==>
                  && p.node.RouteOrRetry? && !p.s.error && p.s.complexity == At(c, os, r).s.complexity
                  && p.s.iteration == At(c, os, r).s.iteration && p.s.answer == Some(draft)
                  && p.s.context == os[r].docs && p.s.graded == docs
                  && (p.s.check, p.s.scores)
                     == Evaluation(c, Judge(c, p.s.complexity), if docs != [] then docs else os[r].docs,
                                   draft, check, os[r + 4]))
  {
    PassToDraft(c, os, r);
    DraftRecords(At(c, os, r).s, os[r], os[r + 1], os[r + 2]);
    AtInv(c, os, r);
    AtStep(c, os, r + 3);
    AtStep(c, os, r + 4);
    DecisionPoint(c, At(c, os, r + 3), os[r + 3], os[r + 4]);
  }

  /** The replies that let an answer through: the verifier confirms it on at least two graded documents, it
      claims no knowledge gap, and a judge that may judge it puts it above the floors. */
  ghost predicate Approved(c: Config, draft: string, docs: seq<Doc>, ver: Oracle, eval: Oracle) {
    && Confirmed(c, draft, docs, ver) && |docs| >= 2 && !c.texts.gap(draft) && c.minFactuality <= 100
    && (c.requireIndependence ==> !SameModel(c.fast, c.strong))
    && eval.judgement.Score?
    && (var n := eval.judgement.n; if n < 1 then 1 else if n > 100 then 100 else n) >= c.minQuality
    && eval.relevance.Some? && eval.relevance.value >= c.minRelevance
  }

  /** The answer was scored, and a retry is left. */
  ghost predicate Retriable(c: Config, iteration: int, eval: Oracle) {
    && (c.requireIndependence ==> !SameModel(c.fast, c.strong)) && eval.judgement.Score? && eval.relevance.Some?
    && iteration < c.maxIterations
  }

  lemma ApprovedIff(c: Config, s: State, draft: string, ver: Oracle, eval: Oracle)
    requires s.complexity != Simple && !s.error && s.answer == Some(draft)
    requires (s.check, s.scores) == Evaluation(c, Judge(c, s.complexity), ShownDocs(s), draft,
                                               CheckAnswer(c, draft, s.graded, ver), eval)
    ensures Decide(c, s) == Auto <==> Approved(c, draft, s.graded, ver, eval)
    ensures Decide(c, s) == Retry
            <==> !Approved(c, draft, s.graded, ver, eval) && Retriable(c, s.iteration, eval)
  {
    ConfirmedIff(c, draft, s.graded, ver);
    JudgeChoice(c, s.complexity);
  }

  // ----- What the safety node lets out -----

  /** Neither the draft nor a document shown with it carries an injection marker. */
  ghost predicate Clean(c: Config, draft: string, docs: seq<Doc>) {
    && !c.texts.injected(draft)
    && forall d :: d in docs ==> !c.texts.injected(d.content)
  }

  lemma UnsafeIff(c: Config, s: State)
    ensures Unsafe(c, s) <==> !Clean(c, s.answer.GetOr(""), if s.graded != [] then s.graded else s.context)
  {
    if d :| d in ShownDocs(s) && c.texts.injected(d.content) {
      var k :| 0 <= k < |ShownDocs(s)| && ShownDocs(s)[k] == d;
      assert c.texts.injected(ShownDocs(s)[k].content);
    }
  }

  /** A draft that is not blank is refused, for a human and with nothing measured, or let out with PII redacted
      and nothing else changed. */
  lemma SafetyRecords(c: Config, s: State)
    ensures var (t, draft) := (ApplySafety(c, s), s.answer.GetOr(""));
            if s.answer == None || c.texts.matcher.strip(draft) == "" then t == s
            else if Clean(c, draft, if s.graded != [] then s.graded else s.context) then
              t == s.(answer := Some(if c.texts.pii(draft) then c.texts.redact(draft) else draft))
            else
              && t.answer == Some(REFUSAL_ANSWER) && t.route == Some(Human)
              && t.check == s.check.(grounding := NotVerified, factuality := 0)
              && t.scores == s.scores.(quality := Some(0), relevance := Some(0.0))
              && t == s.(answer := t.answer, route := t.route, check := t.check, scores := t.scores)
  {
    UnsafeIff(c, s);
  }

  /** Blank, refused, or a clean draft with PII redacted. */
  ghost predicate Screened(c: Config, s: State) {
    || s.answer == None || c.texts.matcher.strip(s.answer.value) == ""
    || (s.answer == Some(REFUSAL_ANSWER) && s.route == Some(Human) && s.check.grounding.NotVerified?
        && s.scores.quality == Some(0))
    || exists draft :: LetOut(c, s, draft)
  }

  ghost predicate LetOut(c: Config, s: State, draft: string) {
    && Clean(c, draft, if s.graded != [] then s.graded else s.context)
    && s.answer == Some(if c.texts.pii(draft) then c.texts.redact(draft) else draft)
  }

  lemma SafetyScreens(c: Config, s: State)
    ensures Screened(c, ApplySafety(c, s))
  {
    SafetyRecords(c, s);
    if s.answer.Some? && Clean(c, s.answer.value, if s.graded != [] then s.graded else s.context) {
      assert c.texts.matcher.strip(s.answer.value) == "" || LetOut(c, ApplySafety(c, s), s.answer.value);
    }
  }

  /** Every run that ends without an error, in auto or for a human, shows a screened answer. */
  lemma {:induction false} EndsScreened(c: Config, os: seq<Oracle>)
    requires c.Sane()
    ensures var p := Run(c, START, os);
            (p.node.Suggest? || p.node.Log? || p.node.End?) && !p.s.error ==> Screened(c, p.s)
  {
    if os != [] {
      EndsScreened(c, os[..|os| - 1]);
      EndsRouted(c, os[..|os| - 1]);
      NextScreened(c, Run(c, START, os[..|os| - 1]), os[|os| - 1]);
    }
  }

  lemma NextScreened(c: Config, p: Point, o: Oracle)
    requires p.node.HandleError? ==> p.s.error
    requires (p.node.Suggest? || p.node.Log? || p.node.End?) && !p.s.error ==> Screened(c, p.s)
    ensures var q := Next(c, p, o);
            (q.node.Suggest? || q.node.Log? || q.node.End?) && !q.s.error ==> Screened(c, q.s)
  {
    SafetyScreens(c, p.s);
  }

  lemma NextEscalated(c: Config, p: Point, o: Oracle)
    requires p.s.route == Some(Escalated) ==> p.node.End?
    ensures var q := Next(c, p, o);
            q.s.route == Some(Escalated) ==>
              q.node.End? && (q == p || (p.node.HandleError? && q.s.answer == Some(o.escalation)))
  {
  }

  ghost predicate EscalatedBy(c: Config, os: seq<Oracle>, i: nat, n: nat)
    requires n < i <= |os|
  {
    At(c, os, n).node.HandleError? && At(c, os, i).s.answer == Some(os[n].escalation)
  }

  /** A run escalated by `handle_error` is over and shows the message of that escalation. */
  lemma {:induction false} EscalationIsShown(c: Config, os: seq<Oracle>, i: nat)
    requires i <= |os|
    ensures At(c, os, i).s.route == Some(Escalated) ==>
              At(c, os, i).node.End? && exists n: nat :: n < i && EscalatedBy(c, os, i, n)
  {
    AtStart(c, os);
    if i > 0 {
      EscalationIsShown(c, os, i - 1);
      AtStep(c, os, i - 1);
      NextEscalated(c, At(c, os, i - 1), os[i - 1]);
      if At(c, os, i).s.route == Some(Escalated) {
        if At(c, os, i) == At(c, os, i - 1) {
          var n: nat :| n < i - 1 && EscalatedBy(c, os, i - 1, n);
          assert EscalatedBy(c, os, i, n);
        } else {
          assert EscalatedBy(c, os, i, i - 1);
        }
      }
    }
  }

  // ----- From the decision to the end -----

  /** Past the decision without auto: it stays that way. */
  predicate Declined(p: Point) {
    (p.node.Safety? || p.node.Log? || p.node.End? || p.node.Aborted?) && p.s.route != Some(Auto)
  }

  lemma NextDeclined(c: Config, p: Point, o: Oracle)
    requires Declined(p)
    ensures Declined(Next(c, p, o))
  {
  }

  lemma {:induction false} StaysDeclined(c: Config, os: seq<Oracle>, i: nat, n: nat)
    requires i + n <= |os| && Declined(At(c, os, i))
    ensures Declined(At(c, os, i + n))
  {
    if n > 0 {
      StaysDeclined(c, os, i, n - 1);
      AtStep(c, os, i + n - 1);
      NextDeclined(c, At(c, os, i + n - 1), os[i + n - 1]);
    }
  }

  /** A retry is back at generation when an automatic answer would have been delivered. */
  lemma RetryIsUnderWay(c: Config, os: seq<Oracle>, r: nat)
    requires Pass(c, os, r) && At(c, os, r + 6).node.Rewrite? && !At(c, os, r + 6).s.error
    ensures !(At(c, os, r + 9).node.End? && At(c, os, r + 9).s.route == Some(Auto))
  {
    AtStep(c, os, r + 6);
    AtStep(c, os, r + 7);
    AtStep(c, os, r + 8);
  }

  ghost predicate EndsAuto(p: Point) { p.node.End? && p.s.route == Some(Auto) }

  /** Once auto was decided it is delivered exactly when the answer is clean. */
  lemma SafetyDecides(c: Config, p: Point, o: Oracle, draft: string)
    requires c.Sane() && p.node.Safety? && !p.s.error && o.fault.Fine?
    requires p.s.answer == Some(draft) && p.s.graded != [] && p.s.route == Some(Auto) && c.texts.words(draft) > 0
    ensures var q := Next(c, p, o);
            if Clean(c, draft, p.s.graded) then
              q == Point(Suggest, p.s.(answer := Some(if c.texts.pii(draft) then c.texts.redact(draft) else draft)))
            else Declined(q)
  {
    SafetyRecords(c, p.s);
  }

  lemma SuggestPasses(c: Config, p: Point, o: Oracle, o': Oracle)
    requires p.node.Suggest? && !o.fault.Escapes? && !o'.fault.Escapes?
    ensures Next(c, Next(c, p, o), o') == Point(End, p.s)
  {
  }

  lemma SafetyToEnd(c: Config, os: seq<Oracle>, r: nat, draft: string)
    requires c.Sane() && Pass(c, os, r) && At(c, os, r + 6).node.Safety? && !At(c, os, r + 6).s.error
    requires var s := At(c, os, r + 6).s;
             s.answer == Some(draft) && s.graded != [] && s.route == Some(Auto) && c.texts.words(draft) > 0
    ensures EndsAuto(At(c, os, r + 9)) <==> Clean(c, draft, At(c, os, r + 6).s.graded)
    ensures EndsAuto(At(c, os, r + 9)) ==>
              At(c, os, r + 9).s == At(c, os, r + 6).s.(answer := Some(if c.texts.pii(draft) then c.texts.redact(draft)
                                                                       else draft))
  {
    AtStep(c, os, r + 6);
    SafetyDecides(c, At(c, os, r + 6), os[r + 6], draft);
    if Clean(c, draft, At(c, os, r + 6).s.graded) {
      AtStep(c, os, r + 7);
      AtStep(c, os, r + 8);
      SuggestPasses(c, At(c, os, r + 7), os[r + 7], os[r + 8]);
    } else {
      StaysDeclined(c, os, r + 7, 2);
    }
  }

  /** Pass `r` has replies that let the answer through, and nothing in it carries an injection marker. */
  ghost predicate Granted(c: Config, os: seq<Oracle>, r: nat)
    requires r + 9 <= |os|
  {
    && os[r + 2].generation.Text?
    && Approved(c, os[r + 2].generation.text, Graded(os[r].docs, os[r + 1].keep), os[r + 3], os[r + 4])
    && Clean(c, os[r + 2].generation.text, Graded(os[r].docs, os[r + 1].keep))
  }

  /** After the decision: auto if approved, a retry if the verifier lives and the answer was scored while a retry
      is left, and a human otherwise. */
  lemma PassIsDecided(c: Config, os: seq<Oracle>, r: nat)
    requires c.Sane() && Pass(c, os, r) && os[r + 2].generation.Text?
    ensures var (draft, docs) := (os[r + 2].generation.text, Graded(os[r].docs, os[r + 1].keep));
            var p := At(c, os, r + 6);
            if Approved(c, draft, docs, os[r + 3], os[r + 4]) then
              && At(c, os, r + 5).node.RouteOrRetry? && !At(c, os, r + 5).s.error
              && p == Point(Safety, At(c, os, r + 5).s.(route := Some(Auto)))
            else if !CheckAnswer(c, draft, docs, os[r + 3]).failed && Retriable(c, At(c, os, r).s.iteration, os[r + 4])
            then p.node.Rewrite? && !p.s.error
            else Declined(p)
  {
    var draft, docs := os[r + 2].generation.text, Graded(os[r].docs, os[r + 1].keep);
    PassToDecision(c, os, r);
    ConfirmedIff(c, draft, docs, os[r + 3]);
    if CheckAnswer(c, draft, docs, os[r + 3]).failed {
      StaysDeclined(c, os, r + 4, 2);
    } else {
      AtStep(c, os, r + 5);
      DecisionStep(c, At(c, os, r + 5), os[r + 3], os[r + 4], os[r + 5], draft);
    }
  }

  lemma RouteStep(c: Config, p: Point, o: Oracle)
    requires p.node.RouteOrRetry? && !p.s.error && o.fault.Fine?
    ensures var d := Decide(c, p.s);
            && (d == Auto || d == Retry || d == Human)
            && Next(c, p, o) == Point(if d == Retry then Rewrite else Safety, p.s.(route := Some(d)))
  {
  }

  lemma DecisionStep(c: Config, p: Point, ver: Oracle, eval: Oracle, o: Oracle, draft: string)
    requires p.node.RouteOrRetry? && o.fault.Fine?
    requires p.s.complexity != Simple && !p.s.error && p.s.answer == Some(draft)
    requires (p.s.check, p.s.scores) == Evaluation(c, Judge(c, p.s.complexity), ShownDocs(p.s), draft,
                                                   CheckAnswer(c, draft, p.s.graded, ver), eval)
    ensures var q := Next(c, p, o);
            if Approved(c, draft, p.s.graded, ver, eval) then q == Point(Safety, p.s.(route := Some(Auto)))
            else if Retriable(c, p.s.iteration, eval) then q.node.Rewrite? && !q.s.error
            else Declined(q)
  {
    RouteStep(c, p, o);
    ApprovedIff(c, p.s, draft, ver, eval);
  }

  /** A pass without a failing node ends in auto exactly when it was granted. */
  lemma PassEndsAutoIff(c: Config, os: seq<Oracle>, r: nat)
    requires c.Sane() && Pass(c, os, r)
    ensures EndsAuto(At(c, os, r + 9)) <==> Granted(c, os, r)
  {
    if os[r + 2].generation.ProviderUnavailable? {
      PassToDraft(c, os, r);
      DraftRecords(At(c, os, r).s, os[r], os[r + 1], os[r + 2]);
      StaysDeclined(c, os, r + 3, 6);
    } else {
      var draft := os[r + 2].generation.text;
      PassIsDecided(c, os, r);
      if Approved(c, draft, Graded(os[r].docs, os[r + 1].keep), os[r + 3], os[r + 4]) {
        PassToDecision(c, os, r);
        ConfirmedIff(c, draft, Graded(os[r].docs, os[r + 1].keep), os[r + 3]);
        SafetyToEnd(c, os, r, draft);
      } else if Declined(At(c, os, r + 6)) {
        StaysDeclined(c, os, r + 6, 3);
      } else {
        RetryIsUnderWay(c, os, r);
      }
    }
  }

  // ----- Whole runs -----

  /** Nodes since the retrieval of the same pass. */
  function Depth(n: Node): nat {
    match n
    case Grade => 1
    case Generate => 2
    case Verify => 3
    case Evaluate => 4
    case RouteOrRetry => 5
    case _ => 0
  }

  lemma Predecessor(c: Config, p: Point, o: Oracle)
    requires Inv(c, p) && !Stopped(p)
    requires var q := Next(c, p, o); !q.s.error && q.s.complexity != Simple && Depth(q.node) > 0
    ensures var q := Next(c, p, o);
            && !p.s.error && o.fault.Fine? && p.s.complexity == q.s.complexity
            && Depth(p.node) + 1 == Depth(q.node) && (Depth(p.node) == 0 ==> p.node.Retrieve?)
  {
  }

  /** Inside a pass of a question that is not simple. */
  predicate Passing(p: Point) { !p.s.error && p.s.complexity != Simple && (Depth(p.node) > 0 || p.node.Retrieve?) }

  /** Back from a node of a pass to its retrieval. */
  lemma {:induction false} BackToRetrieval(c: Config, os: seq<Oracle>, i: nat)
    requires c.Sane() && i <= |os| && Passing(At(c, os, i))
    ensures var d := Depth(At(c, os, i).node);
            && d <= i && Passing(At(c, os, i - d)) && At(c, os, i - d).node.Retrieve?
            && forall j :: i - d <= j < i ==> os[j].fault.Fine?
  {
    if Depth(At(c, os, i).node) > 0 {
      AtStart(c, os);
      AtStep(c, os, i - 1);
      AtInv(c, os, i - 1);
      Predecessor(c, At(c, os, i - 1), os[i - 1]);
      BackToRetrieval(c, os, i - 1);
    }
  }

  /** Nodes since auto was decided, for a record routed to auto. */
  function AutoDepth(n: Node): nat {
    match n
    case Safety => 1
    case Suggest => 2
    case Log => 3
    case End => 4
    case _ => 0
  }

  predicate Automatic(p: Point) { p.s.route == Some(Auto) && AutoDepth(p.node) > 0 }

  predicate OneAutoBack(p: Point, o: Oracle, q: Point) {
    && !p.s.error && p.s.complexity == q.s.complexity && !o.fault.Escapes?
    && (if q.node.Safety? then p.node.RouteOrRetry? else Automatic(p) && AutoDepth(p.node) + 1 == AutoDepth(q.node))
    && (q.node.Safety? || q.node.Suggest? ==> o.fault.Fine?)
  }

  lemma AutoPredecessor(c: Config, p: Point, o: Oracle)
    requires Inv(c, p) && !Stopped(p) && Automatic(Next(c, p, o))
    ensures OneAutoBack(p, o, Next(c, p, o))
  {
  }

  lemma AutoStep(c: Config, os: seq<Oracle>, i: nat)
    requires c.Sane() && i <= |os| && Automatic(At(c, os, i))
    ensures i > 0
    ensures OneAutoBack(At(c, os, i - 1), os[i - 1], At(c, os, i)) || At(c, os, i) == At(c, os, i - 1)
    ensures !At(c, os, i).node.End? ==> OneAutoBack(At(c, os, i - 1), os[i - 1], At(c, os, i))
  {
    AtStart(c, os);
    if i > 0 {
      AtStep(c, os, i - 1);
      AtInv(c, os, i - 1);
      if !Stopped(At(c, os, i - 1)) { AutoPredecessor(c, At(c, os, i - 1), os[i - 1]); }
    }
  }

  /** Back from the log node to the decision for auto. */
  lemma BackToDecision(c: Config, os: seq<Oracle>, i: nat)
    requires c.Sane() && i <= |os| && Automatic(At(c, os, i)) && At(c, os, i).node.Log?
    ensures i >= 3 && At(c, os, i - 3).node.RouteOrRetry? && !At(c, os, i - 3).s.error
    ensures At(c, os, i - 3).s.complexity == At(c, os, i).s.complexity
    ensures os[i - 3].fault.Fine? && os[i - 2].fault.Fine? && !os[i - 1].fault.Escapes?
  {
    AutoStep(c, os, i);
    AutoStep(c, os, i - 1);
    AutoStep(c, os, i - 2);
  }

  lemma EndStays(c: Config, os: seq<Oracle>, i: nat)
    requires i <= |os| && At(c, os, i).node.End?
    ensures Run(c, START, os) == At(c, os, i)
    decreases |os| - i
  {
    if i == |os| {
      AtIsRun(c, os, i);
      assert os[..i] == os;
    } else {
      AtStep(c, os, i);
      EndStays(c, os, i + 1);
    }
  }

  /** Every run that ended in auto went through a pass without a failing node. */
  lemma {:induction false} AutoHasPass(c: Config, os: seq<Oracle>, i: nat)
    requires c.Sane() && i <= |os| && EndsAuto(At(c, os, i))
    ensures exists r: nat :: r + 9 <= i && Pass(c, os, r) && EndsAuto(At(c, os, r + 9))
  {
    AutoStep(c, os, i);
    if At(c, os, i - 1).node.End? {
      AutoHasPass(c, os, i - 1);
    } else {
      AtInv(c, os, i);
      BackToDecision(c, os, i - 1);
      BackToRetrieval(c, os, i - 4);
      assert Pass(c, os, i - 9);
    }
  }

  /** The record shows the replies of a pass: the retrieved documents, those grading kept, the generated text
      with PII redacted, every extracted line as a supported and bound claim with the verifier's evidence,
      and the judge's figures. */
  ghost predicate Shows(c: Config, s: State, ret: Oracle, grade: Oracle, gen: Oracle, ver: Oracle, eval: Oracle) {
    && s.context == ret.docs && s.graded == Graded(ret.docs, grade.keep)
    && gen.generation.Text?
    && s.answer == Some(if c.texts.pii(gen.generation.text) then c.texts.redact(gen.generation.text)
                        else gen.generation.text)
    && ver.extraction.Lines? && |s.check.claims| == |ver.extraction.lines| == s.check.extracted
    && (forall i: nat :: i < |s.check.claims| ==>
          && s.check.claims[i].text == ver.extraction.lines[i] && s.check.claims[i].supported && s.check.claims[i].bound
          && ver.extraction.verdict(i) == Judged(true, s.check.claims[i].evidence))
    && s.check.grounding.Verified? && s.check.factuality == 100
    && eval.judgement.Score?
    && (var n := eval.judgement.n; s.scores.quality == Some(if n < 1 then 1 else if n > 100 then 100 else n))
    && s.scores.relevance == eval.relevance && s.scores.judge == Some(JudgePolicy.Ok)
    && (s.scores.independent <==> !SameModel(c.fast, c.strong))
  }

  lemma ApprovedShows(c: Config, s: State, draft: string, ver: Oracle, eval: Oracle)
    requires s.complexity != Simple && Approved(c, draft, s.graded, ver, eval)
    requires (s.check, s.scores) == Evaluation(c, Judge(c, s.complexity), ShownDocs(s), draft,
                                               CheckAnswer(c, draft, s.graded, ver), eval)
    ensures && ver.extraction.Lines? && |s.check.claims| == |ver.extraction.lines| == s.check.extracted
            && (forall i: nat :: i < |s.check.claims| ==>
                  && s.check.claims[i].text == ver.extraction.lines[i]
                  && s.check.claims[i].supported && s.check.claims[i].bound
                  && ver.extraction.verdict(i) == Judged(true, s.check.claims[i].evidence))
            && s.check.grounding.Verified? && s.check.factuality == 100
            && (var n := eval.judgement.n; s.scores.quality == Some(if n < 1 then 1 else if n > 100 then 100 else n))
            && s.scores.relevance == eval.relevance && s.scores.judge == Some(JudgePolicy.Ok)
            && (s.scores.independent <==> !SameModel(c.fast, c.strong))
  {
    ConfirmedIff(c, draft, s.graded, ver);
    ClaimsFollowVerdicts(c, draft, s.graded, ver);
    JudgeChoice(c, s.complexity);
  }

  lemma GrantedShows(c: Config, os: seq<Oracle>, r: nat)
    requires c.Sane() && Pass(c, os, r) && Granted(c, os, r)
    ensures EndsAuto(At(c, os, r + 9))
    ensures Shows(c, At(c, os, r + 9).s, os[r], os[r + 1], os[r + 2], os[r + 3], os[r + 4])
  {
    var draft, docs := os[r + 2].generation.text, Graded(os[r].docs, os[r + 1].keep);
    PassIsDecided(c, os, r);
    PassToDecision(c, os, r);
    ConfirmedIff(c, draft, docs, os[r + 3]);
    ApprovedShows(c, At(c, os, r + 5).s, draft, os[r + 3], os[r + 4]);
    SafetyToEnd(c, os, r, draft);
  }

  /** A run ends in auto exactly when some pass of it, over a question that is not simple, ran without a failing
      node on replies that let the answer through. */
  lemma AutoIffGranted(c: Config, os: seq<Oracle>)
    requires c.Sane()
    ensures EndsAuto(Run(c, START, os)) <==> exists r: nat :: r + 9 <= |os| && Pass(c, os, r) && Granted(c, os, r)
  {
    if EndsAuto(Run(c, START, os)) {
      AutoIsShown(c, os);
      var r: nat :| ShownBy(c, os, r);
      assert Granted(c, os, r);
    }
    if r: nat :| r + 9 <= |os| && Pass(c, os, r) && Granted(c, os, r) {
      PassEndsAutoIff(c, os, r);
      EndStays(c, os, r + 9);
    }
  }

  ghost predicate ShownBy(c: Config, os: seq<Oracle>, r: nat) {
    && r + 9 <= |os| && Pass(c, os, r) && Granted(c, os, r)
    && Shows(c, Run(c, START, os).s, os[r], os[r + 1], os[r + 2], os[r + 3], os[r + 4])
  }

  /** And then the record at the end shows the replies of that very pass. */
  lemma AutoIsShown(c: Config, os: seq<Oracle>)
    requires c.Sane() && EndsAuto(Run(c, START, os))
    ensures exists r: nat :: ShownBy(c, os, r)
  {
    AtIsRun(c, os, |os|);
    assert os[..|os|] == os;
    AutoHasPass(c, os, |os|);
    var r: nat :| r + 9 <= |os| && Pass(c, os, r) && EndsAuto(At(c, os, r + 9));
    PassEndsAutoIff(c, os, r);
    EndStays(c, os, r + 9);
    GrantedShows(c, os, r);
    assert ShownBy(c, os, r);
  }
}
