/** Claim grounding: citation binding and the grounding status (agent/grounding.py).

    Text matching is abstract: a `Matcher` says which numbers a text cites and whether a document
    supports a piece of text. */
module Grounding {
  import opened Options

  datatype GroundingStatus = Verified | Unsupported | NotVerified

  /** The numbers in `[N]` markers of a text, the overlap test of a claim or quote with a document,
      and surrounding-whitespace removal. */
  datatype Matcher = Matcher(cites: string -> set<nat>, supports: (string, string) -> bool, strip: string -> string)

  datatype SourceKey = SourceKey(source: string, contentHash: string)

  /** A retrieved document: text, logical source (`None` when no source is recorded), whether it is a
      context-header shell without content, and the rest of its metadata. */
  datatype Doc = Doc(content: string, key: Option<SourceKey>, headerOnly: bool, metadata: map<string, string>)

  datatype Claim = Claim(text: string, supported: bool, evidence: string, bound: bool, indices: seq<nat>)

  // ----- Sorted citation indices -----

  function Min(s: set<nat>): (m: nat)
    requires s != {}
    ensures m in s && forall x :: x in s ==> m <= x
  {
    var x :| x in s;
    MinExists(s, x);
    var m :| m in s && forall y :: y in s ==> m <= y;
    m
  }

  lemma {:induction false} MinExists(s: set<nat>, x: nat)
    requires x in s
    ensures exists m :: m in s && forall y :: y in s ==> m <= y
    decreases x
  {
    if y :| y in s && y < x {
      MinExists(s, y);
    } else {
      assert forall y :: y in s ==> x <= y;
    }
  }

  predicate Increasing(s: seq<nat>) {
    forall a, b :: 0 <= a < b < |s| ==> s[a] < s[b]
  }

  /** The elements of a set in increasing order. */
  function Ascending(s: set<nat>): (r: seq<nat>)
    ensures forall i :: i in r <==> i in s
    ensures Increasing(r)
    decreases s
  {
    if s == {} then []
    else
      var m := Min(s);
      var rest := Ascending(s - {m});
      ConsIncreasing(m, rest);
      assert s == {m} + (s - {m});
      [m] + rest
  }

  lemma ConsIncreasing(x: nat, rest: seq<nat>)
    requires Increasing(rest) && forall i :: i in rest ==> x < i
    ensures Increasing([x] + rest)
  {
    forall k | 0 <= k < |rest| ensures x < rest[k] { assert rest[k] in rest; }
  }

  lemma EmptyOrElement(r: seq<nat>)
    ensures r == [] || exists i :: i in r
  {
    if r != [] { assert r[0] in r; }
  }

  lemma ListingStep(r: seq<nat>, s: set<nat>)
    requires s != {} && Increasing(r) && forall i :: i in r <==> i in s
    ensures r != [] && r[0] == Min(s) && Increasing(r[1..])
    ensures forall i :: i in r[1..] <==> i in s - {Min(s)}
  {
    var m := Min(s);
    var at :| 0 <= at < |r| && r[at] == m;
    assert r[0] in s;
    assert r == [r[0]] + r[1..];
    forall k | 0 <= k < |r[1..]| ensures r[1..][k] > r[0] { assert r[1..][k] == r[k + 1]; }
  }

  /** A set has one increasing listing. */
  lemma {:induction false} AscendingIsUnique(r: seq<nat>, s: set<nat>)
    requires Increasing(r) && forall i :: i in r <==> i in s
    ensures r == Ascending(s)
    decreases s
  {
    EmptyOrElement(r);
    if s != {} {
      ListingStep(r, s);
      AscendingIsUnique(r[1..], s - {Min(s)});
      assert r == [r[0]] + r[1..];
    }
  }

  function CitationIndices(m: Matcher, text: string): seq<nat> {
    Ascending(set i | i in m.cites(text) && i >= 1)
  }

  // ----- Binding -----

  function Content(docs: seq<Doc>, i: nat): string {
    if 1 <= i <= |docs| then docs[i - 1].content else ""
  }

  /** An index that names a document with visible text. */
  predicate Citable(m: Matcher, docs: seq<Doc>, i: nat) {
    1 <= i <= |docs| && m.strip(Content(docs, i)) != ""
  }

  predicate Backs(m: Matcher, c: Claim, text: string) {
    || (m.strip(c.evidence) != "" && m.supports(m.strip(c.evidence), text))
    || (m.strip(c.text) != "" && m.supports(m.strip(c.text), text))
  }

  /** The documents a supported claim is bound to: cited in the answer, in range, not blank, backing
      the claim, and among the claim's own `[N]` markers if it has any. */
  predicate BindsTo(m: Matcher, answer: string, c: Claim, docs: seq<Doc>, i: nat) {
    && c.supported && i >= 1 && i in m.cites(answer) && Citable(m, docs, i) && Backs(m, c, Content(docs, i))
    && (CitationIndices(m, m.strip(c.text)) == [] || i in CitationIndices(m, m.strip(c.text)))
  }

  function BoundIndices(m: Matcher, answer: string, c: Claim, docs: seq<Doc>): seq<nat> {
    Ascending(set i | i in m.cites(answer) && BindsTo(m, answer, c, docs, i))
  }

  function BindClaim(m: Matcher, answer: string, c: Claim, docs: seq<Doc>): Claim {
    var found := BoundIndices(m, answer, c, docs);
    c.(bound := found != [], indices := found)
  }

  predicate AnyCitable(m: Matcher, answer: string, docs: seq<Doc>) {
    exists i :: i in m.cites(answer) && Citable(m, docs, i)
  }

  function Unbound(c: Claim, indices: seq<nat>): Claim { c.(bound := false, indices := indices) }

  function UnboundAll(claims: seq<Claim>, indices: seq<nat>): (r: seq<Claim>)
    ensures |r| == |claims| && forall k :: 0 <= k < |r| ==> r[k] == Unbound(claims[k], indices)
  {
    seq(|claims|, k requires 0 <= k < |claims| => Unbound(claims[k], indices))
  }

  function BindAll(m: Matcher, answer: string, claims: seq<Claim>, docs: seq<Doc>): (r: seq<Claim>)
    ensures |r| == |claims| && forall k :: 0 <= k < |r| ==> r[k] == BindClaim(m, answer, claims[k], docs)
  {
    seq(|claims|, k requires 0 <= k < |claims| => BindClaim(m, answer, claims[k], docs))
  }

  /** The updated claims, and `NotVerified` when the answer cites nothing usable. */
  function BindClaims(m: Matcher, answer: string, claims: seq<Claim>, docs: seq<Doc>)
    : (seq<Claim>, Option<GroundingStatus>)
  {
    if claims == [] then ([], None)
    else if AnyCitable(m, answer, docs) then (BindAll(m, answer, claims, docs), None)
    else (UnboundAll(claims, CitationIndices(m, answer)), Some(NotVerified))
  }

  /** `[i for i in s if i in t]`. */
  function Among(s: seq<nat>, t: seq<nat>): (r: seq<nat>)
    ensures forall i :: i in r <==> i in s && i in t
  {
    if s == [] then [] else (if s[0] in t then [s[0]] else []) + Among(s[1..], t)
  }

  lemma {:induction false} AmongIncreasing(s: seq<nat>, t: seq<nat>)
    requires Increasing(s)
    ensures Increasing(Among(s, t))
  {
    if s != [] {
      AmongIncreasing(s[1..], t);
      TailAbove(s);
      if s[0] in t { ConsIncreasing(s[0], Among(s[1..], t)); }
    }
  }

  lemma TailAbove(s: seq<nat>)
    requires s != [] && Increasing(s)
    ensures Increasing(s[1..]) && forall i :: i in s[1..] ==> s[0] < i
  {
    forall i | i in s[1..] ensures s[0] < i {
      var j :| 0 <= j < |s[1..]| && s[1..][j] == i;
      assert s[j + 1] == i;
    }
  }

  /** `[i for i in s if i in cited and the document backs the claim]`. */
  function Backed(m: Matcher, c: Claim, docs: seq<Doc>, s: seq<nat>, cited: seq<nat>): (r: seq<nat>)
    ensures forall i :: i in r <==> i in s && i in cited && Backs(m, c, Content(docs, i))
  {
    if s == [] then []
    else (if s[0] in cited && Backs(m, c, Content(docs, s[0])) then [s[0]] else []) + Backed(m, c, docs, s[1..], cited)
  }

  /** The claim's own markers can only narrow the binding: when their intersection with the backing
      documents is empty, so is the code's fallback over the markers. */
  lemma FallbackAddsNothing(m: Matcher, c: Claim, docs: seq<Doc>, cited: seq<nat>, bound: seq<nat>, local: seq<nat>)
    requires forall i :: i in bound <==> i in cited && Backs(m, c, Content(docs, i))
    requires Among(bound, local) == []
    ensures Backed(m, c, docs, local, cited) == []
  {
    var fallback := Backed(m, c, docs, local, cited);
    assert forall i :: i in fallback ==> i in Among(bound, local);
    EmptyOrElement(fallback);
  }

  /** What the loop below must have collected for the binding to be complete. */
  lemma ListsBinding(m: Matcher, answer: string, c: Claim, docs: seq<Doc>, cited: seq<nat>, bound: seq<nat>)
    requires forall i :: i in cited <==> i in m.cites(answer) && i >= 1 && Citable(m, docs, i)
    requires Increasing(bound)
    requires var local := CitationIndices(m, m.strip(c.text));
             forall i :: i in bound <==>
               c.supported && i in cited && Backs(m, c, Content(docs, i)) && (local == [] || i in local)
    ensures bound == BoundIndices(m, answer, c, docs)
  {
    var s := set i | i in m.cites(answer) && BindsTo(m, answer, c, docs, i);
    forall i ensures i in bound <==> i in s {}
    AscendingIsUnique(bound, s);
  }

  /** The binding loop of one claim over the cited documents, as the code runs it: collect, then
      narrow to the claim's own markers, falling back to the markers themselves. */
  method BindOne(m: Matcher, answer: string, c: Claim, docs: seq<Doc>, cited: seq<nat>) returns (bound: seq<nat>)
    requires Increasing(cited) && forall i :: i in cited <==> i in m.cites(answer) && i >= 1 && Citable(m, docs, i)
    ensures bound == BoundIndices(m, answer, c, docs)
  {
    bound := [];
    if c.supported {
      var evidence, text := m.strip(c.evidence), m.strip(c.text);
      for k := 0 to |cited|
        invariant Increasing(bound)
        invariant forall i :: i in bound <==> i in cited[..k] && Backs(m, c, Content(docs, i))
        invariant forall j :: 0 <= j < |bound| && k < |cited| ==> bound[j] < cited[k]
      {
        var i := cited[k];
        assert cited[..k + 1] == cited[..k] + [i];
        if evidence != "" && m.supports(evidence, Content(docs, i)) {
          bound := bound + [i];
        } else if text != "" && m.supports(text, Content(docs, i)) {
          bound := bound + [i];
        }
      }
      assert cited[..|cited|] == cited;
      var local := CitationIndices(m, text);
      if local != [] {
        var narrowed := Among(bound, local);
        AmongIncreasing(bound, local);
        if narrowed == [] {
          FallbackAddsNothing(m, c, docs, cited, bound, local);
          narrowed := Backed(m, c, docs, local, cited);
        }
        bound := narrowed;
      }
    }
    ListsBinding(m, answer, c, docs, cited, bound);
  }

  /** The `cited_texts` loop: the answer's indices that name a document with visible text. When the
      answer has no index at all the result is empty, as in the code's earlier return. */
  method CitedTexts(m: Matcher, answer: string, docs: seq<Doc>) returns (cited: seq<nat>)
    ensures Increasing(cited)
    ensures forall i :: i in cited <==> i in m.cites(answer) && i >= 1 && Citable(m, docs, i)
  {
    var indices := CitationIndices(m, answer);
    cited := [];
    for k := 0 to |indices|
      invariant Increasing(cited)
      invariant forall i :: i in cited <==> i in indices[..k] && Citable(m, docs, i)
      invariant forall j :: 0 <= j < |cited| && k < |indices| ==> cited[j] < indices[k]
    {
      assert indices[..k + 1] == indices[..k] + [indices[k]];
      if Citable(m, docs, indices[k]) {
        cited := cited + [indices[k]];
      }
    }
    assert indices[..|indices|] == indices;
  }

  method ApplyCitationBoundClaims(m: Matcher, answer: string, claims: seq<Claim>, docs: seq<Doc>)
    returns (updated: seq<Claim>, override: Option<GroundingStatus>)
    ensures (updated, override) == BindClaims(m, answer, claims, docs)
  {
    if claims == [] {
      return [], None;
    }
    var indices := CitationIndices(m, answer);
    var cited := CitedTexts(m, answer, docs);
    EmptyOrElement(cited);
    if cited == [] {
      return UnboundAll(claims, indices), Some(NotVerified);
    }
    updated := [];
    for k := 0 to |claims|
      invariant |updated| == k && forall j :: 0 <= j < k ==> updated[j] == BindClaim(m, answer, claims[j], docs)
    {
      var bound := BindOne(m, answer, claims[k], docs, cited);
      updated := updated + [claims[k].(bound := bound != [], indices := bound)];
    }
    override := None;
    assert updated == BindAll(m, answer, claims, docs);
  }

  /** Document `i` is cited by the answer, in range, not blank, backs the evidence or the text, and is
      not ruled out by markers in the text itself. */
  predicate GroundedBy(m: Matcher, answer: string, text: string, evidence: string, docs: seq<Doc>, i: nat) {
    && i in m.cites(answer) && 1 <= i <= |docs| && m.strip(docs[i - 1].content) != ""
    && ((m.strip(evidence) != "" && m.supports(m.strip(evidence), docs[i - 1].content))
        || (m.strip(text) != "" && m.supports(m.strip(text), docs[i - 1].content)))
    && ((forall n :: n in m.cites(m.strip(text)) ==> n < 1) || i in m.cites(m.strip(text)))
  }

  lemma BindsIff(m: Matcher, answer: string, c: Claim, docs: seq<Doc>, i: nat)
    ensures BindsTo(m, answer, c, docs, i) <==> c.supported && GroundedBy(m, answer, c.text, c.evidence, docs, i)
  {
    var own := CitationIndices(m, m.strip(c.text));
    EmptyOrElement(own);
    if n :| n in m.cites(m.strip(c.text)) && n >= 1 { assert n in own; }
  }

  /** The bound indices of a claim are the documents that ground it, in order, if it is supported, and
      none otherwise. */
  lemma BoundToGrounds(m: Matcher, answer: string, c: Claim, docs: seq<Doc>)
    ensures var r := BoundIndices(m, answer, c, docs);
            && Increasing(r)
            && forall i: nat :: i in r <==> c.supported && GroundedBy(m, answer, c.text, c.evidence, docs, i)
  {
    forall i: nat
      ensures i in BoundIndices(m, answer, c, docs)
              <==> c.supported && GroundedBy(m, answer, c.text, c.evidence, docs, i)
    {
      BindsIff(m, answer, c, docs, i);
    }
  }

  /** A bound claim is supported and has at least one index; each index occurs in the answer, is in
      range, and names a non-blank document that backs the claim. */
  lemma BindingIsSound(m: Matcher, answer: string, claims: seq<Claim>, docs: seq<Doc>, k: nat, i: nat)
    requires k < |claims|
    ensures var c := BindClaims(m, answer, claims, docs).0[k];
            && (c.bound ==> c.supported && c.indices != [])
            && (c.bound && i in c.indices ==> GroundedBy(m, answer, claims[k].text, claims[k].evidence, docs, i))
  {
    BoundToGrounds(m, answer, claims[k], docs);
    EmptyOrElement(BoundIndices(m, answer, claims[k], docs));
  }

  /** And a claim is bound whenever such an index exists. */
  lemma BoundIff(m: Matcher, answer: string, claims: seq<Claim>, docs: seq<Doc>, k: nat)
    requires k < |claims|
    ensures BindClaims(m, answer, claims, docs).0[k].bound
            <==> && claims[k].supported
                 && exists i :: GroundedBy(m, answer, claims[k].text, claims[k].evidence, docs, i)
  {
    BoundToGrounds(m, answer, claims[k], docs);
    EmptyOrElement(BoundIndices(m, answer, claims[k], docs));
    if i :| GroundedBy(m, answer, claims[k].text, claims[k].evidence, docs, i) {
      assert Citable(m, docs, i);
    }
  }

  /** Binding rewrites two fields of every claim and no other. The status is overridden exactly when there
      are claims and no marker of the answer names a document with visible text; then every claim carries
      all the markers, unbound. Otherwise it carries all the documents that ground it. */
  lemma BindingRewrites(m: Matcher, answer: string, claims: seq<Claim>, docs: seq<Doc>)
    ensures var (r, override) := BindClaims(m, answer, claims, docs);
            && |r| == |claims|
            && (override == Some(NotVerified) || override == None)
            && (override == None
                <==> claims == []
                     || exists i :: i in m.cites(answer) && 1 <= i <= |docs| && m.strip(docs[i - 1].content) != "")
            && (forall k :: 0 <= k < |r| ==>
                  && r[k].text == claims[k].text && r[k].supported == claims[k].supported
                  && r[k].evidence == claims[k].evidence && (r[k].bound <==> override == None && r[k].indices != [])
                  && Increasing(r[k].indices)
                  && forall i: nat :: i in r[k].indices <==>
                       if override == None
                       then r[k].supported && GroundedBy(m, answer, r[k].text, r[k].evidence, docs, i)
                       else i in m.cites(answer) && i >= 1)
  {
    var (r, override) := BindClaims(m, answer, claims, docs);
    CitableIff(m, answer, docs);
    forall k | 0 <= k < |r|
      ensures Increasing(r[k].indices)
              && forall i: nat :: i in r[k].indices <==>
                   if override == None
                   then r[k].supported && GroundedBy(m, answer, r[k].text, r[k].evidence, docs, i)
                   else i in m.cites(answer) && i >= 1
    {
      BoundToGrounds(m, answer, claims[k], docs);
    }
  }

  lemma CitableIff(m: Matcher, answer: string, docs: seq<Doc>)
    ensures AnyCitable(m, answer, docs)
            <==> exists i :: i in m.cites(answer) && 1 <= i <= |docs| && m.strip(docs[i - 1].content) != ""
  {
    if i :| i in m.cites(answer) && 1 <= i <= |docs| && m.strip(docs[i - 1].content) != "" {
      assert Citable(m, docs, i);
    }
  }

  // ----- Grounding status -----

  /** Status, factuality score, and whether verification was skipped. */
  datatype Measured = Measured(status: GroundingStatus, factuality: int, skipped: bool)

  const SKIPPED := Measured(NotVerified, 0, true)
  const SHORT_ANSWER := Measured(NotVerified, 0, false)
  const NO_CLAIMS := Measured(GroundingStatus.Verified, 0, false)
  const NO_PARSE := Measured(NotVerified, 0, false)

  predicate Effective(c: Claim, requireBound: bool) { c.supported && (requireBound ==> c.bound) }

  function CountEffective(claims: seq<Claim>, requireBound: bool): nat {
    if claims == [] then 0
    else (if Effective(claims[0], requireBound) then 1 else 0) + CountEffective(claims[1..], requireBound)
  }

  function StatusForClaims(claims: seq<Claim>, requireBound: bool): Measured {
    if claims == [] then NO_PARSE
    else
      var supported := CountEffective(claims, requireBound);
      Measured(if supported == |claims| then GroundingStatus.Verified else Unsupported,
               100 * supported / |claims|, false)
  }

  function TruncatedCoverage(extracted: nat, verified: nat, maxClaims: nat): Option<GroundingStatus> {
    if extracted > maxClaims && verified < extracted then Some(NotVerified) else None
  }

  lemma {:induction false} CountBounds(claims: seq<Claim>, requireBound: bool)
    ensures CountEffective(claims, requireBound) <= |claims|
    ensures CountEffective(claims, requireBound) == |claims| <==>
            forall k :: 0 <= k < |claims| ==> Effective(claims[k], requireBound)
  {
    if claims != [] {
      CountBounds(claims[1..], requireBound);
      if forall k :: 0 <= k < |claims[1..]| ==> Effective(claims[1..][k], requireBound) {
        assert forall k :: 0 < k < |claims| ==> claims[k] == claims[1..][k - 1];
      } else {
        var k :| 0 <= k < |claims[1..]| && !Effective(claims[1..][k], requireBound);
        assert claims[k + 1] == claims[1..][k];
      }
    }
  }

  lemma {:induction false} CountIsSize(claims: seq<Claim>, n: nat)
    requires n <= |claims|
    ensures CountEffective(claims[|claims| - n..], true)
            == |set k | |claims| - n <= k < |claims| && claims[k].supported && claims[k].bound|
  {
    var from := |claims| - n;
    var counted := set k | from <= k < |claims| && claims[k].supported && claims[k].bound;
    if n > 0 {
      CountIsSize(claims, n - 1);
      var later := set k | from + 1 <= k < |claims| && claims[k].supported && claims[k].bound;
      assert claims[from..][1..] == claims[from + 1..];
      if claims[from].supported && claims[from].bound {
        assert counted == later + {from};
      } else {
        assert counted == later;
      }
    }
  }

  /** The score is the whole percentage of the claims that are supported and bound. */
  lemma ScoreIsPercentage(claims: seq<Claim>)
    ensures var g := StatusForClaims(claims, true);
            var counted := set k | 0 <= k < |claims| && claims[k].supported && claims[k].bound;
            && !g.skipped
            && (if claims == [] then g.factuality == 0
                else g.factuality * |claims| <= 100 * |counted| < g.factuality * |claims| + |claims|)
            && (g.status.NotVerified? <==> claims == [])
            && (g.status.Unsupported? <==> |counted| < |claims|)
  {
    var counted := set k | 0 <= k < |claims| && claims[k].supported && claims[k].bound;
    CountIsSize(claims, |claims|);
    assert claims[0..] == claims;
    CountBounds(claims, true);
    if claims != [] { Quotient(100 * |counted|, |claims|); }
  }

  lemma Quotient(x: nat, whole: nat)
    requires whole > 0
    ensures x / whole * whole <= x < x / whole * whole + whole
  {
  }

  /** Verified means every claim of a non-empty list counts, and exactly then the score is 100. */
  lemma StatusMeaning(claims: seq<Claim>, requireBound: bool)
    ensures var g := StatusForClaims(claims, requireBound);
            && 0 <= g.factuality <= 100
            && (g.status.Verified?
                <==> claims != [] && forall k :: 0 <= k < |claims| ==> Effective(claims[k], requireBound))
            && (g.status.Verified? <==> g.factuality == 100)
  {
    CountBounds(claims, requireBound);
    if claims != [] { Percent(CountEffective(claims, requireBound), |claims|); }
  }

  lemma TimesMonotone(a: int, b: int, whole: nat)
    requires a <= b
    ensures a * whole <= b * whole
  {
  }

  lemma QuotientMonotone(x: nat, y: nat, whole: nat, p: nat, q: nat)
    requires x <= y && whole > 0 && p * whole <= x && y < q * whole + whole
    ensures p <= q
  {
    if p >= q + 1 { TimesMonotone(q + 1, p, whole); }
  }

  lemma Percent(part: nat, whole: nat)
    requires part <= whole && whole > 0
    ensures 0 <= 100 * part / whole <= 100
    ensures 100 * part / whole == 100 <==> part == whole
  {
    var q := 100 * part / whole;
    QuotientMonotone(100 * part, 100 * whole, whole, q, 100);
    if part == whole { QuotientMonotone(100 * whole, 100 * part, whole, 100, q); }
  }

  lemma PercentMonotone(a: nat, b: nat, whole: nat)
    requires a <= b && whole > 0
    ensures 100 * a / whole <= 100 * b / whole
  {
    QuotientMonotone(100 * a, 100 * b, whole, 100 * a / whole, 100 * b / whole);
  }

  // ----- More documents never hurt -----

  lemma {:induction false} CountGrows(a: seq<Claim>, b: seq<Claim>)
    requires |a| == |b| && forall k :: 0 <= k < |a| ==> Effective(a[k], true) ==> Effective(b[k], true)
    ensures CountEffective(a, true) <= CountEffective(b, true)
  {
    if a != [] {
      forall k | 0 <= k < |a[1..]| && Effective(a[1..][k], true) ensures Effective(b[1..][k], true) {
        assert Effective(a[k + 1], true);
      }
      CountGrows(a[1..], b[1..]);
    }
  }

  /** Appending documents never lowers the score and never turns verified claims into unverified ones. */
  lemma MoreDocsNeverHurt(m: Matcher, answer: string, claims: seq<Claim>, docs: seq<Doc>, more: seq<Doc>)
    ensures var (a, x) := BindClaims(m, answer, claims, docs);
            var (b, y) := BindClaims(m, answer, claims, docs + more);
            && |a| == |b| == |claims|
            && (forall k :: 0 <= k < |claims| && a[k].bound ==> b[k].bound)
            && (x == None ==> y == None)
            && StatusForClaims(a, true).factuality <= StatusForClaims(b, true).factuality
  {
    var (a, x) := BindClaims(m, answer, claims, docs);
    var (b, y) := BindClaims(m, answer, claims, docs + more);
    if claims != [] {
      if i :| i in m.cites(answer) && Citable(m, docs, i) {
        assert Content(docs + more, i) == Content(docs, i);
        assert Citable(m, docs + more, i);
      }
      forall k | 0 <= k < |claims| && a[k].bound ensures b[k].bound {
        BoundIff(m, answer, claims, docs, k);
        BoundIff(m, answer, claims, docs + more, k);
        var i :| GroundedBy(m, answer, claims[k].text, claims[k].evidence, docs, i);
        assert GroundedBy(m, answer, claims[k].text, claims[k].evidence, docs + more, i);
      }
      forall k | 0 <= k < |claims| ensures a[k].supported == b[k].supported == claims[k].supported {}
      CountGrows(a, b);
      PercentMonotone(CountEffective(a, true), CountEffective(b, true), |claims|);
    }
  }
}
