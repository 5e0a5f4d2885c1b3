/** Document grading: context-header replacement, grade outcome, and batch grades
    (agent/doc_grade.py, agent/graph.py). */
module DocGrade {
  import opened Options
  import opened Grounding

  // ----- Context-header replacement -----

  function HeaderKeys(graded: seq<Doc>): set<SourceKey> {
    set d | d in graded && d.headerOnly && d.key.Some? :: d.key.value
  }

  predicate HasContent(context: seq<Doc>, key: SourceKey) {
    exists d :: d in context && d.key == Some(key) && !d.headerOnly
  }

  function ReplacementKeys(context: seq<Doc>, graded: seq<Doc>): set<SourceKey> {
    set k | k in HeaderKeys(graded) && HasContent(context, k)
  }

  predicate Replaced(keys: set<SourceKey>, d: Doc) { d.key.Some? && d.key.value in keys }

  /** The documents the resolving loop keeps, in retrieval order. */
  function Pick(context: seq<Doc>, keys: set<SourceKey>, graded: seq<Doc>): (r: seq<Doc>)
    ensures forall d :: d in r <==> d in context && (if Replaced(keys, d) then !d.headerOnly else d in graded)
  {
    if context == [] then []
    else
      var d := context[|context| - 1];
      Pick(context[..|context| - 1], keys, graded)
      + (if (if Replaced(keys, d) then !d.headerOnly else d in graded) then [d] else [])
  }

  function Resolved(context: seq<Doc>, graded: seq<Doc>): seq<Doc> {
    var keys := ReplacementKeys(context, graded);
    if keys == {} then graded else Pick(context, keys, graded)
  }

  method ReplaceRelevantContextHeaders(context: seq<Doc>, graded: seq<Doc>) returns (resolved: seq<Doc>)
    ensures resolved == Resolved(context, graded)
  {
    var keys := ReplacementKeys(context, graded);
    if keys == {} {
      return graded;
    }
    resolved := [];
    for k := 0 to |context|
      invariant resolved == Pick(context[..k], keys, graded)
    {
      assert context[..k + 1][..k] == context[..k];
      var d := context[k];
      if d.key.Some? && d.key.value in keys {
        if !d.headerOnly {
          resolved := resolved + [d];
        }
      } else if d in graded {
        resolved := resolved + [d];
      }
    }
    assert context[..|context|] == context;
  }

  /** When grading kept retrieved documents only, so does the replacement; no kept content document
      is lost; and no header shell remains whose source has content among the retrieved documents. */
  lemma ReplacementFacts(context: seq<Doc>, graded: seq<Doc>, d: Doc)
    requires forall x :: x in graded ==> x in context
    ensures d in Resolved(context, graded) ==> d in context
    ensures d in graded && !d.headerOnly ==> d in Resolved(context, graded)
    ensures d in Resolved(context, graded) && d.headerOnly && d.key.Some? ==> !HasContent(context, d.key.value)
  {
    if d in Resolved(context, graded) && d.headerOnly && d.key.Some? {
      assert d in graded;
      assert d.key.value in HeaderKeys(graded);
      assert d.key.value !in ReplacementKeys(context, graded);
    }
  }

  /** Exactly which documents the replacement keeps: where the source of a kept header shell has content
      among the retrieved documents, all its content and none of its shells; elsewhere what was kept. */
  lemma ReplacementIff(context: seq<Doc>, graded: seq<Doc>, d: Doc)
    requires forall x :: x in graded ==> x in context
    ensures d in Resolved(context, graded)
            <==> if && d.key.Some? && (exists h :: h in graded && h.headerOnly && h.key == d.key)
                    && (exists x :: x in context && x.key == d.key && !x.headerOnly)
                 then d in context && !d.headerOnly else d in graded
  {
    if d.key.Some? {
      ReplacedIff(context, graded, d.key.value);
    }
  }

  lemma ReplacedIff(context: seq<Doc>, graded: seq<Doc>, key: SourceKey)
    ensures key in ReplacementKeys(context, graded)
            <==> && (exists h :: h in graded && h.headerOnly && h.key == Some(key))
                 && (exists x :: x in context && x.key == Some(key) && !x.headerOnly)
  {
    if h :| h in graded && h.headerOnly && h.key == Some(key) {
      assert h.key.value in HeaderKeys(graded);
    }
  }

  /** Replacing twice is replacing once. */
  lemma ReplacementIsIdempotent(context: seq<Doc>, graded: seq<Doc>)
    ensures Resolved(context, Resolved(context, graded)) == Resolved(context, graded)
  {
    var once := Resolved(context, graded);
    var keys := ReplacementKeys(context, graded);
    if keys != {} {
      forall k | k in HeaderKeys(once) ensures !HasContent(context, k) {
        var d :| d in once && d.headerOnly && d.key == Some(k);
        assert !Replaced(keys, d) && d in graded;
        assert k in HeaderKeys(graded);
      }
      assert ReplacementKeys(context, once) == {};
    }
  }

  /** The documents of `a` occur in `b` in the same order. */
  predicate Subsequence(a: seq<Doc>, b: seq<Doc>) {
    || a == []
    || (b != [] && (Subsequence(a, b[..|b| - 1])
                    || (a[|a| - 1] == b[|b| - 1] && Subsequence(a[..|a| - 1], b[..|b| - 1]))))
  }

  lemma {:induction false} PickKeepsOrder(context: seq<Doc>, keys: set<SourceKey>, graded: seq<Doc>)
    ensures Subsequence(Pick(context, keys, graded), context)
  {
    if context != [] {
      var front := context[..|context| - 1];
      PickKeepsOrder(front, keys, graded);
      var picked := Pick(context, keys, graded);
      if picked != Pick(front, keys, graded) {
        assert picked[..|picked| - 1] == Pick(front, keys, graded);
      }
    }
  }

  /** Grading that kept retrieval order still has it after the replacement. */
  lemma ReplacementKeepsOrder(context: seq<Doc>, graded: seq<Doc>)
    requires Subsequence(graded, context)
    ensures Subsequence(Resolved(context, graded), context)
  {
    PickKeepsOrder(context, ReplacementKeys(context, graded), graded);
  }

  // ----- Grade outcome -----

  datatype GradeOutcome = Ok | EmptyRetrieval | AllRejected | GraderError | PartialGraderError

  function ClassifyGradeOutcome(contextCount: nat, gradedCount: nat, graderErrors: nat): GradeOutcome {
    if contextCount == 0 then EmptyRetrieval
    else if gradedCount > 0 && graderErrors > 0 then PartialGraderError
    else if gradedCount > 0 then Ok
    else if graderErrors > 0 then GraderError
    else AllRejected
  }

  predicate FailClosed(o: GradeOutcome) { o.EmptyRetrieval? || o.AllRejected? || o.GraderError? }

  /** Fail-closed exactly when nothing usable was kept from the retrieved documents. */
  lemma FailClosedIff(contextCount: nat, gradedCount: nat, graderErrors: nat)
    ensures FailClosed(ClassifyGradeOutcome(contextCount, gradedCount, graderErrors))
            <==> contextCount == 0 || gradedCount == 0
    ensures var o := ClassifyGradeOutcome(contextCount, gradedCount, graderErrors);
            && (o.EmptyRetrieval? <==> contextCount == 0)
            && (o.Ok? || o.PartialGraderError? <==> contextCount > 0 && gradedCount > 0)
            && (o.PartialGraderError? || o.GraderError? ==> graderErrors > 0)
            && (o.Ok? || o.AllRejected? ==> graderErrors == 0)
  {
  }

  // ----- Batch grades -----

  /** A field of a grade item: absent or falsy (the number 0 included), truthy but not convertible to an
      integer, or truthy and converted to an integer. */
  datatype Field = Falsy | NotInteger | Number(n: int)

  /** One element of a batch grade: a bare verdict, a dictionary, or something else. A verdict is
      `None` when it is not one of the accepted words. */
  datatype Item =
    | Plain(verdict: Option<bool>)
    | Dict(index: Field, docIndex: Field, documentIndex: Field, relevant: Option<bool>, alternative: Option<bool>,
           reason: string)
    | Other

  type Grade = (bool, string)

  /** The index the item itself gives: the first of its three index fields that is not falsy. */
  function OwnIndex(item: Item): Field
    requires item.Dict?
  {
    if item.index != Falsy then item.index else if item.docIndex != Falsy then item.docIndex else item.documentIndex
  }

  function RawIndex(item: Item, position: nat): Field
    requires item.Dict?
  {
    if OwnIndex(item) == Falsy then Number(position) else OwnIndex(item)
  }

  function Verdict(item: Item): Option<bool>
    requires item.Dict?
  {
    if item.relevant.Some? then item.relevant else item.alternative
  }

  /** Grades by document index, bare verdicts in order. */
  datatype Collected = Collected(byIndex: map<int, Grade>, ordered: seq<Grade>)

  predicate Usable(item: Item, position: nat, docCount: nat) {
    match item
    case Plain(v) => v.Some?
    case Dict(_, _, _, _, _, _) =>
      RawIndex(item, position).Number? && 1 <= RawIndex(item, position).n <= docCount && Verdict(item).Some?
    case Other => false
  }

  /** All items up to the first unusable one, which rejects the batch. Positions count from 1. */
  function Collect(items: seq<Item>, docCount: nat): Option<Collected> {
    if items == [] then Some(Collected(map[], []))
    else
      var item := items[|items| - 1];
      var before := Collect(items[..|items| - 1], docCount);
      if before == None || !Usable(item, |items|, docCount) then None
      else if item.Plain? then Some(before.value.(ordered := before.value.ordered + [(item.verdict.value, "")]))
      else
        var grade := (Verdict(item).value, item.reason);
        Some(before.value.(byIndex := before.value.byIndex[RawIndex(item, |items|).n := grade]))
  }

  function UpTo(n: nat): (r: set<int>)
    ensures forall k :: k in r <==> 1 <= k <= n
  {
    if n == 0 then {} else UpTo(n - 1) + {n}
  }

  /** Indices inside 1..n are as many as n only if they are all of them. */
  lemma {:induction false} Pigeonhole(s: set<int>, n: nat)
    requires s <= UpTo(n)
    ensures |s| <= n
    ensures |s| == n ==> s == UpTo(n)
  {
    if n > 0 {
      Pigeonhole(s - {n}, n - 1);
      if n in s {
        assert |s| == |s - {n}| + 1;
      } else {
        assert s - {n} == s;
      }
    }
  }

  lemma {:induction false} CollectedInRange(items: seq<Item>, docCount: nat)
    requires Collect(items, docCount).Some?
    ensures Collect(items, docCount).value.byIndex.Keys <= UpTo(docCount)
  {
    if items != [] { CollectedInRange(items[..|items| - 1], docCount); }
  }

  function Coerced(items: seq<Item>, docCount: nat): (r: Option<seq<Grade>>)
    ensures r.Some? ==> |r.value| == docCount
  {
    if docCount == 0 then Some([])
    else
      var c := Collect(items, docCount);
      if c == None then None
      else if c.value.ordered != [] then
        if |c.value.ordered| != docCount then None else Some(c.value.ordered)
      else if |c.value.byIndex| != docCount then None
      else
        CollectedInRange(items, docCount);
        Pigeonhole(c.value.byIndex.Keys, docCount);
        Some(seq(docCount, i requires 0 <= i < docCount => c.value.byIndex[i + 1]))
  }

  /** The payload is `None` when it is not a list. An accepted batch has one grade per document, so
      no document goes ungraded and the final lookup never misses. */
  method CoerceDocGradeBatch(payload: Option<seq<Item>>, docCount: nat) returns (grades: Option<seq<Grade>>)
    ensures grades == if docCount == 0 then Some([])
                      else if payload == None then None else Coerced(payload.value, docCount)
    ensures grades.Some? ==> |grades.value| == docCount
  {
    if docCount == 0 {
      return Some([]);
    }
    if payload == None {
      return None;
    }
    var items := payload.value;
    var byIndex: map<int, Grade>, ordered: seq<Grade> := map[], [];
    for k := 0 to |items|
      invariant Collect(items[..k], docCount) == Some(Collected(byIndex, ordered))
    {
      assert items[..k + 1][..k] == items[..k];
      var item := items[k];
      if item.Plain? {
        if item.verdict == None {
          UnusableRejects(items, k + 1, docCount);
          return None;
        }
        ordered := ordered + [(item.verdict.value, "")];
        continue;
      }
      if !item.Dict? {
        UnusableRejects(items, k + 1, docCount);
        return None;
      }
      var raw := RawIndex(item, k + 1);
      if !raw.Number? || raw.n < 1 || raw.n > docCount {
        UnusableRejects(items, k + 1, docCount);
        return None;
      }
      var relevant := item.relevant;
      if relevant == None {
        relevant := item.alternative;
      }
      if relevant == None {
        UnusableRejects(items, k + 1, docCount);
        return None;
      }
      byIndex := byIndex[raw.n := (relevant.value, item.reason)];
    }
    assert items[..|items|] == items;
    CollectedInRange(items, docCount);
    if ordered != [] {
      return if |ordered| != docCount then None else Some(ordered);
    }
    if |byIndex| != docCount {
      return None;
    }
    Pigeonhole(byIndex.Keys, docCount);
    return Some(seq(docCount, i requires 0 <= i < docCount => byIndex[i + 1]));
  }

  lemma {:induction false} UnusableRejects(items: seq<Item>, k: nat, docCount: nat)
    requires k <= |items| && Collect(items[..k], docCount) == None
    ensures Collect(items, docCount) == None
    decreases |items| - k
  {
    if k == |items| {
      assert items[..k] == items;
    } else {
      assert items[..k + 1][..k] == items[..k];
      UnusableRejects(items, k + 1, docCount);
    }
  }

  // ----- Item order -----

  /** Every item names its document, under any of the three fields, and no two name the same one. */
  ghost predicate Explicit(items: seq<Item>) {
    && (forall k :: 0 <= k < |items| ==> items[k].Dict? && OwnIndex(items[k]).Number?)
    && (forall j, k :: 0 <= j < k < |items| ==> OwnIndex(items[j]) != OwnIndex(items[k]))
  }

  lemma ExplicitFront(items: seq<Item>, x: Item)
    requires Explicit(items) && items != []
    ensures Explicit(items[..|items| - 1])
    ensures x in items <==> x in items[..|items| - 1] || x == items[|items| - 1]
    ensures x in items[..|items| - 1] ==> x.Dict? && OwnIndex(x) != OwnIndex(items[|items| - 1])
  {
    var front := items[..|items| - 1];
    assert items == front + [items[|items| - 1]];
    if x in front {
      var k :| 0 <= k < |front| && front[k] == x;
      assert items[k] == x;
    }
  }

  /** An explicit batch is accepted up to counting exactly when every item is usable. */
  lemma {:induction false} CollectedIff(items: seq<Item>, docCount: nat)
    requires Explicit(items)
    ensures Collect(items, docCount).Some? <==> forall x :: x in items ==> Usable(x, 1, docCount)
    ensures Collect(items, docCount).Some? ==> Collect(items, docCount).value.ordered == []
  {
    if items != [] {
      var front, last := items[..|items| - 1], items[|items| - 1];
      ExplicitFront(items, last);
      CollectedIff(front, docCount);
      assert items == front + [last];
      assert Usable(last, |items|, docCount) <==> Usable(last, 1, docCount);
    }
  }

  /** With explicit distinct indices the collected grades are the graph of the items. */
  lemma {:induction false} CollectedGraph(items: seq<Item>, docCount: nat, x: Item)
    requires Explicit(items) && Collect(items, docCount).Some? && x in items
    ensures var byIndex := Collect(items, docCount).value.byIndex;
            && Verdict(x).Some? && OwnIndex(x).n in byIndex
            && byIndex[OwnIndex(x).n] == (Verdict(x).value, x.reason)
  {
    ExplicitFront(items, x);
    if x in items[..|items| - 1] { CollectedGraph(items[..|items| - 1], docCount, x); }
  }

  lemma {:induction false} CollectedOnly(items: seq<Item>, docCount: nat, n: int) returns (x: Item)
    requires Explicit(items) && Collect(items, docCount).Some? && n in Collect(items, docCount).value.byIndex
    ensures x in items && x.Dict? && OwnIndex(x) == Number(n)
  {
    x := items[|items| - 1];
    ExplicitFront(items, x);
    if OwnIndex(x) != Number(n) { x := CollectedOnly(items[..|items| - 1], docCount, n); }
  }

  lemma SameGrades(a: seq<Item>, b: seq<Item>, docCount: nat, n: int)
    requires Explicit(a) && Explicit(b) && forall x :: x in a ==> x in b
    requires Collect(a, docCount).Some? && Collect(b, docCount).Some?
    ensures var m, k := Collect(a, docCount).value.byIndex, Collect(b, docCount).value.byIndex;
            n in m ==> n in k && k[n] == m[n]
  {
    if n in Collect(a, docCount).value.byIndex {
      var x := CollectedOnly(a, docCount, n);
      CollectedGraph(a, docCount, x);
      CollectedGraph(b, docCount, x);
    }
  }

  /** The result does not depend on the order of the items when their indices are explicit and
      distinct. */
  lemma ItemOrderIrrelevant(a: seq<Item>, b: seq<Item>, docCount: nat)
    requires Explicit(a) && Explicit(b) && forall x :: x in a <==> x in b
    ensures Coerced(a, docCount) == Coerced(b, docCount)
  {
    CollectedIff(a, docCount);
    CollectedIff(b, docCount);
    if Collect(a, docCount).Some? {
      var m, k := Collect(a, docCount).value.byIndex, Collect(b, docCount).value.byIndex;
      forall n | n in m ensures n in k && k[n] == m[n] { SameGrades(a, b, docCount, n); }
      forall n | n in k ensures n in m { SameGrades(b, a, docCount, n); }
      assert m == k;
    }
  }

  // ----- Items without an index of their own -----

  /** Dictionaries with a verdict whose three index fields are all falsy. */
  ghost predicate Unindexed(items: seq<Item>) {
    forall k :: 0 <= k < |items| ==> items[k].Dict? && OwnIndex(items[k]) == Falsy && Verdict(items[k]).Some?
  }

  function GradesInOrder(items: seq<Item>): (r: seq<Grade>)
    requires forall k :: 0 <= k < |items| ==> items[k].Dict? && Verdict(items[k]).Some?
    ensures |r| == |items|
  {
    seq(|items|, k requires 0 <= k < |items| => (Verdict(items[k]).value, items[k].reason))
  }

  lemma {:induction false} CollectedInOrder(items: seq<Item>, docCount: nat)
    requires Unindexed(items) && |items| <= docCount
    ensures Collect(items, docCount).Some?
    ensures var c := Collect(items, docCount).value;
            && c.ordered == [] && c.byIndex.Keys == UpTo(|items|)
            && forall k :: 0 <= k < |items| ==> c.byIndex[k + 1] == GradesInOrder(items)[k]
  {
    if items != [] {
      var front, last := items[..|items| - 1], items[|items| - 1];
      CollectedInOrder(front, docCount);
      assert RawIndex(last, |items|) == Number(|items|);
      forall k | 0 <= k < |front| ensures GradesInOrder(front)[k] == GradesInOrder(items)[k] {}
    }
  }

  lemma {:induction false} UpToSize(n: nat)
    ensures |UpTo(n)| == n
  {
    if n > 0 { UpToSize(n - 1); }
  }

  /** A batch that collected exactly the indices 1..n is accepted. */
  lemma FullBatch(items: seq<Item>, n: nat, c: Collected)
    requires n > 0 && Collect(items, n) == Some(c) && c.ordered == [] && c.byIndex.Keys == UpTo(n)
    ensures Coerced(items, n).Some?
    ensures forall k :: 0 <= k < n ==> Coerced(items, n).value[k] == c.byIndex[k + 1]
  {
    UpToSize(n);
    assert |c.byIndex| == |c.byIndex.Keys| == n;
  }

  /** A falsy index, the number 0 included, means the position: with one such item per document the
      k-th item grades the k-th document. */
  lemma PositionalGrades(items: seq<Item>)
    requires Unindexed(items) && items != []
    ensures Coerced(items, |items|) == Some(GradesInOrder(items))
  {
    var n := |items|;
    CollectedInOrder(items, n);
    FullBatch(items, n, Collect(items, n).value);
    assert Coerced(items, n).value == GradesInOrder(items);
  }

  /** So two such batches agree exactly when they grade alike in order. */
  lemma PositionsDecide(a: seq<Item>, b: seq<Item>)
    requires Unindexed(a) && Unindexed(b) && |a| == |b| > 0
    ensures Coerced(a, |a|) == Coerced(b, |b|) <==> GradesInOrder(a) == GradesInOrder(b)
  {
    PositionalGrades(a);
    PositionalGrades(b);
  }

  // ----- Batches of any kind -----

  /** The k-th item grades document `n`, by its own index or by its position. */
  predicate Names(items: seq<Item>, k: nat, n: int) {
    && k < |items| && items[k].Dict?
    && (if items[k].index != Falsy then items[k].index == Number(n)
        else if items[k].docIndex != Falsy then items[k].docIndex == Number(n)
        else if items[k].documentIndex != Falsy then items[k].documentIndex == Number(n)
        else n == k + 1)
  }

  lemma NamesIff(items: seq<Item>, k: nat, n: int)
    requires k < |items| && items[k].Dict?
    ensures Names(items, k, n) <==> RawIndex(items[k], k + 1) == Number(n)
  {
  }

  ghost predicate Named(items: seq<Item>, n: int) { exists k: nat :: Names(items, k, n) }

  /** No later item grades the same document. */
  ghost predicate LastNames(items: seq<Item>, k: nat, n: int) {
    Names(items, k, n) && forall j: nat :: k < j < |items| ==> !Names(items, j, n)
  }

  /** A verdict, and for a dictionary a document in range that it names. */
  ghost predicate Gradable(items: seq<Item>, k: nat, docCount: nat)
    requires k < |items|
  {
    match items[k]
    case Plain(verdict) => verdict.Some?
    case Dict(_, _, _, relevant, alternative, _) =>
      (relevant.Some? || alternative.Some?) && exists n :: 1 <= n <= docCount && Names(items, k, n)
    case Other => false
  }

  ghost predicate AllUsable(items: seq<Item>, docCount: nat) {
    forall k: nat :: k < |items| ==> Gradable(items, k, docCount)
  }

  lemma GradableIff(items: seq<Item>, k: nat, docCount: nat)
    requires k < |items|
    ensures Gradable(items, k, docCount) <==> Usable(items[k], k + 1, docCount)
  {
    if Usable(items[k], k + 1, docCount) && items[k].Dict? {
      assert Names(items, k, RawIndex(items[k], k + 1).n);
    }
  }

  /** The bare verdicts of a batch, in order. */
  function PlainGrades(items: seq<Item>): seq<Grade> {
    if items == [] then []
    else
      var item := items[|items| - 1];
      PlainGrades(items[..|items| - 1])
      + (if item.Plain? && item.verdict.Some? then [(item.verdict.value, "")] else [])
  }

  lemma {:induction false} CollectedIffUsable(items: seq<Item>, docCount: nat)
    ensures Collect(items, docCount).Some? <==> AllUsable(items, docCount)
    ensures Collect(items, docCount).Some? ==> Collect(items, docCount).value.ordered == PlainGrades(items)
  {
    if items != [] {
      var front := items[..|items| - 1];
      CollectedIffUsable(front, docCount);
      forall k: nat | k < |front| ensures Gradable(front, k, docCount) <==> Gradable(items, k, docCount) {
        GradableIff(front, k, docCount);
        GradableIff(items, k, docCount);
      }
      GradableIff(items, |items| - 1, docCount);
    }
  }

  /** A document is in the collected index exactly when some item names it. */
  lemma {:induction false} CollectedIffNamed(items: seq<Item>, docCount: nat, n: int)
    requires Collect(items, docCount).Some?
    ensures n in Collect(items, docCount).value.byIndex <==> Named(items, n)
  {
    if items != [] {
      var last := |items| - 1;
      var front := items[..last];
      CollectedIffNamed(front, docCount, n);
      if k: nat :| Names(front, k, n) { assert Names(items, k, n); }
      if k: nat :| Names(items, k, n) { assert k == last || Names(front, k, n); }
      if items[last].Dict? { NamesIff(items, last, n); }
    }
  }

  /** And its grade is that of the last item that names it. */
  lemma {:induction false} CollectedByLast(items: seq<Item>, docCount: nat, n: int, k: nat)
    requires Collect(items, docCount).Some? && LastNames(items, k, n)
    ensures Verdict(items[k]).Some?
    ensures var byIndex := Collect(items, docCount).value.byIndex;
            n in byIndex && byIndex[n] == (Verdict(items[k]).value, items[k].reason)
  {
    var last := |items| - 1;
    if k < last {
      var front := items[..last];
      assert !Names(items, last, n);
      forall j: nat | k < j < |front| ensures !Names(front, j, n) { assert !Names(items, j, n); }
      CollectedByLast(front, docCount, n, k);
    }
  }

  lemma FullIff(m: map<int, Grade>, n: nat)
    requires m.Keys <= UpTo(n)
    ensures |m| == n <==> forall k :: 1 <= k <= n ==> k in m
  {
    Pigeonhole(m.Keys, n);
    UpToSize(n);
    assert |m| == |m.Keys|;
    if forall k :: 1 <= k <= n ==> k in m { assert m.Keys == UpTo(n); }
  }

  lemma AllNamedIff(items: seq<Item>, docCount: nat)
    requires Collect(items, docCount).Some?
    ensures |Collect(items, docCount).value.byIndex| == docCount <==> forall n :: 1 <= n <= docCount ==> Named(items, n)
  {
    var m := Collect(items, docCount).value.byIndex;
    CollectedInRange(items, docCount);
    FullIff(m, docCount);
    forall n ensures n in m <==> Named(items, n) { CollectedIffNamed(items, docCount, n); }
  }

  /** Exactly which batches are accepted: every item is usable, and either there are bare verdicts, one
      per document, or every document is named. */
  lemma AcceptedIff(items: seq<Item>, docCount: nat)
    requires docCount > 0
    ensures Coerced(items, docCount).Some?
            <==> && AllUsable(items, docCount)
                 && if PlainGrades(items) != [] then |PlainGrades(items)| == docCount
                    else forall n :: 1 <= n <= docCount ==> Named(items, n)
  {
    CollectedIffUsable(items, docCount);
    if AllUsable(items, docCount) { AllNamedIff(items, docCount); }
  }

  /** Once bare verdicts are among the items they alone decide, in order. */
  lemma BareVerdictsDecide(items: seq<Item>, docCount: nat)
    requires docCount > 0 && Coerced(items, docCount).Some? && PlainGrades(items) != []
    ensures Coerced(items, docCount).value == PlainGrades(items)
  {
    CollectedIffUsable(items, docCount);
  }

  /** In every other accepted batch, own indices and positions mixed or repeated, a document gets the
      grade of the last item that names it. */
  lemma LastItemDecides(items: seq<Item>, docCount: nat, n: int, k: nat)
    requires Coerced(items, docCount).Some? && PlainGrades(items) == []
    requires 1 <= n <= docCount && LastNames(items, k, n)
    ensures items[k].relevant.Some? || items[k].alternative.Some?
    ensures Coerced(items, docCount).value[n - 1]
            == (if items[k].relevant.Some? then items[k].relevant.value else items[k].alternative.value,
                items[k].reason)
  {
    CollectedIffUsable(items, docCount);
    CollectedByLast(items, docCount, n, k);
  }

  lemma LastExists(items: seq<Item>, n: int, k: nat)
    requires Names(items, k, n)
    ensures exists last: nat :: LastNames(items, last, n)
    decreases |items| - k
  {
    if j: nat :| k < j < |items| && Names(items, j, n) {
      LastExists(items, n, j);
    } else {
      assert LastNames(items, k, n);
    }
  }

  /** Some item decides the grade of a document. */
  lemma DecidingItem(items: seq<Item>, docCount: nat, n: int)
    requires Coerced(items, docCount).Some? && PlainGrades(items) == [] && 1 <= n <= docCount
    ensures exists k: nat :: LastNames(items, k, n)
  {
    AcceptedIff(items, docCount);
    assert Named(items, n);
    var some: nat :| Names(items, some, n);
    LastExists(items, n, some);
  }

  /** The last items naming document `n` in two batches give it the same grade. */
  ghost predicate SameLast(a: seq<Item>, b: seq<Item>, n: int) {
    forall j: nat, k: nat :: LastNames(a, j, n) && LastNames(b, k, n) ==>
      Verdict(a[j]) == Verdict(b[k]) && a[j].reason == b[k].reason
  }

  lemma SameGradeIff(a: seq<Item>, b: seq<Item>, docCount: nat, n: int)
    requires Coerced(a, docCount).Some? && PlainGrades(a) == [] && Coerced(b, docCount).Some? && PlainGrades(b) == []
    requires 1 <= n <= docCount
    ensures Coerced(a, docCount).value[n - 1] == Coerced(b, docCount).value[n - 1] <==> SameLast(a, b, n)
  {
    DecidingItem(a, docCount, n);
    DecidingItem(b, docCount, n);
    var j: nat :| LastNames(a, j, n);
    var k: nat :| LastNames(b, k, n);
    LastItemDecides(a, docCount, n, j);
    LastItemDecides(b, docCount, n, k);
    forall x: nat, y: nat | LastNames(a, x, n) && LastNames(b, y, n) ensures x == j && y == k {}
  }

  /** So two accepted batches of dictionaries, one a reordering of the other or not, agree exactly when
      for every document the last items that name it do. */
  lemma BatchesAgreeIff(a: seq<Item>, b: seq<Item>, docCount: nat)
    requires Coerced(a, docCount).Some? && PlainGrades(a) == [] && Coerced(b, docCount).Some? && PlainGrades(b) == []
    ensures Coerced(a, docCount) == Coerced(b, docCount) <==> forall n :: 1 <= n <= docCount ==> SameLast(a, b, n)
  {
    var g, h := Coerced(a, docCount).value, Coerced(b, docCount).value;
    forall n | 1 <= n <= docCount ensures g[n - 1] == h[n - 1] <==> SameLast(a, b, n) {
      SameGradeIff(a, b, docCount, n);
    }
    if forall n :: 1 <= n <= docCount ==> SameLast(a, b, n) {
      forall i | 0 <= i < docCount ensures g[i] == h[i] { assert SameLast(a, b, i + 1); }
      assert g == h;
    }
  }
}
