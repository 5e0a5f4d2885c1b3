/** The compiled-graph cache of `build_support_graph` (agent/graph.py).

    Keys hold object addresses, as `id()` returns them; an address may be given to a new object
    once nothing refers to the old one. */
module GraphCache {
  import opened Options
  import opened OrderedDict

  const MAX_GRAPHS: nat := 16

  type Address = nat
  type Object = nat

  datatype Key = Key(retriever: Address, fast: Address, strong: Address, minQuality: int, maxIterations: int)

  /** Routing floors read from settings at build time but absent from the key. */
  datatype Floors = Floors(minRelevance: real, minFactuality: int)

  /** What a graph was compiled from. */
  datatype Compiled = Compiled(retriever: Object, fast: Object, strong: Object, minQuality: int, floors: Floors)

  /** The cache value: the graph and the references that keep its parts alive. */
  datatype Cached = Cached(graph: Compiled, pins: (Object, Object, Object))

  type Dict = seq<Entry<Key, Cached>>

  function Stored(d: Dict, k: Key, v: Cached): Dict { Evict(PutLast(d, k, v), MAX_GRAPHS) }

  function Touched(d: Dict, k: Key): Dict {
    match Find(d, k)
    case None => d
    case Some(v) => PutLast(d, k, v)
  }

  /** The module-level cache and its three locked sections. */
  class SupportGraphCache {
    var entries: Dict

    constructor ()
      ensures entries == []
    {
      entries := [];
    }

    method Lookup(k: Key) returns (r: Option<Compiled>)
      modifies this
      ensures entries == Touched(old(entries), k)
      ensures r == match Find(old(entries), k) case None => None case Some(v) => Some(v.graph)
      ensures r == None ==> entries == old(entries)
      ensures r.Some? ==> && entries != [] && entries[|entries| - 1].key == k
                          && entries[|entries| - 1].value.graph == r.value
                          && entries[..|entries| - 1] == Without(old(entries), {k})
    {
      var cached := Find(entries, k);
      if cached.Some? {
        entries := PutLast(entries, k, cached.value);
        return Some(cached.value.graph);
      }
      return None;
    }

    method Insert(k: Key, v: Cached)
      modifies this
      ensures entries == Stored(old(entries), k, v)
      ensures 0 < |entries| <= 16 && entries[|entries| - 1] == Entry(k, v)
      ensures var others := Without(old(entries), {k});
              |others| < 16 ==> entries == others + [Entry(k, v)]
    {
      entries := PutLast(entries, k, v);
      ghost var full := entries;
      while |entries| > MAX_GRAPHS
        invariant |full| <= MAX_GRAPHS ==> entries == full
        invariant |full| > MAX_GRAPHS ==> MAX_GRAPHS <= |entries| <= |full| && entries == full[|full| - |entries|..]
      {
        entries := entries[1..];
      }
    }

    method Clear()
      modifies this
      ensures entries == []
    {
      entries := [];
    }
  }

  // ----- The cache among allocations, collections and concurrent builders -----

  /** One request: the objects it holds, their addresses, and the settings it read. */
  datatype Request = Request(key: Key, retriever: Object, fast: Object, strong: Object, floors: Floors)

  function Build(r: Request): Cached {
    Cached(Compiled(r.retriever, r.fast, r.strong, r.key.minQuality, r.floors), (r.retriever, r.fast, r.strong))
  }

  /** `live` maps the addresses in use to objects; `building` holds the requests that missed and
      have not stored their graph yet. */
  datatype World = World(live: map<Address, Object>, entries: Dict, building: multiset<Request>)

  predicate Holds(live: map<Address, Object>, k: Key, objects: (Object, Object, Object)) {
    && k.retriever in live && live[k.retriever] == objects.0
    && k.fast in live && live[k.fast] == objects.1
    && k.strong in live && live[k.strong] == objects.2
  }

  predicate Refers(objects: (Object, Object, Object), o: Object) {
    o == objects.0 || o == objects.1 || o == objects.2
  }

  /** Nothing in the cache or in a running build refers to the object. */
  ghost predicate Collectable(w: World, o: Object) {
    && (forall i :: 0 <= i < |w.entries| ==> !Refers(w.entries[i].value.pins, o))
    && (forall r :: r in w.building ==> !Refers((r.retriever, r.fast, r.strong), o))
  }

  datatype Event =
    | Allocate(at: Address, made: Object)
    | Collect(at: Address)
    | Begin(request: Request)
    | Finish(request: Request)
    | Fail(request: Request)               // the build raised and stores nothing
    | Clear

  ghost predicate Step(w: World, e: Event, v: World) {
    match e
    case Allocate(at, o) => at !in w.live && v == w.(live := w.live[at := o])
    case Collect(at) => at in w.live && Collectable(w, w.live[at]) && v == w.(live := w.live - {at})
    case Begin(r) =>
      && Holds(w.live, r.key, (r.retriever, r.fast, r.strong))
      && v == if Find(w.entries, r.key).Some? then w.(entries := Touched(w.entries, r.key))
              else w.(building := w.building + multiset{r})
    case Finish(r) =>
      r in w.building && v == World(w.live, Stored(w.entries, r.key, Build(r)), w.building - multiset{r})
    case Fail(r) => r in w.building && v == w.(building := w.building - multiset{r})
    case Clear => v == w.(entries := [])
  }

  const EMPTY := World(map[], [], multiset{})

  ghost predicate StepAt(run: seq<World>, events: seq<Event>, i: nat) {
    i < |events| && i + 1 < |run| && Step(run[i], events[i], run[i + 1])
  }

  ghost predicate IsRun(run: seq<World>, events: seq<Event>) {
    |run| == |events| + 1 && run[0] == EMPTY && forall i: nat :: i < |events| ==> StepAt(run, events, i)
  }

  /** A cached value belongs to its key: built from the pinned objects, which are still where the
      key says. */
  ghost predicate Faithful(live: map<Address, Object>, e: Entry<Key, Cached>) {
    && Holds(live, e.key, e.value.pins)
    && (e.value.graph.retriever, e.value.graph.fast, e.value.graph.strong) == e.value.pins
    && e.value.graph.minQuality == e.key.minQuality
  }

  ghost predicate Inv(w: World) {
    && Distinct(w.entries) && |w.entries| <= MAX_GRAPHS
    && (forall e :: e in w.entries ==> Faithful(w.live, e))
    && (forall r :: r in w.building ==> Holds(w.live, r.key, (r.retriever, r.fast, r.strong)))
  }

  lemma InvStored(w: World, k: Key, v: Cached)
    requires Inv(w) && Faithful(w.live, Entry(k, v))
    ensures Inv(w.(entries := Stored(w.entries, k, v)))
  {
    PutLastFacts(w.entries, k, v);
    var full, kept := PutLast(w.entries, k, v), Stored(w.entries, k, v);
    forall e | e in kept ensures Faithful(w.live, e) { assert e in full; }
    if |full| > MAX_GRAPHS {
      var cut := |full| - MAX_GRAPHS;
      assert forall i :: 0 <= i < |kept| ==> kept[i] == full[i + cut];
    }
  }

  lemma InvCollect(w: World, at: Address, v: World)
    requires Inv(w) && Step(w, Collect(at), v)
    ensures Inv(v)
  {
    forall x | x in v.entries ensures Faithful(v.live, x) {
      var i :| 0 <= i < |w.entries| && w.entries[i] == x;
      assert Faithful(w.live, x) && !Refers(x.value.pins, w.live[at]);
    }
  }

  lemma InvBegin(w: World, r: Request, v: World)
    requires Inv(w) && Step(w, Begin(r), v)
    ensures Inv(v)
  {
    if Find(w.entries, r.key).Some? {
      var found := Find(w.entries, r.key).value;
      assert Entry(r.key, found) in w.entries;
      InvStored(w, r.key, found);
      PutLastPresent(w.entries, r.key, found);
    }
  }

  lemma InvStep(w: World, e: Event, v: World)
    requires Inv(w) && Step(w, e, v)
    ensures Inv(v)
  {
    match e
    case Allocate(at, o) =>
      assert forall x :: x in v.entries ==> Faithful(w.live, x);
    case Collect(at) => InvCollect(w, at, v);
    case Begin(r) => InvBegin(w, r, v);
    case Finish(r) => InvStored(w, r.key, Build(r));
    case _ =>
  }

  lemma {:induction false} AlwaysInv(run: seq<World>, events: seq<Event>, n: nat)
    requires IsRun(run, events) && n < |run|
    ensures Inv(run[n])
  {
    if n > 0 {
      AlwaysInv(run, events, n - 1);
      assert StepAt(run, events, n - 1);
      InvStep(run[n - 1], events[n - 1], run[n]);
    }
  }

  /** A hit was compiled from exactly the objects the request holds, however addresses were reused
      before, and the cache never exceeds sixteen graphs. */
  lemma HitIsOwnGraph(run: seq<World>, events: seq<Event>, r: Request)
    requires IsRun(run, events)
    requires Holds(run[|events|].live, r.key, (r.retriever, r.fast, r.strong))
    ensures |run[|events|].entries| <= MAX_GRAPHS
    ensures var hit := Find(run[|events|].entries, r.key);
            hit.Some? ==>
              var g := hit.value.graph;
              g.retriever == r.retriever && g.fast == r.fast && g.strong == r.strong && g.minQuality == r.key.minQuality
  {
    AlwaysInv(run, events, |events|);
    var hit := Find(run[|events|].entries, r.key);
    if hit.Some? {
      assert Entry(r.key, hit.value) in run[|events|].entries;
      assert Faithful(run[|events|].live, Entry(r.key, hit.value));
    }
  }

  // ----- Recently used graphs survive -----

  /** The graph is cached, and every key after its own, in the order of eviction, is one of `ks`. */
  ghost predicate Recent(d: Dict, k: Key, v: Cached, ks: set<Key>) {
    Distinct(d) && Entry(k, v) in d && Ordered(d, (x: Key, y: Key) => x == k ==> y in ks)
  }

  /** What a hit or a store leaves at the far end of that order. */
  lemma PutIsRecent(d: Dict, k: Key, v: Cached)
    requires Distinct(d)
    ensures Recent(PutLast(d, k, v), k, v, {})
  {
    PutLastFacts(d, k, v);
    var r := PutLast(d, k, v);
    assert r[|r| - 1] == Entry(k, v);
  }

  lemma RecentAfterPut(d: Dict, k: Key, v: Cached, ks: set<Key>, other: Key, w: Cached)
    requires Recent(d, k, v, ks) && other != k
    ensures Recent(PutLast(d, other, w), k, v, ks + {other})
  {
    PutLastFacts(d, other, w);
    WithoutOrdered(d, {other}, (x: Key, y: Key) => x == k ==> y in ks);
    var kept, r := Without(d, {other}), PutLast(d, other, w);
    assert forall i :: 0 <= i < |kept| ==> r[i] == kept[i];
  }

  lemma RecentAfterEvict(d: Dict, k: Key, v: Cached, ks: set<Key>)
    requires Recent(d, k, v, ks) && |ks| < MAX_GRAPHS
    ensures Recent(Evict(d, MAX_GRAPHS), k, v, ks)
  {
    var at :| 0 <= at < |d| && d[at] == Entry(k, v);
    FewBehind(d, k, ks, at);
    var kept := Evict(d, MAX_GRAPHS);
    var cut := |d| - |kept|;
    assert forall i :: 0 <= i < |kept| ==> kept[i] == d[i + cut];
    assert kept[at - cut] == Entry(k, v);
  }

  lemma FewBehind(d: Dict, k: Key, ks: set<Key>, at: nat)
    requires Distinct(d) && at < |d| && d[at].key == k && Ordered(d, (x: Key, y: Key) => x == k ==> y in ks)
    ensures |d| - 1 - at <= |ks|
  {
    var behind := d[at + 1..];
    DistinctCardinality(behind);
    forall x | x in Keys(behind) ensures x in ks {
      var i :| 0 <= i < |behind| && behind[i].key == x;
      assert d[at + 1 + i].key == x;
    }
    SubsetBound(Keys(behind), ks);
  }

  lemma SubsetBound(a: set<Key>, b: set<Key>)
    requires a <= b
    ensures |a| <= |b|
  {
    assert b == a + (b - a);
  }

  /** A request or a store under the key of its request. */
  predicate UsesKey(e: Event) { e.Begin? || e.Finish? }

  /** The keys used by the events from `i` to `j`. */
  function KeysUsed(events: seq<Event>, i: nat, j: nat): set<Key>
    requires j <= |events|
  {
    set m | i <= m < j && UsesKey(events[m]) :: events[m].request.key
  }

  lemma StepKeepsRecent(w: World, e: Event, v: World, k: Key, c: Cached, ks: set<Key>)
    requires Step(w, e, v) && Recent(w.entries, k, c, ks) && !e.Clear?
    requires UsesKey(e) ==> e.request.key != k && |ks + {e.request.key}| < MAX_GRAPHS
    ensures Recent(v.entries, k, c, if UsesKey(e) then ks + {e.request.key} else ks)
  {
    match e
    case Begin(r) =>
      if Find(w.entries, r.key).Some? {
        RecentAfterPut(w.entries, k, c, ks, r.key, Find(w.entries, r.key).value);
      }
    case Finish(r) =>
      RecentAfterPut(w.entries, k, c, ks, r.key, Build(r));
      RecentAfterEvict(PutLast(w.entries, r.key, Build(r)), k, c, ks + {r.key});
    case _ =>
  }

  lemma KeysUsedStep(events: seq<Event>, i: nat, j: nat)
    requires i < j <= |events|
    ensures var before := KeysUsed(events, i, j - 1);
            && KeysUsed(events, i, j)
               == (if UsesKey(events[j - 1]) then before + {events[j - 1].request.key} else before)
            && |before| <= |KeysUsed(events, i, j)|
  {
    var before, after := KeysUsed(events, i, j - 1), KeysUsed(events, i, j);
    assert after == if UsesKey(events[j - 1]) then before + {events[j - 1].request.key} else before;
    SubsetBound(before, after);
  }

  /** A hit, or the store of a finished build. */
  ghost predicate Touches(run: seq<World>, events: seq<Event>, k: Key, v: Cached, i: nat)
    requires |run| == |events| + 1 && i < |events|
  {
    && UsesKey(events[i]) && events[i].request.key == k
    && (if events[i].Begin? then Find(run[i].entries, k) == Some(v) else v == Build(events[i].request))
  }

  lemma TouchIsRecent(run: seq<World>, events: seq<Event>, k: Key, v: Cached, i: nat)
    requires IsRun(run, events) && i < |events| && Touches(run, events, k, v, i)
    ensures Recent(run[i + 1].entries, k, v, {})
  {
    assert StepAt(run, events, i);
    AlwaysInv(run, events, i);
    PutIsRecent(run[i].entries, k, v);
    RecentAfterEvict(PutLast(run[i].entries, k, v), k, v, {});
  }

  lemma {:induction false} StaysRecent(run: seq<World>, events: seq<Event>, k: Key, v: Cached, i: nat, j: nat)
    requires IsRun(run, events) && i < j <= |events| && Touches(run, events, k, v, i)
    requires forall m :: i < m < j ==> !events[m].Clear? && (UsesKey(events[m]) ==> events[m].request.key != k)
    requires |KeysUsed(events, i + 1, j)| < MAX_GRAPHS
    ensures Recent(run[j].entries, k, v, KeysUsed(events, i + 1, j))
  {
    if j == i + 1 {
      TouchIsRecent(run, events, k, v, i);
      assert KeysUsed(events, i + 1, j) == {};
    } else {
      KeysUsedStep(events, i + 1, j);
      StaysRecent(run, events, k, v, i, j - 1);
      assert StepAt(run, events, j - 1);
      StepKeepsRecent(run[j - 1], events[j - 1], run[j], k, v, KeysUsed(events, i + 1, j - 1));
    }
  }

  /** In any run a graph that was hit, or stored, stays cached while fewer than sixteen other keys are requested
      or stored, however often, and nobody clears the cache. */
  lemma HitSurvives(run: seq<World>, events: seq<Event>, k: Key, v: Cached, i: nat, j: nat)
    requires IsRun(run, events) && i < j <= |events| && Touches(run, events, k, v, i)
    requires forall m :: i < m < j ==> !events[m].Clear? && (UsesKey(events[m]) ==> events[m].request.key != k)
    requires |KeysUsed(events, i + 1, j)| < 16
    ensures Find(run[j].entries, k) == Some(v)
  {
    StaysRecent(run, events, k, v, i, j);
    FindUnique(run[j].entries, Entry(k, v));
  }

  // ----- Running builds -----

  /** Builds of a request begun on a miss and neither finished nor failed yet, after `n` events. */
  function Running(run: seq<World>, events: seq<Event>, r: Request, n: nat): int
    requires |run| == |events| + 1 && n <= |events|
  {
    if n == 0 then 0
    else
      Running(run, events, r, n - 1)
      + (match events[n - 1]
         case Begin(q) => if q == r && Find(run[n - 1].entries, q.key) == None then 1 else 0
         case Finish(q) => if q == r then -1 else 0
         case Fail(q) => if q == r then -1 else 0
         case _ => 0)
  }

  /** A request is pinned by a build exactly while one of its builds is running. */
  lemma {:induction false} PinnedWhileRunning(run: seq<World>, events: seq<Event>, r: Request, n: nat)
    requires IsRun(run, events) && n <= |events|
    ensures run[n].building[r] == Running(run, events, r, n)
  {
    if n > 0 {
      PinnedWhileRunning(run, events, r, n - 1);
      assert StepAt(run, events, n - 1);
    }
  }

  // ----- The floors of a hit -----

  /** Before position `n` the cache entry of `k` was last written by the event at `m`: a build of that
      key finished there, and since then neither another one finished nor the cache was cleared. */
  ghost predicate LatestBuild(events: seq<Event>, k: Key, m: nat, n: nat)
    requires n <= |events|
  {
    m < n && Builds(events[m], k) && forall i :: m < i < n ==> !events[i].Clear? && !Builds(events[i], k)
  }

  predicate Builds(e: Event, k: Key) { e.Finish? && e.request.key == k }

  lemma StepEntry(w: World, e: Event, v: World, k: Key)
    requires Inv(w) && Step(w, e, v) && Find(v.entries, k).Some?
    ensures !e.Clear?
    ensures if Builds(e, k) then Find(v.entries, k) == Some(Build(e.request))
            else Find(v.entries, k) == Find(w.entries, k)
  {
    var x := Entry(k, Find(v.entries, k).value);
    InvStep(w, e, v);
    match e
    case Begin(r) =>
      if Find(w.entries, r.key).Some? { StoredEntry(w.entries, r.key, Find(w.entries, r.key).value, v.entries, x); }
    case Finish(r) =>
      StoredEntry(w.entries, r.key, Build(r), Stored(w.entries, r.key, Build(r)), x);
    case _ =>
  }

  /** An entry found after a store is the stored one or was there before. */
  lemma StoredEntry(d: Dict, k: Key, v: Cached, after: Dict, x: Entry<Key, Cached>)
    requires Distinct(d) && x in after && forall e :: e in after ==> e in PutLast(d, k, v)
    ensures if x.key == k then x.value == v else Find(d, x.key) == Some(x.value)
  {
    PutLastFacts(d, k, v);
    assert x in PutLast(d, k, v);
    if x.key != k { FindUnique(d, x); } else { FindUnique(PutLast(d, k, v), x); }
  }

  lemma EntryAt(run: seq<World>, events: seq<Event>, k: Key, n: nat)
    requires IsRun(run, events) && 0 < n <= |events| && Find(run[n].entries, k).Some?
    ensures !events[n - 1].Clear?
    ensures if Builds(events[n - 1], k) then Find(run[n].entries, k) == Some(Build(events[n - 1].request))
            else Find(run[n].entries, k) == Find(run[n - 1].entries, k)
  {
    AlwaysInv(run, events, n - 1);
    assert StepAt(run, events, n - 1);
    StepEntry(run[n - 1], events[n - 1], run[n], k);
  }

  lemma NothingCachedAtFirst(run: seq<World>, events: seq<Event>, k: Key)
    requires IsRun(run, events)
    ensures Find(run[0].entries, k) == None
  {
  }

  /** Whatever is cached under a key is what the latest build of that key stored. */
  lemma {:induction false} HitIsLatestBuild(run: seq<World>, events: seq<Event>, k: Key, n: nat)
    requires IsRun(run, events) && n <= |events| && Find(run[n].entries, k).Some?
    ensures exists m: nat :: LatestBuild(events, k, m, n) && Find(run[n].entries, k) == Some(Build(events[m].request))
  {
    NothingCachedAtFirst(run, events, k);
    EntryAt(run, events, k, n);
    if Builds(events[n - 1], k) {
      assert LatestBuild(events, k, n - 1, n);
    } else {
      HitIsLatestBuild(run, events, k, n - 1);
      var m: nat :| LatestBuild(events, k, m, n - 1) && Find(run[n - 1].entries, k) == Some(Build(events[m].request));
      assert LatestBuild(events, k, m, n);
    }
  }

  /** A hit carries given floors exactly when the latest build of its key was made under them. */
  lemma HitFloorsIff(run: seq<World>, events: seq<Event>, k: Key, n: nat, m: nat, floors: Floors)
    requires IsRun(run, events) && n <= |events| && Find(run[n].entries, k).Some? && LatestBuild(events, k, m, n)
    ensures Find(run[n].entries, k).value.graph.floors == floors <==> events[m].request.floors == floors
  {
    HitIsLatestBuild(run, events, k, n);
    var latest: nat :| && LatestBuild(events, k, latest, n)
                       && Find(run[n].entries, k) == Some(Build(events[latest].request));
    assert latest == m;
  }

  /** Only requests that have begun finish. */
  lemma {:induction false} BuiltWasBegun(run: seq<World>, events: seq<Event>, r: Request, n: nat)
    requires IsRun(run, events) && n < |run| && r in run[n].building
    ensures exists b :: 0 <= b < n && events[b] == Begin(r)
  {
    assert StepAt(run, events, n - 1);
    if events[n - 1] != Begin(r) { BuiltWasBegun(run, events, r, n - 1); }
  }

  /** As long as every request for a key reads the same floors, every hit under that key has them. */
  lemma SteadyFloors(run: seq<World>, events: seq<Event>, k: Key, n: nat, floors: Floors)
    requires IsRun(run, events) && n <= |events| && Find(run[n].entries, k).Some?
    requires forall i :: 0 <= i < n && events[i].Begin? && events[i].request.key == k
               ==> events[i].request.floors == floors
    ensures Find(run[n].entries, k).value.graph.floors == floors
  {
    HitIsLatestBuild(run, events, k, n);
    var m: nat :| LatestBuild(events, k, m, n) && Find(run[n].entries, k) == Some(Build(events[m].request));
    assert StepAt(run, events, m);
    BuiltWasBegun(run, events, events[m].request, m);
  }

  /** The relevance and factuality floors are not part of the key: a request may be served a graph
      compiled under other floors. */
  lemma FloorsMayBeStale(before: Floors, now: Floors) returns (run: seq<World>, events: seq<Event>, r: Request)
    ensures IsRun(run, events) && Holds(run[|events|].live, r.key, (r.retriever, r.fast, r.strong))
    ensures r.floors == now
    ensures var hit := Find(run[|events|].entries, r.key); hit.Some? && hit.value.graph.floors == before
  {
    var k := Key(0, 0, 0, 80, 2);
    var first := Request(k, 7, 7, 7, before);
    r := first.(floors := now);
    var live := map[0 := 7];
    var alone: Dict := [Entry(k, Build(first))];
    events := [Allocate(0, 7), Begin(first), Finish(first)];
    run := [EMPTY, World(live, [], multiset{}), World(live, [], multiset{first}), World(live, alone, multiset{})];
    assert PutLast([], k, Build(first)) == alone;
    assert StepAt(run, events, 0) && StepAt(run, events, 1) && StepAt(run, events, 2);
  }
}
