/** The in-memory TTL/LRU fallback cache (cache/redis_cache.py). */
module FallbackCache {
  import opened Options
  import opened OrderedDict

  const MAX_ENTRIES: nat := 1024

  type Time = real
  datatype Stored = Stored(text: string, expiresAt: Time)
  type Dict = seq<Entry<string, Stored>>

  /** One locked operation, with the clock value it read. `Delete` reads no clock. */
  datatype Op =
    | Get(key: string, now: Time)
    | Set(key: string, text: string, ttl: int, now: Time)
    | Delete(key: string)
    | DeleteMatching(pattern: string -> bool, now: Time)

  function Expired(d: Dict, now: Time): set<string> {
    set i | 0 <= i < |d| && d[i].value.expiresAt <= now :: d[i].key
  }

  function Purged(d: Dict, now: Time): Dict { Without(d, Expired(d, now)) }

  function Matching(d: Dict, pattern: string -> bool): set<string> {
    set k | k in Keys(d) && pattern(k)
  }

  predicate Live(v: Option<Stored>, now: Time) { v.Some? && v.value.expiresAt > now }

  function Visible(v: Option<Stored>, now: Time): Option<string> {
    if Live(v, now) then Some(v.value.text) else None
  }

  predicate Hits(d: Dict, op: Op) { op.Get? && Live(Find(d, op.key), op.now) }

  /** The dictionary after one operation. */
  function Next(d: Dict, op: Op): Dict {
    match op
    case Get(k, now) =>
      var found := Find(d, k);
      if found == None then d
      else if !Live(found, now) then Without(d, {k})
      else PutLast(d, k, found.value)
    case Set(k, text, ttl, now) =>
      var p := Purged(d, now);
      if ttl <= 0 then Without(p, {k})
      else Evict(PutLast(p, k, Stored(text, now + ttl as real)), MAX_ENTRIES)
    case Delete(k) => Without(d, {k})
    case DeleteMatching(pattern, now) =>
      var p := Purged(d, now);
      Without(p, Matching(p, pattern))
  }

  /** In a dictionary, dropping the expired keys drops exactly the expired entries. */
  lemma PurgedEntries(d: Dict, now: Time, e: Entry<string, Stored>)
    requires Distinct(d)
    ensures e in Purged(d, now) <==> e in d && e.value.expiresAt > now
  {
    if e in d {
      var i :| 0 <= i < |d| && d[i] == e;
      if e.key in Expired(d, now) {
        var j :| 0 <= j < |d| && d[j].value.expiresAt <= now && d[j].key == e.key;
        assert i == j;
      }
    }
  }

  lemma AllPurged(d: Dict, now: Time)
    requires Distinct(d)
    ensures forall e :: e in Purged(d, now) <==> e in d && e.value.expiresAt > now
  {
    forall e ensures e in Purged(d, now) <==> e in d && e.value.expiresAt > now { PurgedEntries(d, now, e); }
  }

  /** An entry that a store leaves behind is the new one, or an old one that is still live. */
  lemma StoreKeeps(d: Dict, key: string, text: string, ttl: int, now: Time, e: Entry<string, Stored>)
    requires e in Next(d, Set(key, text, ttl, now))
    ensures ttl <= 0 ==> e.key != key
    ensures e.key != key ==> e in d
    ensures Distinct(d) ==> e.value.expiresAt > now
  {
    if Distinct(d) { PurgedEntries(d, now, e); }
    var stored := Entry(key, Stored(text, now + ttl as real));
    assert ttl > 0 ==> e in Without(Purged(d, now), {key}) + [stored];
    assert e == stored || e in Without(Purged(d, now), {key});
  }

  lemma StoreIsLast(d: Dict, key: string, text: string, ttl: int, now: Time)
    requires ttl > 0
    ensures var r := Next(d, Set(key, text, ttl, now));
            0 < |r| <= 1024 && r[|r| - 1] == Entry(key, Stored(text, now + ttl as real))
  {
    var full := PutLast(Purged(d, now), key, Stored(text, now + ttl as real));
    assert Next(d, Set(key, text, ttl, now)) == Evict(full, 1024);
  }

  /** What a store leaves behind, entry by entry. */
  lemma SetDoes(d: Dict, key: string, text: string, ttl: int, now: Time)
    ensures var r := Next(d, Set(key, text, ttl, now));
            && (ttl > 0 ==> 0 < |r| <= 1024 && r[|r| - 1] == Entry(key, Stored(text, now + ttl as real)))
            && (ttl <= 0 ==> forall e :: e in r ==> e.key != key)
            && (forall e :: e in r && e.key != key ==> e in d)
            && (Distinct(d) ==> forall e :: e in r ==> e.value.expiresAt > now)
  {
    if ttl > 0 { StoreIsLast(d, key, text, ttl, now); }
    forall e | e in Next(d, Set(key, text, ttl, now))
      ensures (ttl <= 0 ==> e.key != key) && (e.key != key ==> e in d) && (Distinct(d) ==> e.value.expiresAt > now)
    {
      StoreKeeps(d, key, text, ttl, now, e);
    }
  }

  lemma UnmatchedEntries(d: Dict, pattern: string -> bool, e: Entry<string, Stored>)
    ensures e in Without(d, Matching(d, pattern)) <==> e in d && !pattern(e.key)
  {
    if e in d {
      var i :| 0 <= i < |d| && d[i] == e;
      assert e.key in Keys(d);
    }
  }

  // ----- The cache object -----

  class Fallback {
    var entries: Dict

    constructor ()
      ensures entries == []
    {
      entries := [];
    }

    method PurgeExpired(now: Time)
      modifies this
      ensures entries == Purged(old(entries), now)
      ensures Distinct(old(entries)) ==>
                forall e :: e in entries <==> e in old(entries) && e.value.expiresAt > now
    {
      var expired: seq<string> := [];
      ghost var gone: set<string> := {};
      for i := 0 to |entries|
        invariant entries == old(entries)
        invariant gone == set x | x in expired
        invariant gone == set j | 0 <= j < i && entries[j].value.expiresAt <= now :: entries[j].key
      {
        if entries[i].value.expiresAt <= now {
          expired := expired + [entries[i].key];
          gone := gone + {entries[i].key};
        }
      }
      assert gone == Expired(entries, now);
      ghost var before := entries;
      ghost var popped: set<string> := {};
      WithoutNothing(entries, {});
      for i := 0 to |expired|
        invariant popped == set x | x in expired[..i]
        invariant entries == Without(before, popped)
      {
        assert expired[..i + 1] == expired[..i] + [expired[i]];
        WithoutTwice(before, popped, {expired[i]});
        entries := Without(entries, {expired[i]});
        popped := popped + {expired[i]};
      }
      assert expired[..|expired|] == expired;
      assert entries == Purged(before, now);
      if Distinct(before) { AllPurged(before, now); }
    }

    method FallbackGet(key: string, now: Time) returns (r: Option<string>)
      modifies this
      ensures entries == Next(old(entries), Get(key, now))
      ensures r == Visible(Find(old(entries), key), now)
      ensures r.Some? ==> && entries != [] && entries[|entries| - 1].key == key
                          && entries[|entries| - 1].value.text == r.value
                          && entries[|entries| - 1] in old(entries) && entries[|entries| - 1].value.expiresAt > now
                          && entries[..|entries| - 1] == Without(old(entries), {key})
      ensures r == None ==> forall e :: e in entries ==> e in old(entries) && e.key != key
      ensures r == None && Distinct(old(entries)) ==>
                forall e :: e in old(entries) && e.key == key ==> e.value.expiresAt <= now
    {
      var entry := Find(entries, key);
      forall e | Distinct(entries) && e in entries && e.key == key ensures entry == Some(e.value) {
        FindUnique(entries, e);
      }
      if entry == None {
        return None;
      }
      if entry.value.expiresAt <= now {
        entries := Without(entries, {key});
        return None;
      }
      entries := PutLast(entries, key, entry.value);
      return Some(entry.value.text);
    }

    method FallbackSet(key: string, text: string, ttl: int, now: Time)
      modifies this
      ensures entries == Next(old(entries), Set(key, text, ttl, now))
      ensures ttl > 0 ==> && 0 < |entries| <= 1024
                          && entries[|entries| - 1] == Entry(key, Stored(text, now + ttl as real))
      ensures ttl <= 0 ==> forall e :: e in entries ==> e.key != key
      ensures forall e :: e in entries && e.key != key ==> e in old(entries)
      ensures Distinct(old(entries)) ==> forall e :: e in entries ==> e.value.expiresAt > now
    {
      SetDoes(entries, key, text, ttl, now);
      PurgeExpired(now);
      if ttl <= 0 {
        entries := Without(entries, {key});
        return;
      }
      entries := PutLast(entries, key, Stored(text, now + ttl as real));
      ghost var full := entries;
      while |entries| > MAX_ENTRIES
        invariant |full| <= MAX_ENTRIES ==> entries == full
        invariant |full| > MAX_ENTRIES ==> MAX_ENTRIES <= |entries| <= |full| && entries == full[|full| - |entries|..]
      {
        entries := entries[1..];
      }
    }

    method FallbackDelete(key: string)
      modifies this
      ensures entries == Next(old(entries), Delete(key))
      ensures forall e :: e in entries <==> e in old(entries) && e.key != key
    {
      entries := Without(entries, {key});
    }

    method FallbackDeletePattern(pattern: string -> bool, now: Time) returns (deleted: nat)
      modifies this
      ensures entries == Next(old(entries), DeleteMatching(pattern, now))
      ensures deleted == |Matching(Purged(old(entries), now), pattern)|
      ensures Distinct(old(entries)) ==>
                forall e :: e in entries <==> e in old(entries) && e.value.expiresAt > now && !pattern(e.key)
    {
      PurgeExpired(now);
      forall e ensures e in Without(entries, Matching(entries, pattern)) <==> e in entries && !pattern(e.key) {
        UnmatchedEntries(entries, pattern, e);
      }
      var doomed := Matching(entries, pattern);
      entries := Without(entries, doomed);
      deleted := |doomed|;
    }
  }

  // ----- The unbounded TTL map -----

  /** Everything ever stored and not deleted, and for each key the distinct other keys set or hit
      since that key was itself last set or hit. */
  datatype History = History(ideal: map<string, Stored>, since: map<string, set<string>>)

  function Lookup(h: History, k: string): Option<Stored> {
    if k in h.ideal then Some(h.ideal[k]) else None
  }

  function Touch(since: map<string, set<string>>, k: string): map<string, set<string>> {
    map j | j in since.Keys + {k} :: if j == k then {} else since[j] + {k}
  }

  /** The unbounded map never evicts and is told only which reads hit. */
  function Record(h: History, op: Op, hit: bool): History {
    match op
    case Get(k, _) => if hit then h.(since := Touch(h.since, k)) else h
    case Set(k, text, ttl, now) =>
      if ttl <= 0 then h.(ideal := h.ideal - {k})
      else History(h.ideal[k := Stored(text, now + ttl as real)], Touch(h.since, k))
    case Delete(k) => h.(ideal := h.ideal - {k})
    case DeleteMatching(pattern, _) => h.(ideal := map k | k in h.ideal && !pattern(k) :: h.ideal[k])
  }

  function Cache(ops: seq<Op>): Dict {
    if ops == [] then [] else Next(Cache(ops[..|ops| - 1]), ops[|ops| - 1])
  }

  function Past(ops: seq<Op>): History {
    if ops == [] then History(map[], map[])
    else
      var before := ops[..|ops| - 1];
      Record(Past(before), ops[|ops| - 1], Hits(Cache(before), ops[|ops| - 1]))
  }

  /** Every clock value read so far is at most `now`. */
  predicate ClockBelow(ops: seq<Op>, now: Time) {
    forall i :: 0 <= i < |ops| && !ops[i].Delete? ==> ops[i].now <= now
  }

  predicate MonotoneClock(ops: seq<Op>) {
    forall i, j :: 0 <= i < j < |ops| && !ops[i].Delete? && !ops[j].Delete? ==> ops[i].now <= ops[j].now
  }

  // ----- Invariants -----

  /** What holds whatever the clock does: size, distinct keys, recency order, and every entry is the
      entry of the unbounded map. */
  ghost predicate Sound(d: Dict, h: History) {
    && Distinct(d) && |d| <= MAX_ENTRIES
    && h.ideal.Keys <= h.since.Keys
    && (forall e :: e in d ==> e.key in h.ideal && h.ideal[e.key] == e.value)
    && Recency(d, h.since)
  }

  /** Later entries were used since the earlier ones. */
  ghost predicate Recency(d: Dict, since: map<string, set<string>>) {
    && (forall i :: 0 <= i < |d| ==> d[i].key in since)
    && (forall i, j :: 0 <= i < j < |d| ==> d[j].key in since[d[i].key])
  }

  /** A live key with few enough successors is still cached. */
  ghost predicate Complete(d: Dict, h: History, now: Time) {
    forall k :: k in h.ideal && k in h.since && h.ideal[k].expiresAt > now && |h.since[k]| < MAX_ENTRIES
      ==> k in Keys(d)
  }

  lemma RecencyWithout(d: Dict, since: map<string, set<string>>, ks: set<string>)
    requires Recency(d, since)
    ensures Recency(Without(d, ks), since)
  {
    var later := (x: string, y: string) => x in since && y in since[x];
    assert Ordered(d, later);
    WithoutOrdered(d, ks, later);
    var r := Without(d, ks);
    forall i | 0 <= i < |r| ensures r[i].key in since {
      assert r[i] in r;
      var m :| 0 <= m < |d| && d[m] == r[i];
    }
    forall i, j | 0 <= i < j < |r| ensures r[j].key in since[r[i].key] {
      assert later(r[i].key, r[j].key);
    }
  }

  lemma RecencyTouch(d: Dict, since: map<string, set<string>>, k: string, v: Stored)
    requires Recency(d, since)
    ensures Recency(PutLast(d, k, v), Touch(since, k))
  {
    RecencyWithout(d, since, {k});
    var w, r := Without(d, {k}), PutLast(d, k, v);
    forall i | 0 <= i < |w| ensures r[i] == w[i] && r[i].key != k { assert w[i] in w; }
  }

  lemma SoundWithout(d: Dict, h: History, ks: set<string>)
    requires Sound(d, h)
    ensures Sound(Without(d, ks), h)
  {
    WithoutDistinct(d, ks);
    RecencyWithout(d, h.since, ks);
  }

  lemma SoundEvict(d: Dict, h: History, full: Dict)
    requires Distinct(full) && h.ideal.Keys <= h.since.Keys
    requires forall e :: e in full ==> e.key in h.ideal && h.ideal[e.key] == e.value
    requires Recency(full, h.since) && d == Evict(full, MAX_ENTRIES)
    ensures Sound(d, h)
  {
    if |full| > MAX_ENTRIES {
      var cut := |full| - MAX_ENTRIES;
      assert forall i :: 0 <= i < |d| ==> d[i] == full[i + cut];
    }
  }

  lemma SoundSet(d: Dict, h: History, op: Op)
    requires Sound(d, h) && op.Set? && op.ttl > 0
    ensures Sound(Next(d, op), Record(h, op, false))
  {
    var p, v := Purged(d, op.now), Stored(op.text, op.now + op.ttl as real);
    SoundWithout(d, h, Expired(d, op.now));
    PutLastFacts(p, op.key, v);
    RecencyTouch(p, h.since, op.key, v);
    SoundEvict(Next(d, op), Record(h, op, false), PutLast(p, op.key, v));
  }

  lemma SoundHit(d: Dict, h: History, op: Op)
    requires Sound(d, h) && Hits(d, op)
    ensures Sound(Next(d, op), Record(h, op, true))
  {
    var v := Find(d, op.key).value;
    PutLastFacts(d, op.key, v);
    PutLastPresent(d, op.key, v);
    RecencyTouch(d, h.since, op.key, v);
  }

  /** Deleting keys from both sides; the dictionary may lose more. */
  lemma SoundForget(d: Dict, h: History, g: History, ks: set<string>)
    requires Sound(d, h) && g.since == h.since && g.ideal.Keys <= h.ideal.Keys
    requires forall k :: k in h.ideal && k !in ks ==> k in g.ideal && g.ideal[k] == h.ideal[k]
    ensures Sound(Without(d, ks), g)
  {
    SoundWithout(d, h, ks);
  }

  lemma SoundStep(d: Dict, h: History, op: Op)
    requires Sound(d, h)
    ensures Sound(Next(d, op), Record(h, op, Hits(d, op)))
  {
    match op
    case Get(k, now) =>
      if Hits(d, op) { SoundHit(d, h, op); } else { SoundWithout(d, h, {k}); }
    case Set(k, text, ttl, now) =>
      if ttl > 0 {
        SoundSet(d, h, op);
      } else {
        SoundWithout(d, h, Expired(d, now));
        SoundForget(Purged(d, now), h, Record(h, op, false), {k});
      }
    case Delete(k) =>
      SoundForget(d, h, Record(h, op, false), {k});
    case DeleteMatching(pattern, now) =>
      SoundWithout(d, h, Expired(d, now));
      var p := Purged(d, now);
      SoundWithout(p, h, Matching(p, pattern));
      forall e | e in Next(d, op) ensures !pattern(e.key) {
        var i :| 0 <= i < |p| && p[i] == e;
        assert e.key in Keys(p);
      }
  }

  /** Whatever the clock does, the cache is bounded and only ever shows what the unbounded map holds. */
  lemma {:induction false} AlwaysSound(ops: seq<Op>)
    ensures Sound(Cache(ops), Past(ops))
  {
    if ops != [] {
      AlwaysSound(ops[..|ops| - 1]);
      SoundStep(Cache(ops[..|ops| - 1]), Past(ops[..|ops| - 1]), ops[|ops| - 1]);
    }
  }

  // ----- Survival -----

  lemma PurgeKeepsLive(d: Dict, h: History, now: Time, k: string)
    requires Sound(d, h) && k in Keys(d) && h.ideal[k].expiresAt > now
    ensures k in Keys(Purged(d, now))
  {
    WithoutDistinct(d, Expired(d, now));
  }

  /** An evicted entry has at least MAX_ENTRIES distinct successors. */
  lemma EvictedIsOld(full: Dict, since: map<string, set<string>>, k: string)
    requires Distinct(full) && Recency(full, since)
    requires k in Keys(full) && k !in Keys(Evict(full, MAX_ENTRIES))
    ensures k in since && |since[k]| >= MAX_ENTRIES
  {
    var kept := Evict(full, MAX_ENTRIES);
    var cut := |full| - MAX_ENTRIES;
    var i :| 0 <= i < |full| && full[i].key == k;
    assert forall j :: 0 <= j < |kept| ==> kept[j] == full[j + cut];
    forall x | x in Keys(kept) ensures x in since[k] {
      var j :| 0 <= j < |kept| && kept[j].key == x;
      assert kept[j] == full[j + cut];
    }
    DistinctCardinality(kept);
    Subset(Keys(kept), since[k]);
  }

  lemma {:induction false} Subset(a: set<string>, b: set<string>)
    requires a <= b
    ensures |a| <= |b|
    decreases a
  {
    if a != {} {
      var x :| x in a;
      Subset(a - {x}, b - {x});
    }
  }

  lemma TouchGrows(since: map<string, set<string>>, k: string, j: string)
    requires j in since && j != k
    ensures |since[j]| <= |Touch(since, k)[j]|
  {
    Subset(since[j], Touch(since, k)[j]);
  }

  /** One key through a store: it stays live, and being evicted would need too many successors. */
  lemma KeptBySet(d: Dict, h: History, op: Op, k: string)
    requires Sound(d, h) && op.Set? && op.ttl > 0
    requires k == op.key || (k in Keys(d) && h.ideal[k].expiresAt > op.now)
    requires |Touch(h.since, op.key)[k]| < MAX_ENTRIES
    ensures k in Keys(Next(d, op))
  {
    var p, v := Purged(d, op.now), Stored(op.text, op.now + op.ttl as real);
    var full := PutLast(p, op.key, v);
    SoundWithout(d, h, Expired(d, op.now));
    PutLastFacts(p, op.key, v);
    RecencyTouch(p, h.since, op.key, v);
    if k != op.key { PurgeKeepsLive(d, h, op.now, k); }
    if k !in Keys(Evict(full, MAX_ENTRIES)) { EvictedIsOld(full, Touch(h.since, op.key), k); }
  }

  lemma CompleteSet(d: Dict, h: History, op: Op)
    requires Sound(d, h) && op.Set? && op.ttl > 0 && Complete(d, h, op.now)
    ensures Complete(Next(d, op), Record(h, op, false), op.now)
  {
    var g := Record(h, op, false);
    forall k | k in g.ideal && g.ideal[k].expiresAt > op.now && |g.since[k]| < MAX_ENTRIES
      ensures k in Keys(Next(d, op))
    {
      if k != op.key { TouchGrows(h.since, op.key, k); }
      KeptBySet(d, h, op, k);
    }
  }

  lemma CompleteStep(d: Dict, h: History, op: Op, now: Time)
    requires Sound(d, h) && Complete(d, h, now) && (op.Delete? || op.now == now)
    ensures Complete(Next(d, op), Record(h, op, Hits(d, op)), now)
  {
    var g := Record(h, op, Hits(d, op));
    match op
    case Get(k, _) =>
      if Hits(d, op) {
        PutLastFacts(d, k, Find(d, k).value);
        forall j | j in h.ideal && j != k ensures |h.since[j]| <= |g.since[j]| { TouchGrows(h.since, k, j); }
      } else if Find(d, k).Some? {
        WithoutDistinct(d, {k});
      }
    case Set(k, _, ttl, _) =>
      if ttl > 0 {
        CompleteSet(d, h, op);
      } else {
        SoundWithout(d, h, Expired(d, now));
        WithoutDistinct(Purged(d, now), {k});
        forall j | j in g.ideal && g.ideal[j].expiresAt > now && |g.since[j]| < MAX_ENTRIES
          ensures j in Keys(Next(d, op))
        {
          PurgeKeepsLive(d, h, now, j);
        }
      }
    case Delete(k) =>
      WithoutDistinct(d, {k});
    case DeleteMatching(pattern, _) =>
      var p := Purged(d, now);
      SoundWithout(d, h, Expired(d, now));
      WithoutDistinct(p, Matching(p, pattern));
      forall j | j in g.ideal && g.ideal[j].expiresAt > now && |g.since[j]| < MAX_ENTRIES
        ensures j in Keys(Next(d, op))
      {
        PurgeKeepsLive(d, h, now, j);
      }
  }

  lemma CompleteLater(d: Dict, h: History, now: Time, later: Time)
    requires Complete(d, h, now) && now <= later
    ensures Complete(d, h, later)
  {
  }

  lemma {:induction false} AlwaysComplete(ops: seq<Op>, now: Time)
    requires MonotoneClock(ops) && ClockBelow(ops, now)
    ensures Complete(Cache(ops), Past(ops), now)
  {
    if ops != [] {
      var before, op := ops[..|ops| - 1], ops[|ops| - 1];
      AlwaysSound(before);
      var at := if op.Delete? then now else op.now;
      AlwaysComplete(before, at);
      CompleteStep(Cache(before), Past(before), op, at);
      CompleteLater(Cache(ops), Past(ops), at, now);
    }
  }

  // ----- Theorems -----

  /** A read never shows a value the unbounded TTL map would not show, and the cache never holds
      more than 1024 entries, for every sequence of operations and any clock. */
  lemma ReadsAreSound(ops: seq<Op>, k: string, now: Time)
    ensures |Cache(ops)| <= MAX_ENTRIES
    ensures var shown := Visible(Find(Cache(ops), k), now);
            shown.Some? ==> shown == Visible(Lookup(Past(ops), k), now)
  {
    AlwaysSound(ops);
    var found := Find(Cache(ops), k);
    if found.Some? {
      assert Entry(k, found.value) in Cache(ops);
    }
  }

  /** With a monotone clock the cache and the unbounded map agree on a key whenever fewer than 1024
      distinct other keys were set or hit since that key was last set or hit. */
  lemma LruSurvival(ops: seq<Op>, k: string, now: Time)
    requires MonotoneClock(ops) && ClockBelow(ops, now)
    requires k in Past(ops).since ==> |Past(ops).since[k]| < MAX_ENTRIES
    ensures Visible(Find(Cache(ops), k), now) == Visible(Lookup(Past(ops), k), now)
  {
    AlwaysSound(ops);
    AlwaysComplete(ops, now);
    ReadsAreSound(ops, k, now);
    var found := Find(Cache(ops), k);
    if found.Some? {
      assert Entry(k, found.value) in Cache(ops);
    }
  }

  lemma LastStored(d: Dict, op: Op)
    requires op.Set? && op.ttl > 0
    ensures Entry(op.key, Stored(op.text, op.now + op.ttl as real)) in Next(d, op)
  {
    var e := Entry(op.key, Stored(op.text, op.now + op.ttl as real));
    var full := PutLast(Purged(d, op.now), op.key, e.value);
    var kept := Evict(full, MAX_ENTRIES);
    assert kept[|kept| - 1] == full[|full| - 1] == e;
  }

  lemma StoredIsFound(d: Dict, op: Op)
    requires Distinct(Next(d, op)) && op.Set? && op.ttl > 0
    ensures Find(Next(d, op), op.key) == Some(Stored(op.text, op.now + op.ttl as real))
  {
    LastStored(d, op);
    FindUnique(Next(d, op), Entry(op.key, Stored(op.text, op.now + op.ttl as real)));
  }

  /** A read right after a store with a positive lifetime shows the stored text until it expires. */
  lemma ReadYourWrite(ops: seq<Op>, k: string, text: string, ttl: int, at: Time, now: Time)
    requires ttl > 0 && at <= now < at + ttl as real
    ensures var after := ops + [Set(k, text, ttl, at)];
            Visible(Find(Cache(after), k), now) == Some(text)
  {
    var op := Set(k, text, ttl, at);
    assert (ops + [op])[..|ops|] == ops;
    AlwaysSound(ops + [op]);
    StoredIsFound(Cache(ops), op);
  }

  // ----- What a read shows, by the operations themselves -----

  /** The operation replaces or removes whatever was stored under the key. */
  predicate Overrides(op: Op, k: string) {
    match op
    case Get(_, _) => false
    case Set(key, _, _, _) => key == k
    case Delete(key) => key == k
    case DeleteMatching(pattern, _) => pattern(k)
  }

  /** The i-th operation stored this text under the key, and nothing overrode it since. */
  ghost predicate LastStoredAt(ops: seq<Op>, k: string, v: Stored, i: nat) {
    && i < |ops| && ops[i].Set? && ops[i].key == k && ops[i].ttl > 0
    && v.text == ops[i].text && v.expiresAt == ops[i].now + ops[i].ttl as real
    && forall j: nat :: i < j < |ops| ==> !Overrides(ops[j], k)
  }

  ghost predicate StoredLast(ops: seq<Op>, k: string, v: Stored) { exists i: nat :: LastStoredAt(ops, k, v, i) }

  predicate Stores(op: Op, k: string, v: Stored) {
    op.Set? && op.key == k && op.ttl > 0 && v == Stored(op.text, op.now + op.ttl as real)
  }

  lemma StoredLastStep(ops: seq<Op>, k: string, v: Stored)
    requires ops != []
    ensures StoredLast(ops, k, v)
            <==> var op := ops[|ops| - 1];
                 Stores(op, k, v) || (!Overrides(op, k) && StoredLast(ops[..|ops| - 1], k, v))
  {
    var n := |ops| - 1;
    var front, op := ops[..n], ops[n];
    if Stores(op, k, v) { assert LastStoredAt(ops, k, v, n); }
    if i: nat :| LastStoredAt(front, k, v, i) {
      if !Overrides(op, k) { assert LastStoredAt(ops, k, v, i); }
    }
    if i: nat :| LastStoredAt(ops, k, v, i) {
      if i < n {
        assert !Overrides(op, k);
        forall j: nat | i < j < n ensures !Overrides(front[j], k) { assert !Overrides(ops[j], k); }
        assert LastStoredAt(front, k, v, i);
      }
    }
  }

  lemma RecordStep(h: History, op: Op, hit: bool, k: string, v: Stored)
    ensures Lookup(Record(h, op, hit), k) == Some(v)
            <==> Stores(op, k, v) || (!Overrides(op, k) && Lookup(h, k) == Some(v))
  {
  }

  /** The unbounded map holds exactly what was stored last under each key and not removed. */
  lemma {:induction false} IdealIff(ops: seq<Op>, k: string, v: Stored)
    ensures Lookup(Past(ops), k) == Some(v) <==> StoredLast(ops, k, v)
  {
    if ops != [] {
      var front, op := ops[..|ops| - 1], ops[|ops| - 1];
      IdealIff(front, k, v);
      StoredLastStep(ops, k, v);
      RecordStep(Past(front), op, Hits(Cache(front), op), k, v);
    }
  }

  /** A read shows only what the latest store of its key put there and nothing removed, and only before
      that store's lifetime has passed. */
  lemma ShownWasStored(ops: seq<Op>, k: string, now: Time, text: string)
    requires Visible(Find(Cache(ops), k), now) == Some(text)
    ensures exists i: nat :: && i < |ops| && ops[i].Set? && ops[i].key == k && ops[i].text == text && ops[i].ttl > 0
                             && now < ops[i].now + ops[i].ttl as real
                             && forall j: nat :: i < j < |ops| ==> !Overrides(ops[j], k)
  {
    AlwaysSound(ops);
    var v := Find(Cache(ops), k).value;
    assert Entry(k, v) in Cache(ops);
    IdealIff(ops, k, v);
    var i: nat :| LastStoredAt(ops, k, v, i);
  }

  /** The i-th operation used the key: it stored a value under it or was a read that hit. */
  predicate Uses(ops: seq<Op>, i: nat, k: string) {
    i < |ops| && match ops[i]
                 case Get(key, _) => key == k && Hits(Cache(ops[..i]), ops[i])
                 case Set(key, _, ttl, _) => key == k && ttl > 0
                 case _ => false
  }

  /** `j` was used after the last use of `k`. */
  ghost predicate UsedSince(ops: seq<Op>, k: string, j: string) {
    exists i: nat :: Uses(ops, i, j) && forall m: nat :: i <= m < |ops| ==> !Uses(ops, m, k)
  }

  lemma UsesPrefix(ops: seq<Op>, i: nat, k: string)
    requires i + 1 < |ops|
    ensures Uses(ops, i, k) <==> Uses(ops[..|ops| - 1], i, k)
  {
    assert ops[..|ops| - 1][..i] == ops[..i];
  }

  /** The distances that decide survival count exactly the distinct other keys used since. */
  lemma {:induction false} SinceIff(ops: seq<Op>, k: string, j: string)
    requires k in Past(ops).since
    ensures j in Past(ops).since[k] <==> j != k && UsedSince(ops, k, j)
  {
    if ops != [] {
      var n := |ops| - 1;
      var front := ops[..n];
      if k in Past(front).since { SinceIff(front, k, j); }
      SinceStep(ops, k, j);
    }
  }

  /** One more operation: the last position uses a key exactly when the history touches it. */
  lemma SinceStep(ops: seq<Op>, k: string, j: string)
    requires ops != [] && k in Past(ops).since
    requires var front := ops[..|ops| - 1];
             k in Past(front).since ==> (j in Past(front).since[k] <==> j != k && UsedSince(front, k, j))
    ensures j in Past(ops).since[k] <==> j != k && UsedSince(ops, k, j)
  {
    var n := |ops| - 1;
    var front := ops[..n];
    assert ops[..n] == front;
    if Uses(ops, n, k) {
      assert !UsedSince(ops, k, j);
    } else {
      UsedSinceStep(ops, k, j);
    }
  }

  lemma UsedSinceStep(ops: seq<Op>, k: string, j: string)
    requires ops != [] && !Uses(ops, |ops| - 1, k)
    ensures UsedSince(ops, k, j) <==> Uses(ops, |ops| - 1, j) || UsedSince(ops[..|ops| - 1], k, j)
  {
    var n := |ops| - 1;
    var front := ops[..n];
    forall m: nat, x: string | m < n ensures Uses(ops, m, x) <==> Uses(front, m, x) { UsesPrefix(ops, m, x); }
    if i: nat :| Uses(front, i, j) && forall m: nat :: i <= m < |front| ==> !Uses(front, m, k) {
      assert Uses(ops, i, j);
      assert forall m: nat :: i <= m < |ops| ==> !Uses(ops, m, k);
    }
    if i: nat :| Uses(ops, i, j) && forall m: nat :: i <= m < |ops| ==> !Uses(ops, m, k) {
      if i < n { assert Uses(front, i, j); }
    }
  }

  // ----- The bound of 1024 is exact -----

  function NthKey(n: nat): string { seq(n, _ => 'k') }

  function NthStore(n: nat): Op { Set(NthKey(n), "", 1, 0.0) }

  /** One key, then `n` others, all stored at time 0 for one second. */
  function Fill(n: nat): seq<Op> { seq(n + 1, i requires 0 <= i => NthStore(i)) }

  lemma NthKeysDiffer(i: nat, j: nat)
    requires i != j
    ensures NthKey(i) != NthKey(j)
  {
    assert |NthKey(i)| == i && |NthKey(j)| == j;
  }

  lemma FillStep(n: nat)
    requires n > 0
    ensures Fill(n)[..|Fill(n)| - 1] == Fill(n - 1) && Fill(n)[|Fill(n)| - 1] == NthStore(n)
  {
  }

  function NthEntry(i: nat): Entry<string, Stored> { Entry(NthKey(i), Stored("", 1.0)) }

  ghost predicate Filled(d: Dict, n: nat) {
    |d| == n && forall i: nat :: i < n ==> d[i] == NthEntry(i)
  }

  lemma StoresNth(d: Dict, n: nat)
    requires Filled(d, n)
    ensures Next(d, NthStore(n)) == Evict(d + [NthEntry(n)], MAX_ENTRIES)
  {
    assert Expired(d, 0.0) == {};
    WithoutNothing(d, {});
    forall i: nat | i < n ensures d[i].key != NthKey(n) { NthKeysDiffer(i, n); }
    WithoutNothing(d, {NthKey(n)});
  }

  lemma FilledNext(d: Dict, n: nat)
    requires Filled(d, n) && n < MAX_ENTRIES
    ensures Filled(Next(d, NthStore(n)), n + 1)
  {
    StoresNth(d, n);
  }

  lemma {:induction false} FilledCache(n: nat)
    requires n < MAX_ENTRIES
    ensures Filled(Cache(Fill(n)), n + 1)
  {
    if n == 0 {
      assert Fill(0) == [NthStore(0)] && Fill(0)[..0] == [];
      FilledNext([], 0);
    } else {
      FilledCache(n - 1);
      FillStep(n);
      FilledNext(Cache(Fill(n - 1)), n);
    }
  }

  /** After exactly 1024 other keys the first one is gone although the unbounded map still shows it. */
  lemma SurvivalIsExact(n: nat)
    requires n == MAX_ENTRIES
    ensures Visible(Find(Cache(Fill(n)), NthKey(0)), 0.0) == None
    ensures Visible(Lookup(Past(Fill(n)), NthKey(0)), 0.0) == Some("")
  {
    FilledCache(n - 1);
    FillStep(n);
    StoresNth(Cache(Fill(n - 1)), n);
    FirstIsEvicted(Cache(Fill(n - 1)), n);
    FilledPast(n);
  }

  lemma FirstIsEvicted(d: Dict, n: nat)
    requires n == MAX_ENTRIES && Filled(d, n)
    ensures NthKey(0) !in Keys(Evict(d + [NthEntry(n)], MAX_ENTRIES))
  {
    var kept := Evict(d + [NthEntry(n)], MAX_ENTRIES);
    forall i: nat | i < |kept| ensures kept[i].key != NthKey(0) {
      assert kept[i] == NthEntry(i + 1);
      NthKeysDiffer(i + 1, 0);
    }
  }

  lemma {:induction false} FilledPast(n: nat)
    ensures Lookup(Past(Fill(n)), NthKey(0)) == Some(Stored("", 1.0))
  {
    if n == 0 {
      assert Fill(0) == [NthStore(0)];
    } else {
      FillStep(n);
      FilledPast(n - 1);
      NthKeysDiffer(n, 0);
    }
  }
}
