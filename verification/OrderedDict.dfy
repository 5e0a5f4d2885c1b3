/** Insertion-ordered dictionaries with distinct keys, oldest entry first: the part of Python's
    `OrderedDict` the two LRU caches rely on. */
module OrderedDict {
  import opened Options

  datatype Entry<+K, +V> = Entry(key: K, value: V)

  predicate Distinct<K(==), V>(d: seq<Entry<K, V>>) {
    forall i, j :: 0 <= i < j < |d| ==> d[i].key != d[j].key
  }

  function Keys<K, V>(d: seq<Entry<K, V>>): set<K> {
    set i | 0 <= i < |d| :: d[i].key
  }

  function Find<K(==), V>(d: seq<Entry<K, V>>, k: K): (r: Option<V>)
    ensures r.Some? <==> k in Keys(d)
    ensures r.Some? ==> Entry(k, r.value) in d
  {
    if d == [] then None
    else if d[0].key == k then Some(d[0].value)
    else
      assert forall i :: 0 <= i < |d[1..]| ==> d[1..][i] == d[i + 1];
      assert Keys(d) == {d[0].key} + Keys(d[1..]) by { KeysSplit(d); }
      Find(d[1..], k)
  }

  lemma KeysSplit<K, V>(d: seq<Entry<K, V>>)
    requires d != []
    ensures Keys(d) == {d[0].key} + Keys(d[1..])
  {
    forall k | k in Keys(d) ensures k in {d[0].key} + Keys(d[1..]) {
      var i :| 0 <= i < |d| && d[i].key == k;
      if i > 0 { assert d[1..][i - 1].key == k; }
    }
    forall k | k in Keys(d[1..]) ensures k in Keys(d) {
      var i :| 0 <= i < |d[1..]| && d[1..][i].key == k;
      assert d[i + 1].key == k;
    }
  }

  lemma FindUnique<K, V>(d: seq<Entry<K, V>>, e: Entry<K, V>)
    requires Distinct(d) && e in d
    ensures Find(d, e.key) == Some(e.value)
  {
    var r := Find(d, e.key);
    var i :| 0 <= i < |d| && d[i] == e;
    assert e.key in Keys(d);
    var j :| 0 <= j < |d| && d[j] == Entry(e.key, r.value);
  }

  /** Entries whose key is not in `ks`, in order. */
  function Without<K(==), V>(d: seq<Entry<K, V>>, ks: set<K>): (r: seq<Entry<K, V>>)
    ensures |r| <= |d|
    ensures forall e | e in r :: e in d && e.key !in ks
    ensures forall e | e in d && e.key !in ks :: e in r
  {
    if d == [] then []
    else if d[0].key in ks then Without(d[1..], ks)
    else [d[0]] + Without(d[1..], ks)
  }

  /** `before` relates the keys of every two entries in order. */
  ghost predicate Ordered<K, V>(d: seq<Entry<K, V>>, before: (K, K) -> bool) {
    forall i, j :: 0 <= i < j < |d| ==> before(d[i].key, d[j].key)
  }

  /** Dropping entries keeps the order of the others. */
  lemma {:induction false} WithoutOrdered<K, V>(d: seq<Entry<K, V>>, ks: set<K>, before: (K, K) -> bool)
    requires Ordered(d, before)
    ensures Ordered(Without(d, ks), before)
  {
    if d != [] {
      var rest, r := Without(d[1..], ks), Without(d, ks);
      assert Ordered(d[1..], before);
      WithoutOrdered(d[1..], ks, before);
      if d[0].key in ks {
        assert r == rest;
      } else {
        forall i, j | 0 <= i < j < |r| ensures before(r[i].key, r[j].key) {
          assert r[j] == rest[j - 1] && rest[j - 1] in d[1..];
          if i > 0 {
            assert r[i] == rest[i - 1];
          } else {
            var m :| 0 <= m < |d[1..]| && d[1..][m] == rest[j - 1];
            assert before(d[0].key, d[m + 1].key);
          }
        }
      }
    }
  }

  lemma WithoutDistinct<K, V>(d: seq<Entry<K, V>>, ks: set<K>)
    requires Distinct(d)
    ensures Distinct(Without(d, ks)) && Keys(Without(d, ks)) == Keys(d) - ks
  {
    var differs := (x: K, y: K) => x != y;
    assert Ordered(d, differs);
    WithoutOrdered(d, ks, differs);
    var r := Without(d, ks);
    forall i, j | 0 <= i < j < |r| ensures r[i].key != r[j].key {
      assert differs(r[i].key, r[j].key);
    }
    forall k | k in Keys(r) ensures k in Keys(d) - ks {
      var i :| 0 <= i < |r| && r[i].key == k;
      assert r[i] in r;
    }
    forall k | k in Keys(d) - ks ensures k in Keys(r) {
      var i :| 0 <= i < |d| && d[i].key == k;
      assert d[i] in r;
    }
  }

  lemma {:induction false} WithoutTwice<K, V>(d: seq<Entry<K, V>>, a: set<K>, b: set<K>)
    ensures Without(Without(d, a), b) == Without(d, a + b)
  {
    if d != [] {
      WithoutTwice(d[1..], a, b);
      if d[0].key !in a {
        assert Without(d, a)[1..] == Without(d[1..], a);
      }
    }
  }

  lemma {:induction false} WithoutNothing<K, V>(d: seq<Entry<K, V>>, ks: set<K>)
    requires Keys(d) !! ks
    ensures Without(d, ks) == d
  {
    if d != [] {
      KeysSplit(d);
      WithoutNothing(d[1..], ks);
    }
  }

  /** Assignment followed by `move_to_end`. */
  function PutLast<K(==), V>(d: seq<Entry<K, V>>, k: K, v: V): seq<Entry<K, V>> {
    Without(d, {k}) + [Entry(k, v)]
  }

  lemma AppendedKeys<K, V>(w: seq<Entry<K, V>>, e: Entry<K, V>)
    ensures Keys(w + [e]) == Keys(w) + {e.key}
  {
    var r := w + [e];
    forall x | x in Keys(w) ensures x in Keys(r) {
      var i :| 0 <= i < |w| && w[i].key == x;
      assert r[i].key == x;
    }
    assert r[|w|].key == e.key;
  }

  lemma PutLastFacts<K, V>(d: seq<Entry<K, V>>, k: K, v: V)
    requires Distinct(d)
    ensures Distinct(PutLast(d, k, v)) && Keys(PutLast(d, k, v)) == Keys(d) + {k}
    ensures |PutLast(d, k, v)| <= |d| + 1
  {
    WithoutDistinct(d, {k});
    var w := Without(d, {k});
    AppendedKeys(w, Entry(k, v));
    forall i | 0 <= i < |w| ensures w[i].key != k { assert w[i] in w; }
  }

  /** A key already present moves without growing the dictionary. */
  lemma {:induction false} PutLastPresent<K, V>(d: seq<Entry<K, V>>, k: K, v: V)
    requires Distinct(d) && k in Keys(d)
    ensures |PutLast(d, k, v)| == |d|
  {
    KeysSplit(d);
    if d[0].key == k {
      assert k !in Keys(d[1..]);
      WithoutNothing(d[1..], {k});
    } else {
      PutLastPresent(d[1..], k, v);
    }
  }

  /** `while len(d) > max: d.popitem(last=False)`. */
  function Evict<K, V>(d: seq<Entry<K, V>>, max: nat): seq<Entry<K, V>> {
    if |d| <= max then d else d[|d| - max..]
  }

  /** Distinct keys are as many as the entries. */
  lemma {:induction false} DistinctCardinality<K, V>(d: seq<Entry<K, V>>)
    requires Distinct(d)
    ensures |Keys(d)| == |d|
  {
    if d != [] {
      KeysSplit(d);
      DistinctCardinality(d[1..]);
      assert d[0].key !in Keys(d[1..]);
    }
  }
}
