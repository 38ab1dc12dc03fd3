/** Splitting records by a key, and adding the parts up again. */
module Rollup {
  import opened Common
  import opened DurationStats

  /** The records of one key, in order. */
  function Filter<T>(key: T -> int, es: seq<T>, k: int): seq<T> {
    if es == [] then []
    else
      var init, last := es[..|es| - 1], es[|es| - 1];
      if key(last) == k then Filter(key, init, k) + [last] else Filter(key, init, k)
  }

  function KeysOf<T>(key: T -> int, es: seq<T>): set<int> {
    if es == [] then {} else KeysOf(key, es[..|es| - 1]) + {key(es[|es| - 1])}
  }

  lemma Snoc<T>(es: seq<T>, e: T)
    ensures (es + [e])[..|es + [e]| - 1] == es && (es + [e])[|es + [e]| - 1] == e
  {}

  lemma Unsnoc<T>(es: seq<T>) returns (init: seq<T>, e: T)
    requires es != []
    ensures es == init + [e] && |init| < |es|
  {
    init, e := es[..|es| - 1], es[|es| - 1];
  }

  lemma {:induction false} FilterNonempty<T>(key: T -> int, es: seq<T>, k: int)
    ensures Filter(key, es, k) != [] <==> k in KeysOf(key, es)
  {
    if es != [] {
      FilterNonempty(key, es[..|es| - 1], k);
    }
  }

  lemma {:induction false} FilterAppend<T>(key: T -> int, a: seq<T>, b: seq<T>, k: int)
    ensures Filter(key, a + b, k) == Filter(key, a, k) + Filter(key, b, k)
    decreases |b|
  {
    if b == [] {
      assert a + b == a;
    } else {
      var n := |b| - 1;
      assert (a + b)[..|a + b| - 1] == a + b[..n];
      FilterAppend(key, a, b[..n], k);
      Assoc(Filter(key, a, k), Filter(key, b[..n], k), [b[n]]);
    }
  }

  lemma {:induction false} KeysAppend<T>(key: T -> int, a: seq<T>, b: seq<T>)
    ensures KeysOf(key, a + b) == KeysOf(key, a) + KeysOf(key, b)
    decreases |b|
  {
    if b == [] {
      assert a + b == a;
    } else {
      assert (a + b)[..|a + b| - 1] == a + b[..|b| - 1];
      KeysAppend(key, a, b[..|b| - 1]);
    }
  }

  // ---- Adding up a map ----

  ghost function MapTotal(m: map<int, real>): real
    decreases |m|
  {
    if !(exists k :: k in m) then 0.0
    else
      var k :| k in m;
      m[k] + MapTotal(m - {k})
  }

  /** Any key can be taken out first. */
  lemma {:induction false} MapTotalPick(m: map<int, real>, k: int)
    requires k in m
    ensures MapTotal(m) == m[k] + MapTotal(m - {k})
    decreases |m|
  {
    var j :| j in m && MapTotal(m) == m[j] + MapTotal(m - {j});
    if j != k {
      MapTotalPick(m - {j}, k);
      MapTotalPick(m - {k}, j);
      assert m - {j} - {k} == m - {k} - {j};
    }
  }

  function AddAt(m: map<int, real>, k: int, v: real): map<int, real> {
    m[k := (if k in m then m[k] else 0.0) + v]
  }

  lemma MapTotalAdd(m: map<int, real>, k: int, v: real)
    ensures MapTotal(AddAt(m, k, v)) == MapTotal(m) + v
  {
    var r := AddAt(m, k, v);
    MapTotalPick(r, k);
    assert r - {k} == m - {k};
    if k in m {
      MapTotalPick(m, k);
    } else {
      assert m - {k} == m;
    }
  }

  /** `f` of each part. */
  function Parts<T, V>(f: seq<T> -> V, key: T -> int, es: seq<T>): map<int, V> {
    map k | k in KeysOf(key, es) :: f(Filter(key, es, k))
  }

  lemma FilterSnoc<T>(key: T -> int, es: seq<T>, e: T, k: int)
    ensures Filter(key, es + [e], k) == if key(e) == k then Filter(key, es, k) + [e] else Filter(key, es, k)
  {
    Snoc(es, e);
  }

  lemma KeysSnoc<T>(key: T -> int, es: seq<T>, e: T)
    ensures KeysOf(key, es + [e]) == KeysOf(key, es) + {key(e)}
  {
    Snoc(es, e);
  }

  lemma TotalSnoc<T>(f: T -> real, es: seq<T>, e: T)
    ensures Total(f, es + [e]) == Total(f, es) + f(e)
  {
    Snoc(es, e);
  }

  lemma SameMap<K, V>(m: map<K, V>, n: map<K, V>)
    requires m.Keys == n.Keys && forall k :: k in m.Keys ==> m[k] == n[k]
    ensures m == n
  {}

  /** One record more changes one part. */
  lemma PartsSnoc<T, V>(f: seq<T> -> V, key: T -> int, es: seq<T>, e: T)
    ensures Parts(f, key, es + [e]) == Parts(f, key, es)[key(e) := f(Filter(key, es, key(e)) + [e])]
  {
    KeysSnoc(key, es, e);
    var after := Parts(f, key, es + [e]);
    var added := Parts(f, key, es)[key(e) := f(Filter(key, es, key(e)) + [e])];
    forall k | k in after.Keys ensures k in added && after[k] == added[k] {
      FilterSnoc(key, es, e, k);
    }
    SameMap(after, added);
  }

  /** What a part was before it had any records. */
  lemma PartBefore<T, V>(f: seq<T> -> V, key: T -> int, es: seq<T>, k: int)
    ensures var m := Parts(f, key, es); f(Filter(key, es, k)) == if k in m then m[k] else f([])
  {
    FilterNonempty(key, es, k);
  }

  /** The sum of `f` in each part. */
  function TotalsBy<T>(f: T -> real, key: T -> int, es: seq<T>): map<int, real> {
    Parts(SumOf(f), key, es)
  }

  function SumOf<T>(f: T -> real): seq<T> -> real {
    (es: seq<T>) => Total(f, es)
  }

  lemma TotalsBySnoc<T>(f: T -> real, key: T -> int, es: seq<T>, e: T)
    ensures TotalsBy(f, key, es + [e]) == AddAt(TotalsBy(f, key, es), key(e), f(e))
  {
    PartsSnoc(SumOf(f), key, es, e);
    PartBefore(SumOf(f), key, es, key(e));
    TotalSnoc(f, Filter(key, es, key(e)), e);
  }

  /** The parts add up to the whole. */
  lemma {:induction false} PartsAddUp<T>(f: T -> real, key: T -> int, es: seq<T>)
    ensures MapTotal(TotalsBy(f, key, es)) == Total(f, es)
  {
    if es != [] {
      var init, last := es[..|es| - 1], es[|es| - 1];
      assert es == init + [last];
      PartsAddUp(f, key, init);
      PartAdded(f, key, init, last);
    }
  }

  lemma PartAdded<T>(f: T -> real, key: T -> int, es: seq<T>, e: T)
    requires MapTotal(TotalsBy(f, key, es)) == Total(f, es)
    ensures MapTotal(TotalsBy(f, key, es + [e])) == Total(f, es + [e])
  {
    TotalsBySnoc(f, key, es, e);
    MapTotalAdd(TotalsBy(f, key, es), key(e), f(e));
    TotalSnoc(f, es, e);
  }

  function Project<V>(g: V -> real, m: map<int, V>): map<int, real> {
    map k | k in m :: g(m[k])
  }

  ghost predicate Measures<T(!new), V>(g: V -> real, f: seq<T> -> V, h: T -> real) {
    forall fs: seq<T> :: g(f(fs)) == Total(h, fs)
  }

  /** A quantity that is a sum over records adds up over the parts. */
  lemma ProjectionAddsUp<T(!new), V>(g: V -> real, f: seq<T> -> V, h: T -> real, key: T -> int, es: seq<T>)
    requires Measures(g, f, h)
    ensures MapTotal(Project(g, Parts(f, key, es))) == Total(h, es)
  {
    var l, r := Project(g, Parts(f, key, es)), TotalsBy(h, key, es);
    forall k | k in l.Keys ensures k in r && l[k] == r[k] {
      assert g(f(Filter(key, es, k))) == Total(h, Filter(key, es, k));
    }
    SameMap(l, r);
    PartsAddUp(h, key, es);
  }

  // ---- Two batches ----

  function MergeBy<K, V>(join: (V, V) -> V, m: map<K, V>, n: map<K, V>): map<K, V> {
    map k | k in m.Keys + n.Keys ::
      if k !in n then m[k] else if k !in m then n[k] else join(m[k], n[k])
  }

  ghost predicate Joins<T(!new), V>(f: seq<T> -> V, join: (V, V) -> V) {
    forall x: seq<T>, y: seq<T> :: x != [] && y != [] ==> f(x + y) == join(f(x), f(y))
  }

  /** The parts of two batches are the parts of both, joined where they share a key. */
  lemma PartsAppend<T(!new), V>(f: seq<T> -> V, join: (V, V) -> V, key: T -> int, a: seq<T>, b: seq<T>)
    requires Joins(f, join)
    ensures Parts(f, key, a + b) == MergeBy(join, Parts(f, key, a), Parts(f, key, b))
  {
    KeysAppend(key, a, b);
    var l, r := Parts(f, key, a + b), MergeBy(join, Parts(f, key, a), Parts(f, key, b));
    forall k | k in l.Keys ensures k in r && l[k] == r[k] {
      PartAppend(f, join, key, a, b, k);
    }
    SameMap(l, r);
  }

  lemma PartAppend<T(!new), V>(f: seq<T> -> V, join: (V, V) -> V, key: T -> int, a: seq<T>, b: seq<T>, k: int)
    requires Joins(f, join) && (k in KeysOf(key, a) || k in KeysOf(key, b))
    ensures var m, n := Parts(f, key, a), Parts(f, key, b);
            f(Filter(key, a + b, k)) == if k !in n then m[k] else if k !in m then n[k] else join(m[k], n[k])
  {
    var x, y := Filter(key, a, k), Filter(key, b, k);
    FilterAppend(key, a, b, k);
    FilterNonempty(key, a, k);
    FilterNonempty(key, b, k);
    assert x == [] ==> x + y == y;
    assert y == [] ==> x + y == x;
  }
}
