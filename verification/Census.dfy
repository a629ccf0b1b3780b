/** Counting: the entries of a finite map that satisfy a predicate, and sets of numbers. */
module Census {

  function Where<K, V>(m: map<K, V>, f: V -> bool): set<K> {
    set k | k in m && f(m[k])
  }

  function One(b: bool): nat {
    if b then 1 else 0
  }

  lemma WhereBut<K, V>(m: map<K, V>, k: K, f: V -> bool)
    ensures |Where(m, f)| == |Where(m, f) - {k}| + One(k in m && f(m[k]))
  {
    if k in m && f(m[k]) {
      assert Where(m, f) == Where(m, f) - {k} + {k};
    } else {
      assert Where(m, f) == Where(m, f) - {k};
    }
  }

  lemma WhereUpdate<K, V>(m: map<K, V>, k: K, v: V, f: V -> bool)
    ensures |Where(m[k := v], f)| == |Where(m, f)| + One(f(v)) - One(k in m && f(m[k]))
  {
    WhereBut(m, k, f);
    WhereBut(m[k := v], k, f);
    assert Where(m[k := v], f) - {k} == Where(m, f) - {k};
  }

  /** An exclusive choice of three adds up. */
  lemma WhereSplits<K, V>(m: map<K, V>, whole: V -> bool, f: V -> bool, g: V -> bool, h: V -> bool)
    requires forall k :: k in m ==> (whole(m[k]) <==> f(m[k]) || g(m[k]) || h(m[k]))
    requires forall k :: k in m ==> !(f(m[k]) && g(m[k])) && !(g(m[k]) && h(m[k])) && !(f(m[k]) && h(m[k]))
    ensures |Where(m, whole)| == |Where(m, f)| + |Where(m, g)| + |Where(m, h)|
  {
    assert Where(m, whole) == Where(m, f) + Where(m, g) + Where(m, h);
    assert Where(m, f) !! Where(m, g);
    assert Where(m, f) + Where(m, g) !! Where(m, h);
  }

  /** The positions of the elements that satisfy `f`. */
  function Positions<T>(xs: seq<T>, f: T -> bool): set<nat> {
    set i: nat | i < |xs| && f(xs[i])
  }

  lemma PositionsNone<T>(xs: seq<T>, f: T -> bool)
    requires xs == []
    ensures Positions(xs, f) == {}
  {
  }

  lemma PositionsSnoc<T>(xs: seq<T>, x: T, f: T -> bool)
    ensures |Positions(xs + [x], f)| == |Positions(xs, f)| + One(f(x))
  {
    if f(x) {
      assert Positions(xs + [x], f) == Positions(xs, f) + {|xs|};
    } else {
      assert Positions(xs + [x], f) == Positions(xs, f);
    }
  }

  /** The keys among `ks` whose entries satisfy `f`. */
  function Among<K, V>(ks: set<K>, m: map<K, V>, f: V -> bool): set<K>
    requires ks <= m.Keys
  {
    set k | k in ks && f(m[k])
  }

  lemma AmongSplits<K, V>(ks: set<K>, m: map<K, V>, f: V -> bool, g: V -> bool)
    requires ks <= m.Keys && forall k :: k in ks ==> (f(m[k]) <==> !g(m[k]))
    ensures |ks| == |Among(ks, m, f)| + |Among(ks, m, g)|
  {
    assert ks == Among(ks, m, f) + Among(ks, m, g);
    assert Among(ks, m, f) !! Among(ks, m, g);
  }

  lemma AmongSame<K, V>(ks: set<K>, m: map<K, V>, f: V -> bool, g: V -> bool)
    requires ks <= m.Keys && forall k :: k in ks ==> (f(m[k]) <==> g(m[k]))
    ensures Among(ks, m, f) == Among(ks, m, g)
  {
  }

  lemma AmongNone<K, V>(ks: set<K>, m: map<K, V>, f: V -> bool)
    requires ks <= m.Keys && forall k :: k in ks ==> !f(m[k])
    ensures Among(ks, m, f) == {}
  {
  }

  /** Entries that satisfy `f` stay put, so the count grows by the newcomers that do. */
  lemma WhereGrows<K, V>(m: map<K, V>, n: map<K, V>, f: V -> bool, newcomers: set<K>)
    requires forall k :: k in n ==> (k in newcomers <==> !(k in m && m[k] == n[k]))
    requires forall k :: k in newcomers && k in m ==> !f(m[k])
    requires m.Keys <= n.Keys && newcomers <= n.Keys
    ensures |Where(n, f)| == |Where(m, f)| + |Among(newcomers, n, f)|
  {
    var added := Among(newcomers, n, f);
    assert Where(n, f) == Where(m, f) + added;
    assert Where(m, f) !! added;
  }

  lemma {:induction false} IntervalSize(indices: set<nat>, low: nat, high: nat)
    requires forall i :: i in indices ==> low <= i < high
    requires low <= high
    ensures |indices| <= high - low
    decreases high - low
  {
    if low < high {
      IntervalSize(indices - {high - 1}, low, high - 1);
    } else {
      assert indices == {};
    }
  }

  lemma SubsetSize<T>(a: set<T>, b: set<T>)
    requires a <= b
    ensures |a| <= |b|
  {
    assert b == a + (b - a);
  }
}
