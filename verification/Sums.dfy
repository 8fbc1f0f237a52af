/** Sums and maxima of finite maps of reals, independent of any order of the keys. */
module Sums {

  // ---------------------------------------------------------------------------------------------
  // Products and quotients by name, so that proofs reason about them through the facts below.

  function Times(a: real, b: real): real {
    a * b
  }

  function Over(a: real, b: real): real
    requires b != 0.0
  {
    a / b
  }

  lemma TimesZero(c: real)
    ensures Times(c, 0.0) == 0.0 && Times(0.0, c) == 0.0
  {
  }

  lemma TimesOne(c: real)
    ensures Times(c, 1.0) == c && Times(1.0, c) == c
  {
  }

  lemma TimesCommutes(a: real, b: real)
    ensures Times(a, b) == Times(b, a)
  {
  }

  lemma Distribute(c: real, x: real, y: real)
    ensures Times(c, x + y) == Times(c, x) + Times(c, y)
    ensures Times(c, x - y) == Times(c, x) - Times(c, y)
  {
  }

  lemma TimesNonNegative(a: real, b: real)
    requires a >= 0.0 && b >= 0.0
    ensures Times(a, b) >= 0.0
    ensures a > 0.0 && b > 0.0 ==> Times(a, b) > 0.0
  {
  }

  lemma OverPositive(a: real, t: real)
    requires a >= 0.0 && t > 0.0
    ensures Over(a, t) >= 0.0
    ensures a > 0.0 ==> Over(a, t) > 0.0
    ensures a <= t ==> Over(a, t) <= 1.0
  {
  }

  lemma OverTimes(a: real, t: real)
    requires t != 0.0
    ensures Times(Over(a, t), t) == a
  {
  }

  lemma OverItself(t: real)
    requires t != 0.0
    ensures Over(t, t) == 1.0
  {
  }

  /** Dividing a product is the same as dividing one factor first. */
  lemma TimesOver(a: real, b: real, t: real)
    requires t != 0.0
    ensures Over(Times(a, b), t) == Times(Over(a, t), b)
  {
  }

  lemma OverAsTimes(a: real, t: real)
    requires t != 0.0
    ensures Over(a, t) == Times(Over(1.0, t), a)
  {
  }

  // ---------------------------------------------------------------------------------------------
  // Sums.

  ghost function SumOf<K>(s: set<K>, w: map<K, real>): real
    requires s <= w.Keys
  {
    if s == {} then 0.0
    else
      var k :| k in s;
      w[k] + SumOf(s - {k}, w)
  }

  /** Any key may be taken out first. */
  lemma {:induction false} SumRemove<K>(s: set<K>, w: map<K, real>, k: K)
    requires s <= w.Keys && k in s
    ensures SumOf(s, w) == w[k] + SumOf(s - {k}, w)
    decreases |s|
  {
    var j :| j in s && SumOf(s, w) == w[j] + SumOf(s - {j}, w);
    if j != k {
      SumRemove(s - {j}, w, k);
      SumRemove(s - {k}, w, j);
      assert s - {j} - {k} == s - {k} - {j};
    }
  }

  lemma SumAdd<K>(s: set<K>, w: map<K, real>, k: K)
    requires s <= w.Keys && k in w && k !in s
    ensures SumOf(s + {k}, w) == w[k] + SumOf(s, w)
  {
    SumRemove(s + {k}, w, k);
    assert s + {k} - {k} == s;
  }

  lemma {:induction false} SumAgree<K>(s: set<K>, v: map<K, real>, w: map<K, real>)
    requires s <= v.Keys && s <= w.Keys && forall k :: k in s ==> v[k] == w[k]
    ensures SumOf(s, v) == SumOf(s, w)
    decreases |s|
  {
    if s != {} {
      var k :| k in s;
      SumRemove(s, v, k);
      SumRemove(s, w, k);
      SumAgree(s - {k}, v, w);
    }
  }

  lemma {:induction false} SumUnion<K>(s: set<K>, t: set<K>, w: map<K, real>)
    requires s !! t && s <= w.Keys && t <= w.Keys
    ensures SumOf(s + t, w) == SumOf(s, w) + SumOf(t, w)
    decreases |t|
  {
    if t == {} {
      assert s + t == s;
    } else {
      var k :| k in t;
      SumRemove(t, w, k);
      SumRemove(s + t, w, k);
      assert s + t - {k} == s + (t - {k});
      SumUnion(s, t - {k}, w);
    }
  }

  lemma {:induction false} SumScale<K>(s: set<K>, v: map<K, real>, w: map<K, real>, c: real)
    requires s <= v.Keys && s <= w.Keys && forall k :: k in s ==> w[k] == Times(c, v[k])
    ensures SumOf(s, w) == Times(c, SumOf(s, v))
    decreases |s|
  {
    if s == {} {
      TimesZero(c);
    } else {
      var k :| k in s;
      SumRemove(s, v, k);
      SumRemove(s, w, k);
      SumScale(s - {k}, v, w, c);
      Distribute(c, v[k], SumOf(s - {k}, v));
    }
  }

  lemma {:induction false} SumPositive<K>(s: set<K>, w: map<K, real>)
    requires s <= w.Keys && forall k :: k in s ==> w[k] > 0.0
    ensures SumOf(s, w) >= 0.0
    ensures s != {} ==> SumOf(s, w) > 0.0
    decreases |s|
  {
    if s != {} {
      var k :| k in s;
      SumRemove(s, w, k);
      SumPositive(s - {k}, w);
    }
  }

  lemma {:induction false} SumZero<K>(s: set<K>, w: map<K, real>)
    requires s <= w.Keys && forall k :: k in s ==> w[k] == 0.0
    ensures SumOf(s, w) == 0.0
    decreases |s|
  {
    if s != {} {
      var k :| k in s;
      SumRemove(s, w, k);
      SumZero(s - {k}, w);
    }
  }

  // ---------------------------------------------------------------------------------------------
  // Grouping.

  ghost function Fiber<K, C>(s: set<K>, key: map<K, C>, c: C): set<K>
    requires s <= key.Keys
  {
    set k | k in s && key[k] == c
  }

  ghost function Image<K, C>(s: set<K>, key: map<K, C>): set<C>
    requires s <= key.Keys
  {
    set k | k in s :: key[k]
  }

  /** Summing group by group is the same as summing. */
  lemma {:induction false} SumByGroups<K, C>(s: set<K>, w: map<K, real>, key: map<K, C>, totals: map<C, real>)
    requires s <= w.Keys && s <= key.Keys && Image(s, key) <= totals.Keys
    requires forall c :: c in Image(s, key) ==> totals[c] == SumOf(Fiber(s, key, c), w)
    ensures SumOf(s, w) == SumOf(Image(s, key), totals)
    decreases |s|
  {
    if s == {} {
      assert Image(s, key) == {};
    } else {
      var k :| k in s;
      var c := key[k];
      var group := Fiber(s, key, c);
      var rest := s - group;
      assert k in group && rest < s;
      assert Image(rest, key) == Image(s, key) - {c};
      forall d | d in Image(rest, key)
        ensures totals[d] == SumOf(Fiber(rest, key, d), w)
      {
        assert Fiber(rest, key, d) == Fiber(s, key, d);
      }
      SetSizes(rest, s);
      SumByGroups(rest, w, key, totals);
      SumUnion(rest, group, w);
      assert rest + group == s;
      SumRemove(Image(s, key), totals, c);
    }
  }

  lemma SetSizes<K>(small: set<K>, big: set<K>)
    requires small < big
    ensures |small| < |big|
  {
    assert |big - small| == |big| - |small|;
    assert big - small != {};
  }

  // ---------------------------------------------------------------------------------------------
  // Maxima of non-negative values.

  /** The largest value, 0 for no keys. */
  ghost function MaxOf<K>(s: set<K>, w: map<K, real>): real
    requires s <= w.Keys
  {
    if s == {} then 0.0
    else
      var k :| k in s;
      var rest := MaxOf(s - {k}, w);
      if w[k] > rest then w[k] else rest
  }

  lemma {:induction false} MaxOfIsLargest<K>(s: set<K>, w: map<K, real>)
    requires s <= w.Keys
    ensures MaxOf(s, w) >= 0.0
    ensures forall k :: k in s ==> w[k] <= MaxOf(s, w)
    ensures MaxOf(s, w) > 0.0 ==> exists k :: k in s && w[k] == MaxOf(s, w)
    decreases |s|
  {
    if s != {} {
      var k :| k in s && MaxOf(s, w) == (var rest := MaxOf(s - {k}, w); if w[k] > rest then w[k] else rest);
      MaxOfIsLargest(s - {k}, w);
    }
  }

  lemma MaxOfUnique<K>(s: set<K>, w: map<K, real>, b: real)
    requires s <= w.Keys && b >= 0.0
    requires forall k :: k in s ==> w[k] <= b
    requires b > 0.0 ==> exists k :: k in s && w[k] == b
    ensures MaxOf(s, w) == b
  {
    MaxOfIsLargest(s, w);
  }
}
