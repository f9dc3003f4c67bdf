/** Sizes of finite sets and of the images of maps. */
module FiniteSets {
  lemma UnionSize<T>(a: set<T>, b: set<T>)
    ensures |a + b| <= |a| + |b|
  {
    assert a + b == a + (b - a);
    SubsetSize(b - a, b);
  }

  lemma SubsetSize<T>(a: set<T>, b: set<T>)
    requires a <= b
    ensures |a| <= |b| && |b - a| == |b| - |a|
  {
    assert b == a + (b - a);
  }

  lemma {:induction false} ImageSize<S, T>(f: map<S, T>)
    ensures |f.Values| <= |f.Keys|
  {
    if f.Keys == {} {
      assert f.Values == {};
    } else {
      var x :| x in f.Keys;
      var g := map y | y in f && y != x :: f[y];
      assert g.Keys == f.Keys - {x};
      ImageSize(g);
      forall v | v in f.Values ensures v in g.Values + {f[x]} {
        var y :| y in f && f[y] == v;
        if y != x { assert y in g && g[y] == v; }
      }
      SubsetSize(f.Values, g.Values + {f[x]});
      UnionSize(g.Values, {f[x]});
    }
  }

  lemma {:induction false} InjectiveSize<S, T>(f: map<S, T>)
    requires forall x, y :: x in f && y in f && x != y ==> f[x] != f[y]
    ensures |f.Values| == |f.Keys|
  {
    if f.Keys == {} {
      assert f.Values == {};
    } else {
      var x :| x in f.Keys;
      var g := map y | y in f && y != x :: f[y];
      assert g.Keys == f.Keys - {x};
      InjectiveSize(g);
      forall v | v in f.Values ensures v in g.Values + {f[x]} {
        var y :| y in f && f[y] == v;
        if y != x { assert y in g && g[y] == v; }
      }
      assert f.Values == g.Values + {f[x]};
    }
  }

  /** The n lowest numbers of a set: those with fewer than n of the set below them. */
  function Lowest(s: set<nat>, n: nat): set<nat> {
    set x | x in s && |Under(s, x)| < n
  }

  function Under(s: set<nat>, x: nat): set<nat> {
    set y | y in s && y < x
  }

  /** A part of a set that leaves out no number below one of its own consists of the lowest ones. */
  lemma LowestIs(s: set<nat>, g: set<nat>)
    requires g <= s && forall x, y :: x in g && y in s && y < x ==> y in g
    ensures Lowest(s, |g|) == g
  {
    forall x | x in g ensures |Under(s, x)| < |g| {
      assert Under(s, x) <= g - {x};
      SubsetSize(Under(s, x), g - {x});
    }
    forall x | x in s && x !in g ensures |Under(s, x)| >= |g| {
      assert g <= Under(s, x);
      SubsetSize(g, Under(s, x));
    }
  }
}
