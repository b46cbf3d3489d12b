/**
 * The parent map of a disjoint-set structure read as a forest of inverted
 * trees: a root maps to itself, and following parent links from an element
 * leads to the root of its tree. This module knows nothing of heights or of
 * the component counter; it answers "which root does an element reach" and
 * how that answer changes when one parent entry is rewritten.
 */
module Forest {

  /** `r` is a registered element that is its own parent. */
  predicate IsRoot<T(==)>(m: map<T, T>, r: T)
  {
    r in m && m[r] == r
  }

  /** Every parent value is itself a key, so lookups of a parent never fail. */
  predicate Closed<T(==)>(m: map<T, T>)
  {
    m.Values <= m.Keys
  }

  /** The element reached from `x` after following `n` parent links
    * (an unregistered element stays where it is). */
  function Walk<T(==)>(m: map<T, T>, x: T, n: nat): T
    decreases n
  {
    if n == 0 || x !in m then x else Walk(m, m[x], n - 1)
  }

  /** Following parent links from `x` arrives at the root `r`. */
  ghost predicate Reaches<T>(m: map<T, T>, x: T, r: T)
  {
    IsRoot(m, r) && exists n: nat :: Walk(m, x, n) == r
  }

  /** `d` is the number of links from `x` to its root: the first element that
    * is its own parent is met after exactly `d` steps. */
  ghost predicate AtDepth<T>(m: map<T, T>, x: T, d: nat)
  {
    IsRoot(m, Walk(m, x, d)) && forall j: nat :: j < d ==> !IsRoot(m, Walk(m, x, j))
  }

  lemma {:induction false} WalkFromRoot<T>(m: map<T, T>, r: T, n: nat)
    requires IsRoot(m, r)
    ensures Walk(m, r, n) == r
    decreases n
  {
    if n > 0 {
      WalkFromRoot(m, r, n - 1);
    }
  }

  lemma {:induction false} WalkConcat<T>(m: map<T, T>, x: T, a: nat, b: nat)
    ensures Walk(m, x, a + b) == Walk(m, Walk(m, x, a), b)
    decreases a
  {
    if a > 0 && x in m {
      WalkConcat(m, m[x], a - 1, b);
    }
  }

  /** One step towards the root does not change the root that is reached. */
  lemma StepReaches<T>(m: map<T, T>, x: T, r: T)
    requires x in m && Reaches(m, m[x], r)
    ensures Reaches(m, x, r)
  {
    var n: nat :| Walk(m, m[x], n) == r;
    assert Walk(m, x, n + 1) == r;
  }

  /** One step towards the root, taken backwards: the parent of an element
    * reaches the same root as the element. */
  lemma StepBack<T>(m: map<T, T>, x: T, r: T)
    requires x in m && Reaches(m, x, r)
    ensures Reaches(m, m[x], r)
  {
    var n: nat :| Walk(m, x, n) == r;
    if n == 0 {
      assert Walk(m, m[x], 0) == r;
    } else {
      assert Walk(m, m[x], n - 1) == r;
    }
  }

  lemma RootReachesItself<T>(m: map<T, T>, r: T)
    requires IsRoot(m, r)
    ensures Reaches(m, r, r)
  {
    assert Walk(m, r, 0) == r;
  }

  /** Each element reaches at most one root. */
  lemma RootUnique<T>(m: map<T, T>, x: T, r1: T, r2: T)
    requires Reaches(m, x, r1) && Reaches(m, x, r2)
    ensures r1 == r2
  {
    var n1: nat :| Walk(m, x, n1) == r1;
    var n2: nat :| Walk(m, x, n2) == r2;
    if n1 <= n2 {
      WalkConcat(m, x, n1, n2 - n1);
      WalkFromRoot(m, r1, n2 - n1);
    } else {
      WalkConcat(m, x, n2, n1 - n2);
      WalkFromRoot(m, r2, n1 - n2);
    }
  }

  /** An element at depth `d` reaches the element `d` links up. */
  lemma AtDepthReaches<T>(m: map<T, T>, x: T, d: nat)
    requires AtDepth(m, x, d)
    ensures Reaches(m, x, Walk(m, x, d))
  {
  }

  // Re-pointing an element directly at its own root ---------------------------

  lemma {:induction false} RepointForward<T>(m: map<T, T>, x: T, r: T, y: T, n: nat)
    requires Reaches(m, x, r) && IsRoot(m, Walk(m, y, n))
    ensures Reaches(m[x := r], y, Walk(m, y, n))
    decreases n
  {
    var m' := m[x := r];
    var t := Walk(m, y, n);
    assert IsRoot(m', r);
    if y == x {
      assert Reaches(m, x, t);
      RootUnique(m, x, r, t);
      assert Walk(m', x, 1) == r;
    } else if n == 0 {
      assert Walk(m', y, 0) == t;
    } else {
      assert y in m;
      RepointForward(m, x, r, m[y], n - 1);
      StepReaches(m', y, t);
    }
  }

  lemma {:induction false} RepointBackward<T>(m: map<T, T>, x: T, r: T, y: T, n: nat)
    requires Reaches(m, x, r) && IsRoot(m[x := r], Walk(m[x := r], y, n))
    ensures Reaches(m, y, Walk(m[x := r], y, n))
    decreases n
  {
    var m' := m[x := r];
    var t := Walk(m', y, n);
    assert IsRoot(m', r);
    if y == x {
      if n > 0 {
        WalkFromRoot(m', r, n - 1);
      }
    } else if n == 0 {
      RootReachesItself(m, y);
    } else {
      assert y in m;
      RepointBackward(m, x, r, m[y], n - 1);
      StepReaches(m, y, t);
    }
  }

  /** Making `x` point straight at the root it already reaches changes no
    * element's root: this is what path compression must guarantee. */
  lemma RepointKeepsRoots<T>(m: map<T, T>, x: T, r: T)
    requires Reaches(m, x, r)
    ensures forall y, t :: Reaches(m, y, t) <==> Reaches(m[x := r], y, t)
  {
    forall y, t
      ensures Reaches(m, y, t) <==> Reaches(m[x := r], y, t)
    {
      if Reaches(m, y, t) {
        var n: nat :| Walk(m, y, n) == t;
        RepointForward(m, x, r, y, n);
      }
      if Reaches(m[x := r], y, t) {
        var n: nat :| Walk(m[x := r], y, n) == t;
        RepointBackward(m, x, r, y, n);
      }
    }
  }

  // Linking one root under another -------------------------------------------

  lemma {:induction false} LinkForward<T>(m: map<T, T>, a: T, b: T, y: T, n: nat)
    requires IsRoot(m, a) && IsRoot(m, b) && a != b
    requires IsRoot(m[a := b], Walk(m[a := b], y, n))
    ensures var t := Walk(m[a := b], y, n);
      (Reaches(m, y, t) && t != a) || (Reaches(m, y, a) && t == b)
    decreases n
  {
    var m' := m[a := b];
    var t := Walk(m', y, n);
    if y == a {
      assert n > 0;
      WalkFromRoot(m', b, n - 1);
      RootReachesItself(m, a);
    } else if n == 0 {
      RootReachesItself(m, y);
    } else {
      assert y in m;
      LinkForward(m, a, b, m[y], n - 1);
      if Reaches(m, m[y], t) {
        StepReaches(m, y, t);
      }
      if Reaches(m, m[y], a) {
        StepReaches(m, y, a);
      }
    }
  }

  lemma {:induction false} LinkKeep<T>(m: map<T, T>, a: T, b: T, y: T, n: nat)
    requires IsRoot(m, a) && IsRoot(m, b) && a != b
    requires IsRoot(m, Walk(m, y, n)) && Walk(m, y, n) != a
    ensures Reaches(m[a := b], y, Walk(m, y, n))
    decreases n
  {
    var m' := m[a := b];
    var t := Walk(m, y, n);
    if n == 0 {
      RootReachesItself(m', y);
    } else {
      assert y != a by {
        if y == a {
          WalkFromRoot(m, a, n);
        }
      }
      assert y in m;
      LinkKeep(m, a, b, m[y], n - 1);
      StepReaches(m', y, t);
    }
  }

  lemma {:induction false} LinkRedirect<T>(m: map<T, T>, a: T, b: T, y: T, n: nat)
    requires IsRoot(m, a) && IsRoot(m, b) && a != b
    requires Walk(m, y, n) == a
    ensures Reaches(m[a := b], y, b)
    decreases n
  {
    var m' := m[a := b];
    if y == a {
      assert Walk(m', a, 1) == b;
    } else {
      assert n > 0 && y in m;
      LinkRedirect(m, a, b, m[y], n - 1);
      StepReaches(m', y, b);
    }
  }

  /** Linking root `a` under root `b` merges the two trees: the elements that
    * reached `a` now reach `b`, and every other element keeps its root. */
  lemma LinkMergesRoots<T>(m: map<T, T>, a: T, b: T)
    requires IsRoot(m, a) && IsRoot(m, b) && a != b
    ensures forall y, t :: Reaches(m[a := b], y, t) <==>
      (Reaches(m, y, t) && t != a) || (Reaches(m, y, a) && t == b)
  {
    forall y, t
      ensures Reaches(m[a := b], y, t) <==>
        (Reaches(m, y, t) && t != a) || (Reaches(m, y, a) && t == b)
    {
      if Reaches(m[a := b], y, t) {
        var n: nat :| Walk(m[a := b], y, n) == t;
        LinkForward(m, a, b, y, n);
      }
      if Reaches(m, y, t) && t != a {
        var n: nat :| Walk(m, y, n) == t;
        LinkKeep(m, a, b, y, n);
      }
      if Reaches(m, y, a) && t == b {
        var n: nat :| Walk(m, y, n) == a;
        LinkRedirect(m, a, b, y, n);
      }
    }
  }

  // Every element has a root ----------------------------------------------------

  /** Following parent links from `y` arrives at some root. */
  ghost predicate HasRoot<T>(m: map<T, T>, y: T)
  {
    exists n: nat :: IsRoot(m, Walk(m, y, n))
  }

  /** The parent map is a forest: no registered element is caught in a cycle
    * that never meets a root. */
  ghost predicate Forested<T>(m: map<T, T>)
  {
    forall y {:trigger HasRoot(m, y)} :: y in m ==> HasRoot(m, y)
  }

  /** An element `n` links above a root keeps a root when every entry that is
    * rewritten is made to point at a root of the new map. */
  lemma {:induction false} RootedAfter<T>(m: map<T, T>, m': map<T, T>, y: T, n: nat)
    requires IsRoot(m, Walk(m, y, n))
    requires forall z :: z in m ==> z in m' && (m'[z] == m[z] || IsRoot(m', m'[z]))
    ensures HasRoot(m', y)
    decreases n
  {
    assert y in m;
    if m'[y] != m[y] {
      assert IsRoot(m', Walk(m', y, 1));
    } else if n == 0 {
      assert IsRoot(m', Walk(m', y, 0));
    } else {
      RootedAfter(m, m', m[y], n - 1);
      var k: nat :| IsRoot(m', Walk(m', m[y], k));
      assert Walk(m', y, k + 1) == Walk(m', m[y], k);
    }
  }

  /** Rewriting entries only to point at roots, and adding only new roots,
    * keeps the map a forest. */
  lemma ForestedAfter<T>(m: map<T, T>, m': map<T, T>)
    requires Forested(m)
    requires forall z :: z in m ==> z in m' && (m'[z] == m[z] || IsRoot(m', m'[z]))
    requires forall z :: z in m' && z !in m ==> IsRoot(m', z)
    ensures Forested(m')
  {
    forall y | y in m'
      ensures HasRoot(m', y)
    {
      if y in m {
        assert HasRoot(m, y);
        var n: nat :| IsRoot(m, Walk(m, y, n));
        RootedAfter(m, m', y, n);
      } else {
        assert IsRoot(m', Walk(m', y, 0));
      }
    }
  }

  /** In a forest every registered element has a depth: the number of links
    * to the first root on its path. */
  lemma ForestedDepth<T>(m: map<T, T>, x: T)
    requires Forested(m) && x in m
    ensures exists d: nat :: AtDepth(m, x, d)
  {
    assert HasRoot(m, x);
    var n: nat :| IsRoot(m, Walk(m, x, n));
    FirstRoot(m, x, n);
  }

  lemma {:induction false} FirstRoot<T>(m: map<T, T>, x: T, n: nat)
    requires IsRoot(m, Walk(m, x, n))
    ensures exists d: nat :: AtDepth(m, x, d)
    decreases n
  {
    if forall j: nat :: j < n ==> !IsRoot(m, Walk(m, x, j)) {
      assert AtDepth(m, x, n);
    } else {
      var j: nat :| j < n && IsRoot(m, Walk(m, x, j));
      FirstRoot(m, x, j);
    }
  }
}
