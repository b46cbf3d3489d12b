/**
 * The behaviour of the disjoint-set structure as functions on its state.
 * `Find`, `Union` and `Connected` compute, for a state and the elements
 * passed in, what the structure's methods return and the state they leave
 * behind; the lemmas below state what that behaviour means for the forest
 * of parent links (module Forest).
 *
 * `Find` here is the lookup as the structure really performs it: its loop
 * re-reads the parent of the argument's ORIGINAL parent, so a lookup goes at
 * most two links up. It returns the grandparent `g` of its argument, points
 * the argument at `g` and makes `g` its own parent. Within two links of the
 * root that is ordinary path compression; further down it cuts `g` off its
 * tree (FindDeepSplits).
 */
module DisjointSetSpec {
  import opened Forest

  /** The three fields of the structure: parent links, heights (ranks) and
    * the component counter. */
  datatype State<T> = State(parents: map<T, T>, heights: map<T, nat>, count: nat)

  /** What a lookup returns, and the state it leaves. */
  datatype Lookup<T> = Lookup(root: T, after: State<T>)

  /** What `union` or `connected` returns, and the state it leaves. */
  datatype Answer<T> = Answer(result: bool, after: State<T>)

  /** Parents and heights know the same elements, and every parent is known,
    * so the map lookups of the structure's methods never fail. */
  predicate WellFormed<T(==)>(s: State<T>)
  {
    s.parents.Keys == s.heights.Keys && Closed(s.parents)
  }

  /** The set of distinct elements of a sequence. */
  function Elements<T>(v: seq<T>): set<T>
  {
    set x | x in v
  }

  ghost predicate NoDuplicates<T>(v: seq<T>)
  {
    forall i, j :: 0 <= i < j < |v| ==> v[i] != v[j]
  }

  /** Number of elements among `a` and then `b` that are not yet registered
    * in `keys`: the components that looking both up adds. */
  function Unseen<T(==)>(keys: set<T>, a: T, b: T): nat
  {
    (if a in keys then 0 else 1) + (if b in keys || b == a then 0 else 1)
  }

  // ---------------------------------------------------------------------------
  // Construction

  /** The structure built from `v`: each element its own singleton set of
    * height 0; the counter is the length of `v`, duplicates included. */
  function Initial<T(==)>(v: seq<T>): (s: State<T>)
    ensures WellFormed(s)
    ensures s.parents.Keys == Elements(v)
    ensures forall x :: x in v ==> IsRoot(s.parents, x) && s.heights[x] == 0
    ensures s.count == |v|
  {
    State(map x | x in v :: x, map x | x in v :: 0, |v|)
  }

  lemma {:induction false} ElementsCard<T>(v: seq<T>)
    ensures |Elements(v)| <= |v|
    ensures |Elements(v)| == |v| <==> NoDuplicates(v)
    decreases |v|
  {
    if v != [] {
      var rest := v[1..];
      ElementsCard(rest);
      assert Elements(v) == {v[0]} + Elements(rest) by {
        assert forall x :: x in v <==> x == v[0] || x in rest;
      }
      if v[0] in rest {
        assert Elements(v) == Elements(rest);
        var j :| 0 <= j < |rest| && rest[j] == v[0];
        assert v[0] == v[j + 1];
      } else {
        assert |Elements(v)| == |Elements(rest)| + 1;
        if NoDuplicates(rest) {
          forall i, j | 0 <= i < j < |v| ensures v[i] != v[j] {
            if i > 0 {
              assert v[i] == rest[i - 1] && v[j] == rest[j - 1];
            } else {
              assert v[j] == rest[j - 1];
            }
          }
        } else {
          var i, j :| 0 <= i < j < |rest| && rest[i] == rest[j];
          assert v[i + 1] == v[j + 1];
        }
      }
    }
  }

  /** The initial counter is never below the number of sets the structure
    * holds, and equals it exactly when `v` has no duplicates. */
  lemma InitialCount<T>(v: seq<T>)
    ensures |Initial(v).parents.Keys| <= Initial(v).count
    ensures |Initial(v).parents.Keys| == Initial(v).count <==> NoDuplicates(v)
  {
    ElementsCard(v);
  }

  // ---------------------------------------------------------------------------
  // find

  /** `find(x)`: an unseen `x` is registered as a new singleton set; a known
    * `x` is re-pointed at its grandparent `g`, `g` is made its own parent and
    * `g` is returned. */
  function Find<T(==)>(s: State<T>, x: T): (l: Lookup<T>)
    requires WellFormed(s)
    ensures WellFormed(l.after)
    ensures l.after.parents.Keys == s.parents.Keys + {x}
    ensures IsRoot(l.after.parents, l.root) && l.after.parents[x] == l.root
  {
    if x in s.parents then
      var g := s.parents[s.parents[x]];
      Lookup(g, s.(parents := s.parents[x := g][g := g]))
    else
      Lookup(x, State(s.parents[x := x], s.heights[x := 0], s.count + 1))
  }

  /** An unseen element becomes its own singleton set of height 0, the
    * counter goes up by one, and no known element's entries change. */
  lemma FindUnseen<T>(s: State<T>, x: T)
    requires WellFormed(s) && x !in s.parents
    ensures var l := Find(s, x);
      && l.root == x
      && IsRoot(l.after.parents, x) && l.after.heights[x] == 0
      && l.after.count == s.count + 1
      && (forall k :: k in s.parents ==> l.after.parents[k] == s.parents[k])
      && (forall k :: k in s.heights ==> l.after.heights[k] == s.heights[k])
  {
  }

  /** A known element: heights, counter and the set of elements stay as they
    * were; the result is two links up from `x`; at most the entries of `x`
    * and of the result change. */
  lemma FindKnown<T>(s: State<T>, x: T)
    requires WellFormed(s) && x in s.parents
    ensures var l := Find(s, x);
      && l.root == Walk(s.parents, x, 2)
      && l.after.heights == s.heights && l.after.count == s.count
      && l.after.parents.Keys == s.parents.Keys
      && (forall k :: k in s.parents && k != x && k != l.root ==>
            l.after.parents[k] == s.parents[k])
  {
    assert s.parents[x] in s.parents;
  }

  /** Within two links of its root, `find` is correct path compression: it
    * returns the root, only `x` is re-pointed (at that root), and every
    * element reaches the same root as before. */
  lemma FindShallow<T>(s: State<T>, x: T, d: nat)
    requires WellFormed(s) && x in s.parents && d <= 2 && AtDepth(s.parents, x, d)
    ensures var l := Find(s, x);
      && l.root == Walk(s.parents, x, d)
      && Reaches(s.parents, x, l.root)
      && l.after.parents == (if d == 0 then s.parents else s.parents[x := l.root])
      && forall y, t :: Reaches(s.parents, y, t) <==> Reaches(l.after.parents, y, t)
  {
    var m := s.parents;
    AtDepthReaches(m, x, d);
    var r := Walk(m, x, d);
    assert m[x] in m;
    assert Walk(m, x, 2) == r by {
      if d < 2 {
        WalkConcat(m, x, d, 2 - d);
        WalkFromRoot(m, r, 2 - d);
      }
    }
    assert m[x := r][r := r] == (if d == 0 then m else m[x := r]);
    RepointKeepsRoots(m, x, r);
    if d == 0 {
      assert m[x := r] == m;
    }
  }

  /** Three or more links from its root (the first three elements on the path
    * are not roots), `find` returns the grandparent `g`, which was not a root,
    * makes it one, and leaves the counter alone: `x` and `g` are cut off the
    * tree they were in, so the structure now holds one set more than it
    * counts. */
  lemma FindDeepSplits<T>(s: State<T>, x: T)
    requires WellFormed(s) && x in s.parents
    requires forall j: nat :: j <= 2 ==> !IsRoot(s.parents, Walk(s.parents, x, j))
    ensures var l := Find(s, x);
      var g := Walk(s.parents, x, 2);
      && l.root == g && !IsRoot(s.parents, g)
      && l.after.parents == s.parents[x := g][g := g]
      && l.after.count == s.count
      && forall r :: Reaches(s.parents, x, r) ==>
           r != g && Reaches(l.after.parents, x, g) && !Reaches(l.after.parents, x, r)
  {
    var m := s.parents;
    var l := Find(s, x);
    var g := Walk(m, x, 2);
    assert m[x] in m;
    assert !IsRoot(m, Walk(m, x, 2));
    forall r | Reaches(m, x, r)
      ensures r != g && Reaches(l.after.parents, x, g) && !Reaches(l.after.parents, x, r)
    {
      RootReachesItself(l.after.parents, g);
      StepReaches(l.after.parents, x, g);
      if Reaches(l.after.parents, x, r) {
        RootUnique(l.after.parents, x, r, g);
      }
    }
  }

  /** A second `find` of the same element returns the same result and
    * changes nothing, whatever the depth of the first. */
  lemma FindIdempotent<T>(s: State<T>, x: T)
    requires WellFormed(s)
    ensures Find(Find(s, x).after, x) == Find(s, x)
  {
    var l := Find(s, x);
    var p := l.after.parents;
    assert p[x := l.root][l.root := l.root] == p;
  }

  /** `find` never turns a root into a non-root. */
  lemma FindKeepsRoots<T>(s: State<T>, x: T, r: T)
    requires WellFormed(s) && IsRoot(s.parents, r)
    ensures IsRoot(Find(s, x).after.parents, r)
  {
  }

  /** `find` on a root returns that root and changes nothing. */
  lemma FindRoot<T>(s: State<T>, r: T)
    requires WellFormed(s) && IsRoot(s.parents, r)
    ensures Find(s, r) == Lookup(r, s)
  {
    assert s.parents[r := r][r := r] == s.parents;
  }

  /** The first `find` on an element of the constructing sequence returns
    * that element and changes nothing. */
  lemma FindAfterNew<T>(v: seq<T>, x: T)
    requires x in v
    ensures Find(Initial(v), x) == Lookup(x, Initial(v))
  {
    FindRoot(Initial(v), x);
  }

  // ---------------------------------------------------------------------------
  // union and connected

  /** The roots found by looking up `a` and then `b`, and the state after. */
  datatype Lookups<T> = Lookups(root1: T, root2: T, after: State<T>)

  /** `find(a)` followed by `find(b)`, as `union` and `connected` begin. Both
    * results are roots afterwards; `b` points at its root and `a` at one of
    * the two roots (at the second only when the lookup of `b` cut `a` off as
    * a grandparent). The counter and the heights change only by registering
    * unseen elements. */
  function FindBoth<T(==)>(s: State<T>, a: T, b: T): (p: Lookups<T>)
    requires WellFormed(s)
    ensures WellFormed(p.after)
    ensures p.after.parents.Keys == s.parents.Keys + {a, b}
    ensures p.after.count == s.count + Unseen(s.parents.Keys, a, b)
    ensures forall k :: k in p.after.heights ==>
      p.after.heights[k] == if k in s.heights then s.heights[k] else 0
    ensures IsRoot(p.after.parents, p.root1) && IsRoot(p.after.parents, p.root2)
    ensures p.after.parents[b] == p.root2
    ensures p.after.parents[a] == p.root1 || p.after.parents[a] == p.root2
  {
    var l1 := Find(s, a);
    FindKeepsRoots(l1.after, b, l1.root);
    var l2 := Find(l1.after, b);
    Lookups(l1.root, l2.root, l2.after)
  }

  /** The counter decrement of `union` does not go below zero: either the two
    * lookups agree or the counter after them is positive. */
  predicate CanUnion<T(==)>(s: State<T>, a: T, b: T)
    requires WellFormed(s)
  {
    var p := FindBoth(s, a, b);
    p.root1 == p.root2 || p.after.count >= 1
  }

  /** The root of larger height, or on a tie the first root. */
  function Winner<T(==)>(p: Lookups<T>): T
    requires p.root1 in p.after.heights && p.root2 in p.after.heights
  {
    if p.after.heights[p.root1] < p.after.heights[p.root2] then p.root2 else p.root1
  }

  /** The other root. */
  function Loser<T(==)>(p: Lookups<T>): T
    requires p.root1 in p.after.heights && p.root2 in p.after.heights
  {
    if Winner(p) == p.root1 then p.root2 else p.root1
  }

  /** The second half of `union`, after the two lookups: equal roots answer
    * false; otherwise the root of smaller height goes under the other (a tie
    * puts the second root under the first, whose height rises by one), the
    * counter drops by one and the answer is true. */
  function Link<T(==)>(p: Lookups<T>): (u: Answer<T>)
    requires WellFormed(p.after) && IsRoot(p.after.parents, p.root1) && IsRoot(p.after.parents, p.root2)
    requires p.root1 == p.root2 || p.after.count >= 1
    ensures WellFormed(u.after)
  {
    var t := p.after;
    if p.root1 == p.root2 then
      Answer(false, t)
    else
      var h1 := t.heights[p.root1];
      var h2 := t.heights[p.root2];
      if h1 < h2 then
        Answer(true, t.(parents := t.parents[p.root1 := p.root2], count := t.count - 1))
      else if h1 > h2 then
        Answer(true, t.(parents := t.parents[p.root2 := p.root1], count := t.count - 1))
      else
        Answer(true, State(t.parents[p.root2 := p.root1], t.heights[p.root1 := h1 + 1], t.count - 1))
  }

  /** `union(a, b)`: look both up, then link the roots found. */
  function Union<T(==)>(s: State<T>, a: T, b: T): (u: Answer<T>)
    requires WellFormed(s) && CanUnion(s, a, b)
    ensures WellFormed(u.after)
  {
    Link(FindBoth(s, a, b))
  }

  /** `union` is the two lookups followed by `Link`; used to connect the
    * step-by-step method to this function. */
  lemma UnionUnfolds<T>(s: State<T>, a: T, b: T, l1: Lookup<T>, l2: Lookup<T>)
    requires WellFormed(s) && CanUnion(s, a, b)
    requires l1 == Find(s, a) && WellFormed(l1.after) && l2 == Find(l1.after, b)
    ensures l2.after.count >= 1 || l1.root == l2.root
    ensures IsRoot(l2.after.parents, l1.root) && IsRoot(l2.after.parents, l2.root)
    ensures Union(s, a, b) == Link(Lookups(l1.root, l2.root, l2.after))
  {
    assert FindBoth(s, a, b) == Lookups(l1.root, l2.root, l2.after);
  }

  /** `union` of two roots performs no re-pointing in its lookups: it links
    * the two roots directly. Its requirement holds as soon as the counter is
    * positive or the roots coincide. */
  lemma UnionOfRoots<T>(s: State<T>, a: T, b: T)
    requires WellFormed(s) && IsRoot(s.parents, a) && IsRoot(s.parents, b)
    requires a == b || s.count >= 1
    ensures CanUnion(s, a, b)
    ensures Union(s, a, b) == Link(Lookups(a, b, s))
  {
    FindRoot(s, a);
    FindRoot(s, b);
    assert FindBoth(s, a, b) == Lookups(a, b, s);
  }

  /** The answer is true exactly when the lookups found different roots; the
    * counter goes up by one per unseen element and down by one for a merge,
    * and the set of known elements gains exactly `a` and `b`. */
  lemma UnionCount<T>(s: State<T>, a: T, b: T)
    requires WellFormed(s) && CanUnion(s, a, b)
    ensures var p := FindBoth(s, a, b);
      var u := Union(s, a, b);
      && (u.result <==> p.root1 != p.root2)
      && u.after.parents.Keys == s.parents.Keys + {a, b}
      && u.after.count + (if u.result then 1 else 0) == s.count + Unseen(s.parents.Keys, a, b)
  {
  }

  /** Equal roots: the answer is false and the state is what the two lookups
    * left, so counter and heights change only by registering unseen elements. */
  lemma UnionSameRoot<T>(s: State<T>, a: T, b: T)
    requires WellFormed(s) && CanUnion(s, a, b)
    requires FindBoth(s, a, b).root1 == FindBoth(s, a, b).root2
    ensures var u := Union(s, a, b);
      && !u.result
      && u.after == FindBoth(s, a, b).after
      && u.after.count == s.count + Unseen(s.parents.Keys, a, b)
      && forall k :: k in s.heights ==> u.after.heights[k] == s.heights[k]
  {
  }

  /** Different roots: union by height. The loser is a root of no greater
    * height than the winner (and of equal height only when the winner is the
    * root of `a`) and now points at the winner; only the winner's height can
    * change, to the larger of its own and one more than the loser's; the
    * counter drops by exactly one. */
  lemma UnionByHeight<T>(s: State<T>, a: T, b: T)
    requires WellFormed(s) && CanUnion(s, a, b)
    requires FindBoth(s, a, b).root1 != FindBoth(s, a, b).root2
    ensures var p := FindBoth(s, a, b);
      var t := p.after;
      var u := Union(s, a, b);
      var w := Winner(p);
      var l := Loser(p);
      && u.result
      && {w, l} == {p.root1, p.root2}
      && t.heights[l] <= t.heights[w]
      && (t.heights[l] == t.heights[w] ==> w == p.root1)
      && u.after.parents == t.parents[l := w]
      && u.after.heights[w] == (if t.heights[w] == t.heights[l] then t.heights[w] + 1 else t.heights[w])
      && (forall k :: k in t.heights && k != w ==> u.after.heights[k] == t.heights[k])
      && u.after.count + 1 == t.count
  {
  }

  /** A successful union merges exactly the two sets: after the lookups,
    * the elements that reached the losing root now reach the winning one,
    * and every other element keeps its root. */
  lemma UnionMerges<T>(s: State<T>, a: T, b: T)
    requires WellFormed(s) && CanUnion(s, a, b)
    requires FindBoth(s, a, b).root1 != FindBoth(s, a, b).root2
    ensures var p := FindBoth(s, a, b);
      var u := Union(s, a, b);
      forall y, z :: Reaches(u.after.parents, y, z) <==>
        (Reaches(p.after.parents, y, z) && z != Loser(p)) ||
        (Reaches(p.after.parents, y, Loser(p)) && z == Winner(p))
  {
    var p := FindBoth(s, a, b);
    var m := p.after.parents;
    UnionByHeight(s, a, b);
    var m' := Union(s, a, b).after.parents;
    assert m' == m[Loser(p) := Winner(p)];
    LinkMergesRoots(m, Loser(p), Winner(p));
    forall y, z
      ensures Reaches(m', y, z) <==>
        (Reaches(m, y, z) && z != Loser(p)) || (Reaches(m, y, Loser(p)) && z == Winner(p))
    {
    }
  }

  /** `connected(a, b)`: look up `a`, then `b`, and compare the results. */
  function Connected<T(==)>(s: State<T>, a: T, b: T): (c: Answer<T>)
    requires WellFormed(s)
    ensures WellFormed(c.after)
    ensures c.after.count == s.count + Unseen(s.parents.Keys, a, b)
  {
    var p := FindBoth(s, a, b);
    Answer(p.root1 == p.root2, p.after)
  }

  /** Two roots are connected exactly when they are the same element, and
    * asking changes nothing. */
  lemma ConnectedRoots<T>(s: State<T>, a: T, b: T)
    requires WellFormed(s) && IsRoot(s.parents, a) && IsRoot(s.parents, b)
    ensures Connected(s, a, b) == Answer(a == b, s)
  {
    FindRoot(s, a);
    FindRoot(s, b);
    assert FindBoth(s, a, b) == Lookups(a, b, s);
  }

  /** No false positives: in a forest, when `connected(a, b)` answers true,
    * `a` and `b` reached one common root before the call. */
  lemma ConnectedSound<T>(s: State<T>, a: T, b: T)
    requires WellFormed(s) && Forested(s.parents) && a in s.parents && b in s.parents
    requires Connected(s, a, b).result
    ensures exists r :: Reaches(s.parents, a, r) && Reaches(s.parents, b, r)
  {
    var m := s.parents;
    assert m[a] in m;
    var g := m[m[a]];
    var m1 := m[a := g][g := g];
    assert Find(s, a) == Lookup(g, s.(parents := m1));
    assert HasRoot(m, a);
    var n: nat :| IsRoot(m, Walk(m, a, n));
    var r := Walk(m, a, n);
    assert Reaches(m, a, r);
    StepBack(m, a, r);
    StepBack(m, m[a], r);
    assert Reaches(m, g, r);
    if b != a && b != g {
      var c := m[b];
      assert m1[b] == c && c in m;
      if c == a || c == g {
        StepReaches(m, b, r);
      } else {
        assert m1[c] == m[c] && m[c] == g;
        StepReaches(m, c, r);
        StepReaches(m, b, r);
      }
    }
  }

  /** The converse within two links of the root: elements at depth at most
    * two that reach the same root are connected. */
  lemma ConnectedShallow<T>(s: State<T>, a: T, b: T, da: nat, db: nat)
    requires WellFormed(s) && a in s.parents && b in s.parents
    requires da <= 2 && db <= 2 && AtDepth(s.parents, a, da) && AtDepth(s.parents, b, db)
    requires Walk(s.parents, a, da) == Walk(s.parents, b, db)
    ensures Connected(s, a, b).result
  {
    var m := s.parents;
    var r := Walk(m, a, da);
    WalkConcat(m, a, da, 2 - da);
    WalkFromRoot(m, r, 2 - da);
    WalkConcat(m, b, db, 2 - db);
    WalkFromRoot(m, r, 2 - db);
    CloseToSameRoot(s, a, b, r);
  }

  /** Every element is connected to itself. */
  lemma ConnectedSelf<T>(s: State<T>, x: T)
    requires WellFormed(s)
    ensures Connected(s, x, x).result
  {
    FindIdempotent(s, x);
  }

  /** When `a` and `b` are both two links below the same root, they are
    * connected, and `union(a, b)` answers false and changes neither counter
    * nor heights. */
  lemma CloseToSameRoot<T>(s: State<T>, a: T, b: T, r: T)
    requires WellFormed(s) && a in s.parents && b in s.parents && IsRoot(s.parents, r)
    requires Walk(s.parents, a, 2) == r && Walk(s.parents, b, 2) == r
    ensures Connected(s, a, b).result
    ensures CanUnion(s, a, b) && !Union(s, a, b).result
    ensures Union(s, a, b).after.count == s.count
    ensures Union(s, a, b).after.heights == s.heights
  {
    var m := s.parents;
    assert m[a] in m;
    var l1 := Find(s, a);
    assert l1.root == r;
    var w := l1.after.parents;
    assert w == m[a := r];
    assert m[b] in m;
    assert w[w[b]] == r;
  }

  /** After any call `union(a, b)`, both elements are two links below one
    * root. */
  lemma UnionLeavesClose<T>(s: State<T>, a: T, b: T)
    requires WellFormed(s) && CanUnion(s, a, b)
    ensures var u := Union(s, a, b).after;
      exists r :: IsRoot(u.parents, r) && Walk(u.parents, a, 2) == r && Walk(u.parents, b, 2) == r
  {
    var p := FindBoth(s, a, b);
    var u := Union(s, a, b).after;
    if p.root1 == p.root2 {
      assert IsRoot(u.parents, p.root1) && Walk(u.parents, a, 2) == p.root1;
    } else {
      UnionByHeight(s, a, b);
      var w := Winner(p);
      assert u.parents[w] == w && u.parents[Loser(p)] == w;
      assert IsRoot(u.parents, w) && Walk(u.parents, a, 2) == w && Walk(u.parents, b, 2) == w;
    }
  }

  /** Right after `union(a, b)`, whatever it answered, `a` and `b` are
    * connected, and a second `union(a, b)` answers false without changing
    * the counter or any height. */
  lemma UnionThenConnected<T>(s: State<T>, a: T, b: T)
    requires WellFormed(s) && CanUnion(s, a, b)
    ensures var u := Union(s, a, b).after;
      && Connected(u, a, b).result
      && CanUnion(u, a, b)
      && !Union(u, a, b).result
      && Union(u, a, b).after.count == u.count
      && Union(u, a, b).after.heights == u.heights
  {
    var u := Union(s, a, b).after;
    UnionLeavesClose(s, a, b);
    var r :| IsRoot(u.parents, r) && Walk(u.parents, a, 2) == r && Walk(u.parents, b, 2) == r;
    CloseToSameRoot(u, a, b, r);
  }

  // ---------------------------------------------------------------------------
  // The forest invariant: every registered element reaches a root

  lemma InitialForested<T>(v: seq<T>)
    ensures Forested(Initial(v).parents)
  {
    var m := Initial(v).parents;
    forall y | y in m
      ensures HasRoot(m, y)
    {
      assert IsRoot(m, Walk(m, y, 0));
    }
  }

  /** `find` keeps the forest: the entries it rewrites point at the root it
    * returns, and an unseen element is added as a root. */
  lemma FindForested<T>(s: State<T>, x: T)
    requires WellFormed(s) && Forested(s.parents)
    ensures Forested(Find(s, x).after.parents)
  {
    if x in s.parents {
      assert s.parents[x] in s.parents;
    }
    ForestedAfter(s.parents, Find(s, x).after.parents);
  }

  /** Linking one found root under the other keeps the forest. */
  lemma LinkForested<T>(p: Lookups<T>)
    requires WellFormed(p.after) && IsRoot(p.after.parents, p.root1) && IsRoot(p.after.parents, p.root2)
    requires p.root1 == p.root2 || p.after.count >= 1
    requires Forested(p.after.parents)
    ensures Forested(Link(p).after.parents)
  {
    ForestedAfter(p.after.parents, Link(p).after.parents);
  }

  lemma FindBothForested<T>(s: State<T>, a: T, b: T)
    requires WellFormed(s) && Forested(s.parents)
    ensures Forested(FindBoth(s, a, b).after.parents)
  {
    FindForested(s, a);
    FindForested(Find(s, a).after, b);
  }

  lemma UnionForested<T>(s: State<T>, a: T, b: T)
    requires WellFormed(s) && Forested(s.parents) && CanUnion(s, a, b)
    ensures Forested(Union(s, a, b).after.parents)
  {
    FindBothForested(s, a, b);
    LinkForested(FindBoth(s, a, b));
  }

  lemma ConnectedForested<T>(s: State<T>, a: T, b: T)
    requires WellFormed(s) && Forested(s.parents)
    ensures Forested(Connected(s, a, b).after.parents)
  {
    FindBothForested(s, a, b);
  }

  /** In a forest, a lookup of a known element does one of two things. Either
    * it returns the root the element reaches and every element keeps its
    * root (depth at most two), or it returns an element that was not a root,
    * and the element no longer reaches the root it reached before. */
  lemma FindInForest<T>(s: State<T>, x: T)
    requires WellFormed(s) && Forested(s.parents) && x in s.parents
    ensures var l := Find(s, x);
      || (&& Reaches(s.parents, x, l.root)
          && forall y, t :: Reaches(s.parents, y, t) <==> Reaches(l.after.parents, y, t))
      || (&& !IsRoot(s.parents, l.root)
          && exists r :: Reaches(s.parents, x, r) && !Reaches(l.after.parents, x, r))
  {
    var m := s.parents;
    ForestedDepth(m, x);
    var d: nat :| AtDepth(m, x, d);
    if d <= 2 {
      FindShallow(s, x, d);
    } else {
      AtDepthReaches(m, x, d);
      FindDeepSplits(s, x);
    }
  }
}
