/**
 * Two concrete runs of the structure. The first is the repository's unit
 * test (`tests::test_new`); the second builds a chain three links deep and
 * shows the lookup that stops one link short of the root, cutting a set in
 * two while the counter stays as it was.
 *
 * Each run is a method on the class; each of its steps is justified by a
 * lemma on the state value that describes, entry by entry, the elements the
 * later steps look at (`At`).
 */
module DisjointSetScenarios {
  import opened Forest
  import opened DisjointSetSpec
  import opened DisjointSetImpl

  /** Element `x` is registered with the given parent and height. */
  ghost predicate At(s: State<int>, x: int, parent: int, height: nat)
  {
    x in s.parents && s.parents[x] == parent && x in s.heights && s.heights[x] == height
  }

  // ---------------------------------------------------------------------------
  // tests::test_new over 1..9

  lemma TestNewStart(s: State<int>)
    requires s == Initial([1, 2, 3, 4, 5, 6, 7, 8, 9])
    ensures WellFormed(s) && s.count == 9
    ensures At(s, 1, 1, 0) && At(s, 2, 2, 0) && At(s, 3, 3, 0) && At(s, 4, 4, 0) && At(s, 5, 5, 0)
  {
  }

  lemma TestNewUnion12(s: State<int>)
    requires WellFormed(s) && s.count == 9
    requires At(s, 1, 1, 0) && At(s, 2, 2, 0) && At(s, 3, 3, 0) && At(s, 4, 4, 0) && At(s, 5, 5, 0)
    ensures CanUnion(s, 1, 2) && Union(s, 1, 2).result
    ensures var t := Union(s, 1, 2).after;
      t.count == 8 && At(t, 1, 1, 1) && At(t, 2, 1, 0) && At(t, 3, 3, 0) && At(t, 4, 4, 0) && At(t, 5, 5, 0)
  {
    UnionOfRoots(s, 1, 2);
  }

  lemma TestNewUnion34(s: State<int>)
    requires WellFormed(s) && s.count == 8
    requires At(s, 1, 1, 1) && At(s, 3, 3, 0) && At(s, 4, 4, 0) && At(s, 5, 5, 0)
    ensures CanUnion(s, 3, 4) && Union(s, 3, 4).result
    ensures var t := Union(s, 3, 4).after;
      t.count == 7 && At(t, 1, 1, 1) && At(t, 3, 3, 1) && At(t, 4, 3, 0) && At(t, 5, 5, 0)
  {
    UnionOfRoots(s, 3, 4);
  }

  lemma TestNewUnion13(s: State<int>)
    requires WellFormed(s) && s.count == 7
    requires At(s, 1, 1, 1) && At(s, 3, 3, 1) && At(s, 4, 3, 0) && At(s, 5, 5, 0)
    ensures CanUnion(s, 1, 3) && Union(s, 1, 3).result
    ensures var t := Union(s, 1, 3).after;
      t.count == 6 && At(t, 1, 1, 2) && At(t, 3, 1, 1) && At(t, 4, 3, 0) && At(t, 5, 5, 0)
  {
    UnionOfRoots(s, 1, 3);
  }

  /** 4 is two links below 1: its lookup finds 1. */
  lemma TestNewConnected14(s: State<int>)
    requires WellFormed(s) && s.count == 6
    requires At(s, 1, 1, 2) && At(s, 3, 1, 1) && At(s, 4, 3, 0) && At(s, 5, 5, 0)
    ensures Connected(s, 1, 4).result
    ensures var t := Connected(s, 1, 4).after;
      t.count == 6 && At(t, 1, 1, 2) && At(t, 5, 5, 0)
  {
    FindRoot(s, 1);
  }

  lemma TestNewConnected15(s: State<int>)
    requires WellFormed(s) && s.count == 6
    requires At(s, 1, 1, 2) && At(s, 5, 5, 0)
    ensures !Connected(s, 1, 5).result && Connected(s, 1, 5).after.count == 6
  {
    ConnectedRoots(s, 1, 5);
  }

  /** The unit test: counters after `new`, a lookup and three unions, then two
    * `connected` queries. */
  method TestNew() returns (counts: seq<nat>, first: int, merges: seq<bool>, linked14: bool, linked15: bool)
    ensures counts == [9, 9, 8, 7, 6, 6]
    ensures first == 1
    ensures merges == [true, true, true]
    ensures linked14 && !linked15
  {
    var v := [1, 2, 3, 4, 5, 6, 7, 8, 9];
    var ds := new DisjointSet(v);
    var c0 := ds.GetCount();
    FindAfterNew(v, 1);
    first := ds.Find(1);
    var c1 := ds.GetCount();
    TestNewStart(ds.Abs());
    TestNewUnion12(ds.Abs());
    var m1 := ds.Union(1, 2);
    var c2 := ds.GetCount();
    TestNewUnion34(ds.Abs());
    var m2 := ds.Union(3, 4);
    var c3 := ds.GetCount();
    TestNewUnion13(ds.Abs());
    var m3 := ds.Union(1, 3);
    var c4 := ds.GetCount();
    TestNewConnected14(ds.Abs());
    linked14 := ds.Connected(1, 4);
    TestNewConnected15(ds.Abs());
    linked15 := ds.Connected(1, 5);
    var c5 := ds.GetCount();
    counts := [c0, c1, c2, c3, c4, c5];
    merges := [m1, m2, m3];
  }

  // ---------------------------------------------------------------------------
  // A chain three links deep over 1..8

  lemma ChainStart(s: State<int>)
    requires s == Initial([1, 2, 3, 4, 5, 6, 7, 8])
    ensures WellFormed(s) && s.count == 8
    ensures At(s, 1, 1, 0) && At(s, 2, 2, 0) && At(s, 3, 3, 0) && At(s, 4, 4, 0)
    ensures At(s, 5, 5, 0) && At(s, 6, 6, 0) && At(s, 7, 7, 0) && At(s, 8, 8, 0)
  {
  }

  lemma ChainUnion12(s: State<int>)
    requires WellFormed(s) && s.count == 8
    requires At(s, 1, 1, 0) && At(s, 2, 2, 0) && At(s, 3, 3, 0) && At(s, 4, 4, 0)
    requires At(s, 5, 5, 0) && At(s, 6, 6, 0) && At(s, 7, 7, 0) && At(s, 8, 8, 0)
    ensures CanUnion(s, 1, 2) && Union(s, 1, 2).result
    ensures var t := Union(s, 1, 2).after;
      && t.count == 7 && At(t, 1, 1, 1) && At(t, 3, 3, 0) && At(t, 4, 4, 0)
      && At(t, 5, 5, 0) && At(t, 6, 6, 0) && At(t, 7, 7, 0) && At(t, 8, 8, 0)
  {
    UnionOfRoots(s, 1, 2);
  }

  lemma ChainUnion34(s: State<int>)
    requires WellFormed(s) && s.count == 7
    requires At(s, 1, 1, 1) && At(s, 3, 3, 0) && At(s, 4, 4, 0)
    requires At(s, 5, 5, 0) && At(s, 6, 6, 0) && At(s, 7, 7, 0) && At(s, 8, 8, 0)
    ensures CanUnion(s, 3, 4) && Union(s, 3, 4).result
    ensures var t := Union(s, 3, 4).after;
      && t.count == 6 && At(t, 1, 1, 1) && At(t, 3, 3, 1)
      && At(t, 5, 5, 0) && At(t, 6, 6, 0) && At(t, 7, 7, 0) && At(t, 8, 8, 0)
  {
    UnionOfRoots(s, 3, 4);
  }

  lemma ChainUnion13(s: State<int>)
    requires WellFormed(s) && s.count == 6
    requires At(s, 1, 1, 1) && At(s, 3, 3, 1)
    requires At(s, 5, 5, 0) && At(s, 6, 6, 0) && At(s, 7, 7, 0) && At(s, 8, 8, 0)
    ensures CanUnion(s, 1, 3) && Union(s, 1, 3).result
    ensures var t := Union(s, 1, 3).after;
      && t.count == 5 && At(t, 1, 1, 2)
      && At(t, 5, 5, 0) && At(t, 6, 6, 0) && At(t, 7, 7, 0) && At(t, 8, 8, 0)
  {
    UnionOfRoots(s, 1, 3);
  }

  lemma ChainUnion56(s: State<int>)
    requires WellFormed(s) && s.count == 5
    requires At(s, 1, 1, 2) && At(s, 5, 5, 0) && At(s, 6, 6, 0) && At(s, 7, 7, 0) && At(s, 8, 8, 0)
    ensures CanUnion(s, 5, 6) && Union(s, 5, 6).result
    ensures var t := Union(s, 5, 6).after;
      t.count == 4 && At(t, 1, 1, 2) && At(t, 5, 5, 1) && At(t, 7, 7, 0) && At(t, 8, 8, 0)
  {
    UnionOfRoots(s, 5, 6);
  }

  lemma ChainUnion78(s: State<int>)
    requires WellFormed(s) && s.count == 4
    requires At(s, 1, 1, 2) && At(s, 5, 5, 1) && At(s, 7, 7, 0) && At(s, 8, 8, 0)
    ensures CanUnion(s, 7, 8) && Union(s, 7, 8).result
    ensures var t := Union(s, 7, 8).after;
      t.count == 3 && At(t, 1, 1, 2) && At(t, 5, 5, 1) && At(t, 7, 7, 1) && At(t, 8, 7, 0)
  {
    UnionOfRoots(s, 7, 8);
  }

  lemma ChainUnion57(s: State<int>)
    requires WellFormed(s) && s.count == 3
    requires At(s, 1, 1, 2) && At(s, 5, 5, 1) && At(s, 7, 7, 1) && At(s, 8, 7, 0)
    ensures CanUnion(s, 5, 7) && Union(s, 5, 7).result
    ensures var t := Union(s, 5, 7).after;
      t.count == 2 && At(t, 1, 1, 2) && At(t, 5, 5, 2) && At(t, 7, 5, 1) && At(t, 8, 7, 0)
  {
    UnionOfRoots(s, 5, 7);
  }

  /** The last union leaves the chain 8 -> 7 -> 5 -> 1 and a counter of one. */
  lemma ChainUnion15(s: State<int>)
    requires WellFormed(s) && s.count == 2
    requires At(s, 1, 1, 2) && At(s, 5, 5, 2) && At(s, 7, 5, 1) && At(s, 8, 7, 0)
    ensures CanUnion(s, 1, 5) && Union(s, 1, 5).result
    ensures var t := Union(s, 1, 5).after;
      t.count == 1 && At(t, 1, 1, 3) && At(t, 5, 1, 2) && At(t, 7, 5, 1) && At(t, 8, 7, 0)
  {
    UnionOfRoots(s, 1, 5);
  }

  /** `find(8)` three links below the root answers 5, which was not a root
    * and now is one; 8 still reached 1 before and reaches 5 now. */
  lemma ChainFind8(s: State<int>)
    requires WellFormed(s) && s.count == 1
    requires At(s, 1, 1, 3) && At(s, 5, 1, 2) && At(s, 7, 5, 1) && At(s, 8, 7, 0)
    ensures Reaches(s.parents, 8, 1)
    ensures Find(s, 8).root == 5
    ensures var t := Find(s, 8).after;
      && t.count == 1 && At(t, 1, 1, 3) && At(t, 5, 5, 2) && At(t, 8, 5, 0)
      && Reaches(t.parents, 8, 5) && !Reaches(t.parents, 8, 1)
  {
    var m := s.parents;
    assert Walk(m, 8, 3) == 1;
    FindDeepSplits(s, 8);
  }

  lemma ChainConnected81(s: State<int>)
    requires WellFormed(s) && s.count == 1
    requires At(s, 1, 1, 3) && At(s, 5, 5, 2) && At(s, 8, 5, 0)
    ensures !Connected(s, 8, 1).result
    ensures var t := Connected(s, 8, 1).after;
      t.count == 1 && At(t, 1, 1, 3) && At(t, 5, 5, 2) && At(t, 8, 5, 0)
  {
    FindRoot(s, 1);
  }

  /** Uniting 8 and 1 again links root 5 (height 2) under root 1 (height 3);
    * the counter, already one although two sets remained, drops to zero. */
  lemma ChainUnion81(s: State<int>)
    requires WellFormed(s) && s.count == 1
    requires At(s, 1, 1, 3) && At(s, 5, 5, 2) && At(s, 8, 5, 0)
    ensures CanUnion(s, 8, 1) && Union(s, 8, 1).result
    ensures var t := Union(s, 8, 1).after;
      t.count == 0 && At(t, 5, 1, 2) && At(t, 1, 1, 3)
  {
    FindRoot(s, 1);
    var l := Find(s, 8);
    assert l.root == 5 && l.after.parents == s.parents;
    assert FindBoth(s, 8, 1) == Lookups(5, 1, s);
  }

  /** Seven unions over 1..8, each of two roots of equal height, leave the
    * chain 8 -> 7 -> 5 -> 1 and a counter of one. */
  method BuildChain() returns (ds: DisjointSet<int>, merges: seq<bool>)
    ensures fresh(ds) && ds.Valid() && ds.count == 1
    ensures At(ds.Abs(), 1, 1, 3) && At(ds.Abs(), 5, 1, 2) && At(ds.Abs(), 7, 5, 1) && At(ds.Abs(), 8, 7, 0)
    ensures merges == [true, true, true, true, true, true, true]
  {
    ds := new DisjointSet([1, 2, 3, 4, 5, 6, 7, 8]);
    ChainStart(ds.Abs());
    ChainUnion12(ds.Abs());
    var m1 := ds.Union(1, 2);
    ChainUnion34(ds.Abs());
    var m2 := ds.Union(3, 4);
    ChainUnion13(ds.Abs());
    var m3 := ds.Union(1, 3);
    ChainUnion56(ds.Abs());
    var m4 := ds.Union(5, 6);
    ChainUnion78(ds.Abs());
    var m5 := ds.Union(7, 8);
    ChainUnion57(ds.Abs());
    var m6 := ds.Union(5, 7);
    ChainUnion15(ds.Abs());
    var m7 := ds.Union(1, 5);
    merges := [m1, m2, m3, m4, m5, m6, m7];
  }

  /** On the chain, `find(8)` answers 5, not 1, and makes 5 a root: 8 is no
    * longer connected to 1 although the counter still says one set. A
    * further `union(8, 1)` merges them again and brings the counter to
    * zero. */
  method DeepChain() returns (merges: seq<bool>, countBefore: nat, found: int, linked: bool,
                              countAfter: nat, remerged: bool, countFinal: nat)
    ensures merges == [true, true, true, true, true, true, true]
    ensures countBefore == 1 && found == 5 && !linked && countAfter == 1
    ensures remerged && countFinal == 0
  {
    var ds;
    ds, merges := BuildChain();
    countBefore := ds.GetCount();
    ChainFind8(ds.Abs());
    found := ds.Find(8);
    ChainConnected81(ds.Abs());
    linked := ds.Connected(8, 1);
    countAfter := ds.GetCount();
    ChainUnion81(ds.Abs());
    remerged := ds.Union(8, 1);
    countFinal := ds.GetCount();
  }

  /** On the chain, `connected(5, 8)` first finds 1 for 5 and then, for 8,
    * the grandparent 5, which it makes a root: the answer is false. Asked
    * again with nothing in between, the answer is true. */
  lemma ChainConnected58(s: State<int>)
    requires WellFormed(s) && s.count == 1
    requires At(s, 1, 1, 3) && At(s, 5, 1, 2) && At(s, 7, 5, 1) && At(s, 8, 7, 0)
    ensures !Connected(s, 5, 8).result
    ensures var t := Connected(s, 5, 8).after;
      t.count == 1 && At(t, 5, 5, 2) && At(t, 8, 5, 0)
  {
  }

  lemma ChainConnected58Again(s: State<int>)
    requires WellFormed(s) && s.count == 1
    requires At(s, 5, 5, 2) && At(s, 8, 5, 0)
    ensures Connected(s, 5, 8).result
  {
    FindRoot(s, 5);
  }

  /** `connected` is not idempotent: the same query, repeated with no union
    * in between, changes its answer from false to true. */
  method ConnectedTwice() returns (first: bool, second: bool)
    ensures !first && second
  {
    var ds, merges := BuildChain();
    ChainConnected58(ds.Abs());
    first := ds.Connected(5, 8);
    ChainConnected58Again(ds.Abs());
    second := ds.Connected(5, 8);
  }
}
