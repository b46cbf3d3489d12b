/**
 * The disjoint-set structure itself: three fields updated in place, and the
 * operations `new`, `find`, `union`, `connected` and `get_count`. Each
 * method is proved to return, and to leave behind, exactly what the
 * corresponding function of DisjointSetSpec computes from the state it
 * started in.
 */
module DisjointSetImpl {
  import opened Forest
  import DisjointSetSpec

  class DisjointSet<T(==)> {
    var parents: map<T, T>
    var heights: map<T, nat>
    var count: nat

    /** The fields as a value. */
    ghost function Abs(): DisjointSetSpec.State<T>
      reads this
    {
      DisjointSetSpec.State(parents, heights, count)
    }

    /** The maps agree on their elements, every parent is registered, and
      * every element reaches a root. */
    ghost predicate Valid()
      reads this
    {
      DisjointSetSpec.WellFormed(Abs()) && Forested(parents)
    }

    /** `new`: every element of `v` its own set of height 0; the counter is
      * the length of `v`. */
    constructor (v: seq<T>)
      ensures Valid()
      ensures Abs() == DisjointSetSpec.Initial(v)
    {
      parents := map x | x in v :: x;
      heights := map x | x in v :: 0;
      count := |v|;
      DisjointSetSpec.InitialForested(v);
    }

    /** `find`: registers an unseen element; otherwise walks the loop of the
      * source, which re-reads the parent of the argument's original parent
      * on every round and therefore stops after at most two rounds. */
    method Find(element: T) returns (root: T)
      requires Valid()
      modifies this
      ensures DisjointSetSpec.Lookup(root, Abs()) == DisjointSetSpec.Find(old(Abs()), element)
      ensures Valid()
    {
      DisjointSetSpec.FindForested(Abs(), element);
      if element in parents {
        ghost var m := parents;
        var parent := parents[element];
        var elem := element;
        var theParent := parent;
        ghost var g := parents[parent];
        ghost var rounds: nat := 0;
        while elem != theParent
          invariant rounds <= 2
          invariant heights == old(heights) && count == old(count)
          invariant g in m
          invariant rounds == 0 ==> elem == element && theParent == parent && parents == m
          invariant rounds == 1 ==>
            element != parent && elem == g && parents == m[element := g] && theParent == parents[g]
          invariant rounds == 2 ==> elem == g && theParent == g && parents == m[element := g][g := g]
          decreases 2 - rounds
        {
          var grandParent := parents[parent];
          parents := parents[elem := grandParent];
          elem := grandParent;
          theParent := parents[grandParent];
          rounds := rounds + 1;
        }
        root := elem;
        if rounds == 0 {
          assert m[element := g][g := g] == m;
        } else if rounds == 1 {
          assert m[element := g][g := g] == m[element := g];
        }
      } else {
        parents := parents[element := element];
        heights := heights[element := 0];
        count := count + 1;
        root := element;
      }
    }

    /** `union`: looks both elements up and, when their roots differ, links
      * them by height. The requirement is the source's own: its counter
      * decrement must not underflow. */
    method Union(element1: T, element2: T) returns (merged: bool)
      requires Valid() && DisjointSetSpec.CanUnion(Abs(), element1, element2)
      modifies this
      ensures DisjointSetSpec.Answer(merged, Abs()) == DisjointSetSpec.Union(old(Abs()), element1, element2)
      ensures Valid()
    {
      ghost var s := Abs();
      var root1 := Find(element1);
      ghost var s1 := Abs();
      var root2 := Find(element2);
      DisjointSetSpec.UnionUnfolds(s, element1, element2,
        DisjointSetSpec.Lookup(root1, s1), DisjointSetSpec.Lookup(root2, Abs()));
      DisjointSetSpec.LinkForested(DisjointSetSpec.Lookups(root1, root2, Abs()));
      assert count >= 1 || root1 == root2;
      if root1 == root2 {
        return false;
      }
      var height1 := heights[root1];
      var height2 := heights[root2];
      if height1 < height2 {
        parents := parents[root1 := root2];
      } else if height1 > height2 {
        parents := parents[root2 := root1];
      } else {
        parents := parents[root2 := root1];
        if root1 in heights {
          heights := heights[root1 := heights[root1] + 1];
        }
      }
      count := count - 1;
      merged := true;
    }

    /** `connected`: two lookups, compared. */
    method Connected(element1: T, element2: T) returns (same: bool)
      requires Valid()
      modifies this
      ensures DisjointSetSpec.Answer(same, Abs()) == DisjointSetSpec.Connected(old(Abs()), element1, element2)
      ensures Valid()
    {
      var root1 := Find(element1);
      DisjointSetSpec.FindKeepsRoots(Abs(), element2, root1);
      var root2 := Find(element2);
      same := root1 == root2;
    }

    /** `get_count`: reads the counter and changes nothing. */
    method GetCount() returns (c: nat)
      ensures c == count
    {
      c := count;
    }
  }
}
