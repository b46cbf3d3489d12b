# Disjoint-set (union–find) structure, modelled in Dafny

The repository's core is one generic structure, `DisjointSet<T>`. It has three fields:

- `parents`: a map from each element to its parent.
- `heights`: a map from each element to its rank.
- `count`: the component counter.

It offers five operations: `new`, `find`, `union`, `connected` and `get_count`. `find` registers unseen elements on the fly. For a known element it re-points the argument at its grandparent and makes that grandparent its own parent. `union` merges by height.

The model has four files:

- `forest.dfy` (module `Forest`) reads a parent map as a forest of inverted trees. `Walk`, `IsRoot` and `Reaches` say which root an element reaches. Two lemmas say how that changes when one entry is rewritten. `RepointKeepsRoots` covers pointing an element at its own root. `LinkMergesRoots` covers putting one root under another. `Forested` says every registered element reaches some root; `ForestedAfter` says when rewriting entries keeps that.
- `spec.dfy` (module `DisjointSetSpec`) gives the state as a value `State(parents, heights, count)`. Each operation is a function on it: `Initial`, `Find`, `Union` (as `Link` after `FindBoth`) and `Connected`. The lemmas say what those functions do to the forest and to the counter.
- `disjoint_set.dfy` (module `DisjointSetImpl`) is the class `DisjointSet` with the three fields. Its methods follow the Rust code statement by statement, including the `while` loop of `find`. Each method is proved to return, and leave behind, exactly what the matching function computes from the state it started in.
- `scenarios.dfy` (module `DisjointSetScenarios`) holds concrete runs on the class:
  - the repository's unit test `test_new`;
  - a chain three links deep that exposes how `find` really behaves;
  - a `connected` query whose answer changes when it is repeated.

## How `find` really behaves

The loop at `disjoint_set/src/disjoint_set.rs:25-30` reads `self.parents.get(parent)` on every round. Here `parent` is the parent of the argument as first looked up, and it never changes. So for a registered `x` with parent `p` and grandparent `g`, the loop:

1. points `x` at `g`;
2. if `g` is not its own parent, points `g` at itself;
3. returns `g`.

It always stops after at most two rounds. `DisjointSetSpec.Find` is this closed form, and the method `DisjointSetImpl.DisjointSet.Find` is proved equal to it.

The class invariant `Valid()` includes the forest invariant: every registered element reaches a root. `new`, `find`, `union` and `connected` all keep it (`InitialForested`, `FindForested`, `UnionForested`, `ConnectedForested`). In such a state every known element has a depth (`Forest.ForestedDepth`), so each lookup falls under one of the two cases below (`FindInForest`).

There are two cases:

- **Within two links of the root**, this is correct path compression (`FindShallow`).
- **Three or more links below the root**, `find` returns a non-root and makes it a root. That cuts a set in two without touching the counter (`FindDeepSplits`, `DeepChain`).

The usual union–find contract promises three things that this code does not do. The model follows the code:

- Full path compression.
- A counter that always equals the number of roots. This also fails with duplicates in `new` (`InitialCount`).
- Idempotent `connected`. `ConnectedTwice` shows `connected(5, 8)` answering false and then true.

A true answer from `connected` is never wrong (`ConnectedSound`). A false answer can be wrong when an element lies three or more links below its root; within two links it is exact (`ConnectedShallow`).

## Model

| member | source | states |
|---|---|---|
| DisjointSetImpl.DisjointSet.constructor | disjoint_set/src/disjoint_set.rs:13-17 | the new object's fields are `Initial(v)`: every element of `v` is its own parent with height 0, and the counter is `|v|` |
| DisjointSetImpl.DisjointSet.Find | disjoint_set/src/disjoint_set.rs:19-40 | the literal loop returns, and leaves behind, exactly `DisjointSetSpec.Find` of the old state; well-formedness and the forest invariant are kept |
| DisjointSetImpl.DisjointSet.Union | disjoint_set/src/disjoint_set.rs:42-63 | two lookups, then union by height; the result and the new state are exactly `DisjointSetSpec.Union` of the old state |
| DisjointSetImpl.DisjointSet.Connected | disjoint_set/src/disjoint_set.rs:65-67 | two lookups compared; the result and the new state are exactly `DisjointSetSpec.Connected` of the old state |
| DisjointSetImpl.DisjointSet.GetCount | disjoint_set/src/disjoint_set.rs:69-71 | returns the counter and changes nothing |
| DisjointSetSpec.Initial | disjoint_set/src/disjoint_set.rs:13-17 | the elements are exactly those of `v`, each a root of height 0; the counter is `|v|`; the state is well formed |
| DisjointSetSpec.InitialCount | disjoint_set/src/disjoint_set.rs:14-16 | the initial counter is at least the number of distinct elements, and equal to it exactly when `v` has no duplicates |
| DisjointSetSpec.Find | disjoint_set/src/disjoint_set.rs:19-40 | keeps well-formedness; the elements gain exactly `x`; the result is a root and `x` points straight at it |
| DisjointSetSpec.FindUnseen | disjoint_set/src/disjoint_set.rs:33-38 | an unseen element becomes a root of height 0 and is returned; the counter goes up by one; no entry of a known element changes |
| DisjointSetSpec.FindKnown | disjoint_set/src/disjoint_set.rs:22-31 | a known element: the result is two links up; heights, counter and element set stay as they were; only the entries of `x` and of the result can change |
| DisjointSetSpec.FindShallow | disjoint_set/src/disjoint_set.rs:22-31 | within two links of its root, the result is that root; `x` is re-pointed at it, or nothing changes at depth 0; every element reaches the same root as before |
| DisjointSetSpec.FindDeepSplits | disjoint_set/src/disjoint_set.rs:25-30 | three or more links deep, the result is the grandparent, which was not a root and becomes one; the counter is unchanged; `x` no longer reaches its old root |
| DisjointSetSpec.FindIdempotent | disjoint_set/src/disjoint_set.rs:19-40 | a second `find` of the same element returns the same root and changes nothing |
| DisjointSetSpec.FindKeepsRoots | disjoint_set/src/disjoint_set.rs:19-40 | `find` never turns a root into a non-root |
| DisjointSetSpec.FindRoot | disjoint_set/src/disjoint_set.rs:22-31 | `find` on a root returns it and leaves the state unchanged |
| DisjointSetSpec.FindAfterNew | disjoint_set/src/disjoint_set.rs:19-31 | the first `find` of an element of `v` after `new(v)` returns that element and changes nothing |
| DisjointSetSpec.FindBoth | disjoint_set/src/disjoint_set.rs:43-44 | after `find(a)` then `find(b)`, the elements gain `a` and `b`; the counter rises by the number of unseen ones, which get height 0, and other heights are kept; both results are roots; `b` points at its root and `a` at one of the two |
| DisjointSetSpec.Link | disjoint_set/src/disjoint_set.rs:46-62 | linking the two found roots keeps well-formedness |
| DisjointSetSpec.Union | disjoint_set/src/disjoint_set.rs:42-63 | `union` keeps well-formedness |
| DisjointSetSpec.UnionOfRoots | disjoint_set/src/disjoint_set.rs:42-62 | for two roots, the lookups change nothing and `union` links the roots directly; the counter requirement then holds whenever roots coincide or the counter is positive |
| DisjointSetSpec.UnionCount | disjoint_set/src/disjoint_set.rs:42-63 | the answer is true exactly when the two roots differ; the elements gain `a` and `b`; counter after + (1 if merged) = counter before + unseen elements |
| DisjointSetSpec.UnionSameRoot | disjoint_set/src/disjoint_set.rs:46-48 | equal roots: the answer is false and the state is what the lookups left; the counter and known heights change only through registration |
| DisjointSetSpec.UnionByHeight | disjoint_set/src/disjoint_set.rs:50-61 | different roots: the lower one goes under the higher, and on a tie the second root goes under the first; only the winner's height can change, +1 on a tie; the counter drops by exactly one; the answer is true |
| DisjointSetSpec.UnionMerges | disjoint_set/src/disjoint_set.rs:53-58 | after a successful union, the elements that reached the losing root reach the winning one, and every other element keeps its root |
| DisjointSetSpec.Connected | disjoint_set/src/disjoint_set.rs:65-67 | keeps well-formedness; the counter changes only by registering unseen elements |
| DisjointSetSpec.ConnectedSound | disjoint_set/src/disjoint_set.rs:65-67 | no false positives: in a forest, when `connected(a, b)` answers true for two known elements, both reached one common root before the call |
| DisjointSetSpec.ConnectedShallow | disjoint_set/src/disjoint_set.rs:65-67 | two known elements at depth at most two that reach the same root are connected |
| DisjointSetSpec.ConnectedRoots | disjoint_set/src/disjoint_set.rs:65-67 | two roots are connected exactly when they are equal, and asking changes nothing |
| DisjointSetSpec.ConnectedSelf | disjoint_set/src/disjoint_set.rs:65-67 | every element is connected to itself |
| DisjointSetSpec.CloseToSameRoot | disjoint_set/src/disjoint_set.rs:42-67 | two elements two links below the same root are connected; `union` of them answers false and changes neither the counter nor the heights |
| DisjointSetSpec.UnionLeavesClose | disjoint_set/src/disjoint_set.rs:42-63 | after any `union(a, b)`, both `a` and `b` are two links below one root |
| DisjointSetSpec.UnionThenConnected | disjoint_set/src/disjoint_set.rs:42-67 | right after `union(a, b)`, `connected(a, b)` is true; a second `union(a, b)` answers false and changes neither the counter nor any height |
| Forest.ForestedAfter | disjoint_set/src/disjoint_set.rs:27-34 | if every rewritten entry points at a root of the new map and every new element is a root, every element still reaches a root |
| Forest.ForestedDepth | disjoint_set/src/disjoint_set.rs:22-31 | in a forest, every registered element has a depth: a first root on its path |
| DisjointSetSpec.InitialForested | disjoint_set/src/disjoint_set.rs:13-17 | after `new`, every element reaches a root |
| DisjointSetSpec.FindForested | disjoint_set/src/disjoint_set.rs:19-40 | `find` keeps every element reaching a root |
| DisjointSetSpec.LinkForested | disjoint_set/src/disjoint_set.rs:50-62 | linking the found roots keeps every element reaching a root |
| DisjointSetSpec.FindBothForested | disjoint_set/src/disjoint_set.rs:43-44 | the two lookups of `union` and `connected` keep every element reaching a root |
| DisjointSetSpec.UnionForested | disjoint_set/src/disjoint_set.rs:42-63 | `union` keeps every element reaching a root |
| DisjointSetSpec.ConnectedForested | disjoint_set/src/disjoint_set.rs:65-67 | `connected` keeps every element reaching a root |
| DisjointSetSpec.FindInForest | disjoint_set/src/disjoint_set.rs:22-31 | in a forest, a lookup of a known element either returns its root with every root kept, or returns a former non-root and the element loses its old root |
| Forest.RepointKeepsRoots | disjoint_set/src/disjoint_set.rs:27 | pointing an element straight at the root it reaches changes no element's root |
| Forest.LinkMergesRoots | disjoint_set/src/disjoint_set.rs:53-58 | putting root `a` under root `b` sends exactly the elements that reached `a` to `b`; all others keep their root |
| Forest.RootUnique | disjoint_set/src/disjoint_set.rs:19-31 | an element reaches at most one root |
| DisjointSetScenarios.TestNew | disjoint_set/src/disjoint_set.rs:79-97 | the unit test: counters 9, 9, 8, 7, 6, 6; `find(1)` is 1; the three unions answer true; `connected(1, 4)` is true and `connected(1, 5)` false |
| DisjointSetScenarios.TestNewStart | disjoint_set/src/disjoint_set.rs:81-84 | `new([1..9])`: counter 9, elements 1..5 roots of height 0 |
| DisjointSetScenarios.TestNewUnion12 | disjoint_set/src/disjoint_set.rs:87-88 | `union(1, 2)` answers true, 2 goes under 1, height of 1 becomes 1, counter 8 |
| DisjointSetScenarios.TestNewUnion34 | disjoint_set/src/disjoint_set.rs:89-90 | `union(3, 4)` answers true, 4 goes under 3, counter 7 |
| DisjointSetScenarios.TestNewUnion13 | disjoint_set/src/disjoint_set.rs:91-92 | `union(1, 3)` answers true, 3 goes under 1, height of 1 becomes 2, counter 6 |
| DisjointSetScenarios.TestNewConnected14 | disjoint_set/src/disjoint_set.rs:94 | `connected(1, 4)` is true; the counter stays 6 |
| DisjointSetScenarios.TestNewConnected15 | disjoint_set/src/disjoint_set.rs:95-96 | `connected(1, 5)` is false; the counter stays 6 |
| DisjointSetScenarios.DeepChain | disjoint_set/src/disjoint_set.rs:25-30 | on the chain 8 -> 7 -> 5 -> 1 with counter 1, `find(8)` answers 5 and `connected(8, 1)` is false while the counter stays 1; `union(8, 1)` answers true and the counter becomes 0 |
| DisjointSetScenarios.ChainStart | disjoint_set/src/disjoint_set.rs:13-17 | `new([1..8])`: counter 8, elements 1..8 roots of height 0 |
| DisjointSetScenarios.ChainUnion12 | disjoint_set/src/disjoint_set.rs:57-61 | `union(1, 2)` answers true, height of 1 becomes 1, counter 7 |
| DisjointSetScenarios.ChainUnion34 | disjoint_set/src/disjoint_set.rs:57-61 | `union(3, 4)` answers true, height of 3 becomes 1, counter 6 |
| DisjointSetScenarios.ChainUnion13 | disjoint_set/src/disjoint_set.rs:57-61 | `union(1, 3)` answers true, height of 1 becomes 2, counter 5 |
| DisjointSetScenarios.ChainUnion56 | disjoint_set/src/disjoint_set.rs:57-61 | `union(5, 6)` answers true, height of 5 becomes 1, counter 4 |
| DisjointSetScenarios.ChainUnion78 | disjoint_set/src/disjoint_set.rs:57-61 | `union(7, 8)` answers true, 8 goes under 7, height of 7 becomes 1, counter 3 |
| DisjointSetScenarios.ChainUnion57 | disjoint_set/src/disjoint_set.rs:57-61 | `union(5, 7)` answers true, 7 goes under 5, height of 5 becomes 2, counter 2 |
| DisjointSetScenarios.BuildChain | disjoint_set/src/disjoint_set.rs:42-63 | on a new object, the seven unions all answer true and leave 8 -> 7 -> 5 -> 1 with counter 1 |
| DisjointSetScenarios.ChainUnion15 | disjoint_set/src/disjoint_set.rs:57-61 | the seventh tie-merge leaves 8 -> 7 -> 5 -> 1, height of 1 is 3, counter 1 |
| DisjointSetScenarios.ChainFind8 | disjoint_set/src/disjoint_set.rs:25-30 | 8 reaches 1 before; `find(8)` answers 5; afterwards 5 is a root, 8 reaches 5 and not 1, and the counter is still 1 |
| DisjointSetScenarios.ChainConnected81 | disjoint_set/src/disjoint_set.rs:65-67 | after the split, `connected(8, 1)` is false |
| DisjointSetScenarios.ChainUnion81 | disjoint_set/src/disjoint_set.rs:50-61 | `union(8, 1)` puts root 5 (height 2) under root 1 (height 3), answers true, counter 0 |
| DisjointSetScenarios.ChainConnected58 | disjoint_set/src/disjoint_set.rs:65-67 | on the chain, `connected(5, 8)` is false and leaves 5 a root with 8 under it |
| DisjointSetScenarios.ChainConnected58Again | disjoint_set/src/disjoint_set.rs:65-67 | in that state, `connected(5, 8)` is true |
| DisjointSetScenarios.ConnectedTwice | disjoint_set/src/disjoint_set.rs:65-67 | repeating `connected(5, 8)` with nothing in between changes its answer from false to true |

## Left out

- The demonstration driver `main.rs` and the `Debug` formatting of the structure: they only print.
- Lifetimes and borrowed keys: elements are values of a type with equality. Hashing is not modelled; the maps are Dafny maps.
- Overflow of the `usize` counter and heights: `count += 1` and the height increment are modelled on unbounded naturals.
- DisjointSetImpl.DisjointSet.Union: requires `CanUnion`, which says the lookups found equal roots or left a positive counter. In Rust, `count -= 1` at line 61 panics in a debug build and wraps in a release build when the counter is 0. The model does not cover that case.
- That case can only arise after deep lookups have split sets without adjusting the counter. No scenario here reaches it.
- DisjointSetSpec.Union: there is no general lemma that `connected` matches the transitive closure of past unions. The lookup splits sets, so that claim is false for this code. The model proves these instead:
  - the merge is exact (`UnionMerges`);
  - shallow lookups change no element's root (`FindShallow`);
  - deep lookups split (`FindDeepSplits`).
- The claimed invariant "the counter equals the number of roots" is not stated. Two things break it in the code: duplicates passed to `new` (`InitialCount`) and deep lookups (`DeepChain`).
