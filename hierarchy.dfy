/**
 * The object tree of the host and `GetRecursiveVariables`, which collects the
 * IDs of the variables below a start object in pre-order. The tree is a finite
 * value, so every walk over it ends.
 */
module Hierarchy {

  /** ObjectType of a variable object. */
  const VariableType := 2

  /** One object as `IPS_GetObject` describes it, with its children in `IPS_GetChildrenIDs` order. */
  datatype Obj = Obj(id: int, objectType: int, hasChildren: bool, children: seq<Obj>)

  /** The IDs appended while the walk of `p` has looked at its first `n` children. */
  function Collected(p: Obj, n: nat): seq<int>
    requires n <= |p.children|
    decreases p, n
  {
    if n == 0 then [] else Collected(p, n - 1) + Contribution(p.children[n - 1])
  }

  /** Everything the walk of `p` appends. */
  function Variables(p: Obj): seq<int>
    decreases p, |p.children| + 1
  {
    Collected(p, |p.children|)
  }

  /** What one child `c` adds: its own ID if it is a variable, then what lies below it. */
  function Contribution(c: Obj): seq<int>
    decreases c, |c.children| + 2
  {
    (if c.objectType == VariableType then [c.id] else [])
    + (if c.hasChildren then Variables(c) else [])
  }

  /**
   * Models `GetRecursiveVariables($parentID, &$result)`: the by-reference
   * accumulator is passed in as `result` and handed back as `r`.
   */
  method GetRecursiveVariables(parent: Obj, result: seq<int>) returns (r: seq<int>)
    ensures r == result + Variables(parent)
    decreases parent
  {
    r := result;
    var i := 0;
    while i < |parent.children|
      invariant i <= |parent.children|
      invariant r == result + Collected(parent, i)
    {
      var child := parent.children[i];
      if child.objectType == VariableType {
        r := r + [child.id];
      }
      if child.hasChildren {
        r := GetRecursiveVariables(child, r);
      }
      i := i + 1;
    }
  }

  // ----- The walk against an independent description -----

  /**
   * `path` leads from `p` down child links: `path[0]` is a child of `p`, each
   * next node is a child of the one before, and the walk only steps down from
   * a node whose HasChildren is set.
   */
  ghost predicate IsWalkPath(p: Obj, path: seq<Obj>) {
    && |path| > 0
    && path[0] in p.children
    && forall k :: 0 <= k < |path| - 1 ==> path[k].hasChildren && path[k + 1] in path[k].children
  }

  /** `path` is a walk path from `p` that ends at a variable with ID `x`. */
  ghost predicate ReachesVariable(p: Obj, path: seq<Obj>, x: int) {
    IsWalkPath(p, path) && path[|path| - 1].objectType == VariableType && path[|path| - 1].id == x
  }

  /** Number of objects in the subtree of `p` (p and its first `n` children's subtrees). */
  function SizeUpTo(p: Obj, n: nat): (r: nat)
    requires n <= |p.children|
    ensures r >= 1
    decreases p, n
  {
    if n == 0 then 1
    else var c := p.children[n - 1]; SizeUpTo(p, n - 1) + SizeUpTo(c, |c.children|)
  }

  function Size(p: Obj): nat {
    SizeUpTo(p, |p.children|)
  }

  lemma {:induction false} CollectedPrefix(p: Obj, m: nat, n: nat)
    requires m <= n <= |p.children|
    ensures |Collected(p, m)| <= |Collected(p, n)|
    ensures Collected(p, n)[..|Collected(p, m)|] == Collected(p, m)
    decreases n
  {
    if m < n {
      CollectedPrefix(p, m, n - 1);
    }
  }

  lemma {:induction false} SizeUpToMonotone(p: Obj, m: nat, n: nat)
    requires m <= n <= |p.children|
    ensures SizeUpTo(p, m) <= SizeUpTo(p, n)
    decreases n
  {
    if m < n {
      SizeUpToMonotone(p, m, n - 1);
    }
  }

  /** A child has a strictly smaller subtree than its parent. */
  lemma ChildSmaller(p: Obj, c: Obj)
    requires c in p.children
    ensures Size(c) < Size(p)
  {
    var k :| 0 <= k < |p.children| && p.children[k] == c;
    assert SizeUpTo(p, k + 1) == SizeUpTo(p, k) + Size(c);
    SizeUpToMonotone(p, k + 1, |p.children|);
  }

  /** Every node on a walk path is strictly smaller than the start, so never the start itself. */
  lemma {:induction false} WalkPathBelow(p: Obj, path: seq<Obj>, k: nat)
    requires IsWalkPath(p, path) && k < |path|
    ensures Size(path[k]) < Size(p)
    ensures path[k] != p
  {
    if k == 0 {
      ChildSmaller(p, path[0]);
    } else {
      WalkPathBelow(p, path, k - 1);
      ChildSmaller(path[k - 1], path[k]);
    }
  }

  /** Each collected ID is the ID of a variable reached by a walk path (soundness). */
  lemma {:induction false} CollectedSound(p: Obj, n: nat, x: int)
    requires n <= |p.children| && x in Collected(p, n)
    ensures exists path :: ReachesVariable(p, path, x)
    decreases p, n
  {
    var c := p.children[n - 1];
    var own := if c.objectType == VariableType then [c.id] else [];
    var below := if c.hasChildren then Variables(c) else [];
    assert Collected(p, n) == Collected(p, n - 1) + (own + below);
    if x in Collected(p, n - 1) {
      CollectedSound(p, n - 1, x);
    } else if x in own {
      var path := [c];
      assert ReachesVariable(p, path, x);
    } else {
      assert x in below;
      CollectedSound(c, |c.children|, x);
      var tail :| ReachesVariable(c, tail, x);
      var path := [c] + tail;
      assert path[1..] == tail;
      assert ReachesVariable(p, path, x);
    }
  }

  /** Each variable reached by a walk path has its ID collected (completeness). */
  lemma {:induction false} CollectedComplete(p: Obj, path: seq<Obj>)
    requires IsWalkPath(p, path) && path[|path| - 1].objectType == VariableType
    ensures path[|path| - 1].id in Variables(p)
    decreases |path|
  {
    var c := path[0];
    var k :| 0 <= k < |p.children| && p.children[k] == c;
    var x := path[|path| - 1].id;
    var own := if c.objectType == VariableType then [c.id] else [];
    var below := if c.hasChildren then Variables(c) else [];
    assert Collected(p, k + 1) == Collected(p, k) + (own + below);
    if |path| == 1 {
      assert x in own;
    } else {
      var tail := path[1..];
      assert IsWalkPath(c, tail);
      CollectedComplete(c, tail);
      assert x in below;
    }
    assert x in Collected(p, k + 1);
    CollectedPrefix(p, k + 1, |p.children|);
    assert Variables(p)[..|Collected(p, k + 1)|] == Collected(p, k + 1);
  }

  /**
   * The walk finds exactly the variables reachable from `p` through nodes whose
   * HasChildren is set, each strictly below `p`.
   */
  lemma VariablesReachable(p: Obj, x: int)
    ensures x in Variables(p) <==>
      exists path :: ReachesVariable(p, path, x)
    ensures forall path :: IsWalkPath(p, path) ==> path[|path| - 1] != p
  {
    if x in Variables(p) {
      CollectedSound(p, |p.children|, x);
    }
    forall path | ReachesVariable(p, path, x)
      ensures x in Variables(p)
    {
      CollectedComplete(p, path);
    }
    forall path | IsWalkPath(p, path)
      ensures path[|path| - 1] != p
    {
      WalkPathBelow(p, path, |path| - 1);
    }
  }

  /**
   * Pre-order: the IDs contributed by child `k` (its own, then those below it)
   * directly follow those of the children before it, as a prefix of the walk.
   */
  lemma VariablesBlock(p: Obj, k: nat)
    requires k < |p.children|
    ensures Collected(p, k) + Contribution(p.children[k]) <= Variables(p)
  {
    CollectedPrefix(p, k + 1, |p.children|);
    var pre := Collected(p, k + 1);
    assert Variables(p)[..|pre|] == pre;
  }
}
