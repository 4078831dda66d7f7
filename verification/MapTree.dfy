/**
 The tree of edits below an operation object, and what a call through a handle does to it: a call
 on an object in the tree changes the tree at that place and nowhere else, and a call on an object
 that has been detached from the tree does not change it at all.
 */
module MapTree {
  import opened Common
  import opened MapOps

  /** A whole operation as a value: an object's own fields (without its children) and its nested operations. */
  datatype Op = Op(own: OpNode, nested: map<string, Op>)

  const EMPTY_OP := Op(EMPTY_NODE, map[])

  function Own(n: OpNode): OpNode {
    n.(maps := map[])
  }

  function Tree(h: Heap, r: Ref): Op
    requires Acyclic(h) && r < |h|
    decreases |h| - r
  {
    Op(Own(h[r]), map k | k in h[r].maps :: Tree(h, h[r].maps[k]))
  }

  /** The object at the end of a path of names. */
  function Follow(h: Heap, r: Ref, path: seq<string>): Option<Ref>
    requires Acyclic(h) && r < |h|
    decreases |path|
  {
    if path == [] then Some(r)
    else if path[0] in h[r].maps then Follow(h, h[r].maps[path[0]], path[1..])
    else None
  }

  ghost predicate Reaches(h: Heap, r: Ref, x: Ref)
    requires Acyclic(h) && r < |h|
    decreases |h| - r
  {
    r == x || exists k :: k in h[r].maps && Reaches(h, h[r].maps[k], x)
  }

  /** What an edit does to the nested operations. */
  function NestedEdited(nested: map<string, Op>, key: string, edit: Edit): map<string, Op> {
    if edit.NestedMap? && key !in nested then nested[key := EMPTY_OP]
    else if edit.RemoveMap? then nested - {key}
    else nested
  }

  /** An edit, on values. */
  function OpEdited(op: Op, key: string, edit: Edit): Op {
    Op(Own(Edited(op.own, key, edit, 0)), NestedEdited(op.nested, key, edit))
  }

  function UpdateAt(op: Op, path: seq<string>, key: string, edit: Edit): Op
    decreases |path|
  {
    if path == [] then OpEdited(op, key, edit)
    else if path[0] in op.nested
    then op.(nested := op.nested[path[0] := UpdateAt(op.nested[path[0]], path[1..], key, edit)])
    else op
  }

  // ------------------------------------------------------------------------------------------
  // The objects form a forest
  // ------------------------------------------------------------------------------------------

  lemma {:induction false} ReachesUp(h: Heap, r: Ref, x: Ref)
    requires Acyclic(h) && r < |h| && Reaches(h, r, x)
    ensures r <= x < |h|
    decreases |h| - r
  {
    if r != x {
      var k :| k in h[r].maps && Reaches(h, h[r].maps[k], x);
      ReachesUp(h, h[r].maps[k], x);
    }
  }

  /** A way down to `x` ends with an edge into `x`. */
  lemma {:induction false} LastEdge(h: Heap, r: Ref, x: Ref) returns (p: Ref, k: string)
    requires Acyclic(h) && r < |h| && Reaches(h, r, x) && r != x
    ensures p < |h| && Reaches(h, r, p) && k in h[p].maps && h[p].maps[k] == x
    decreases |h| - r
  {
    var j :| j in h[r].maps && Reaches(h, h[r].maps[j], x);
    if h[r].maps[j] == x {
      p, k := r, j;
    } else {
      p, k := LastEdge(h, h[r].maps[j], x);
    }
  }

  /** Two ancestors of an object are on one line. */
  lemma {:induction false} AncestorsInLine(h: Heap, a: Ref, b: Ref, x: Ref)
    requires Acyclic(h) && Unshared(h) && a < |h| && b < |h| && Reaches(h, a, x) && Reaches(h, b, x)
    ensures Reaches(h, a, b) || Reaches(h, b, a)
    decreases x
  {
    if a != x && b != x {
      var p, k := LastEdge(h, a, x);
      var p', k' := LastEdge(h, b, x);
      assert p == p';
      AncestorsInLine(h, a, b, p);
    }
  }

  /** An object below one child is not below another. */
  lemma SiblingsDisjoint(h: Heap, r: Ref, k: string, k': string, x: Ref)
    requires Acyclic(h) && Unshared(h) && r < |h| && k in h[r].maps && k' in h[r].maps && k != k'
    requires Reaches(h, h[r].maps[k], x)
    ensures !Reaches(h, h[r].maps[k'], x)
  {
    var a, b := h[r].maps[k], h[r].maps[k'];
    if Reaches(h, b, x) {
      AncestorsInLine(h, a, b, x);
      assert a != b;
      var up, down := if Reaches(h, a, b) then a else b, if Reaches(h, a, b) then b else a;
      var p, j := LastEdge(h, up, down);
      assert p == r;
      ReachesUp(h, up, r);
      assert false;
    }
  }

  lemma {:induction false} FollowReaches(h: Heap, r: Ref, path: seq<string>)
    requires Acyclic(h) && r < |h|
    ensures Follow(h, r, path).Some? ==> Reaches(h, r, Follow(h, r, path).value)
    decreases |path|
  {
    if path != [] && path[0] in h[r].maps {
      FollowReaches(h, h[r].maps[path[0]], path[1..]);
    }
  }

  lemma {:induction false} ReachesFollow(h: Heap, r: Ref, x: Ref) returns (path: seq<string>)
    requires Acyclic(h) && r < |h| && Reaches(h, r, x)
    ensures Follow(h, r, path) == Some(x)
    ensures path == [] <==> r == x
    decreases |h| - r
  {
    if r == x {
      path := [];
    } else {
      var k :| k in h[r].maps && Reaches(h, h[r].maps[k], x);
      var rest := ReachesFollow(h, h[r].maps[k], x);
      path := [k] + rest;
      assert path[1..] == rest;
      ReachesUp(h, h[r].maps[k], x);
    }
  }

  // ------------------------------------------------------------------------------------------
  // Calls act on one place of the tree
  // ------------------------------------------------------------------------------------------

  /** A call on an object outside the tree is not seen in it: handles to removed maps are dead. */
  lemma {:induction false} DetachedCallsAreInvisible(h: Heap, r: Ref, c: Call)
    requires HeapOk(h) && c.op < |h| && r < |h|
    requires !Reaches(h, r, c.op)
    ensures Acyclic(Apply(h, c))
    ensures Tree(Apply(h, c), r) == Tree(h, r)
    decreases |h| - r
  {
    hide NodeOk, Edited, Unshared;
    ApplyKeeps(h, c);
    var h1 := Apply(h, c);
    assert h1[r] == h[r];
    forall k | k in h[r].maps ensures Tree(h1, h[r].maps[k]) == Tree(h, h[r].maps[k]) {
      DetachedCallsAreInvisible(h, h[r].maps[k], c);
    }
  }

  lemma OwnOfEdited(n: OpNode, key: string, edit: Edit, child: Ref)
    ensures Own(Edited(n, key, edit, child)) == Own(Edited(Own(n), key, edit, 0))
  {
  }

  lemma EmptyTree(h: Heap, r: Ref)
    requires Acyclic(h) && r < |h| && h[r] == EMPTY_NODE
    ensures Tree(h, r) == EMPTY_OP
  {
  }

  /** The children of a tree's root are the trees of the object's children. */
  lemma TreeParts(h: Heap, r: Ref)
    requires Acyclic(h) && r < |h|
    ensures Tree(h, r).own == Own(h[r]) && Tree(h, r).nested.Keys == h[r].maps.Keys
    ensures forall k :: k in h[r].maps ==> Tree(h, r).nested[k] == Tree(h, h[r].maps[k])
  {
  }

  /** A call on an object leaves the trees of its present children alone. */
  lemma ChildrenUntouched(h: Heap, c: Call, k: string)
    requires HeapOk(h) && c.op < |h| && k in h[c.op].maps
    ensures Acyclic(Apply(h, c))
    ensures Tree(Apply(h, c), h[c.op].maps[k]) == Tree(h, h[c.op].maps[k])
  {
    hide NodeOk, Unshared, Tree;
    ApplyKeeps(h, c);
    var child := h[c.op].maps[k];
    if Reaches(h, child, c.op) {
      ReachesUp(h, child, c.op);
    }
    DetachedCallsAreInvisible(h, child, c);
  }

  /** A call on the root of a tree. */
  lemma CallAtRoot(h: Heap, c: Call)
    requires HeapOk(h) && c.op < |h|
    ensures Acyclic(Apply(h, c))
    ensures Tree(Apply(h, c), c.op) == OpEdited(Tree(h, c.op), c.key, c.edit)
  {
    hide NodeOk, Edited, Unshared, Tree, Own;
    ApplyKeeps(h, c);
    var h1, r := Apply(h, c), c.op;
    OwnOfEdited(h[r], c.key, c.edit, |h|);
    EditedMaps(h[r], c.key, c.edit, |h|);
    TreeParts(h, r);
    TreeParts(h1, r);
    forall k | k in h[r].maps ensures Tree(h1, h[r].maps[k]) == Tree(h, h[r].maps[k]) {
      ChildrenUntouched(h, c, k);
    }
    if Allocates(h, c) {
      EmptyTree(h1, |h|);
    }
    hide Acyclic;
    assert Tree(h1, r).nested == OpEdited(Tree(h, r), c.key, c.edit).nested;
  }

  /**
   The handle that Map returns is at the end of its name: there the nested operation is as it was, or empty
   if it is new.  All other calls return the handle they were made on.
   */
  lemma ReturnedHandle(h: Heap, c: Call)
    requires HeapOk(h) && c.op < |h|
    ensures Acyclic(Apply(h, c)) && Returned(h, c) < |Apply(h, c)|
    ensures !c.edit.NestedMap? ==> Returned(h, c) == c.op
    ensures c.edit.NestedMap? ==>
              && Follow(Apply(h, c), c.op, [c.key]) == Some(Returned(h, c))
              && Tree(Apply(h, c), Returned(h, c)) ==
                 if c.key in h[c.op].maps then Tree(h, h[c.op].maps[c.key]) else EMPTY_OP
  {
    hide NodeOk, Unshared, Edited, Tree;
    ApplyKeeps(h, c);
    EditedMaps(h[c.op], c.key, c.edit, |h|);
    if c.key in h[c.op].maps {
      ChildrenUntouched(h, c, c.key);
    } else if c.edit.NestedMap? {
      EmptyTree(Apply(h, c), |h|);
    }
    var h1 := Apply(h, c);
    if c.edit.NestedMap? {
      assert [c.key][1..] == [];
      assert Follow(h1, h1[c.op].maps[c.key], []) == Some(h1[c.op].maps[c.key]);
    }
  }

  /** A call through a handle edits the tree at the handle's place, and nowhere else. */
  lemma {:induction false} CallEditsAtPath(h: Heap, root: Ref, path: seq<string>, c: Call)
    requires HeapOk(h) && c.op < |h| && root < |h|
    requires Follow(h, root, path) == Some(c.op)
    ensures Acyclic(Apply(h, c))
    ensures Tree(Apply(h, c), root) == UpdateAt(Tree(h, root), path, c.key, c.edit)
    decreases |path|
  {
    hide NodeOk, Edited, Unshared, Tree, Reaches, OpEdited, Own;
    ApplyKeeps(h, c);
    if path == [] {
      CallAtRoot(h, c);
    } else {
      var h1, child := Apply(h, c), h[root].maps[path[0]];
      FollowReaches(h, child, path[1..]);
      ReachesUp(h, child, c.op);
      assert h1[root] == h[root];
      CallEditsAtPath(h, child, path[1..], c);
      TreeParts(h, root);
      TreeParts(h1, root);
      forall k | k in h[root].maps && k != path[0] ensures Tree(h1, h[root].maps[k]) == Tree(h, h[root].maps[k]) {
        SiblingsDisjoint(h, root, path[0], k, c.op);
        DetachedCallsAreInvisible(h, h[root].maps[k], c);
      }
      assert Tree(h1, root).nested == UpdateAt(Tree(h, root), path, c.key, c.edit).nested;
    }
  }
}
