/**
 What hasRemoves decides, and what UpdateMapCommandBuilder.Build guarantees about the request: a
 command built without a causal context removes no field, at any depth, and no element of a set at
 the top level; element removals inside nested maps get through.
 */
module MapRemoves {
  import opened Common
  import opened MapOps
  import opened MapTree
  import opened MapCompile

  /** The two sorts of removal that need a causal context. */
  datatype Kind = FieldRemoval | ElementRemoval

  /** An operation object records a removal of this kind. */
  predicate OwnHas(n: OpNode, kind: Kind) {
    match kind
    case FieldRemoval => HasFieldRemovals(n)
    case ElementRemoval => n.removeFromSets != map[]
  }

  /** Some operation of the tree does. */
  ghost predicate OpHas(o: Op, kind: Kind) {
    OwnHas(o.own, kind) || exists k :: k in o.nested && OpHas(o.nested[k], kind)
  }

  predicate IsElementRemoval(u: MapUpdate) {
    u.setOp.Some? && u.setOp.value.removes != []
  }

  /** The message itself, without its nested messages, asks for a removal of this kind. */
  ghost predicate TopHas(w: WireOp, kind: Kind) {
    match kind
    case FieldRemoval => w.removes != []
    case ElementRemoval => exists i :: 0 <= i < |w.updates| && IsElementRemoval(w.updates[i])
  }

  /** The message or one nested in it does. */
  ghost predicate WireHas(w: WireOp, kind: Kind) {
    || TopHas(w, kind)
    || (exists i :: 0 <= i < |w.updates| && w.updates[i].mapOp.Some? && WireHas(w.updates[i].mapOp.value, kind))
  }

  // ------------------------------------------------------------------------------------------
  // hasRemoves
  // ------------------------------------------------------------------------------------------

  /** hasRemoves(false) holds iff some object reachable from the operation records a field removal. */
  lemma {:induction false} HasRemovesIff(h: Heap, r: Ref)
    requires Acyclic(h) && r < |h|
    ensures HasRemoves(h, r, false) <==> exists x: Ref :: x < |h| && Reaches(h, r, x) && HasFieldRemovals(h[x])
    ensures HasRemoves(h, r, false) <==> OpHas(Tree(h, r), FieldRemoval)
    decreases |h| - r
  {
    TreeParts(h, r);
    forall k | k in h[r].maps
      ensures HasRemoves(h, h[r].maps[k], false) <==>
              exists x: Ref :: x < |h| && Reaches(h, h[r].maps[k], x) && HasFieldRemovals(h[x])
      ensures HasRemoves(h, h[r].maps[k], false) <==> OpHas(Tree(h, r).nested[k], FieldRemoval)
    {
      HasRemovesIff(h, h[r].maps[k]);
    }
    hide HasFieldRemovals, Tree;
    if HasRemoves(h, r, false) {
      if HasFieldRemovals(h[r]) {
        assert Reaches(h, r, r);
      } else {
        var k :| k in h[r].maps && HasRemoves(h, h[r].maps[k], false);
        var x: Ref :| x < |h| && Reaches(h, h[r].maps[k], x) && HasFieldRemovals(h[x]);
        assert Reaches(h, r, x);
      }
    }
    if x: Ref :| x < |h| && Reaches(h, r, x) && HasFieldRemovals(h[x]) && x != r {
      var k :| k in h[r].maps && Reaches(h, h[r].maps[k], x);
      assert HasRemoves(h, h[r].maps[k], false);
    }
  }

  // ------------------------------------------------------------------------------------------
  // What a message that reads as an operation contains
  // ------------------------------------------------------------------------------------------

  lemma WithRemovedHas(n: OpNode, t: FieldType, names: set<string>)
    requires names != {}
    ensures HasFieldRemovals(WithRemoved(n, t, names))
    ensures WithRemoved(n, t, names).removeFromSets == n.removeFromSets
  {
  }

  lemma {:induction false} RemovesRead(fields: seq<MapField>)
    requires ReadRemoves(fields).Some?
    ensures fields == [] ==> ReadRemoves(fields).value == EMPTY_NODE
    ensures fields != [] ==> HasFieldRemovals(ReadRemoves(fields).value)
    ensures ReadRemoves(fields).value.removeFromSets == map[]
  {
    hide HasFieldRemovals, WithRemoved, RemovedNames;
    if fields != [] {
      RemovesRead(fields[..|fields| - 1]);
      var n, f := ReadRemoves(fields[..|fields| - 1]).value, fields[|fields| - 1];
      WithRemovedHas(n, f.typ, RemovedNames(n, f.typ) + {f.name});
    }
  }

  /** An update changes none of the remove sets. */
  lemma UpdateKeepsRemovals(o: Op, u: MapUpdate)
    requires ReadUpdate(o, u).Some?
    ensures HasFieldRemovals(ReadUpdate(o, u).value.own) == HasFieldRemovals(o.own)
  {
    hide Read;
    match u.field.typ
    case COUNTER =>
    case SET =>
    case REGISTER =>
    case FLAG =>
    case MAP =>
  }

  /** It contributes an element removal or a nested operation just as it says. */
  lemma UpdateRead(o: Op, u: MapUpdate)
    requires ReadUpdate(o, u).Some?
    ensures var o1 := ReadUpdate(o, u).value;
            && o1.own.removeFromSets ==
               (if IsElementRemoval(u) then o.own.removeFromSets[u.field.name := u.setOp.value.removes]
                else o.own.removeFromSets)
            && (u.mapOp.Some? ==> Read(u.mapOp.value).Some? && u.field.name !in o.nested)
            && o1.nested == (if u.mapOp.Some? then o.nested[u.field.name := Read(u.mapOp.value).value] else o.nested)
  {
    hide Read;
    match u.field.typ
    case COUNTER =>
    case SET =>
    case REGISTER =>
    case FLAG =>
    case MAP =>
  }

  /** The element removals read from `us` are exactly those of its updates, and field removals are left alone. */
  lemma {:induction false} UpdatesElements(o: Op, us: seq<MapUpdate>)
    requires ReadUpdates(o, us).Some? && o.own.removeFromSets == map[]
    ensures var o1 := ReadUpdates(o, us).value;
            && HasFieldRemovals(o1.own) == HasFieldRemovals(o.own)
            && (o1.own.removeFromSets != map[] <==> exists i :: 0 <= i < |us| && IsElementRemoval(us[i]))
  {
    if us != [] {
      var n := |us| - 1;
      var before, u := us[..n], us[n];
      UpdatesElements(o, before);
      var o1 := ReadUpdates(o, before).value;
      UpdateRead(o1, u);
      UpdateKeepsRemovals(o1, u);
      assert ReadUpdates(o, us).value == ReadUpdate(o1, u).value;
      hide Read, ReadUpdate, ReadUpdates, HasFieldRemovals, IsElementRemoval;
      if i :| 0 <= i < n && IsElementRemoval(before[i]) {
        assert IsElementRemoval(us[i]);
        var k :| k in o1.own.removeFromSets;
        assert k in ReadUpdate(o1, u).value.own.removeFromSets;
      }
      if i :| 0 <= i <= n && IsElementRemoval(us[i]) {
        assert i < n ==> IsElementRemoval(before[i]);
        assert i == n ==> u.field.name in ReadUpdate(o1, u).value.own.removeFromSets;
      }
    }
  }

  /** Every nested update is found again under its name. */
  lemma {:induction false} NestedAreRead(o: Op, us: seq<MapUpdate>)
    requires ReadUpdates(o, us).Some?
    ensures var o1 := ReadUpdates(o, us).value;
            && o.nested.Keys <= o1.nested.Keys
            && (forall k :: k in o.nested ==> o1.nested[k] == o.nested[k])
            && (forall i :: 0 <= i < |us| && us[i].mapOp.Some? ==>
                  us[i].field.name in o1.nested && Read(us[i].mapOp.value) == Some(o1.nested[us[i].field.name]))
  {
    if us != [] {
      var n := |us| - 1;
      NestedAreRead(o, us[..n]);
      var o1 := ReadUpdates(o, us[..n]).value;
      UpdateRead(o1, us[n]);
      assert ReadUpdates(o, us).value == ReadUpdate(o1, us[n]).value;
      assert forall i :: 0 <= i < n ==> us[..n][i] == us[i];
      hide Read, ReadUpdate, ReadUpdates, IsElementRemoval;
    }
  }

  /** Every nested operation comes from a nested update. */
  lemma {:induction false} NestedComeFrom(o: Op, us: seq<MapUpdate>, k: string) returns (i: nat)
    requires ReadUpdates(o, us).Some? && k in ReadUpdates(o, us).value.nested && k !in o.nested
    ensures i < |us| && us[i].mapOp.Some? && us[i].field.name == k
  {
    var n := |us| - 1;
    var o1 := ReadUpdates(o, us[..n]).value;
    UpdateRead(o1, us[n]);
    assert ReadUpdates(o, us).value == ReadUpdate(o1, us[n]).value;
    hide Read, ReadUpdate, IsElementRemoval;
    if k in o1.nested {
      i := NestedComeFrom(o, us[..n], k);
    } else {
      i := n;
    }
  }

  lemma TopHasIff(w: WireOp, o: Op, kind: Kind)
    requires Read(w) == Some(o)
    ensures TopHas(w, kind) <==> OwnHas(o.own, kind)
  {
    RemovesRead(w.removes);
    UpdatesElements(Op(ReadRemoves(w.removes).value, map[]), w.updates);
    assert !HasFieldRemovals(EMPTY_NODE);
    hide ReadUpdates, ReadRemoves, HasFieldRemovals, IsElementRemoval;
  }

  /** A message that reads as `o` asks for a kind of removal, at any depth, iff `o` records one. */
  lemma {:induction false} WireHasIff(w: WireOp, o: Op, kind: Kind)
    requires Read(w) == Some(o)
    ensures TopHas(w, kind) <==> OwnHas(o.own, kind)
    ensures WireHas(w, kind) <==> OpHas(o, kind)
    decreases w
  {
    hide ReadUpdates, ReadRemoves, TopHas, OwnHas;
    TopHasIff(w, o, kind);
    var o0 := Op(ReadRemoves(w.removes).value, map[]);
    NestedAreRead(o0, w.updates);
    if i :| 0 <= i < |w.updates| && w.updates[i].mapOp.Some? && WireHas(w.updates[i].mapOp.value, kind) {
      WireHasIff(w.updates[i].mapOp.value, o.nested[w.updates[i].field.name], kind);
    }
    if k :| k in o.nested && OpHas(o.nested[k], kind) {
      var i := NestedComeFrom(o0, w.updates, k);
      WireHasIff(w.updates[i].mapOp.value, o.nested[k], kind);
    }
  }

  // ------------------------------------------------------------------------------------------
  // Build
  // ------------------------------------------------------------------------------------------

  datatype BuildResult = Built(op: Ref, context: Option<Bytes>) | NotLocatable | NoOperation | ContextRequired

  /** UpdateMapCommandBuilder.Build; `locatable` is the verdict of validateLocatable. */
  function BuildCommand(h: Heap, locatable: bool, op: Option<Ref>, context: Option<Bytes>): BuildResult
    requires Acyclic(h) && (op.Some? ==> op.value < |h|)
  {
    if !locatable then NotLocatable
    else if op.None? then NoOperation
    else if HasRemoves(h, op.value, true) && context.None? then ContextRequired
    else Built(op.value, context)
  }

  /**
   A command built without context, for whichever order populate chooses: no field removal at any
   depth and no element removal on top.  It contains an element removal at all exactly when a
   nested operation records one.
   */
  lemma BuiltWithoutContext(h: Heap, op: Ref, w: WireOp)
    requires HeapOk(h) && op < |h| && BuildCommand(h, true, Some(op), None).Built?
    requires Read(w) == Some(Tree(h, op))
    ensures !WireHas(w, FieldRemoval) && !TopHas(w, ElementRemoval)
    ensures WireHas(w, ElementRemoval) <==> exists k :: k in h[op].maps && OpHas(Tree(h, h[op].maps[k]), ElementRemoval)
  {
    hide WireHas, HasFieldRemovals, Read, NodeOk, Unshared, Tree;
    HasRemovesIff(h, op);
    WireHasIff(w, Tree(h, op), FieldRemoval);
    WireHasIff(w, Tree(h, op), ElementRemoval);
    TreeParts(h, op);
  }

  /** With context, or without anything to remove, Build succeeds; only removals make the context mandatory. */
  lemma ContextRequiredIff(h: Heap, op: Ref, context: Option<Bytes>)
    requires HeapOk(h) && op < |h|
    ensures BuildCommand(h, true, Some(op), context).ContextRequired? <==>
            context.None? && (OpHas(Tree(h, op), FieldRemoval) || OwnHas(h[op], ElementRemoval))
  {
    hide HasFieldRemovals, NodeOk, Unshared, Tree, OpHas;
    HasRemovesIff(h, op);
  }

  /** Every outcome of Build; a command carries the operation and the context it was given. */
  lemma BuildOutcome(h: Heap, locatable: bool, op: Option<Ref>, context: Option<Bytes>)
    requires HeapOk(h) && (op.Some? ==> op.value < |h|)
    ensures var r := BuildCommand(h, locatable, op, context);
            && (r == NotLocatable <==> !locatable)
            && (r == NoOperation <==> locatable && op == None)
            && (r == ContextRequired <==>
                  && locatable && op.Some? && context == None
                  && (OpHas(Tree(h, op.value), FieldRemoval) || h[op.value].removeFromSets != map[]))
            && (r.Built? ==> op == Some(r.op) && context == r.context)
  {
    if op.Some? {
      ContextRequiredIff(h, op.value, context);
    }
    hide NodeOk, Unshared, Tree, OpHas, HasRemoves;
  }

  /** The calls `op.Map("m").RemoveFromSet("s", value)` on a new operation. */
  function NestedElementCalls(value: Bytes): seq<Event> {
    [NewOp, DoCall(Call(0, "m", NestedMap)), DoCall(Call(1, "s", RemoveFromSet(value)))]
  }

  function NestedElementHeap(value: Bytes): Heap {
    [EMPTY_NODE.(maps := map["m" := 1]), EMPTY_NODE.(removeFromSets := map["s" := [value]])]
  }

  lemma NestedElementBuilds(value: Bytes)
    ensures Build(NestedElementCalls(value)) == NestedElementHeap(value)
  {
    var events := NestedElementCalls(value);
    var e1, e2, e3 := events[0], events[1], events[2];
    assert events[..2] == [e1, e2] && [e1, e2][..1] == [e1] && [e1][..0] == [];
    var none: set<string> := {};
    assert none - {"m"} == none && none - {"s"} == none;
    assert Get<seq<Bytes>>(map[], "s", []) + [value] == [value];
    assert Edited(EMPTY_NODE, "m", NestedMap, 1) == EMPTY_NODE.(maps := map["m" := 1]);
    assert Edited(EMPTY_NODE, "s", RemoveFromSet(value), 2) == EMPTY_NODE.(removeFromSets := map["s" := [value]]);
    hide Edited;
    assert Build([]) == [];
    assert Build([e1]) == Step([], e1) == [EMPTY_NODE];
    var h2 := Build([e1, e2]);
    assert h2 == Step([EMPTY_NODE], e2) == [EMPTY_NODE.(maps := map["m" := 1]), EMPTY_NODE];
    assert Build(events) == Step(h2, e3) == NestedElementHeap(value);
  }

  /** The gap is real: removing an element of a set inside a nested map needs no context. */
  lemma NestedElementRemovalNeedsNoContext(value: Bytes)
    ensures var h := Build(NestedElementCalls(value));
            && HeapOk(h) && 0 < |h|
            && BuildCommand(h, true, Some(0), None).Built?
            && OpHas(Tree(h, 0), ElementRemoval)
  {
    var h := Build(NestedElementCalls(value));
    EveryHistoryOk(NestedElementCalls(value));
    NestedElementBuilds(value);
    hide Build, NodeOk, Unshared;
    assert h[0] == EMPTY_NODE.(maps := map["m" := 1]) && h[1] == EMPTY_NODE.(removeFromSets := map["s" := [value]]);
    assert h[1].removeFromSets != map[] by { assert "s" in h[1].removeFromSets; }
    assert !HasRemoves(h, 1, false);
    TreeParts(h, 0);
    TreeParts(h, 1);
    assert OpHas(Tree(h, 1), ElementRemoval);
    assert "m" in Tree(h, 0).nested;
  }
}
