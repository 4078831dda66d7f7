/**
 Compiling a MapOperation to the wire message MapOp (populate in crdt_commands.go), and what the
 compiled message says.  Go ranges over a map in an unspecified order: every loop over a map here
 picks its next key arbitrarily, so a contract of `Populate` holds for every order.
 */
module MapCompile {
  import opened Common
  import opened MapOps
  import opened MapTree

  datatype MapField = MapField(name: string, typ: FieldType)

  datatype SetOp = SetOp(adds: seq<Bytes>, removes: seq<Bytes>)

  datatype MapUpdate = MapUpdate(
    field: MapField,
    counterOp: Option<int>, setOp: Option<SetOp>, registerOp: Option<Bytes>, flagOp: Option<bool>,
    mapOp: Option<WireOp>)

  /** The message MapOp. */
  datatype WireOp = WireOp(removes: seq<MapField>, updates: seq<MapUpdate>)

  const EMPTY_WIRE := WireOp([], [])

  function CounterUpdate(name: string, i: int): MapUpdate {
    MapUpdate(MapField(name, COUNTER), Some(i), None, None, None, None)
  }

  function SetUpdate(name: string, op: SetOp): MapUpdate {
    MapUpdate(MapField(name, SET), None, Some(op), None, None, None)
  }

  function RegisterUpdate(name: string, v: Bytes): MapUpdate {
    MapUpdate(MapField(name, REGISTER), None, None, Some(v), None, None)
  }

  function FlagUpdate(name: string, b: bool): MapUpdate {
    MapUpdate(MapField(name, FLAG), None, None, None, Some(b), None)
  }

  function NestedUpdate(name: string, w: WireOp): MapUpdate {
    MapUpdate(MapField(name, MAP), None, None, None, None, Some(w))
  }

  // ------------------------------------------------------------------------------------------
  // A strict reader of the wire message
  // ------------------------------------------------------------------------------------------

  function RemovedNames(n: OpNode, t: FieldType): set<string> {
    match t
    case COUNTER => n.removeCounters
    case SET => n.removeSets
    case REGISTER => n.removeRegisters
    case FLAG => n.removeFlags
    case MAP => n.removeMaps
  }

  function WithRemoved(n: OpNode, t: FieldType, names: set<string>): OpNode {
    match t
    case COUNTER => n.(removeCounters := names)
    case SET => n.(removeSets := names)
    case REGISTER => n.(removeRegisters := names)
    case FLAG => n.(removeFlags := names)
    case MAP => n.(removeMaps := names)
  }

  /** Reads the removes; a field removed twice is malformed. */
  function ReadRemoves(fields: seq<MapField>): Option<OpNode> {
    if fields == [] then Some(EMPTY_NODE)
    else match ReadRemoves(fields[..|fields| - 1])
      case None => None
      case Some(n) =>
        var f := fields[|fields| - 1];
        if f.name in RemovedNames(n, f.typ) then None
        else Some(WithRemoved(n, f.typ, RemovedNames(n, f.typ) + {f.name}))
  }

  /** Reads one update into an operation; an update of the wrong shape, or repeating an edit, is malformed. */
  function ReadUpdate(o: Op, u: MapUpdate): Option<Op>
    decreases u, 0
  {
    var name, n := u.field.name, o.own;
    match u.field.typ
    case COUNTER =>
      if u.counterOp.Some? && u == CounterUpdate(name, u.counterOp.value) && name !in n.incrementCounters
      then Some(o.(own := n.(incrementCounters := n.incrementCounters[name := u.counterOp.value]))) else None
    case SET =>
      if u.setOp.Some? && u == SetUpdate(name, u.setOp.value) then
        var s := u.setOp.value;
        if s.adds != [] && s.removes == [] && name !in n.addToSets
        then Some(o.(own := n.(addToSets := n.addToSets[name := s.adds])))
        else if s.adds == [] && s.removes != [] && name !in n.removeFromSets
        then Some(o.(own := n.(removeFromSets := n.removeFromSets[name := s.removes])))
        else None
      else None
    case REGISTER =>
      if u.registerOp.Some? && u == RegisterUpdate(name, u.registerOp.value) && name !in n.registersToSet
      then Some(o.(own := n.(registersToSet := n.registersToSet[name := u.registerOp.value]))) else None
    case FLAG =>
      if u.flagOp.Some? && u == FlagUpdate(name, u.flagOp.value) && name !in n.flagsToSet
      then Some(o.(own := n.(flagsToSet := n.flagsToSet[name := u.flagOp.value]))) else None
    case MAP =>
      if u.mapOp.Some? && u == NestedUpdate(name, u.mapOp.value) && name !in o.nested then
        match Read(u.mapOp.value)
        case None => None
        case Some(inner) => Some(o.(nested := o.nested[name := inner]))
      else None
  }

  function ReadUpdates(o: Op, us: seq<MapUpdate>): Option<Op>
    decreases us, 1
  {
    if us == [] then Some(o)
    else match ReadUpdates(o, us[..|us| - 1])
      case None => None
      case Some(o1) => ReadUpdate(o1, us[|us| - 1])
  }

  /** The operation that a wire message stands for, if it says everything exactly once. */
  function Read(w: WireOp): Option<Op>
    decreases w, 2
  {
    match ReadRemoves(w.removes)
    case None => None
    case Some(n) => ReadUpdates(Op(n, map[]), w.updates)
  }

  lemma ReadAppend(w: WireOp, u: MapUpdate)
    ensures Read(w.(updates := w.updates + [u])) == if Read(w).None? then None else ReadUpdate(Read(w).value, u)
  {
    var us := w.updates + [u];
    assert us[..|us| - 1] == w.updates;
  }

  lemma ReadAppendNested(w: WireOp, name: string, inner: WireOp)
    requires Read(w).Some? && name !in Read(w).value.nested && Read(inner).Some?
    ensures var o := Read(w).value;
            Read(w.(updates := w.updates + [NestedUpdate(name, inner)])) ==
            Some(o.(nested := o.nested[name := Read(inner).value]))
  {
    ReadAppend(w, NestedUpdate(name, inner));
  }

  lemma ReadAppendRemove(fields: seq<MapField>, f: MapField)
    requires ReadRemoves(fields).Some? && f.name !in RemovedNames(ReadRemoves(fields).value, f.typ)
    ensures var n := ReadRemoves(fields).value;
            ReadRemoves(fields + [f]) == Some(WithRemoved(n, f.typ, RemovedNames(n, f.typ) + {f.name}))
  {
    assert (fields + [f])[..|fields|] == fields;
  }

  // ------------------------------------------------------------------------------------------
  // populate
  // ------------------------------------------------------------------------------------------

  predicate HasFieldRemovals(n: OpNode) {
    n.removeCounters != {} || n.removeSets != {} || n.removeRegisters != {} || n.removeFlags != {} || n.removeMaps != {}
  }

  /** hasRemoves: nested operations are always asked with `false`. */
  predicate HasRemoves(h: Heap, r: Ref, includeRemoveFromSets: bool)
    requires Acyclic(h) && r < |h|
    decreases |h| - r
  {
    || (exists k :: k in h[r].maps && HasRemoves(h, h[r].maps[k], false))
    || HasFieldRemovals(h[r])
    || (includeRemoveFromSets && h[r].removeFromSets != map[])
  }

  /** The loop over one of the five remove maps. */
  method EmitRemoves(names: set<string>, t: FieldType, w0: WireOp, ghost n0: OpNode) returns (w: WireOp)
    requires w0.updates == [] && ReadRemoves(w0.removes) == Some(n0) && RemovedNames(n0, t) == {}
    ensures w.updates == [] && ReadRemoves(w.removes) == Some(WithRemoved(n0, t, names))
  {
    hide ReadRemoves;
    w := w0;
    var left := names;
    assert names - left == {} && WithRemoved(n0, t, {}) == n0;
    while left != {}
      invariant left <= names && w.updates == []
      invariant ReadRemoves(w.removes) == Some(WithRemoved(n0, t, names - left))
      decreases |left|
    {
      var name :| name in left;
      ReadAppendRemove(w.removes, MapField(name, t));
      assert names - left + {name} == names - (left - {name});
      left := left - {name};
      w := w.(removes := w.removes + [MapField(name, t)]);
    }
    assert names - {} == names;
  }

  method EmitCounters(m: map<string, int>, w0: WireOp, ghost o0: Op) returns (w: WireOp)
    requires Read(w0) == Some(o0) && o0.own.incrementCounters == map[]
    ensures Read(w) == Some(o0.(own := o0.own.(incrementCounters := m)))
  {
    w := w0;
    var left := m.Keys;
    assert m - m.Keys == map[];
    while left != {}
      invariant left <= m.Keys
      invariant Read(w) == Some(o0.(own := o0.own.(incrementCounters := m - left)))
      decreases |left|
    {
      var name :| name in left;
      ReadAppend(w, CounterUpdate(name, m[name]));
      assert (m - left)[name := m[name]] == m - (left - {name});
      left := left - {name};
      w := w.(updates := w.updates + [CounterUpdate(name, m[name])]);
    }
    assert m - {} == m;
  }

  method EmitAdds(m: map<string, seq<Bytes>>, w0: WireOp, ghost o0: Op) returns (w: WireOp)
    requires Read(w0) == Some(o0) && o0.own.addToSets == map[]
    requires forall k :: k in m ==> m[k] != []
    ensures Read(w) == Some(o0.(own := o0.own.(addToSets := m)))
  {
    w := w0;
    var left := m.Keys;
    assert m - m.Keys == map[];
    while left != {}
      invariant left <= m.Keys
      invariant Read(w) == Some(o0.(own := o0.own.(addToSets := m - left)))
      decreases |left|
    {
      var name :| name in left;
      ReadAppend(w, SetUpdate(name, SetOp(m[name], [])));
      assert (m - left)[name := m[name]] == m - (left - {name});
      left := left - {name};
      w := w.(updates := w.updates + [SetUpdate(name, SetOp(m[name], []))]);
    }
    assert m - {} == m;
  }

  method EmitElementRemoves(m: map<string, seq<Bytes>>, w0: WireOp, ghost o0: Op) returns (w: WireOp)
    requires Read(w0) == Some(o0) && o0.own.removeFromSets == map[]
    requires forall k :: k in m ==> m[k] != []
    ensures Read(w) == Some(o0.(own := o0.own.(removeFromSets := m)))
  {
    w := w0;
    var left := m.Keys;
    assert m - m.Keys == map[];
    while left != {}
      invariant left <= m.Keys
      invariant Read(w) == Some(o0.(own := o0.own.(removeFromSets := m - left)))
      decreases |left|
    {
      var name :| name in left;
      ReadAppend(w, SetUpdate(name, SetOp([], m[name])));
      assert (m - left)[name := m[name]] == m - (left - {name});
      left := left - {name};
      w := w.(updates := w.updates + [SetUpdate(name, SetOp([], m[name]))]);
    }
    assert m - {} == m;
  }

  method EmitRegisters(m: map<string, Bytes>, w0: WireOp, ghost o0: Op) returns (w: WireOp)
    requires Read(w0) == Some(o0) && o0.own.registersToSet == map[]
    ensures Read(w) == Some(o0.(own := o0.own.(registersToSet := m)))
  {
    w := w0;
    var left := m.Keys;
    assert m - m.Keys == map[];
    while left != {}
      invariant left <= m.Keys
      invariant Read(w) == Some(o0.(own := o0.own.(registersToSet := m - left)))
      decreases |left|
    {
      var name :| name in left;
      ReadAppend(w, RegisterUpdate(name, m[name]));
      assert (m - left)[name := m[name]] == m - (left - {name});
      left := left - {name};
      w := w.(updates := w.updates + [RegisterUpdate(name, m[name])]);
    }
    assert m - {} == m;
  }

  method EmitFlags(m: map<string, bool>, w0: WireOp, ghost o0: Op) returns (w: WireOp)
    requires Read(w0) == Some(o0) && o0.own.flagsToSet == map[]
    ensures Read(w) == Some(o0.(own := o0.own.(flagsToSet := m)))
  {
    w := w0;
    var left := m.Keys;
    assert m - m.Keys == map[];
    while left != {}
      invariant left <= m.Keys
      invariant Read(w) == Some(o0.(own := o0.own.(flagsToSet := m - left)))
      decreases |left|
    {
      var name :| name in left;
      ReadAppend(w, FlagUpdate(name, m[name]));
      assert (m - left)[name := m[name]] == m - (left - {name});
      left := left - {name};
      w := w.(updates := w.updates + [FlagUpdate(name, m[name])]);
    }
    assert m - {} == m;
  }

  method EmitNested(h: Heap, r: Ref, w0: WireOp, ghost o0: Op) returns (w: WireOp)
    requires HeapOk(h) && r < |h|
    requires Read(w0) == Some(o0) && o0.nested == map[]
    ensures Read(w) == Some(o0.(nested := Tree(h, r).nested))
    decreases |h| - r, 0
  {
    hide Tree, NodeOk, Unshared, Read, ReadUpdate;
    TreeParts(h, r);
    w := w0;
    ghost var m := Tree(h, r).nested;
    var left := h[r].maps.Keys;
    assert m - left == map[];
    while left != {}
      invariant left <= h[r].maps.Keys == m.Keys
      invariant Read(w) == Some(o0.(nested := m - left))
      decreases |left|
    {
      var name :| name in left;
      var inner := Populate(h, h[r].maps[name]);
      ReadAppendNested(w, name, inner);
      assert (m - left)[name := m[name]] == m - (left - {name});
      left := left - {name};
      w := w.(updates := w.updates + [NestedUpdate(name, inner)]);
    }
    assert m - {} == m;
  }

  /** Every edit of the tree is emitted exactly once, at its depth, and nothing else is. */
  method Populate(h: Heap, r: Ref) returns (w: WireOp)
    requires HeapOk(h) && r < |h|
    ensures Read(w) == Some(Tree(h, r))
    decreases |h| - r, 1
  {
    hide NodeOk, ReadRemoves, Read, Tree, Unshared;
    w := EMPTY_WIRE;
    var n := h[r];
    ghost var e := EMPTY_NODE;
    ghost var removed := e.(removeCounters := n.removeCounters, removeSets := n.removeSets, removeMaps := n.removeMaps,
                            removeRegisters := n.removeRegisters, removeFlags := n.removeFlags);
    assert ReadRemoves([]) == Some(e) by { ReadNothing(); }
    if HasRemoves(h, r, false) {
      w := EmitRemoves(n.removeCounters, COUNTER, w, e);
      ghost var e1 := e.(removeCounters := n.removeCounters);
      w := EmitRemoves(n.removeSets, SET, w, e1);
      ghost var e2 := e1.(removeSets := n.removeSets);
      w := EmitRemoves(n.removeMaps, MAP, w, e2);
      ghost var e3 := e2.(removeMaps := n.removeMaps);
      w := EmitRemoves(n.removeRegisters, REGISTER, w, e3);
      ghost var e4 := e3.(removeRegisters := n.removeRegisters);
      w := EmitRemoves(n.removeFlags, FLAG, w, e4);
    }
    assert ReadRemoves(w.removes) == Some(removed);
    ghost var o := Op(removed, map[]);
    assert Read(w) == Some(o) by { ReadOnlyRemoves(w, removed); }
    assert (forall k :: k in n.addToSets ==> n.addToSets[k] != [])
           && (forall k :: k in n.removeFromSets ==> n.removeFromSets[k] != []) by {
      ListsNonEmpty(n);
    }
    w := EmitCounters(n.incrementCounters, w, o);
    o := o.(own := o.own.(incrementCounters := n.incrementCounters));
    w := EmitAdds(n.addToSets, w, o);
    o := o.(own := o.own.(addToSets := n.addToSets));
    w := EmitElementRemoves(n.removeFromSets, w, o);
    o := o.(own := o.own.(removeFromSets := n.removeFromSets));
    w := EmitRegisters(n.registersToSet, w, o);
    o := o.(own := o.own.(registersToSet := n.registersToSet));
    w := EmitFlags(n.flagsToSet, w, o);
    o := o.(own := o.own.(flagsToSet := n.flagsToSet));
    w := EmitNested(h, r, w, o);
    o := o.(nested := Tree(h, r).nested);
    TreeParts(h, r);
  }

  lemma ReadNothing()
    ensures ReadRemoves([]) == Some(EMPTY_NODE)
  {
  }

  lemma ReadOnlyRemoves(w: WireOp, n: OpNode)
    requires w.updates == [] && ReadRemoves(w.removes) == Some(n)
    ensures Read(w) == Some(Op(n, map[]))
  {
  }

  lemma ListsNonEmpty(n: OpNode)
    requires NodeOk(n)
    ensures forall k :: k in n.addToSets ==> n.addToSets[k] != []
    ensures forall k :: k in n.removeFromSets ==> n.removeFromSets[k] != []
  {
  }

  // ------------------------------------------------------------------------------------------
  // From calls to the message
  // ------------------------------------------------------------------------------------------

  /** The nested operation at the end of a path. */
  function OpAt(o: Op, path: seq<string>): Option<Op>
    decreases |path|
  {
    if path == [] then Some(o)
    else if path[0] in o.nested then OpAt(o.nested[path[0]], path[1..])
    else None
  }

  /** What an operation says about one field. */
  function EntryIn(o: Op, t: FieldType, key: string): Entry {
    if t.MAP? then
      if key in o.own.removeMaps then Removed else if key in o.nested then Nested else Untouched
    else EntryOf(o.own, t, key)
  }

  lemma {:induction false} TreeAt(h: Heap, r: Ref, path: seq<string>)
    requires Acyclic(h) && r < |h|
    ensures var x := Follow(h, r, path);
            x.Some? ==> x.value < |h|
    ensures OpAt(Tree(h, r), path) ==
            if Follow(h, r, path).Some? then Some(Tree(h, Follow(h, r, path).value)) else None
    decreases |path|
  {
    TreeParts(h, r);
    hide Tree;
    if path != [] && path[0] in h[r].maps {
      TreeAt(h, h[r].maps[path[0]], path[1..]);
    }
  }

  lemma TreeEntry(h: Heap, r: Ref, t: FieldType, key: string)
    requires Acyclic(h) && r < |h|
    ensures EntryIn(Tree(h, r), t, key) == EntryOf(h[r], t, key)
  {
    TreeParts(h, r);
    hide Tree;
  }

  /** At the end of every path the operation has just what the calls through that handle amount to. */
  ghost predicate MeansHistory(o: Op, events: seq<Event>, r: Ref, path: seq<string>)
    requires Acyclic(Build(events)) && r < |Build(events)|
  {
    match Follow(Build(events), r, path)
    case None => OpAt(o, path) == None
    case Some(x) =>
      && OpAt(o, path).Some?
      && forall t, key :: EntryIn(OpAt(o, path).value, t, key) == Meaning(CallsOn(events, x, t, key))
  }

  lemma TreeMeansHistory(events: seq<Event>, r: Ref, path: seq<string>)
    requires r < |Build(events)|
    ensures HeapOk(Build(events)) && MeansHistory(Tree(Build(events), r), events, r, path)
  {
    hide NodeOk, Unshared, Tree, EntryIn, EntryOf, Meaning, CallsOn, Build, Follow, OpAt;
    EveryHistoryOk(events);
    var h := Build(events);
    TreeAt(h, r, path);
    if Follow(h, r, path).Some? {
      var x := Follow(h, r, path).value;
      forall t, key ensures EntryIn(Tree(h, x), t, key) == Meaning(CallsOn(events, x, t, key)) {
        TreeEntry(h, x, t, key);
        FieldHistory(events, x, t, key);
      }
    }
  }

  /**
   From calls to the wire: the message compiled after any history says, for every field at every depth,
   what the calls on that field through that handle amount to, and says nothing at other places.
   */
  method CompileHistory(events: seq<Event>, r: Ref) returns (w: WireOp)
    requires r < |Build(events)|
    ensures HeapOk(Build(events)) && Read(w).Some?
    ensures forall path :: MeansHistory(Read(w).value, events, r, path)
  {
    hide Read, Tree, NodeOk, Unshared, MeansHistory, Build;
    EveryHistoryOk(events);
    w := Populate(Build(events), r);
    forall path ensures MeansHistory(Read(w).value, events, r, path) {
      TreeMeansHistory(events, r, path);
    }
  }

  /** UpdateMapCommand, as far as its request goes. */
  class UpdateMapCommand {
    const op: Ref
    var request: Option<WireOp>

    constructor (op: Ref)
      ensures this.op == op && request == None
    {
      this.op, request := op, None;
    }

    /** constructPbRequest: whatever an earlier attempt left behind, the request is the operation, once. */
    method ConstructPbRequest(h: Heap)
      requires HeapOk(h) && op < |h|
      modifies this
      ensures request.Some? && Read(request.value) == Some(Tree(h, op))
    {
      var w := Populate(h, op);
      request := Some(w);
    }
  }
}
