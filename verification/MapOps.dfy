/**
 MapOperation of crdt_commands.go: a tree of edits to a map data type, built by calls on handles.

 `Map(key)` returns a handle into the tree, and a handle stays usable after the caller has removed
 the map it points to; so handles and their objects are modelled explicitly: a `Ref` is an index
 into a `Heap` of operation objects.  Nil maps of the source are empty maps here.
 */
module MapOps {
  import opened Common

  type Ref = nat

  datatype FieldType = COUNTER | SET | REGISTER | FLAG | MAP

  /** One MapOperation object. */
  datatype OpNode = OpNode(
    incrementCounters: map<string, int>, removeCounters: set<string>,
    addToSets: map<string, seq<Bytes>>, removeFromSets: map<string, seq<Bytes>>, removeSets: set<string>,
    registersToSet: map<string, Bytes>, removeRegisters: set<string>,
    flagsToSet: map<string, bool>, removeFlags: set<string>,
    maps: map<string, Ref>, removeMaps: set<string>)

  type Heap = seq<OpNode>

  const EMPTY_NODE := OpNode(map[], {}, map[], map[], {}, map[], {}, map[], {}, map[], {})

  /** The eleven methods; NestedMap is `Map`. */
  datatype Edit =
    | IncrementCounter(increment: int)
    | RemoveCounter
    | AddToSet(value: Bytes)
    | RemoveFromSet(value: Bytes)
    | RemoveSet
    | SetRegister(value: Bytes)
    | RemoveRegister
    | SetFlag(flag: bool)
    | RemoveFlag
    | NestedMap
    | RemoveMap

  datatype Call = Call(op: Ref, key: string, edit: Edit)

  const TWO_63: int := 0x8000_0000_0000_0000
  const TWO_64: int := 0x1_0000_0000_0000_0000

  /** Addition on int64 wraps around. */
  function Wrap64(x: int): (r: int)
    ensures -TWO_63 <= r < TWO_63
  {
    (x + TWO_63) % TWO_64 - TWO_63
  }

  function Get<V>(m: map<string, V>, key: string, default: V): V {
    if key in m then m[key] else default
  }

  /** What a call does to the object it is made on; `child` is the object a NestedMap call may allocate. */
  function Edited(n: OpNode, key: string, edit: Edit, child: Ref): OpNode {
    match edit
    case IncrementCounter(i) =>
      n.(removeCounters := n.removeCounters - {key},
         incrementCounters := n.incrementCounters[key := Wrap64(Get(n.incrementCounters, key, 0) + i)])
    case RemoveCounter =>
      n.(incrementCounters := n.incrementCounters - {key}, removeCounters := n.removeCounters + {key})
    case AddToSet(v) =>
      n.(removeSets := n.removeSets - {key}, addToSets := n.addToSets[key := Get(n.addToSets, key, []) + [v]])
    case RemoveFromSet(v) =>
      n.(removeSets := n.removeSets - {key},
         removeFromSets := n.removeFromSets[key := Get(n.removeFromSets, key, []) + [v]])
    case RemoveSet =>
      n.(addToSets := n.addToSets - {key}, removeFromSets := n.removeFromSets - {key},
         removeSets := n.removeSets + {key})
    case SetRegister(v) =>
      n.(removeRegisters := n.removeRegisters - {key}, registersToSet := n.registersToSet[key := v])
    case RemoveRegister =>
      n.(registersToSet := n.registersToSet - {key}, removeRegisters := n.removeRegisters + {key})
    case SetFlag(b) =>
      n.(removeFlags := n.removeFlags - {key}, flagsToSet := n.flagsToSet[key := b])
    case RemoveFlag =>
      n.(flagsToSet := n.flagsToSet - {key}, removeFlags := n.removeFlags + {key})
    case NestedMap =>
      n.(removeMaps := n.removeMaps - {key}, maps := if key in n.maps then n.maps else n.maps[key := child])
    case RemoveMap =>
      n.(maps := n.maps - {key}, removeMaps := n.removeMaps + {key})
  }

  predicate Allocates(h: Heap, c: Call)
    requires c.op < |h|
  {
    c.edit.NestedMap? && c.key !in h[c.op].maps
  }

  function Apply(h: Heap, c: Call): (r: Heap)
    requires c.op < |h|
    ensures |r| == |h| + if Allocates(h, c) then 1 else 0
  {
    var h1 := h[c.op := Edited(h[c.op], c.key, c.edit, |h|)];
    if Allocates(h, c) then h1 + [EMPTY_NODE] else h1
  }

  /** The handle a call returns: the receiver, except for NestedMap. */
  function Returned(h: Heap, c: Call): (r: Ref)
    requires c.op < |h|
  {
    if c.edit.NestedMap? then Get(Apply(h, c)[c.op].maps, c.key, 0) else c.op
  }

  // ------------------------------------------------------------------------------------------
  // What every call keeps
  // ------------------------------------------------------------------------------------------

  /** Within one type no field is both removed and updated, and recorded set edits are never empty. */
  predicate NodeOk(n: OpNode) {
    && n.removeCounters !! n.incrementCounters.Keys
    && n.removeSets !! n.addToSets.Keys && n.removeSets !! n.removeFromSets.Keys
    && n.removeRegisters !! n.registersToSet.Keys
    && n.removeFlags !! n.flagsToSet.Keys
    && n.removeMaps !! n.maps.Keys
    && (forall k :: k in n.addToSets ==> n.addToSets[k] != [])
    && (forall k :: k in n.removeFromSets ==> n.removeFromSets[k] != [])
    && (forall k :: k in n.incrementCounters ==> -TWO_63 <= n.incrementCounters[k] < TWO_63)
  }

  /** Children are younger than their parents, so there are no cycles. */
  predicate Acyclic(h: Heap) {
    forall r, k :: 0 <= r < |h| && k in h[r].maps ==> r < h[r].maps[k] < |h|
  }

  /** No object is the child of two parents, or of one parent under two names. */
  predicate Unshared(h: Heap) {
    forall r, k, r', k' ::
      0 <= r < |h| && 0 <= r' < |h| && k in h[r].maps && k' in h[r'].maps && h[r].maps[k] == h[r'].maps[k'] ==>
      r == r' && k == k'
  }

  predicate HeapOk(h: Heap) {
    Acyclic(h) && Unshared(h) && forall r :: 0 <= r < |h| ==> NodeOk(h[r])
  }

  lemma EditedOk(n: OpNode, key: string, edit: Edit, child: Ref)
    requires NodeOk(n)
    ensures NodeOk(Edited(n, key, edit, child))
  {
  }

  /** An edit changes the children only by adding the new object or dropping one. */
  lemma EditedMaps(n: OpNode, key: string, edit: Edit, child: Ref)
    ensures var maps := Edited(n, key, edit, child).maps;
            maps == if edit.NestedMap? && key !in n.maps then n.maps[key := child]
                    else if edit.RemoveMap? then n.maps - {key} else n.maps
  {
  }

  lemma ApplyKeeps(h: Heap, c: Call)
    requires HeapOk(h) && c.op < |h|
    ensures HeapOk(Apply(h, c))
  {
    hide NodeOk, Edited;
    EditedOk(h[c.op], c.key, c.edit, |h|);
    EditedMaps(h[c.op], c.key, c.edit, |h|);
    assert NodeOk(EMPTY_NODE) by { EmptyOk(); }
    var h1 := Apply(h, c);
    forall r, k | 0 <= r < |h1| && k in h1[r].maps
      ensures r < h1[r].maps[k] < |h1|
      ensures r < |h|
      ensures if k in h[r].maps then h1[r].maps[k] == h[r].maps[k] else h1[r].maps[k] == |h| && r == c.op && k == c.key
    {
    }
  }

  lemma EmptyOk()
    ensures NodeOk(EMPTY_NODE)
  {
  }

  // ------------------------------------------------------------------------------------------
  // Histories
  // ------------------------------------------------------------------------------------------

  /** Either a new MapOperation or a call on an existing one. */
  datatype Event = NewOp | DoCall(call: Call)

  function Step(h: Heap, e: Event): Heap {
    match e
    case NewOp => h + [EMPTY_NODE]
    case DoCall(c) => if c.op < |h| then Apply(h, c) else h
  }

  function Build(events: seq<Event>): Heap {
    if events == [] then [] else Step(Build(events[..|events| - 1]), events[|events| - 1])
  }

  /** For every call sequence the objects stay a forest, with consistent edits in every object. */
  lemma {:induction false} EveryHistoryOk(events: seq<Event>)
    ensures HeapOk(Build(events))
  {
    if events != [] {
      var h, e := Build(events[..|events| - 1]), events[|events| - 1];
      EveryHistoryOk(events[..|events| - 1]);
      if e.NewOp? {
        EmptyOk();
      } else if e.call.op < |h| {
        ApplyKeeps(h, e.call);
      }
    }
  }

  function TypeOf(edit: Edit): FieldType {
    match edit
    case IncrementCounter(_) => COUNTER
    case RemoveCounter => COUNTER
    case AddToSet(_) => SET
    case RemoveFromSet(_) => SET
    case RemoveSet => SET
    case SetRegister(_) => REGISTER
    case RemoveRegister => REGISTER
    case SetFlag(_) => FLAG
    case RemoveFlag => FLAG
    case NestedMap => MAP
    case RemoveMap => MAP
  }

  predicate IsRemoval(edit: Edit) {
    edit.RemoveCounter? || edit.RemoveSet? || edit.RemoveRegister? || edit.RemoveFlag? || edit.RemoveMap?
  }

  /** The calls made on one field of one object, in order. */
  function CallsOn(events: seq<Event>, r: Ref, t: FieldType, key: string): seq<Edit> {
    if events == [] then []
    else
      var e := events[|events| - 1];
      var before := CallsOn(events[..|events| - 1], r, t, key);
      if e.DoCall? && e.call.op == r && r < |Build(events[..|events| - 1])| && e.call.key == key
         && TypeOf(e.call.edit) == t
      then before + [e.call.edit] else before
  }

  /** What an object records for one field. */
  datatype Entry =
    | Untouched
    | Removed
    | Increment(n: int)
    | SetEdits(adds: seq<Bytes>, removes: seq<Bytes>)
    | Register(v: Bytes)
    | Flag(b: bool)
    | Nested

  function EntryOf(n: OpNode, t: FieldType, key: string): Entry {
    match t
    case COUNTER =>
      if key in n.removeCounters then Removed
      else if key in n.incrementCounters then Increment(n.incrementCounters[key]) else Untouched
    case SET =>
      if key in n.removeSets then Removed
      else if key in n.addToSets || key in n.removeFromSets
      then SetEdits(Get(n.addToSets, key, []), Get(n.removeFromSets, key, []))
      else Untouched
    case REGISTER =>
      if key in n.removeRegisters then Removed
      else if key in n.registersToSet then Register(n.registersToSet[key]) else Untouched
    case FLAG =>
      if key in n.removeFlags then Removed else if key in n.flagsToSet then Flag(n.flagsToSet[key]) else Untouched
    case MAP =>
      if key in n.removeMaps then Removed else if key in n.maps then Nested else Untouched
  }

  /** The calls after the last removal. */
  function SinceRemoval(es: seq<Edit>): seq<Edit> {
    if es == [] || IsRemoval(es[|es| - 1]) then [] else SinceRemoval(es[..|es| - 1]) + [es[|es| - 1]]
  }

  function Sum(es: seq<Edit>): int {
    if es == [] then 0
    else Sum(es[..|es| - 1]) + if es[|es| - 1].IncrementCounter? then es[|es| - 1].increment else 0
  }

  function Added(es: seq<Edit>): seq<Bytes> {
    if es == [] then [] else Added(es[..|es| - 1]) + if es[|es| - 1].AddToSet? then [es[|es| - 1].value] else []
  }

  function Dropped(es: seq<Edit>): seq<Bytes> {
    if es == [] then [] else Dropped(es[..|es| - 1]) + if es[|es| - 1].RemoveFromSet? then [es[|es| - 1].value] else []
  }

  /**
   What a history of calls on one field amounts to: nothing, a removal if that came last, and
   otherwise the calls since the last removal taken together.
   */
  function Meaning(es: seq<Edit>): Entry {
    if es == [] then Untouched
    else
      var last, since := es[|es| - 1], SinceRemoval(es);
      if IsRemoval(last) then Removed
      else match last
        case IncrementCounter(_) => Increment(Wrap64(Sum(since)))
        case SetRegister(v) => Register(v)
        case SetFlag(b) => Flag(b)
        case NestedMap => Nested
        case _ => SetEdits(Added(since), Dropped(since))
  }

  /** Wrapping takes away a multiple of 2^64, and nothing from a number that fits an int64. */
  lemma Wrap64Exact(x: int) returns (q: int)
    ensures Wrap64(x) == x - q * 0x1_0000_0000_0000_0000
    ensures -0x8000_0000_0000_0000 <= Wrap64(x) <= 0x7FFF_FFFF_FFFF_FFFF
    ensures -0x8000_0000_0000_0000 <= x <= 0x7FFF_FFFF_FFFF_FFFF ==> Wrap64(x) == x
  {
    q := (x + TWO_63) / TWO_64;
    assert x + TWO_63 == q * TWO_64 + (x + TWO_63) % TWO_64;
  }

  lemma Wrap64Add(a: int, b: int)
    ensures Wrap64(Wrap64(a) + b) == Wrap64(a + b)
  {
    var q := (a + TWO_63) / TWO_64;
    assert a + TWO_63 == q * TWO_64 + (a + TWO_63) % TWO_64;
    assert Wrap64(a) + b + TWO_63 == a + b + TWO_63 - q * TWO_64;
    ModShift(a + b + TWO_63, q);
  }

  lemma ModShift(x: int, q: int)
    ensures (x - q * TWO_64) % TWO_64 == x % TWO_64
  {
    var d := x / TWO_64;
    assert x == d * TWO_64 + x % TWO_64;
    assert x - q * TWO_64 == (d - q) * TWO_64 + x % TWO_64;
  }

  lemma SinceRemovalAppend(es: seq<Edit>, edit: Edit)
    ensures SinceRemoval(es + [edit]) == if IsRemoval(edit) then [] else SinceRemoval(es) + [edit]
  {
    assert (es + [edit])[..|es|] == es;
  }

  lemma FoldsAppend(es: seq<Edit>, edit: Edit)
    ensures Sum(es + [edit]) == Sum(es) + if edit.IncrementCounter? then edit.increment else 0
    ensures Added(es + [edit]) == Added(es) + if edit.AddToSet? then [edit.value] else []
    ensures Dropped(es + [edit]) == Dropped(es) + if edit.RemoveFromSet? then [edit.value] else []
  {
    assert (es + [edit])[..|es|] == es;
  }

  predicate AllOfType(es: seq<Edit>, t: FieldType) {
    forall i :: 0 <= i < |es| ==> TypeOf(es[i]) == t
  }

  lemma CounterStep(n: OpNode, key: string, i: int, child: Ref, es: seq<Edit>)
    requires NodeOk(n) && AllOfType(es, COUNTER) && EntryOf(n, COUNTER, key) == Meaning(es)
    ensures EntryOf(Edited(n, key, IncrementCounter(i), child), COUNTER, key) == Meaning(es + [IncrementCounter(i)])
  {
    var since := SinceRemoval(es);
    SinceRemovalAppend(es, IncrementCounter(i));
    FoldsAppend(since, IncrementCounter(i));
    assert es != [] ==> TypeOf(es[|es| - 1]) == COUNTER;
    if es != [] && !IsRemoval(es[|es| - 1]) {
      assert n.incrementCounters[key] == Wrap64(Sum(since));
      Wrap64Add(Sum(since), i);
    } else {
      assert since == [] && key !in n.incrementCounters;
    }
  }

  lemma SetEntryAfter(n: OpNode, key: string, edit: Edit, child: Ref)
    requires edit.AddToSet? || edit.RemoveFromSet?
    ensures EntryOf(Edited(n, key, edit, child), SET, key) ==
            SetEdits(Get(n.addToSets, key, []) + (if edit.AddToSet? then [edit.value] else []),
                     Get(n.removeFromSets, key, []) + (if edit.RemoveFromSet? then [edit.value] else []))
  {
  }

  lemma SetMeaningAfter(es: seq<Edit>, edit: Edit)
    requires edit.AddToSet? || edit.RemoveFromSet?
    ensures Meaning(es + [edit]) ==
            SetEdits(Added(SinceRemoval(es)) + (if edit.AddToSet? then [edit.value] else []),
                     Dropped(SinceRemoval(es)) + (if edit.RemoveFromSet? then [edit.value] else []))
  {
    SinceRemovalAppend(es, edit);
    FoldsAppend(SinceRemoval(es), edit);
    hide SinceRemoval, Added, Dropped, Sum;
  }

  /** The element lists an object holds are those of the calls since the last removal. */
  lemma SetListsAre(n: OpNode, key: string, es: seq<Edit>)
    requires NodeOk(n) && AllOfType(es, SET) && EntryOf(n, SET, key) == Meaning(es)
    ensures Get(n.addToSets, key, []) == Added(SinceRemoval(es))
    ensures Get(n.removeFromSets, key, []) == Dropped(SinceRemoval(es))
  {
    if es == [] || IsRemoval(es[|es| - 1]) {
      assert SinceRemoval(es) == [];
    } else {
      hide SinceRemoval, Added, Dropped, Sum, NodeOk;
      assert TypeOf(es[|es| - 1]) == SET;
    }
  }

  /** A call carries the field's entry from the meaning of its history to that of the longer one. */
  lemma EntryStep(n: OpNode, key: string, edit: Edit, child: Ref, es: seq<Edit>)
    requires NodeOk(n) && AllOfType(es, TypeOf(edit)) && EntryOf(n, TypeOf(edit), key) == Meaning(es)
    ensures EntryOf(Edited(n, key, edit, child), TypeOf(edit), key) == Meaning(es + [edit])
  {
    hide NodeOk, SinceRemoval, Sum, Added, Dropped, AllOfType;
    if edit.IncrementCounter? {
      CounterStep(n, key, edit.increment, child, es);
    } else if edit.AddToSet? || edit.RemoveFromSet? {
      SetListsAre(n, key, es);
      SetEntryAfter(n, key, edit, child);
      SetMeaningAfter(es, edit);
    }
  }

  /** A call leaves the entries of all other fields alone. */
  lemma EntryOther(n: OpNode, key: string, edit: Edit, child: Ref, t: FieldType, key': string)
    requires t != TypeOf(edit) || key' != key
    ensures EntryOf(Edited(n, key, edit, child), t, key') == EntryOf(n, t, key')
  {
    match TypeOf(edit)
    case COUNTER =>
    case SET =>
    case REGISTER =>
    case FLAG =>
    case MAP =>
  }

  lemma {:induction false} NoCallsBeforeBirth(events: seq<Event>, r: Ref, t: FieldType, key: string)
    requires |Build(events)| <= r
    ensures CallsOn(events, r, t, key) == []
  {
    if events != [] {
      NoCallsBeforeBirth(events[..|events| - 1], r, t, key);
    }
  }

  lemma EmptyMeaning(t: FieldType, key: string)
    ensures EntryOf(EMPTY_NODE, t, key) == Meaning([])
  {
  }

  /** What a step does to the object at `r`, if it was there before. */
  lemma StepAt(h: Heap, e: Event, r: Ref)
    requires r < |h|
    ensures r < |Step(h, e)|
    ensures Step(h, e)[r] ==
            if e.DoCall? && e.call.op == r then Edited(h[r], e.call.key, e.call.edit, |h|) else h[r]
  {
  }

  /** An object that a step allocates is empty. */
  lemma StepFresh(h: Heap, e: Event, r: Ref)
    requires |h| <= r < |Step(h, e)|
    ensures Step(h, e)[r] == EMPTY_NODE
  {
  }

  /** One call more: the entry of a field goes with the history of that field. */
  lemma FieldStep(n: OpNode, c: Call, child: Ref, t: FieldType, key: string, es: seq<Edit>)
    requires NodeOk(n) && AllOfType(es, t) && EntryOf(n, t, key) == Meaning(es)
    ensures var mine := c.key == key && TypeOf(c.edit) == t;
            var es1 := if mine then es + [c.edit] else es;
            AllOfType(es1, t) && EntryOf(Edited(n, c.key, c.edit, child), t, key) == Meaning(es1)
  {
    hide NodeOk, Edited, EntryOf, Meaning;
    if c.key == key && TypeOf(c.edit) == t {
      EntryStep(n, key, c.edit, child, es);
    } else {
      EntryOther(n, c.key, c.edit, child, t, key);
    }
  }

  /**
   After any sequence of calls, on any objects and in any interleaving, what an object records for
   a field is the meaning of the calls made on that field of that object, and of nothing else.
   */
  lemma {:induction false} FieldHistory(events: seq<Event>, r: Ref, t: FieldType, key: string)
    requires r < |Build(events)|
    ensures AllOfType(CallsOn(events, r, t, key), t)
    ensures EntryOf(Build(events)[r], t, key) == Meaning(CallsOn(events, r, t, key))
  {
    hide Edited, EntryOf, Meaning, NodeOk, Acyclic, Unshared, Step;
    var before, e := events[..|events| - 1], events[|events| - 1];
    var h := Build(before);
    EveryHistoryOk(before);
    if r < |h| {
      FieldHistory(before, r, t, key);
      StepAt(h, e, r);
      if e.DoCall? && e.call.op == r {
        FieldStep(h[r], e.call, |h|, t, key, CallsOn(before, r, t, key));
      }
    } else {
      NoCallsBeforeBirth(before, r, t, key);
      StepFresh(h, e, r);
      EmptyMeaning(t, key);
    }
  }

  /**
   A counter records the sum of its increments since it was last removed: exactly, if that fits an
   int64, and otherwise off by a multiple of 2^64.
   */
  lemma CounterHistory(events: seq<Event>, r: Ref, key: string) returns (q: int)
    requires r < |Build(events)|
    ensures var es := CallsOn(events, r, COUNTER, key);
            var sum, counters := Sum(SinceRemoval(es)), Build(events)[r].incrementCounters;
            && (key in counters <==> es != [] && es[|es| - 1].IncrementCounter?)
            && (key in counters ==> counters[key] == sum - q * 0x1_0000_0000_0000_0000)
            && (key in counters && -0x8000_0000_0000_0000 <= sum <= 0x7FFF_FFFF_FFFF_FFFF ==> counters[key] == sum)
  {
    hide Build, CallsOn, Sum, SinceRemoval, Wrap64;
    FieldHistory(events, r, COUNTER, key);
    EveryHistoryOk(events);
    var es := CallsOn(events, r, COUNTER, key);
    q := Wrap64Exact(Sum(SinceRemoval(es)));
    assert es != [] ==> TypeOf(es[|es| - 1]) == COUNTER;
    assert NodeOk(Build(events)[r]);
  }

  /**
   Histories that agree on a field's own calls agree on its entry, however those calls are interleaved
   with others.
   */
  lemma OtherCallsDoNotMatter(events: seq<Event>, events': seq<Event>, r: Ref, t: FieldType, key: string)
    requires r < |Build(events)| && r < |Build(events')|
    requires CallsOn(events, r, t, key) == CallsOn(events', r, t, key)
    ensures EntryOf(Build(events)[r], t, key) == EntryOf(Build(events')[r], t, key)
  {
    FieldHistory(events, r, t, key);
    FieldHistory(events', r, t, key);
  }

  // ------------------------------------------------------------------------------------------
  // The objects in place
  // ------------------------------------------------------------------------------------------

  lemma ApplyPlain(h: Heap, c: Call)
    requires c.op < |h| && !c.edit.NestedMap?
    ensures Apply(h, c) == h[c.op := Edited(h[c.op], c.key, c.edit, |h|)] && Returned(h, c) == c.op
  {
  }

  /** All MapOperation objects; each method updates the receiver `op` in place and returns a handle. */
  class Operations {
    var heap: Heap

    ghost predicate Valid()
      reads this
    {
      HeapOk(heap)
    }

    constructor ()
      ensures Valid() && heap == []
    {
      heap := [];
    }

    method New() returns (op: Ref)
      requires Valid()
      modifies this
      ensures Valid() && heap == old(heap) + [EMPTY_NODE] && op == |old(heap)|
    {
      EmptyOk();
      op := |heap|;
      heap := heap + [EMPTY_NODE];
    }

    /** The two steps shared by the ten methods that return their receiver: forget the opposite, record the edit. */
    method Record(op: Ref, key: string, edit: Edit) returns (self: Ref)
      requires Valid() && op < |heap| && !edit.NestedMap?
      modifies this
      ensures Valid() && heap == Apply(old(heap), Call(op, key, edit))
              && self == Returned(old(heap), Call(op, key, edit))
    {
      hide HeapOk, Apply, Returned;
      ApplyKeeps(heap, Call(op, key, edit));
      ApplyPlain(heap, Call(op, key, edit));
      var n := heap[op];
      match edit {
        case IncrementCounter(i) =>
          n := n.(removeCounters := n.removeCounters - {key});
          n := n.(incrementCounters := n.incrementCounters[key := Wrap64(Get(n.incrementCounters, key, 0) + i)]);
        case RemoveCounter =>
          n := n.(incrementCounters := n.incrementCounters - {key});
          n := n.(removeCounters := n.removeCounters + {key});
        case AddToSet(v) =>
          n := n.(removeSets := n.removeSets - {key});
          n := n.(addToSets := n.addToSets[key := Get(n.addToSets, key, []) + [v]]);
        case RemoveFromSet(v) =>
          n := n.(removeSets := n.removeSets - {key});
          n := n.(removeFromSets := n.removeFromSets[key := Get(n.removeFromSets, key, []) + [v]]);
        case RemoveSet =>
          n := n.(addToSets := n.addToSets - {key});
          n := n.(removeFromSets := n.removeFromSets - {key});
          n := n.(removeSets := n.removeSets + {key});
        case SetRegister(v) =>
          n := n.(removeRegisters := n.removeRegisters - {key});
          n := n.(registersToSet := n.registersToSet[key := v]);
        case RemoveRegister =>
          n := n.(registersToSet := n.registersToSet - {key});
          n := n.(removeRegisters := n.removeRegisters + {key});
        case SetFlag(b) =>
          n := n.(removeFlags := n.removeFlags - {key});
          n := n.(flagsToSet := n.flagsToSet[key := b]);
        case RemoveFlag =>
          n := n.(flagsToSet := n.flagsToSet - {key});
          n := n.(removeFlags := n.removeFlags + {key});
        case RemoveMap =>
          n := n.(maps := n.maps - {key});
          n := n.(removeMaps := n.removeMaps + {key});
        case NestedMap =>
          assert false;
      }
      heap := heap[op := n];
      self := op;
    }

    /** Map: the existing nested operation, or a new one. */
    method Nested(op: Ref, key: string) returns (inner: Ref)
      requires Valid() && op < |heap|
      modifies this
      ensures Valid() && heap == Apply(old(heap), Call(op, key, NestedMap))
              && inner == Returned(old(heap), Call(op, key, NestedMap))
      ensures inner < |heap| && inner != op && key in heap[op].maps && heap[op].maps[key] == inner
    {
      ApplyKeeps(heap, Call(op, key, NestedMap));
      var n := heap[op];
      n := n.(removeMaps := n.removeMaps - {key});
      if key in n.maps {
        heap := heap[op := n];
        return n.maps[key];
      }
      inner := |heap|;
      n := n.(maps := n.maps[key := inner]);
      heap := heap[op := n] + [EMPTY_NODE];
    }
  }
}
