/**
 The life of a cluster's nodes (cluster.go): Start, Stop, AddNode and RemoveNode, interleaved with
 anything the nodes themselves do.  Nodes are objects with an identity, so the cluster's list holds
 `NodeId`s and `store` their states; the list may well name a node twice.
 */
module ClusterNodes {
  import opened Common
  import opened Pools
  import opened PoolRuns
  import opened Nodes

  type Store = map<NodeId, NodeState>

  datatype ClusterPhase = ClusterCreated | ClusterRunning | ClusterShuttingDown | ClusterShutdown | ClusterError

  datatype Cluster = Cluster(phase: ClusterPhase, nodes: seq<NodeId>, store: Store)

  /** The result of an operation: fine, an error value, or a panic. */
  datatype Answer = Fine | Failed | Panicked

  /** All nodes of the list exist. */
  predicate Known(nodes: seq<NodeId>, store: Store) {
    forall id :: id in nodes ==> id in store
  }

  predicate AllShutdown(nodes: seq<NodeId>, store: Store)
    requires Known(nodes, store)
  {
    forall id :: id in nodes ==> store[id].phase.NodeShutdown?
  }

  function DialsOf(dials: map<NodeId, seq<Dial>>, id: NodeId): seq<Dial> {
    if id in dials then dials[id] else []
  }

  /** The loop of Start: it gives up at the first node that does not start. */
  function StartAll(store: Store, nodes: seq<NodeId>, dials: map<NodeId, seq<Dial>>): (r: (Store, bool))
    requires Known(nodes, store)
    ensures r.0.Keys == store.Keys
    decreases |nodes|
  {
    if nodes == [] then (store, true)
    else
      var (n, ok) := StartNode(store[nodes[0]], DialsOf(dials, nodes[0]));
      if !ok then (store, false) else StartAll(store[nodes[0] := n], nodes[1..], dials)
  }

  /** The loop of Stop: errors of single nodes are only logged. */
  function StopAll(store: Store, nodes: seq<NodeId>): (r: Store)
    requires Known(nodes, store)
    ensures r.Keys == store.Keys
    decreases |nodes|
  {
    if nodes == [] then store
    else StopAll(store[nodes[0] := StopNode(store[nodes[0]]).0], nodes[1..])
  }

  function StartUp(c: Cluster, dials: map<NodeId, seq<Dial>>): (Cluster, Answer)
    requires Known(c.nodes, c.store)
  {
    if c.phase.ClusterRunning? then (c, Fine)
    else if !c.phase.ClusterCreated? then (c, Failed)
    else
      var (store, ok) := StartAll(c.store, c.nodes, dials);
      if ok then (c.(phase := ClusterRunning, store := store), Fine) else (c.(store := store), Failed)
  }

  function ShutDown(c: Cluster): (Cluster, Answer)
    requires Known(c.nodes, c.store)
  {
    if !c.phase.ClusterRunning? then (c, Failed)
    else
      var store := StopAll(c.store, c.nodes);
      if AllShutdown(c.nodes, store) then (c.(phase := ClusterShutdown, store := store), Fine)
      else (c.(phase := ClusterShuttingDown, store := store), Panicked)
  }

  function AddNode(c: Cluster, id: NodeId, dials: seq<Dial>): (Cluster, Answer)
    requires id in c.store
  {
    if id in c.nodes then (c, Fine)
    else if c.phase.ClusterRunning? then
      var (n, ok) := StartNode(c.store[id], dials);
      if !ok then (c, Failed) else (c.(nodes := c.nodes + [id], store := c.store[id := n]), Fine)
    else (c.(nodes := c.nodes + [id]), Fine)
  }

  /** The position of the first occurrence, or the length. */
  function IndexOf(nodes: seq<NodeId>, id: NodeId): (i: nat)
    ensures i <= |nodes|
    ensures i < |nodes| <==> id in nodes
    ensures i < |nodes| ==> nodes[i] == id
  {
    if nodes == [] || nodes[0] == id then 0 else 1 + IndexOf(nodes[1..], id)
  }

  /** Overwrite position `i` with the last entry and drop the last entry. */
  function SwapOut(nodes: seq<NodeId>, i: nat): seq<NodeId>
    requires i < |nodes|
  {
    nodes[i := nodes[|nodes| - 1]][..|nodes| - 1]
  }

  function RemoveNode(c: Cluster, id: NodeId): (Cluster, Answer)
    requires id in c.store
  {
    if id !in c.nodes then (c, Fine)
    else
      var nodes := SwapOut(c.nodes, IndexOf(c.nodes, id));
      if c.store[id].phase.NodeCreated? then (c.(nodes := nodes), Fine)
      else
        var (n, ok) := StopNode(c.store[id]);
        (c.(nodes := nodes, store := c.store[id := n]), if ok then Fine else Failed)
  }

  // ------------------------------------------------------------------------------------------
  // Runs
  // ------------------------------------------------------------------------------------------

  datatype ClusterStep =
    | CNew(id: NodeId, cfg: Config)
    | CStart(dials: map<NodeId, seq<Dial>>)
    | CStop
    | CAdd(id: NodeId, nodeDials: seq<Dial>)
    | CRemove(id: NodeId)
    | CNode(id: NodeId, step: NodeStep)

  predicate ClusterEnabled(c: Cluster, step: ClusterStep) {
    match step
    case CNew(id, cfg) => id !in c.store && ValidConfig(cfg)
    case CAdd(id, _) => id in c.store
    case CRemove(id) => id in c.store
    case CNode(id, s) => id in c.store && NodeEnabled(c.store[id], s)
    case _ => true
  }

  function AnswerOf(n: NodeState, step: NodeStep): Answer
    requires NodeEnabled(n, step)
  {
    if step.DoDial? && DialFor(n, step.dial).1.NilPanic? then Panicked else Fine
  }

  function ClusterDo(c: Cluster, step: ClusterStep): (Cluster, Answer)
    requires Known(c.nodes, c.store) && ClusterEnabled(c, step)
  {
    match step
    case CNew(id, cfg) => (c.(store := c.store[id := NewNode(cfg)]), Fine)
    case CStart(dials) => StartUp(c, dials)
    case CStop => ShutDown(c)
    case CAdd(id, dials) => AddNode(c, id, dials)
    case CRemove(id) => RemoveNode(c, id)
    case CNode(id, s) => (c.(store := c.store[id := NodeDo(c.store[id], s)]), AnswerOf(c.store[id], s))
  }

  /** A command dials on a node that was stopped after the command had looked at its state. */
  predicate Panics(c: Cluster, step: ClusterStep) {
    step.CNode? && step.step.DoDial? && step.id in c.store && c.store[step.id].phase.NodeShutdown?
  }

  /** Every node keeps its own invariant. */
  predicate StoreOk(store: Store) {
    forall id :: id in store ==> NodeInv(store[id])
  }

  /** A running cluster's nodes are distinct and serving, so (by NodeInv) each has a running pool. */
  predicate ClusterInv(c: Cluster) {
    && Known(c.nodes, c.store) && StoreOk(c.store)
    && (c.phase.ClusterCreated? || c.phase.ClusterRunning? || c.phase.ClusterShutdown?)
    && (c.phase.ClusterRunning? ==> NoDup(c.nodes) && forall id :: id in c.nodes ==> Serving(c.store[id].phase))
  }

  /** Start succeeds exactly on a list of distinct nodes that have never been started. */
  lemma {:induction false} StartAllExact(store: Store, nodes: seq<NodeId>, dials: map<NodeId, seq<Dial>>)
    requires Known(nodes, store) && StoreOk(store)
    ensures var (store1, ok) := StartAll(store, nodes, dials);
            && StoreOk(store1)
            && (ok <==> NoDup(nodes) && forall id :: id in nodes ==> store[id].phase.NodeCreated?)
            && (ok ==> forall id :: id in nodes ==> store1[id].phase.NodeRunning?)
            && (forall id :: id in store && id !in nodes ==> store1[id] == store[id])
    decreases |nodes|
  {
    hide NodeInv, StartNode;
    if nodes != [] {
      var id := nodes[0];
      assert nodes == [id] + nodes[1..];
      StartNodeKeeps(store[id], DialsOf(dials, id));
      var (n, ok) := StartNode(store[id], DialsOf(dials, id));
      if ok {
        var store1 := store[id := n];
        StartAllExact(store1, nodes[1..], dials);
        if id in nodes[1..] {
          assert !store1[id].phase.NodeCreated?;
        } else {
          assert forall x :: x in nodes[1..] ==> store1[x] == store[x];
        }
      } else {
        assert !store[id].phase.NodeCreated?;
      }
    }
  }

  /** A clean stop of one node, as StopNodeKeeps describes it. */
  predicate CleanlyStopped(n: NodeState, n1: NodeState) {
    && n1.phase.NodeShutdown? && n1.sys.out == n.sys.out
    && n1.sys.pool == Pool(Shutdown, |n.sys.out|, [], CloseAll(n.sys.pool.conns, n.sys.pool.idle))
  }

  lemma {:induction false} StopAllExact(store: Store, nodes: seq<NodeId>)
    requires Known(nodes, store) && StoreOk(store)
    requires NoDup(nodes) && forall id :: id in nodes ==> Serving(store[id].phase)
    ensures var store1 := StopAll(store, nodes);
            && StoreOk(store1)
            && (forall id :: id in nodes ==> CleanlyStopped(store[id], store1[id]))
            && (forall id :: id in store && id !in nodes ==> store1[id] == store[id])
    decreases |nodes|
  {
    hide NodeInv, StopNode;
    if nodes != [] {
      var id := nodes[0];
      assert nodes == [id] + nodes[1..];
      StopNodeKeeps(store[id]);
      StopAllExact(store[id := StopNode(store[id]).0], nodes[1..]);
    }
  }

  /** Stopping a running cluster never panics and shuts every pool down cleanly. */
  lemma StopIsClean(c: Cluster)
    requires ClusterInv(c) && c.phase.ClusterRunning?
    ensures ShutDown(c).1.Fine? && ClusterInv(ShutDown(c).0) && ShutDown(c).0.phase.ClusterShutdown?
    ensures ShutDown(c).0.nodes == c.nodes && ShutDown(c).0.store.Keys == c.store.Keys
    ensures forall id :: id in c.nodes ==> CleanlyStopped(c.store[id], ShutDown(c).0.store[id])
  {
    hide NodeInv, StopNode;
    StopAllExact(c.store, c.nodes);
  }

  /** Swapping out drops exactly the entry at `i`. */
  lemma SwapOutMultiset(nodes: seq<NodeId>, i: nat)
    requires i < |nodes|
    ensures multiset(nodes) == multiset(SwapOut(nodes, i)) + multiset{nodes[i]}
  {
    var l := |nodes| - 1;
    var swapped := nodes[i := nodes[l]];
    assert swapped == swapped[..l] + [nodes[l]];
    assert multiset(swapped) == multiset(nodes) - multiset{nodes[i]} + multiset{nodes[l]};
  }

  lemma SwapOutMembers(nodes: seq<NodeId>, i: nat)
    requires NoDup(nodes) && i < |nodes|
    ensures NoDup(SwapOut(nodes, i))
    ensures forall id :: id in SwapOut(nodes, i) <==> id in nodes && id != nodes[i]
  {
    hide SwapOut;
    var left := SwapOut(nodes, i);
    SwapOutMultiset(nodes, i);
    NoDupIff(nodes);
    NoDupIff(left);
    forall id ensures multiset(left)[id] <= 1 && (id in left <==> id in nodes && id != nodes[i]) {
      assert multiset(nodes)[id] <= 1;
      assert id in left <==> id in multiset(left);
      assert id in nodes <==> id in multiset(nodes);
    }
  }

  lemma SwapOutKnown(nodes: seq<NodeId>, i: nat)
    requires i < |nodes|
    ensures forall id :: id in SwapOut(nodes, i) ==> id in nodes
  {
  }

  /**
   Start starts the listed nodes in order, with their dials, up to the first that is named a second time or
   has been started before; the others are untouched.
   */
  lemma {:induction false} StartAllPrefix(store: Store, nodes: seq<NodeId>, dials: map<NodeId, seq<Dial>>)
    returns (k: nat)
    requires Known(nodes, store) && StoreOk(store)
    ensures k <= |nodes|
    ensures var (store1, ok) := StartAll(store, nodes, dials);
            && (ok <==> k == |nodes|)
            && (forall i :: 0 <= i < k ==> store[nodes[i]].phase.NodeCreated?)
            && (k < |nodes| ==> nodes[k] in nodes[..k] || !store[nodes[k]].phase.NodeCreated?)
            && (forall id :: id in store ==>
                  store1[id] ==
                  if id !in nodes[..k] then store[id]
                  else StartNode(store[id], if id in dials then dials[id] else []).0)
    decreases |nodes|
  {
    hide NodeInv, StartNode, NoDup;
    k := 0;
    if nodes != [] {
      var id, rest := nodes[0], nodes[1..];
      StartNodeKeeps(store[id], DialsOf(dials, id));
      var (n, ok) := StartNode(store[id], DialsOf(dials, id));
      if ok {
        var store1 := store[id := n];
        var k1 := StartAllPrefix(store1, rest, dials);
        k := k1 + 1;
        assert nodes[..k] == [id] + rest[..k1];
        assert !store1[id].phase.NodeCreated?;
        assert forall i :: 0 <= i < k1 ==> rest[..k1][i] == rest[i] != id;
        assert k < |nodes| ==> nodes[k] == rest[k1];
      }
    }
  }

  /** A node in service, with the connections that its dials opened. */
  predicate JustStarted(n: NodeState, n1: NodeState, dials: seq<Dial>) {
    var conns := Opened(dials, n.cfg.min);
    && n1.phase == NodeRunning && n1.cfg == n.cfg
    && n1.sys.pool == Pool(Running, |conns|, Upto(|conns|), conns)
  }

  /**
   Start, in every state of the cluster.  A new cluster runs afterwards iff its nodes are distinct and none was
   started before, and then every node does; otherwise it stays as new, and Start fails.
   */
  lemma StartUpExact(c: Cluster, dials: map<NodeId, seq<Dial>>)
    requires ClusterInv(c)
    ensures var (c1, r) := StartUp(c, dials);
            match c.phase
            case ClusterRunning => (c1, r) == (c, Fine)
            case ClusterCreated =>
              && c1.nodes == c.nodes && c1.store.Keys == c.store.Keys
              && (forall id :: id in c.store && id !in c.nodes ==> c1.store[id] == c.store[id])
              && if NoDup(c.nodes) && (forall id :: id in c.nodes ==> c.store[id].phase == NodeCreated)
                 then
                   && r == Fine && c1.phase == ClusterRunning
                   && forall id :: id in c.nodes ==>
                        JustStarted(c.store[id], c1.store[id], if id in dials then dials[id] else [])
                 else r == Failed && c1.phase == ClusterCreated
            case _ => (c1, r) == (c, Failed)
  {
    hide NodeInv, StartNode, NoDup, JustStarted, StartAll;
    if c.phase.ClusterCreated? {
      StartAllExact(c.store, c.nodes, dials);
      var k := StartAllPrefix(c.store, c.nodes, dials);
      assert c.nodes[..|c.nodes|] == c.nodes;
      forall id | id in c.nodes && c.store[id].phase == NodeCreated
        ensures JustStarted(c.store[id], StartNode(c.store[id], DialsOf(dials, id)).0, DialsOf(dials, id))
      {
        StartedNode(c.store[id], DialsOf(dials, id));
      }
    }
  }

  lemma StartedNode(n: NodeState, dials: seq<Dial>)
    requires NodeInv(n) && n.phase.NodeCreated?
    ensures JustStarted(n, StartNode(n, dials).0, dials)
  {
    hide NodeInv, StartNode, Opened;
    StartNodeOpens(n, dials);
  }

  /** Stop does something in a running cluster only. */
  lemma StopOnlyRunning(c: Cluster)
    requires ClusterInv(c) && c.phase != ClusterRunning
    ensures ShutDown(c) == (c, Failed)
  {
  }

  /**
   AddNode, in every state of the cluster.  A listed node is not added again.  A node joins a running cluster,
   running, iff it was never started, and otherwise nothing happens; it joins any other cluster as it is.
   */
  lemma AddExact(c: Cluster, id: NodeId, dials: seq<Dial>)
    requires ClusterInv(c) && id in c.store
    ensures var (c1, r) := AddNode(c, id, dials);
            if id in c.nodes then (c1, r) == (c, Fine)
            else if c.phase != ClusterRunning then r == Fine && c1 == c.(nodes := c.nodes + [id])
            else if c.store[id].phase != NodeCreated then (c1, r) == (c, Failed)
            else
              && r == Fine && c1.phase == ClusterRunning && c1.nodes == c.nodes + [id]
              && c1.store.Keys == c.store.Keys && JustStarted(c.store[id], c1.store[id], dials)
              && forall x :: x in c.store && x != id ==> c1.store[x] == c.store[x]
  {
    hide Inv, Do, JustStarted;
    StartNodeKeeps(c.store[id], dials);
    if c.store[id].phase.NodeCreated? {
      StartedNode(c.store[id], dials);
    }
  }

  /**
   RemoveNode, in every state of the cluster.  One entry of the node leaves the list.  A node in service is
   stopped cleanly; one that was never started is left as it is, and so is one that has been stopped
   already, about which there is an error.
   */
  lemma RemoveExact(c: Cluster, id: NodeId)
    requires ClusterInv(c) && id in c.store
    ensures var (c1, r) := RemoveNode(c, id);
            if id !in c.nodes then (c1, r) == (c, Fine)
            else
              && c1.phase == c.phase && multiset(c.nodes) == multiset(c1.nodes) + multiset{id}
              && c1.store.Keys == c.store.Keys
              && (forall x :: x in c.store && x != id ==> c1.store[x] == c.store[x])
              && (c.phase == ClusterRunning ==> forall x :: x in c1.nodes <==> x in c.nodes && x != id)
              && match c.store[id].phase
                 case NodeCreated => r == Fine && c1.store[id] == c.store[id]
                 case NodeShutdown => r == Failed && c1.store[id] == c.store[id]
                 case _ => r == Fine && CleanlyStopped(c.store[id], c1.store[id])
  {
    hide StopNode, SwapOut, NoDup, Inv;
    StopNodeKeeps(c.store[id]);
    if id in c.nodes {
      SwapOutMultiset(c.nodes, IndexOf(c.nodes, id));
      if c.phase.ClusterRunning? {
        SwapOutMembers(c.nodes, IndexOf(c.nodes, id));
      }
    }
  }

  lemma AddKeeps(c: Cluster, id: NodeId, dials: seq<Dial>)
    requires ClusterInv(c) && id in c.store
    ensures ClusterInv(AddNode(c, id, dials).0)
  {
    hide NodeInv, StartNode, NoDup;
    StartNodeKeeps(c.store[id], dials);
    if c.phase.ClusterRunning? && id !in c.nodes {
      NoDupAppend(c.nodes, id);
    }
  }

  lemma RemoveKeepsCluster(c: Cluster, id: NodeId)
    requires ClusterInv(c) && id in c.store
    ensures ClusterInv(RemoveNode(c, id).0)
  {
    hide NodeInv, StopNode, NoDup, SwapOut;
    StopNodeKeeps(c.store[id]);
    if id in c.nodes {
      SwapOutKnown(c.nodes, IndexOf(c.nodes, id));
      if c.phase.ClusterRunning? {
        SwapOutMembers(c.nodes, IndexOf(c.nodes, id));
      }
    }
  }

  lemma ClusterStepKeeps(c: Cluster, step: ClusterStep)
    requires ClusterInv(c) && ClusterEnabled(c, step)
    ensures ClusterInv(ClusterDo(c, step).0)
    ensures ClusterDo(c, step).1.Panicked? <==> Panics(c, step)
  {
    hide NodeInv, NodeDo, StartNode, StopNode, NoDup, DialFor;
    match step
    case CNew(id, cfg) =>
      assert NodeInv(NewNode(cfg)) by { NewNodeOk(cfg); }
    case CStart(dials) => StartAllExact(c.store, c.nodes, dials);
    case CStop => if c.phase.ClusterRunning? { StopIsClean(c); }
    case CAdd(id, dials) => AddKeeps(c, id, dials);
    case CRemove(id) => RemoveKeepsCluster(c, id);
    case CNode(id, s) =>
      NodeStepKeeps(c.store[id], s);
      if s.DoDial? {
        DialKeeps(c.store[id], s.dial);
      }
  }

  lemma NewNodeOk(cfg: Config)
    requires ValidConfig(cfg)
    ensures NodeInv(NewNode(cfg))
  {
  }

  /** A run: the state before each step, and after the last one. */
  ghost predicate IsRun(states: seq<Cluster>, steps: seq<ClusterStep>) {
    && |states| == |steps| + 1
    && (forall i :: 0 <= i < |steps| ==>
          && Known(states[i].nodes, states[i].store) && ClusterEnabled(states[i], steps[i])
          && states[i + 1] == ClusterDo(states[i], steps[i]).0)
  }

  /** A cluster just built from options: any list of nodes, none of them started. */
  predicate NewCluster(c: Cluster) {
    && c.phase.ClusterCreated? && Known(c.nodes, c.store)
    && (forall id :: id in c.store ==> ValidConfig(c.store[id].cfg) && c.store[id] == NewNode(c.store[id].cfg))
  }

  /**
   Whatever happens to a cluster, running implies distinct serving nodes; Start, Stop, AddNode and
   RemoveNode never panic, and the only step that does is a command dialing on a stopped node.
   */
  lemma {:induction false} EveryClusterRun(states: seq<Cluster>, steps: seq<ClusterStep>, k: nat)
    requires IsRun(states, steps) && NewCluster(states[0]) && k <= |steps|
    ensures ClusterInv(states[k])
    ensures k < |steps| ==> (ClusterDo(states[k], steps[k]).1.Panicked? <==> Panics(states[k], steps[k]))
  {
    hide NodeInv, ClusterDo;
    if k == 0 {
      forall id | id in states[0].store ensures NodeInv(states[0].store[id]) {
        NewNodeOk(states[0].store[id].cfg);
      }
    } else {
      EveryClusterRun(states, steps, k - 1);
      ClusterStepKeeps(states[k - 1], steps[k - 1]);
    }
    if k < |steps| {
      ClusterStepKeeps(states[k], steps[k]);
    }
  }

  // ------------------------------------------------------------------------------------------
  // The cluster in place
  // ------------------------------------------------------------------------------------------

  lemma SuffixStep(nodes: seq<NodeId>, i: nat)
    requires i < |nodes|
    ensures nodes[i..][0] == nodes[i] && nodes[i..][1..] == nodes[i + 1..]
  {
  }

  lemma {:induction false} IndexOfFirst(nodes: seq<NodeId>, id: NodeId, i: nat)
    requires i < |nodes| && nodes[i] == id && id !in nodes[..i]
    ensures IndexOf(nodes, id) == i
  {
    if i > 0 {
      assert nodes[0] == nodes[..i][0];
      assert nodes[1..][..i - 1] == nodes[..i][1..];
      IndexOfFirst(nodes[1..], id, i - 1);
    }
  }

  class NodeCluster {
    var phase: ClusterPhase
    var nodes: seq<NodeId>
    var store: Store

    function State(): Cluster
      reads this
    {
      Cluster(phase, nodes, store)
    }

    ghost predicate Valid()
      reads this
    {
      ClusterInv(State())
    }

    /** A cluster over any list of nodes that have not been started, possibly naming one twice. */
    constructor (nodes: seq<NodeId>, store: Store)
      requires NewCluster(Cluster(ClusterCreated, nodes, store))
      ensures Valid() && State() == Cluster(ClusterCreated, nodes, store)
    {
      phase, this.nodes, this.store := ClusterCreated, nodes, store;
      new;
      forall id | id in store ensures NodeInv(store[id]) {
        NewNodeOk(store[id].cfg);
      }
    }

    method StartCluster(dials: map<NodeId, seq<Dial>>) returns (r: Answer)
      requires Valid()
      modifies this
      ensures Valid()
      ensures (State(), r) == StartUp(old(State()), dials)
    {
      hide NodeInv, StartNode, NoDup;
      ClusterStepKeeps(State(), CStart(dials));
      if phase == ClusterRunning {
        return Fine;
      }
      if phase != ClusterCreated {
        return Failed;
      }
      var i := 0;
      while i < |nodes|
        invariant i <= |nodes| && nodes == old(nodes) && phase == ClusterCreated
        invariant Known(nodes, store) && Known(nodes[i..], store)
        invariant StartAll(old(store), nodes, dials) == StartAll(store, nodes[i..], dials)
      {
        SuffixStep(nodes, i);
        var (n, ok) := StartNode(store[nodes[i]], DialsOf(dials, nodes[i]));
        if !ok {
          return Failed;
        }
        store := store[nodes[i] := n];
        i := i + 1;
      }
      phase := ClusterRunning;
      r := Fine;
    }

    /** The check after the loop always finds every node shut down, so the panic is not reached. */
    method StopCluster() returns (r: Answer)
      requires Valid()
      modifies this
      ensures Valid()
      ensures r != Panicked
      ensures (State(), r) == ShutDown(old(State()))
    {
      hide NodeInv, StopNode, NoDup;
      ClusterStepKeeps(State(), CStop);
      if phase != ClusterRunning {
        return Failed;
      }
      phase := ClusterShuttingDown;
      var i := 0;
      while i < |nodes|
        invariant i <= |nodes| && nodes == old(nodes) && phase == ClusterShuttingDown
        invariant Known(nodes, store) && Known(nodes[i..], store)
        invariant StopAll(old(store), nodes) == StopAll(store, nodes[i..])
      {
        SuffixStep(nodes, i);
        store := store[nodes[i] := StopNode(store[nodes[i]]).0];
        i := i + 1;
      }
      var allStopped := true;
      for j := 0 to |nodes|
        invariant allStopped
      {
        assert nodes[j] in nodes;
        if !store[nodes[j]].phase.NodeShutdown? {
          assert false;
        }
      }
      if allStopped {
        phase := ClusterShutdown;
        r := Fine;
      } else {
        assert false;
      }
    }

    method Add(id: NodeId, dials: seq<Dial>) returns (r: Answer)
      requires Valid() && id in store
      modifies this
      ensures Valid()
      ensures (State(), r) == AddNode(old(State()), id, dials)
    {
      hide NodeInv, StartNode, NoDup;
      ClusterStepKeeps(State(), CAdd(id, dials));
      for i := 0 to |nodes|
        invariant id !in nodes[..i]
      {
        if id == nodes[i] {
          return Fine;
        }
      }
      assert nodes[..|nodes|] == nodes;
      if phase == ClusterRunning {
        var (n, ok) := StartNode(store[id], dials);
        if !ok {
          return Failed;
        }
        store := store[id := n];
      }
      nodes := nodes + [id];
      r := Fine;
    }

    method Remove(id: NodeId) returns (r: Answer)
      requires Valid() && id in store
      modifies this
      ensures Valid()
      ensures (State(), r) == RemoveNode(old(State()), id)
    {
      hide NodeInv, StopNode, NoDup, IndexOf;
      ClusterStepKeeps(State(), CRemove(id));
      for i := 0 to |nodes|
        invariant id !in nodes[..i]
        invariant State() == old(State())
      {
        if id == nodes[i] {
          IndexOfFirst(nodes, id, i);
          var l := |nodes| - 1;
          nodes := nodes[i := nodes[l]][..l];
          if !store[id].phase.NodeCreated? {
            var (n, ok) := StopNode(store[id]);
            store := store[id := n];
            if !ok {
              return Failed;
            }
          }
          return Fine;
        }
      }
      assert nodes[..|nodes|] == nodes;
      r := Fine;
    }
  }
}
