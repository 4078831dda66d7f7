/**
 node_manager.go: the default node manager goes round the node list from a shared index, skips the
 node the command failed on before, and stops when a node executes the command or when the index
 comes back to where it started.

 The nodes' reactions are an input: `answers(j)` is what the node of the j-th round answers if asked.
 */
module RoundRobin {
  import opened Common

  datatype NodeAnswer = NodeAnswer(executed: bool, failed: bool)

  /** One call of ExecuteOnNode: the list, the previous node, the index it starts from, the nodes' reactions. */
  datatype Call = Call(nodes: seq<NodeId>, previous: Option<NodeId>, start: nat, answers: nat -> NodeAnswer)

  function Wrap(index: nat, n: nat): nat {
    if index >= n then 0 else index
  }

  /** The list position of round `j`: each round wraps the index and then moves it on by one. */
  function Pos(n: nat, start: nat, j: nat): (p: nat)
    requires 0 < n
    ensures p < n
  {
    if j == 0 then Wrap(start, n) else Wrap(Pos(n, start, j - 1) + 1, n)
  }

  predicate SkipsPos(c: Call, p: nat)
    requires p < |c.nodes|
  {
    |c.nodes| > 1 && c.previous == Some(c.nodes[p])
  }

  predicate SkipsAt(c: Call, j: nat)
    requires c.nodes != []
  {
    SkipsPos(c, Pos(|c.nodes|, c.start, j))
  }

  predicate ExecutesAt(c: Call, j: nat)
    requires c.nodes != []
  {
    !SkipsAt(c, j) && c.answers(j).executed
  }

  /** The node of round `j` declines and the index is back where it started. */
  predicate GivesUpAt(c: Call, j: nat)
    requires c.nodes != []
  {
    !SkipsAt(c, j) && !c.answers(j).executed && c.start == Pos(|c.nodes|, c.start, j) + 1
  }

  predicate HaltsAt(c: Call, j: nat)
    requires c.nodes != []
  {
    ExecutesAt(c, j) || GivesUpAt(c, j)
  }

  /** Round `j` is the last one. */
  ghost predicate FirstHalt(c: Call, j: nat)
    requires c.nodes != []
  {
    HaltsAt(c, j) && forall i: nat :: i < j ==> !HaltsAt(c, i)
  }

  /** The guard a caller can check: the exit test can be met at all. */
  predicate ExitReachable(c: Call)
    requires c.nodes != []
  {
    1 <= c.start <= |c.nodes| && !SkipsPos(c, c.start - 1)
  }

  /** With several nodes, the previous one is not asked again. */
  ghost predicate MayBeAsked(nodes: seq<NodeId>, previous: Option<NodeId>, asked: seq<NodeId>) {
    forall i :: 0 <= i < |asked| ==> asked[i] in nodes && (|nodes| >= 2 ==> previous != Some(asked[i]))
  }

  lemma MayAskNobody(nodes: seq<NodeId>, previous: Option<NodeId>)
    ensures MayBeAsked(nodes, previous, [])
  {
  }

  lemma MayAlsoBeAsked(nodes: seq<NodeId>, previous: Option<NodeId>, asked: seq<NodeId>, node: NodeId)
    requires MayBeAsked(nodes, previous, asked) && node in nodes && (|nodes| >= 2 ==> previous != Some(node))
    ensures MayBeAsked(nodes, previous, asked + [node])
  {
  }

  class NodeManager {
    var nodeIndex: nat

    constructor ()
      ensures nodeIndex == 0
    {
      nodeIndex := 0;
    }

    /**
     The loop need not end: it does exactly when some round halts, and HaltsIff says when that is.
     `rounds` is the number of the last round, `asked` are the nodes asked to execute, in order.
     */
    method ExecuteOnNode(nodes: seq<NodeId>, previous: Option<NodeId>, answers: nat -> NodeAnswer)
      returns (executed: bool, failed: bool, ghost rounds: nat, ghost asked: seq<NodeId>)
      requires nodes != [] ==> exists j: nat :: HaltsAt(Call(nodes, previous, nodeIndex, answers), j)
      modifies this
      ensures nodes == [] ==> !executed && failed && nodeIndex == old(nodeIndex)
      ensures nodes != [] ==>
                var c := Call(nodes, previous, old(nodeIndex), answers);
                && FirstHalt(c, rounds)
                && executed == ExecutesAt(c, rounds) && failed == answers(rounds).failed
                && nodeIndex == Pos(|nodes|, old(nodeIndex), rounds) + 1
                && asked != [] && asked[|asked| - 1] == nodes[nodeIndex - 1]
      ensures MayBeAsked(nodes, previous, asked)
      ensures |nodes| == 1 ==> |asked| == rounds + 1
    {
      hide MayBeAsked;
      rounds, asked := 0, [];
      assert MayBeAsked(nodes, previous, []) by { MayAskNobody(nodes, previous); }
      if nodes == [] {
        return false, true, 0, [];
      }
      var startingIndex := nodeIndex;
      ghost var c := Call(nodes, previous, startingIndex, answers);
      ghost var last: nat :| HaltsAt(c, last);
      var j := 0;
      executed, failed := false, false;
      while true
        invariant j <= last
        invariant j == 0 ==> nodeIndex == startingIndex
        invariant j > 0 ==> nodeIndex == Pos(|nodes|, startingIndex, j - 1) + 1
        invariant forall i: nat :: i < j ==> !HaltsAt(c, i)
        invariant MayBeAsked(nodes, previous, asked)
        invariant |nodes| == 1 ==> |asked| == j
        decreases last - j
      {
        if nodeIndex >= |nodes| {
          nodeIndex := 0;
        }
        var node := nodes[nodeIndex];
        nodeIndex := nodeIndex + 1;
        rounds := j;
        assert nodeIndex == Pos(|nodes|, startingIndex, j) + 1;
        if |nodes| > 1 && previous == Some(node) {
          j := j + 1;
          continue;
        }
        assert MayBeAsked(nodes, previous, asked + [node]) by { MayAlsoBeAsked(nodes, previous, asked, node); }
        asked := asked + [node];
        executed, failed := answers(j).executed, answers(j).failed;
        if executed {
          break;
        }
        if startingIndex == nodeIndex {
          break;
        }
        j := j + 1;
      }
    }
  }

  // ------------------------------------------------------------------------------------------
  // The rounds, in closed form
  // ------------------------------------------------------------------------------------------

  lemma {:induction false} PosFirstCycle(n: nat, start: nat, j: nat)
    requires 0 < n && j < n
    ensures var w := Wrap(start, n); Pos(n, start, j) == if w + j < n then w + j else w + j - n
  {
    if j > 0 {
      PosFirstCycle(n, start, j - 1);
    }
  }

  /** Within one cycle every position comes up exactly once. */
  lemma CycleVisitsEachOnce(n: nat, start: nat, p: nat)
    requires 0 < n && p < n
    ensures exists j: nat :: j < n && Pos(n, start, j) == p
    ensures forall i: nat, j: nat :: i < j < n ==> Pos(n, start, i) != Pos(n, start, j)
  {
    var w := Wrap(start, n);
    var k := if p >= w then p - w else p - w + n;
    PosFirstCycle(n, start, k);
    assert Pos(n, start, k) == p;
    forall i: nat, j: nat | i < j < n ensures Pos(n, start, i) != Pos(n, start, j) {
      PosFirstCycle(n, start, i);
      PosFirstCycle(n, start, j);
    }
  }

  /**
   When the loop ends.  If no node ever executes, it ends exactly when the start index lies in
   1..n and the node before it is not the one being skipped; so on a fresh manager (index 0), after
   the list has shrunk below the index, or with the previous node in that place it never ends.
   When it can end this way it does so within one cycle.
   */
  lemma HaltsIff(c: Call)
    requires c.nodes != []
    ensures (exists j: nat :: HaltsAt(c, j)) <==> ExitReachable(c) || exists j: nat :: ExecutesAt(c, j)
    ensures ExitReachable(c) ==> exists j: nat :: j < |c.nodes| && HaltsAt(c, j)
  {
    var n := |c.nodes|;
    if ExitReachable(c) {
      PosFirstCycle(n, c.start, n - 1);
      assert Pos(n, c.start, n - 1) + 1 == c.start;
      assert HaltsAt(c, n - 1);
    }
    if j: nat :| ExecutesAt(c, j) {
      assert HaltsAt(c, j);
    }
    if j: nat :| HaltsAt(c, j) && !ExecutesAt(c, j) {
      assert GivesUpAt(c, j);
    }
  }

  /** The previous node ends no round, unless it is the only one: that is asked in every round. */
  lemma PreviousNodeIsPassedOver(c: Call, j: nat)
    requires c.nodes != []
    ensures |c.nodes| >= 2 && c.previous == Some(c.nodes[Pos(|c.nodes|, c.start, j)]) ==> !HaltsAt(c, j)
    ensures |c.nodes| == 1 ==> (HaltsAt(c, j) <==> c.answers(j).executed || c.start == 1)
  {
  }

  /** A fresh manager with nodes that all decline goes round for ever. */
  lemma FreshManagerMayNotHalt(nodes: seq<NodeId>, previous: Option<NodeId>)
    requires nodes != []
    ensures var c := Call(nodes, previous, 0, (_: nat) => NodeAnswer(false, false));
            forall j: nat :: !HaltsAt(c, j)
  {
    HaltsIff(Call(nodes, previous, 0, (_: nat) => NodeAnswer(false, false)));
  }

  /**
   Not executed is reported only after a full cycle in which every node but the skipped one declined,
   each asked once.
   */
  lemma GivingUpMeansAllDeclined(c: Call, r: nat, p: nat)
    requires c.nodes != [] && FirstHalt(c, r) && !ExecutesAt(c, r)
    requires p < |c.nodes| && !SkipsPos(c, p)
    ensures r == |c.nodes| - 1
    ensures exists j: nat :: j <= r && Pos(|c.nodes|, c.start, j) == p && !c.answers(j).executed
    ensures forall i: nat, j: nat :: i < j <= r ==> Pos(|c.nodes|, c.start, i) != Pos(|c.nodes|, c.start, j)
  {
    var n := |c.nodes|;
    assert GivesUpAt(c, r);
    PosFirstCycle(n, c.start, n - 1);
    assert Pos(n, c.start, n - 1) == c.start - 1 == Pos(n, c.start, r);
    assert HaltsAt(c, n - 1);
    CycleVisitsEachOnce(n, c.start, p);
    assert r == n - 1;
    var j: nat :| j < n && Pos(n, c.start, j) == p;
    assert j < r ==> !HaltsAt(c, j);
  }

  // ------------------------------------------------------------------------------------------
  // Load distribution
  // ------------------------------------------------------------------------------------------

  /** With no previous node and a node that executes, a call takes one round and leaves the next position's index. */
  lemma OneRoundPerCall(c: Call)
    requires c.nodes != [] && c.previous.None? && c.answers(0).executed
    ensures FirstHalt(c, 0)
    ensures 1 <= Pos(|c.nodes|, c.start, 0) + 1 <= |c.nodes|
  {
    assert ExecutesAt(c, 0);
  }

  /** The index after `m` such calls on a fixed list of `n` nodes. */
  function IndexAfter(n: nat, start: nat, m: nat): nat
    requires 0 < n
  {
    if m == 0 then start else Wrap(IndexAfter(n, start, m - 1), n) + 1
  }

  /** The position served by the m-th of these calls. */
  function ServedBy(n: nat, start: nat, m: nat): nat
    requires 0 < n
  {
    Pos(n, IndexAfter(n, start, m), 0)
  }

  /** How often position `p` is served in the first `m` calls. */
  function Hits(n: nat, start: nat, m: nat, p: nat): nat
    requires 0 < n
  {
    if m == 0 then 0 else Hits(n, start, m - 1, p) + if ServedBy(n, start, m - 1) == p then 1 else 0
  }

  /** m as full cycles and a remainder. */
  function Split(n: nat, m: nat): (cr: (nat, nat))
    requires 0 < n
    ensures cr.1 < n && m == cr.0 * n + cr.1
  {
    if m == 0 then (0, 0)
    else
      var (c, r) := Split(n, m - 1);
      if r + 1 == n then (c + 1, 0) else (c, r + 1)
  }

  /** How many calls into a cycle position `p` is served. */
  function Rank(n: nat, start: nat, p: nat): nat
    requires p < n
  {
    var w := Wrap(start, n);
    if p >= w then p - w else p - w + n
  }

  lemma {:induction false} HitsExact(n: nat, start: nat, m: nat, p: nat)
    requires 0 < n && p < n
    ensures Rank(n, start, ServedBy(n, start, m)) == Split(n, m).1
    ensures Hits(n, start, m, p) == Split(n, m).0 + if Rank(n, start, p) < Split(n, m).1 then 1 else 0
  {
    if m > 0 {
      HitsExact(n, start, m - 1, p);
    }
  }

  /** The calls go round the list, and no node is served more than once more often than another. */
  lemma LoadIsBalanced(n: nat, start: nat, m: nat, p: nat, q: nat)
    requires 0 < n && p < n && q < n
    ensures Hits(n, start, m, p) <= Hits(n, start, m, q) + 1
    ensures ServedBy(n, start, m + 1) == Wrap(ServedBy(n, start, m) + 1, n)
    ensures m > 0 ==> 1 <= IndexAfter(n, start, m) <= n
  {
    HitsExact(n, start, m, p);
    HitsExact(n, start, m, q);
  }

  /** `m` calls on a fixed list whose nodes all execute: how often each position was served. */
  method ServeCalls(nm: NodeManager, nodes: seq<NodeId>, failed: bool, m: nat) returns (hits: seq<nat>)
    requires nodes != []
    modifies nm
    ensures |hits| == |nodes| && nm.nodeIndex == IndexAfter(|nodes|, old(nm.nodeIndex), m)
    ensures forall p :: 0 <= p < |nodes| ==> hits[p] == Hits(|nodes|, old(nm.nodeIndex), m, p)
    ensures forall p, q :: 0 <= p < |nodes| && 0 <= q < |nodes| ==> hits[p] <= hits[q] + 1
  {
    var n := |nodes|;
    ghost var start := nm.nodeIndex;
    hits := seq(n, _ => 0);
    for k := 0 to m
      invariant |hits| == n && nm.nodeIndex == IndexAfter(n, start, k)
      invariant forall p :: 0 <= p < n ==> hits[p] == Hits(n, start, k, p)
    {
      var answers := (_: nat) => NodeAnswer(true, failed);
      ghost var c := Call(nodes, None, nm.nodeIndex, answers);
      OneRoundPerCall(c);
      assert HaltsAt(c, 0);
      var _, _, rounds, _ := nm.ExecuteOnNode(nodes, None, answers);
      assert rounds == 0;
      var p := nm.nodeIndex - 1;
      hits := hits[p := hits[p] + 1];
    }
    forall p, q | 0 <= p < n && 0 <= q < n ensures hits[p] <= hits[q] + 1 {
      LoadIsBalanced(n, start, m, p, q);
    }
  }
}
