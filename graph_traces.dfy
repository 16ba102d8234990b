/**
 Properties of whole sessions: any sequence of mutating calls keeps the
 model well formed, and node ids are never reused, whether they were
 allocated or restored.
 */
module GraphTraces {
  import opened GraphTypes
  import opened GraphModel

  /** One mutating call on the model. */
  datatype Op =
    | AddNodeOp(nodeType: string)
    | LoadNodeOp(rec: NodeRecord)
    | AddConnectionOp(c: ConnectionId)
    | DeleteConnectionOp(c: ConnectionId)
    | DeleteNodeOp(n: NodeId)
    | SetNodeDataOp(id: NodeId, role: NodeRole, v: Variant)

  /** The state one call leaves behind; it is well formed and the counter has not gone back. */
  function Apply(g: Graph, op: Op): (r: Graph)
    ensures WellFormed(g) ==> WellFormed(r)
    ensures g.nextNodeId <= r.nextNodeId
  {
    match op
    case AddNodeOp(k) => AddNode(g, k).next
    case LoadNodeOp(rec) => LoadNode(g, rec).next
    case AddConnectionOp(c) => AddConnection(g, c).next
    case DeleteConnectionOp(c) => DeleteConnection(g, c).next
    case DeleteNodeOp(n) => DeleteNode(g, n).next
    case SetNodeDataOp(id, role, v) => SetNodeData(g, id, role, v).next
  }

  /** The state after the calls `ops`, one after another: still well formed, the counter not lower. */
  function Run(g: Graph, ops: seq<Op>): (r: Graph)
    ensures WellFormed(g) ==> WellFormed(r)
    ensures g.nextNodeId <= r.nextNodeId
    decreases |ops|
  {
    if ops == [] then g else Run(Apply(g, ops[0]), ops[1..])
  }

  /** The ids one call hands out or restores. */
  function Introduced(g: Graph, op: Op): (r: set<NodeId>)
  {
    match op
    case AddNodeOp(k) => {AddNode(g, k).out.value}
    case LoadNodeOp(rec) => {RecordId(rec)}
    case _ => {}
  }

  /** Every id handed out or restored during the calls `ops`. */
  function Seen(g: Graph, ops: seq<Op>): (r: set<NodeId>)
    decreases |ops|
  {
    if ops == [] then {} else Introduced(g, ops[0]) + Seen(Apply(g, ops[0]), ops[1..])
  }

  /** The ids AddNode returns during the calls `ops`, in call order. */
  function Allocated(g: Graph, ops: seq<Op>): (r: seq<NodeId>)
    decreases |ops|
  {
    if ops == [] then []
    else
      var first := if ops[0].AddNodeOp? then [AddNode(g, ops[0].nodeType).out.value] else [];
      first + Allocated(Apply(g, ops[0]), ops[1..])
  }

  /** Every id seen during a session lies below the counter at its end. */
  lemma {:induction false} SeenBelowCounter(g: Graph, ops: seq<Op>)
    ensures forall id :: id in Seen(g, ops) ==> id < Run(g, ops).nextNodeId
    decreases |ops|
  {
    if ops != [] {
      var g1 := Apply(g, ops[0]);
      SeenBelowCounter(g1, ops[1..]);
      assert forall id :: id in Introduced(g, ops[0]) ==> id < g1.nextNodeId;
    }
  }

  /**
   Identity monotonicity: after any session, the next AddNode returns an
   id above every id allocated or restored so far and above every live id.
   */
  lemma NextAddNodeIsFresh(g: Graph, ops: seq<Op>, nodeType: string)
    requires WellFormed(g)
    ensures forall id :: id in Seen(g, ops) ==> id < AddNode(Run(g, ops), nodeType).out.value
    ensures forall id :: id in g.nodeIds ==> id < AddNode(Run(g, ops), nodeType).out.value
    ensures AddNode(Run(g, ops), nodeType).out.value !in Run(g, ops).nodeIds
  {
    SeenBelowCounter(g, ops);
  }

  /** The ids AddNode returns during a session lie at or above the counter at its start and below the counter at its end. */
  lemma {:induction false} AllocatedWithinCounter(g: Graph, ops: seq<Op>)
    ensures forall i :: 0 <= i < |Allocated(g, ops)| ==>
      g.nextNodeId <= Allocated(g, ops)[i] < Run(g, ops).nextNodeId
    decreases |ops|
  {
    if ops != [] {
      var g1 := Apply(g, ops[0]);
      AllocatedWithinCounter(g1, ops[1..]);
      var rest := Allocated(g1, ops[1..]);
      assert Run(g, ops) == Run(g1, ops[1..]);
      if ops[0].AddNodeOp? {
        var all := Allocated(g, ops);
        assert all == [g.nextNodeId] + rest;
        assert g1.nextNodeId == g.nextNodeId + 1;
        forall i | 0 < i < |all|
          ensures g.nextNodeId <= all[i] < Run(g, ops).nextNodeId
        {
          assert all[i] == rest[i - 1];
        }
      } else {
        assert Allocated(g, ops) == rest;
      }
    }
  }

  /**
   The ids AddNode returns during a session are strictly increasing, so
   no id is handed out twice.
   */
  lemma {:induction false} AllocatedStrictlyIncreasing(g: Graph, ops: seq<Op>)
    ensures forall i, j :: 0 <= i < j < |Allocated(g, ops)| ==> Allocated(g, ops)[i] < Allocated(g, ops)[j]
    decreases |ops|
  {
    if ops != [] {
      var g1 := Apply(g, ops[0]);
      AllocatedStrictlyIncreasing(g1, ops[1..]);
      AllocatedWithinCounter(g1, ops[1..]);
      var rest := Allocated(g1, ops[1..]);
      if ops[0].AddNodeOp? {
        var all := Allocated(g, ops);
        assert all == [g.nextNodeId] + rest;
        assert g1.nextNodeId == g.nextNodeId + 1;
        forall i, j | 0 <= i < j < |all|
          ensures all[i] < all[j]
        {
          assert all[j] == rest[j - 1];
          if i > 0 { assert all[i] == rest[i - 1]; }
        }
      } else {
        assert Allocated(g, ops) == rest;
      }
    }
  }

  /** At every point of a session each connection joins live nodes at ports within their lists. */
  lemma ConnectionsStayAnchored(g: Graph, ops: seq<Op>, c: ConnectionId)
    requires WellFormed(g)
    requires ConnectionExists(Run(g, ops), c)
    ensures NodeExists(Run(g, ops), c.outNodeId) && NodeExists(Run(g, ops), c.inNodeId)
    ensures c.outPortIndex < |Run(g, ops).nodes[c.outNodeId].outputs|
    ensures c.inPortIndex < |Run(g, ops).nodes[c.inNodeId].inputs|
  {
  }

  /**
   The model itself puts no limit on the input side: a second compatible
   connection into an input port that already holds one is inserted, and
   both are then anchored at that port.
   */
  lemma InputFanInNotLimited(g: Graph, c: ConnectionId, d: ConnectionId)
    requires WellFormed(g) && ConnectionExists(g, c)
    requires d.inNodeId == c.inNodeId && d.inPortIndex == c.inPortIndex && d != c
    requires Anchored(g, d)
    requires Compatible(g.nodes[d.outNodeId].outputs[d.outPortIndex], g.nodes[d.inNodeId].inputs[d.inPortIndex])
    ensures {c, d} <= Connections(AddConnection(g, d).next, c.inNodeId, In, c.inPortIndex)
  {
  }
}
