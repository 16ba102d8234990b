/**
 The node-graph model on values: the read-only queries and role reads of
 the model, and each mutating operation as a function from the state
 before the call to what the call returns and the state after it. The
 class in module NodeGraph is proved against these functions.
 */
module GraphModel {
  import opened GraphTypes

  // ---------------------------------------------------------------------
  // Identity and connectivity queries

  /** Membership of `id` in the live id set; in a well-formed state every instance's id exists and lies below the counter. */
  predicate NodeExists(g: Graph, id: NodeId)
    ensures WellFormed(g) && id in g.nodes ==> NodeExists(g, id)
    ensures WellFormed(g) && NodeExists(g, id) ==> id < g.nextNodeId
  {
    id in g.nodeIds
  }

  /** The live ids: in a well-formed state they include every node instance and lie below the counter. */
  function AllNodeIds(g: Graph): (r: set<NodeId>)
    ensures forall id :: id in r <==> NodeExists(g, id)
    ensures WellFormed(g) ==> g.nodes.Keys <= r
    ensures WellFormed(g) ==> forall id :: id in r ==> id < g.nextNodeId
  {
    g.nodeIds
  }

  /** Membership of `c` in the connectivity set; in a well-formed state both its end nodes exist. */
  predicate ConnectionExists(g: Graph, c: ConnectionId)
    ensures WellFormed(g) && ConnectionExists(g, c) ==>
      NodeExists(g, c.inNodeId) && NodeExists(g, c.outNodeId)
  {
    c in g.connectivity
  }

  /** The connections with `n` at either end. */
  function AllConnectionIds(g: Graph, n: NodeId): (r: set<ConnectionId>)
    ensures r <= g.connectivity
    ensures forall c :: c in r <==> ConnectionExists(g, c) && Touches(c, n)
  {
    set c | c in g.connectivity && Touches(c, n)
  }

  /** The connections anchored at port `i` on side `t` of node `n`. */
  function Connections(g: Graph, n: NodeId, t: PortType, i: PortIndex): (r: set<ConnectionId>)
    ensures r <= AllConnectionIds(g, n)
    ensures forall c :: c in r <==> ConnectionExists(g, c) && EndNode(t, c) == n && EndPort(t, c) == i
  {
    set c | c in g.connectivity && EndNode(t, c) == n && EndPort(t, c) == i
  }

  /** A connection touches `n` exactly when it is anchored at one of `n`'s ports, on either side. */
  lemma AllConnectionIdsByPort(g: Graph, n: NodeId, c: ConnectionId)
    ensures c in AllConnectionIds(g, n) <==>
      c in Connections(g, n, In, c.inPortIndex) || c in Connections(g, n, Out, c.outPortIndex)
  {
  }

  /** In a well-formed state a node without an instance has no connections. */
  lemma NoConnectionsWithoutInstance(g: Graph, n: NodeId)
    requires WellFormed(g)
    requires n !in g.nodes
    ensures AllConnectionIds(g, n) == {}
  {
  }

  // ---------------------------------------------------------------------
  // Port resolution and compatibility

  /**
   The (output, input) ports of connection `c`, looked up as the model
   does: the input node, its input port, the output node, its output port.
   */
  function ResolvePorts(g: Graph, c: ConnectionId): (r: Outcome<(Port, Port)>)
    ensures r.Ok? <==> Anchored(g, c)
    ensures r.Ok? ==> r.value == (g.nodes[c.outNodeId].outputs[c.outPortIndex],
                                  g.nodes[c.inNodeId].inputs[c.inPortIndex])
    ensures r.Throws? && c.inNodeId !in g.nodes ==> r.failure == NodeNotFound
  {
    if c.inNodeId !in g.nodes then Throws(NodeNotFound)
    else if c.inPortIndex >= |g.nodes[c.inNodeId].inputs| then Throws(PortNotFound)
    else if c.outNodeId !in g.nodes then Throws(NodeNotFound)
    else if c.outPortIndex >= |g.nodes[c.outNodeId].outputs| then Throws(PortNotFound)
    else Ok((g.nodes[c.outNodeId].outputs[c.outPortIndex], g.nodes[c.inNodeId].inputs[c.inPortIndex]))
  }

  /**
   Whether `c` may be inserted: both ports must resolve; then the answer
   is that the ports are compatible and `c` is not yet present.
   */
  function ConnectionPossible(g: Graph, c: ConnectionId): (r: Outcome<bool>)
    ensures r.Ok? <==> Anchored(g, c)
    ensures r.Ok? ==> (r.value <==> (!ConnectionExists(g, c) &&
      Compatible(g.nodes[c.outNodeId].outputs[c.outPortIndex], g.nodes[c.inNodeId].inputs[c.inPortIndex])))
    ensures r == Ok(true) ==> !ConnectionExists(g, c)
  {
    match ResolvePorts(g, c)
    case Throws(f) => Throws(f)
    case Ok((output, input)) => Ok(Compatible(output, input) && c !in g.connectivity)
  }

  /** Both ports of `c` resolve and the output port's connect step accepts the input port. */
  predicate PortsAccept(g: Graph, c: ConnectionId)
  {
    match ResolvePorts(g, c)
    case Throws(_) => false
    case Ok((output, input)) => Compatible(output, input)
  }

  // ---------------------------------------------------------------------
  // Role-based access

  /** The geometry entry of `id`; an id never written reads as the default. */
  function GeometryOf(g: Graph, id: NodeId): (r: Geometry)
  {
    if id in g.geometry then g.geometry[id] else DefaultGeometry
  }

  /** The node roles whose read looks up the node instance. */
  predicate ReadsInstance(role: NodeRole)
  {
    role.Type? || role.Caption? || role.InPortCount? || role.OutPortCount?
  }

  /**
   The value of a node role. Type and Caption give the instance's name,
   the counts its port-list lengths; Position and Size come from the
   geometry table and never fail; Style is a theme value outside this model.
   */
  function NodeData(g: Graph, id: NodeId, role: NodeRole): (r: Outcome<Variant>)
    ensures r.Throws? <==> ReadsInstance(role) && id !in g.nodes
    ensures r.Throws? ==> r.failure == NodeNotFound
    ensures role == Position ==> r.Ok? && r.value.PointValue?
    ensures role == Size ==> r.Ok? && r.value.SizeValue?
    ensures r.Ok? && (role == Type || role == Caption) ==> r.value == Text(g.nodes[id].name)
    ensures role == CaptionVisible ==> r == Ok(Flag(true))
    ensures r.Ok? && role == InPortCount ==> r.value == Count(|g.nodes[id].inputs|)
    ensures r.Ok? && role == OutPortCount ==> r.value == Count(|g.nodes[id].outputs|)
  {
    match role
    case Type => if id in g.nodes then Ok(Text(g.nodes[id].name)) else Throws(NodeNotFound)
    case Position => Ok(PointValue(GeometryOf(g, id).pos))
    case Size => Ok(SizeValue(GeometryOf(g, id).size))
    case CaptionVisible => Ok(Flag(true))
    case Caption => if id in g.nodes then Ok(Text(g.nodes[id].name)) else Throws(NodeNotFound)
    case Style => Ok(NodeStyle)
    case InternalData => Ok(Empty)
    case InPortCount => if id in g.nodes then Ok(Count(|g.nodes[id].inputs|)) else Throws(NodeNotFound)
    case OutPortCount => if id in g.nodes then Ok(Count(|g.nodes[id].outputs|)) else Throws(NodeNotFound)
    case Widget => Ok(Empty)
  }

  /** An id whose geometry was never written reads the origin and the invalid size (-1, -1). */
  lemma UnwrittenGeometryReadsDefault(g: Graph, id: NodeId)
    requires id !in g.geometry
    ensures NodeData(g, id, Position) == Ok(PointValue(Point(0, 0)))
    ensures NodeData(g, id, Size) == Ok(SizeValue(Extent(-1, -1)))
  {
  }

  /**
   The port a flat index selects: inputs first, then outputs. It agrees
   with indexing the concatenation of the two lists.
   */
  function PortAt(node: NodeInfo, i: PortIndex): (r: Option<Port>)
    ensures r.Some? <==> i < |node.inputs + node.outputs|
    ensures r.Some? ==> r.value == (node.inputs + node.outputs)[i]
  {
    if i < |node.inputs| then Some(node.inputs[i])
    else if i - |node.inputs| < |node.outputs| then Some(node.outputs[i - |node.inputs|])
    else None
  }

  /** The port a port-role access resolves; the port type plays no part. */
  function LookupPort(g: Graph, id: NodeId, t: PortType, i: PortIndex): (r: Outcome<Port>)
    ensures r.Ok? <==> id in g.nodes && i < |g.nodes[id].inputs| + |g.nodes[id].outputs|
    ensures id !in g.nodes ==> r == Throws(NodeNotFound)
    ensures r.Ok? ==> Some(r.value) == PortAt(g.nodes[id], i)
  {
    if id !in g.nodes then Throws(NodeNotFound)
    else match PortAt(g.nodes[id], i)
      case None => Throws(PortNotFound)
      case Some(p) => Ok(p)
  }

  /** The value of a port role. */
  function PortData(g: Graph, id: NodeId, t: PortType, i: PortIndex, role: PortRole): (r: Outcome<Variant>)
    ensures r.Throws? <==> LookupPort(g, id, t, i).Throws?
    ensures r.Ok? && role == ConnectionPolicyRole ==>
      r.value == Policy(if LookupPort(g, id, t, i).value.isInput then One else Many)
    ensures r.Ok? && role == DataType ==> r.value == Text(LookupPort(g, id, t, i).value.dataType)
    ensures r.Ok? && role == PortCaption ==> r.value == Text(LookupPort(g, id, t, i).value.caption)
    ensures r.Ok? && role == Data ==> r.value == Empty
    ensures r.Ok? && role == PortCaptionVisible ==> r.value == Flag(true)
  {
    match LookupPort(g, id, t, i)
    case Throws(f) => Throws(f)
    case Ok(p) =>
      match role
      case Data => Ok(Empty)
      case DataType => Ok(Text(p.dataType))
      case ConnectionPolicyRole => Ok(Policy(if p.isInput then One else Many))
      case PortCaptionVisible => Ok(Flag(true))
      case PortCaption => Ok(Text(p.caption))
  }

  /** A port-role write: the port is still looked up, and no role accepts the write. */
  function SetPortData(g: Graph, id: NodeId, t: PortType, i: PortIndex, v: Variant, role: PortRole): (r: Outcome<bool>)
    ensures r != Ok(true)
    ensures r.Throws? <==> LookupPort(g, id, t, i).Throws?
  {
    match LookupPort(g, id, t, i)
    case Throws(f) => Throws(f)
    case Ok(_) => Ok(false)
  }

  /** The flat index ignores the port type: both types read the same port. */
  lemma PortDataIgnoresPortType(g: Graph, id: NodeId, i: PortIndex, role: PortRole)
    ensures PortData(g, id, In, i, role) == PortData(g, id, Out, i, role)
  {
  }

  /**
   For a node whose ports carry their own direction, the policy read at a
   flat index below the input count is One, and Many at the outputs.
   */
  lemma ConnectionPolicyByFlatIndex(g: Graph, id: NodeId, t: PortType, i: PortIndex)
    requires id in g.nodes && Oriented(g.nodes[id])
    requires i < |g.nodes[id].inputs| + |g.nodes[id].outputs|
    ensures PortData(g, id, t, i, ConnectionPolicyRole) ==
      Ok(Policy(if i < |g.nodes[id].inputs| then One else Many))
  {
  }

  // ---------------------------------------------------------------------
  // Mutating operations, as functions of the state before the call

  /**
   Adds a node. The requested kind is ignored: the node is always a
   Negate node. The id is the counter's value; the counter moves past it.
   An id already holding an instance keeps its instance.
   */
  function AddNode(g: Graph, nodeType: string): (r: Step<NodeId>)
    ensures r.out.Ok? && r.out.value == g.nextNodeId
    ensures WellFormed(g) ==> r.out.value !in g.nodeIds && WellFormed(r.next)
    ensures r.out.value < r.next.nextNodeId
    ensures NodeExists(r.next, r.out.value) && r.next.nodeIds == g.nodeIds + {r.out.value}
    ensures WellFormed(g) ==> r.next.nodes == g.nodes[r.out.value := NegateNode]
    ensures r.next.connectivity == g.connectivity && r.next.geometry == g.geometry
  {
    var id := g.nextNodeId;
    var nodes := if id in g.nodes then g.nodes else g.nodes[id := NegateNode];
    Step(Ok(id), g.(nextNodeId := id + 1, nodeIds := g.nodeIds + {id}, nodes := nodes))
  }

  /** A node just added is a Negate node with one input and one output. */
  lemma AddedNodeReads(g: Graph, nodeType: string)
    requires WellFormed(g)
    ensures var s := AddNode(g, nodeType);
      && NodeData(s.next, s.out.value, Type) == Ok(Text("Negate"))
      && NodeData(s.next, s.out.value, InPortCount) == Ok(Count(1))
      && NodeData(s.next, s.out.value, OutPortCount) == Ok(Count(1))
  {
  }

  /** The kind argument does not influence what AddNode does. */
  lemma AddNodeIgnoresKind(g: Graph, kind1: string, kind2: string)
    ensures AddNode(g, kind1) == AddNode(g, kind2)
  {
  }

  /**
   Inserts `c` when both ports resolve and the output port accepts the
   input port; otherwise nothing changes. An input port already holding a
   connection is not refused.
   */
  function AddConnection(g: Graph, c: ConnectionId): (r: Step<()>)
    ensures r.out.Ok? <==> Anchored(g, c)
    ensures r.next.(connectivity := g.connectivity) == g
    ensures r.next.connectivity == if PortsAccept(g, c) then g.connectivity + {c} else g.connectivity
    ensures ConnectionExists(r.next, c) <==>
      ConnectionExists(g, c) || ConnectionPossible(g, c) == Ok(true)
    ensures WellFormed(g) ==> WellFormed(r.next)
  {
    match ResolvePorts(g, c)
    case Throws(f) => Step(Throws(f), g)
    case Ok((output, input)) =>
      if Compatible(output, input) then Step(Ok(()), g.(connectivity := g.connectivity + {c}))
      else Step(Ok(()), g)
  }

  /** When ConnectionPossible says yes, AddConnection grows the set by exactly `c`; when `c` is present it changes nothing. */
  lemma AddConnectionAgreesWithPossible(g: Graph, c: ConnectionId)
    ensures ConnectionPossible(g, c) == Ok(true) ==>
      AddConnection(g, c).next.connectivity == g.connectivity + {c} &&
      |AddConnection(g, c).next.connectivity| == |g.connectivity| + 1
    ensures ConnectionExists(g, c) ==> AddConnection(g, c).next == g
  {
  }

  /**
   Removes `c`. Both ports are resolved before membership matters, so an
   unresolvable `c` throws even when absent; otherwise the result says
   whether `c` was present.
   */
  function DeleteConnection(g: Graph, c: ConnectionId): (r: Step<bool>)
    ensures r.out.Ok? <==> Anchored(g, c)
    ensures r.out.Throws? ==> r.next == g
    ensures r.out.Ok? ==> (r.out.value <==> ConnectionExists(g, c))
    ensures r.out.Ok? ==> r.next == g.(connectivity := g.connectivity - {c})
    ensures WellFormed(g) && ConnectionExists(g, c) ==> r.out == Ok(true)
    ensures WellFormed(g) ==> WellFormed(r.next)
  {
    match ResolvePorts(g, c)
    case Throws(f) => Step(Throws(f), g)
    case Ok(_) => Step(Ok(c in g.connectivity), g.(connectivity := g.connectivity - {c}))
  }

  /**
   Deletes node `n`: first every connection touching it, then its id, its
   instance and its geometry. It succeeds for an unknown id too. In a
   well-formed state every connection it deletes resolves.
   */
  function DeleteNode(g: Graph, n: NodeId): (r: Step<bool>)
    ensures r.out == Ok(true)
    ensures AllConnectionIds(r.next, n) == {}
    ensures !NodeExists(r.next, n) && n !in r.next.nodes && n !in r.next.geometry
    ensures r.next.nextNodeId == g.nextNodeId
    ensures WellFormed(g) ==> WellFormed(r.next)
  {
    Step(Ok(true), Graph(
      g.nextNodeId,
      g.nodeIds - {n},
      g.nodes - {n},
      g.geometry - {n},
      g.connectivity - AllConnectionIds(g, n)))
  }

  /**
   Cascade deletion: afterwards no connection touches `n`, every
   connection not touching it survives, and every other node keeps its
   id, its instance and its geometry.
   */
  lemma DeleteNodeCascade(g: Graph, n: NodeId)
    ensures forall c :: ConnectionExists(DeleteNode(g, n).next, c) ==> !Touches(c, n)
    ensures forall c :: ConnectionExists(g, c) && !Touches(c, n) ==> ConnectionExists(DeleteNode(g, n).next, c)
    ensures DeleteNode(g, n).next.connectivity <= g.connectivity
    ensures DeleteNode(g, n).next.nodeIds == g.nodeIds - {n}
    ensures DeleteNode(g, n).next.nodes == g.nodes - {n}
    ensures forall k :: k != n ==> (NodeExists(DeleteNode(g, n).next, k) <==> NodeExists(g, k))
    ensures forall k :: k != n && k in g.nodes ==>
      k in DeleteNode(g, n).next.nodes && DeleteNode(g, n).next.nodes[k] == g.nodes[k]
    ensures forall k :: k != n ==> GeometryOf(DeleteNode(g, n).next, k) == GeometryOf(g, k)
  {
  }

  /**
   A node-role write. Position and Size are accepted and change only that
   field of that id's geometry (creating the entry if needed, even for an
   id with no node); every other role is refused and changes nothing.
   */
  function SetNodeData(g: Graph, id: NodeId, role: NodeRole, v: Variant): (r: Step<bool>)
    ensures r.out.Ok? && (r.out.value <==> role == Position || role == Size)
    ensures !r.out.value ==> r.next == g
    ensures r.next.(geometry := g.geometry) == g
    ensures forall k :: k != id ==> GeometryOf(r.next, k) == GeometryOf(g, k)
    ensures role == Position ==> NodeData(r.next, id, Position) == Ok(PointValue(ToPoint(v)))
    ensures role == Position ==> NodeData(r.next, id, Size) == NodeData(g, id, Size)
    ensures role == Size ==> NodeData(r.next, id, Size) == Ok(SizeValue(ToExtent(v)))
    ensures role == Size ==> NodeData(r.next, id, Position) == NodeData(g, id, Position)
    ensures WellFormed(g) ==> WellFormed(r.next)
  {
    var before := GeometryOf(g, id);
    match role
    case Position => Step(Ok(true), g.(geometry := g.geometry[id := before.(pos := ToPoint(v))]))
    case Size => Step(Ok(true), g.(geometry := g.geometry[id := before.(size := ToExtent(v))]))
    case _ => Step(Ok(false), g)
  }

  /** Any write followed by a read of another role, or of another node, reads what was there before. */
  lemma SetNodeDataFrame(g: Graph, id: NodeId, role: NodeRole, v: Variant, k: NodeId, other: NodeRole)
    requires k != id || (other != role && (role == Position || role == Size))
    ensures NodeData(SetNodeData(g, id, role, v).next, k, other) == NodeData(g, k, other)
  {
  }

  /** The record that persists node `id`: its full id and its position. */
  function SaveNode(g: Graph, id: NodeId): (r: NodeRecord)
    ensures r.id == Some(id)
    ensures NodeData(g, id, Position) == Ok(PointValue(RecordPosition(r)))
  {
    var p := GeometryOf(g, id).pos;
    NodeRecord(Some(id), Some(PositionRecord(Some(p.x), Some(p.y))))
  }

  /**
   Restores a node from a record: the counter moves strictly above the
   restored id, the id becomes live without a node instance, and the
   stored position is written as a Position write would.
   */
  function LoadNode(g: Graph, rec: NodeRecord): (r: Step<()>)
    ensures r.out.Ok?
    ensures r.next.nextNodeId == if g.nextNodeId > RecordId(rec) then g.nextNodeId else RecordId(rec) + 1
    ensures RecordId(rec) < r.next.nextNodeId && g.nextNodeId <= r.next.nextNodeId
    ensures r.next.nodeIds == g.nodeIds + {RecordId(rec)}
    ensures r.next.nodes == g.nodes && r.next.connectivity == g.connectivity
    ensures NodeData(r.next, RecordId(rec), Position) == Ok(PointValue(RecordPosition(rec)))
    ensures NodeData(r.next, RecordId(rec), Size) == NodeData(g, RecordId(rec), Size)
    ensures forall k :: k != RecordId(rec) ==> GeometryOf(r.next, k) == GeometryOf(g, k)
    ensures WellFormed(g) ==> WellFormed(r.next)
  {
    var id := RecordId(rec);
    var registered := g.(nextNodeId := if g.nextNodeId > id then g.nextNodeId else id + 1,
                         nodeIds := g.nodeIds + {id});
    var written := SetNodeData(registered, id, Position, PointValue(RecordPosition(rec)));
    Step(Ok(()), written.next)
  }

  /**
   Saving a node and loading the record into any state restores its id
   and its position when the id fits a signed 32-bit int; a larger id
   comes back as 0, and the position is restored under id 0.
   */
  lemma SaveLoadRoundTrip(g: Graph, h: Graph, id: NodeId)
    ensures id < IntIdLimit ==> NodeExists(LoadNode(h, SaveNode(g, id)).next, id)
    ensures id < IntIdLimit ==> id < LoadNode(h, SaveNode(g, id)).next.nextNodeId
    ensures id < IntIdLimit ==>
      NodeData(LoadNode(h, SaveNode(g, id)).next, id, Position) == NodeData(g, id, Position)
    ensures id >= IntIdLimit ==> RecordId(SaveNode(g, id)) == 0
    ensures id >= IntIdLimit ==> NodeExists(LoadNode(h, SaveNode(g, id)).next, 0)
    ensures id >= IntIdLimit ==>
      NodeData(LoadNode(h, SaveNode(g, id)).next, 0, Position) == NodeData(g, id, Position)
  {
  }

  /**
   A restored id that had no instance exists afterwards, yet the roles
   that read the instance throw for it: restoring does not build a node.
   */
  lemma LoadedNodeHasNoInstance(g: Graph, rec: NodeRecord)
    requires RecordId(rec) !in g.nodes
    ensures NodeExists(LoadNode(g, rec).next, RecordId(rec))
    ensures NodeData(LoadNode(g, rec).next, RecordId(rec), Type) == Throws(NodeNotFound)
    ensures PortData(LoadNode(g, rec).next, RecordId(rec), In, 0, DataType) == Throws(NodeNotFound)
  {
  }
}
