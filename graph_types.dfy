/**
 The entities of the node-graph editor's data model: node and port
 identities, connections, the node instances built by the model, node
 geometry, the roles the presentation layer reads and writes, the values
 those roles answer with, persisted node records and lifecycle events.
 */
module GraphTypes {

  /** Node handles; the model never wraps them. */
  type NodeId = nat

  /** Zero-based index of a port within its direction's list. */
  type PortIndex = nat

  /** Which side of a connection a port is on. */
  datatype PortType = In | Out

  /** A directed edge from an output port to an input port, compared structurally. */
  datatype ConnectionId = ConnectionId(
    outNodeId: NodeId,
    outPortIndex: PortIndex,
    inNodeId: NodeId,
    inPortIndex: PortIndex)

  /** The node of connection `c` on side `t`. */
  function EndNode(t: PortType, c: ConnectionId): (r: NodeId)
  {
    match t
    case In => c.inNodeId
    case Out => c.outNodeId
  }

  /** The port index of connection `c` on side `t`. */
  function EndPort(t: PortType, c: ConnectionId): (r: PortIndex)
  {
    match t
    case In => c.inPortIndex
    case Out => c.outPortIndex
  }

  /** True iff `c` has node `n` at either end. */
  predicate Touches(c: ConnectionId, n: NodeId)
  {
    c.inNodeId == n || c.outNodeId == n
  }

  /** A port: a data-type tag, its direction and a caption. */
  datatype Port = Port(dataType: string, isInput: bool, caption: string)

  /** A node instance: a display name and its ordered input and output ports. */
  datatype NodeInfo = NodeInfo(name: string, inputs: seq<Port>, outputs: seq<Port>)

  /** Every input port says it is an input and every output port says it is not. */
  predicate Oriented(node: NodeInfo)
  {
    && (forall i :: 0 <= i < |node.inputs| ==> node.inputs[i].isInput)
    && (forall i :: 0 <= i < |node.outputs| ==> !node.outputs[i].isInput)
  }

  /**
   The only node kind the model builds: an integer negation node with one
   `int` input and one `int` output. Port captions belong to a node class
   outside this model; "in" and "out" stand for them.
   */
  const NegateNode: NodeInfo :=
    NodeInfo("Negate", [Port("int", true, "in")], [Port("int", false, "out")])

  /** The output port accepts the input port when their data types agree. */
  predicate Compatible(output: Port, input: Port)
  {
    output.dataType == input.dataType
  }

  /** Integer stand-ins for the scene's point and size values. */
  datatype Point = Point(x: int, y: int)
  datatype Extent = Extent(width: int, height: int)

  /** Presentation metadata kept beside each node. */
  datatype Geometry = Geometry(pos: Point, size: Extent)

  /** What a geometry entry holds before anything is written: the origin and an invalid (-1, -1) size. */
  const DefaultGeometry: Geometry := Geometry(Point(0, 0), Extent(-1, -1))

  /** Node-scoped roles. */
  datatype NodeRole =
    | Type | Position | Size | CaptionVisible | Caption | Style
    | InternalData | InPortCount | OutPortCount | Widget

  /** Port-scoped roles. */
  datatype PortRole = Data | DataType | ConnectionPolicyRole | PortCaptionVisible | PortCaption

  /** How many connections a port admits, as reported to the view. */
  datatype ConnectionPolicy = One | Many

  /** The values role reads answer with, and role writes receive. */
  datatype Variant =
    | Empty
    | Text(text: string)
    | PointValue(point: Point)
    | SizeValue(extent: Extent)
    | Flag(flag: bool)
    | Count(count: nat)
    | Policy(policy: ConnectionPolicy)
    | NodeStyle

  /** A variant read as a point: anything but a point reads as the origin. */
  function ToPoint(v: Variant): (r: Point)
  {
    if v.PointValue? then v.point else Point(0, 0)
  }

  /** A variant read as a size: anything but a size reads as the invalid size. */
  function ToExtent(v: Variant): (r: Extent)
  {
    if v.SizeValue? then v.extent else Extent(-1, -1)
  }

  /** Why a call did not complete. */
  datatype Failure =
    | NodeNotFound   // a node id absent from the node map was looked up
    | PortNotFound   // a port index beyond the node's port list was looked up

  /** The outcome of a call that may throw. */
  datatype Outcome<T> = Ok(value: T) | Throws(failure: Failure)

  /** What an operation returns, with the state it leaves behind. */
  datatype Step<T> = Step(out: Outcome<T>, next: Graph)

  /** The persisted position object; a missing coordinate reads as 0. */
  datatype PositionRecord = PositionRecord(x: Option<int>, y: Option<int>)

  /**
   The persisted node record. The id is stored as a 64-bit integer; a
   missing position reads as the origin.
   */
  datatype NodeRecord = NodeRecord(id: Option<NodeId>, position: Option<PositionRecord>)

  datatype Option<T> = None | Some(value: T)

  function OrZero(o: Option<int>): (r: int)
  {
    if o.Some? then o.value else 0
  }

  /** One above the largest id a record can restore: the stored id is read back as a signed 32-bit int. */
  const IntIdLimit: nat := 0x8000_0000

  /**
   The id a record restores: the stored id when it fits a signed 32-bit
   int, and the read's default 0 when it is missing or does not fit.
   */
  function RecordId(rec: NodeRecord): (r: NodeId)
    ensures r < IntIdLimit
    ensures rec.id.Some? && rec.id.value < IntIdLimit ==> r == rec.id.value
  {
    if rec.id.Some? && rec.id.value < IntIdLimit then rec.id.value else 0
  }

  /** The position a record restores. */
  function RecordPosition(rec: NodeRecord): (r: Point)
  {
    match rec.position
    case None => Point(0, 0)
    case Some(p) => Point(OrZero(p.x), OrZero(p.y))
  }

  /** Lifecycle notifications, in the order the model emits them. */
  datatype Event =
    | NodeCreated(node: NodeId)
    | NodeDeleted(node: NodeId)
    | NodePositionUpdated(node: NodeId)
    | ConnectionCreated(connection: ConnectionId)
    | ConnectionDeleted(connection: ConnectionId)

  /**
   The model's whole state: the id counter, the live ids, the node
   instances, the geometry side table and the connectivity set.
   */
  datatype Graph = Graph(
    nextNodeId: NodeId,
    nodeIds: set<NodeId>,
    nodes: map<NodeId, NodeInfo>,
    geometry: map<NodeId, Geometry>,
    connectivity: set<ConnectionId>)

  /** The state of a freshly constructed model. */
  const EmptyGraph: Graph := Graph(0, {}, map[], map[], {})

  /** Connection `c` references existing node instances and ports within their lists. */
  predicate Anchored(g: Graph, c: ConnectionId)
  {
    && c.outNodeId in g.nodes
    && c.outPortIndex < |g.nodes[c.outNodeId].outputs|
    && c.inNodeId in g.nodes
    && c.inPortIndex < |g.nodes[c.inNodeId].inputs|
  }

  /**
   The invariant every operation keeps: every node instance has a live id
   (restored ids may lack one), every live id is below the counter, every
   connection is anchored, and every instance's ports carry their own
   direction.
   */
  predicate WellFormed(g: Graph)
  {
    && g.nodes.Keys <= g.nodeIds
    && (forall id :: id in g.nodeIds ==> id < g.nextNodeId)
    && (forall c :: c in g.connectivity ==> Anchored(g, c))
    && (forall id :: id in g.nodes ==> Oriented(g.nodes[id]))
  }
}
