# NodeGraphModel in Dafny

This project models the in-memory graph model behind the node-graph editor,
`NodeGraphModel` in `binding/NodeGraphModel.cpp`. The model's state has five parts:

- an id counter;
- the set of live node ids;
- a map from id to node instance, where each instance is a name plus ordered input and output port lists;
- a geometry side table holding position and size;
- the set of connections, each an output port of one node joined to an input port of a node.

The model has three layers:

- `GraphTypes` (`graph_types.dfy`) holds the entities:
  - ids, ports, node instances, connections, geometry, the roles and the values they answer with;
  - the persisted node record and the lifecycle events;
  - the well-formedness invariant `WellFormed`. It says four things:
    - every instance has a live id;
    - every live id is below the counter;
    - every connection joins existing instances at ports within their lists;
    - every instance's input ports say they are inputs and its output ports say they are not.
- `GraphModel` (`graph_model.dfy`) is the model on values:
  - the queries and role reads are functions;
  - each mutating operation is a function from the state before the call to a `Step` holding the call's result and the state after it;
  - a call that throws is modelled as `Throws(NodeNotFound)` or `Throws(PortNotFound)`.
- `NodeGraph` (`node_graph_model.dfy`) is the class `NodeGraphModel`:
  - its fields are updated in place, and its methods do the same steps as the C++ code;
  - each method is proved to leave exactly the state its `GraphModel` counterpart describes;
  - each method appends to a ghost event log the lifecycle notifications the code emits, in the order it emits them.
  - Node deletion walks a snapshot of the node's connections in a loop that calls `DeleteConnection`. The loop is `DeleteEach`. It is proved to emit one connection-deleted event per snapshot member, in some order, before the node-deleted event.
- `GraphTraces` (`graph_traces.dfy`) covers whole sessions:
  - any sequence of mutating calls keeps the state well formed;
  - the ids that `AddNode` hands out strictly increase;
  - the next id is above every id that was allocated or restored.

Where the code and its description disagree, the model follows the code:

- `deleteNode` returns true also for an unknown id.
- `loadNode` registers an id without building a node instance, so role reads that look up the instance throw for such an id.
- `addNode` ignores the requested node kind.
- `portData` and `setPortData` ignore the port type: the flat index picks the inputs first, then the outputs, whatever side is asked for.
- `addConnection` itself has no fan-in check, although the input port reports the policy One. It inserts the connection and emits the created event whenever the output port's `connectTo` accepts the input port. If `connectTo` accepts a connection that is already present, the event is emitted again. In the model `connectTo` accepts every compatible pair (see "## Left out"), so both hold in the model.
- `deleteConnection` resolves both ports before it checks membership, so an unresolvable connection throws even when it is absent.
- `saveNode` stores the full id as a 64-bit integer, but `loadNode` reads it back as a signed 32-bit int, whose read gives 0 for a value that does not fit. A saved id of 2^31 or more is therefore restored as id 0.

## Model

| member | source | states |
|---|---|---|
| GraphModel.NodeExists | binding/NodeGraphModel.cpp:85-88 | in a well-formed state, every node instance's id exists, and every existing id is below the counter |
| GraphModel.AllNodeIds | binding/NodeGraphModel.cpp:12-15 | an id is in the result iff it exists; in a well-formed state the result covers every instance and lies below the counter |
| GraphModel.ConnectionExists | binding/NodeGraphModel.cpp:48-51 | in a well-formed state, an existing connection has both end nodes live |
| GraphModel.AllConnectionIds | binding/NodeGraphModel.cpp:17-29 | a connection is in the result iff it exists and has the node as its input or output node |
| GraphModel.Connections | binding/NodeGraphModel.cpp:31-46 | a connection is in the result iff it exists and its end on the given side has that node and that port index; the result is part of AllConnectionIds |
| GraphModel.AllConnectionIdsByPort | binding/NodeGraphModel.cpp:17-46 | a connection touches a node iff it is among that node's connections at its input port or at its output port |
| GraphModel.NoConnectionsWithoutInstance | binding/NodeGraphModel.cpp:73-83 | in a well-formed state, an id with no instance has no connections |
| GraphModel.ResolvePorts | binding/NodeGraphModel.cpp:75-76 | port resolution succeeds iff both nodes exist and both indices are within their lists; it then yields those two ports; a missing input node is NodeNotFound |
| GraphModel.ConnectionPossible | binding/NodeGraphModel.cpp:66-71 | throws iff a port does not resolve; otherwise true iff the ports are compatible and the connection is not yet present |
| GraphModel.NodeData | binding/NodeGraphModel.cpp:90-139 | Type, Caption and the port counts throw NodeNotFound exactly for an id without an instance; Position and Size never fail; Type and Caption give the instance's name; InPortCount and OutPortCount give the lengths of its input and output lists; CaptionVisible gives true |
| GraphModel.UnwrittenGeometryReadsDefault | binding/NodeGraphModel.cpp:101-107 | an id whose geometry was never written reads position (0, 0) and the invalid size (-1, -1) |
| GraphModel.PortAt | binding/NodeGraphModel.cpp:193-194 | a flat index selects a port iff it is below the input count plus the output count, and selects entry i of inputs followed by outputs |
| GraphModel.LookupPort | binding/NodeGraphModel.cpp:191-194 | the lookup succeeds iff the node has an instance and the flat index is in range; it then yields the port PortAt selects; an id without an instance is NodeNotFound |
| GraphModel.PortData | binding/NodeGraphModel.cpp:186-219 | throws iff the port lookup throws; the policy is One for an input port and Many otherwise; DataType and Caption give the port's tag and caption; PortCaptionVisible gives true; Data is empty |
| GraphModel.SetPortData | binding/NodeGraphModel.cpp:221-253 | never returns true; throws iff the port lookup throws |
| GraphModel.PortDataIgnoresPortType | binding/NodeGraphModel.cpp:186-194 | a port read gives the same answer for both port types |
| GraphModel.ConnectionPolicyByFlatIndex | binding/NodeGraphModel.cpp:204-206 | for a node whose ports carry their direction, which WellFormed guarantees for every instance, the policy is One at a flat index below the input count and Many at or above it |
| GraphModel.AddNode | binding/NodeGraphModel.cpp:53-64 | returns the counter's old value, which was not live before; the id is live afterwards and below the new counter; the live ids grow by exactly that id; in a well-formed state the instances grow by one Negate node; geometry and connections are unchanged; well-formedness is kept |
| GraphModel.AddedNodeReads | binding/NodeGraphModel.cpp:53-59 | a node just added reads Type "Negate" and reports one input port and one output port |
| GraphModel.AddNodeIgnoresKind | binding/NodeGraphModel.cpp:53-58 | the requested node kind does not change the outcome |
| GraphModel.AddConnection | binding/NodeGraphModel.cpp:73-83 | throws iff a port does not resolve; only the connection set changes; it grows by the connection iff the ports are compatible; afterwards the connection exists iff it existed or was possible; well-formedness is kept |
| GraphModel.AddConnectionAgreesWithPossible | binding/NodeGraphModel.cpp:66-83 | when a connection is possible, adding it grows the set by exactly one element; re-adding an existing connection changes nothing |
| GraphModel.DeleteConnection | binding/NodeGraphModel.cpp:255-274 | throws iff a port does not resolve, and then changes nothing; otherwise returns whether the connection was present and leaves the old set minus it; an existing connection in a well-formed state is always deleted; well-formedness is kept |
| GraphModel.DeleteNode | binding/NodeGraphModel.cpp:276-292 | returns true; afterwards no connection touches the node; the id, the instance and the geometry of the node are gone; the counter is unchanged; well-formedness is kept |
| GraphModel.DeleteNodeCascade | binding/NodeGraphModel.cpp:276-292 | every surviving connection avoids the node; every connection not touching it survives; no connection is added; the live ids and the instances lose exactly `n`; every other node keeps its liveness, its instance and its geometry |
| GraphModel.SetNodeData | binding/NodeGraphModel.cpp:141-184 | returns true iff the role is Position or Size; a refused write changes nothing; only the geometry table changes, and only at the written id; the written field reads back the value written and the other field keeps its old value; well-formedness is kept |
| GraphModel.SetNodeDataFrame | binding/NodeGraphModel.cpp:141-184 | a write followed by a read of another node, or of another accepted role, reads the old value |
| GraphModel.SaveNode | binding/NodeGraphModel.cpp:294-310 | the record holds the node's full id and the position its Position role reads |
| GraphModel.LoadNode | binding/NodeGraphModel.cpp:312-330 | the restored id is the stored id when it fits a signed 32-bit int and 0 otherwise; the counter becomes the larger of the old counter and the id plus one; the id becomes live; the instances and connections are unchanged; the id's position reads the record's position and its size is unchanged; other nodes' geometry is unchanged; well-formedness is kept |
| GraphModel.SaveLoadRoundTrip | binding/NodeGraphModel.cpp:294-330 | loading a saved record into any state makes an id below 2^31 live and below the counter, with the saved position; a larger id is restored as 0, which then holds the saved position |
| GraphModel.LoadedNodeHasNoInstance | binding/NodeGraphModel.cpp:312-330 | a restored id without an instance is live, yet its Type read and its port reads throw NodeNotFound |
| GraphTraces.Apply | binding/NodeGraphModel.cpp:53-330 | any one mutating call keeps well-formedness and never lowers the counter |
| GraphTraces.Run | binding/NodeGraphModel.cpp:53-330 | any sequence of mutating calls keeps well-formedness and never lowers the counter |
| GraphTraces.SeenBelowCounter | binding/NodeGraphModel.cpp:314-317 | every id allocated or restored during a session is below the counter at its end |
| GraphTraces.NextAddNodeIsFresh | binding/NodeGraphModel.cpp:53-57 | after any session, the next AddNode returns an id above every id allocated, restored or live at the start, and not live |
| GraphTraces.AllocatedWithinCounter | binding/NodeGraphModel.cpp:53-57 | every id AddNode returns during a session lies between the counter at the start and the counter at the end |
| GraphTraces.AllocatedStrictlyIncreasing | binding/NodeGraphModel.cpp:53-57 | the ids AddNode returns during a session strictly increase, so none is handed out twice |
| GraphTraces.ConnectionsStayAnchored | binding/NodeGraphModel.cpp:73-83 | after any session, every connection joins live nodes at ports within their lists |
| GraphTraces.InputFanInNotLimited | binding/NodeGraphModel.cpp:73-83 | addConnection's own body has no fan-in check: with connectTo as compatibility, a second compatible connection into an input port that already has one is inserted, and both are then at that port |
| NodeGraph.EnumerationIsDistinct | binding/NodeGraphModel.cpp:279-283 | the order in which deleteNode visits its snapshot repeats no connection |
| NodeGraph.NodeGraphModel.constructor | binding/NodeGraphModel.cpp:3-5 | the counter starts at 0, every table is empty and the state is well formed |
| NodeGraph.NodeGraphModel.NewNodeId | binding/NodeGraphModel.cpp:55 | returns the counter and increments it |
| NodeGraph.NodeGraphModel.AddNode | binding/NodeGraphModel.cpp:53-64 | leaves the state GraphModel.AddNode describes, returns a new id, and appends one node-created event |
| NodeGraph.NodeGraphModel.AddConnection | binding/NodeGraphModel.cpp:73-83 | leaves the state GraphModel.AddConnection describes; appends a connection-created event iff the ports accept each other |
| NodeGraph.NodeGraphModel.DeleteConnection | binding/NodeGraphModel.cpp:255-274 | leaves the state GraphModel.DeleteConnection describes; appends a connection-deleted event iff it returns true |
| NodeGraph.NodeGraphModel.DeleteEach | binding/NodeGraphModel.cpp:279-283 | deletes exactly the snapshot from the connection set, visiting each member once, with one connection-deleted event per visit in visit order |
| NodeGraph.NodeGraphModel.DeleteNode | binding/NodeGraphModel.cpp:276-292 | returns true and leaves the state GraphModel.DeleteNode describes; the log gains one connection-deleted event per connection that touched the node, then node-deleted last |
| NodeGraph.NodeGraphModel.SetNodeData | binding/NodeGraphModel.cpp:141-184 | leaves the state and returns the value GraphModel.SetNodeData describes; only a Position write appends a position-updated event |
| NodeGraph.NodeGraphModel.LoadNode | binding/NodeGraphModel.cpp:312-330 | leaves the state GraphModel.LoadNode describes and appends node-created, then position-updated, for the restored id |

## Left out

- The Style role: it answers with an opaque `NodeStyle` value. The theme collection and its JSON form come from a library outside this model.
- Signal transport: emitted signals are recorded only as a ghost event log, not delivered.
- Value encoding: the variant and JSON value encodings and floating-point geometry are replaced by integer points and sizes and a record datatype.
  - A variant that is not a point reads as the origin, and one that is not a size reads as the invalid size (-1, -1).
  - A record field that is missing reads as 0.
- The concrete Negate node class: it is modelled as one input and one output. Their data-type tag "int" stands in for the name the port's data type reports, and their captions "in" and "out" stand in for the port names. Both are defined outside this model.
- Port dispatch by pointer cast is left out. Ports are values with a data-type tag, a direction flag and a caption.
- Port connect and disconnect: the port-side bookkeeping of `connectTo` and `disconnectFrom` lives in classes outside this model. `connectTo` is modelled as data-type compatibility, the same test as `canConnectTo`. A port-side refusal beyond that is not modelled, for example of a second connection into an input port or of a pair already connected. So the model's AddConnection, AddConnectionAgreesWithPossible and InputFanInNotLimited hold for the code only as far as `connectTo` accepts those pairs.
- The caption write in `setPortData`: whether assigning to `friendlyName()` changes anything depends on a header outside this model. Only the `false` result is modelled.
- The port accessors `_MetaInputAt` and `_MetaOutputAt` are not part of this model. An out-of-range index is modelled as throwing `PortNotFound`.
- Geometry reads of ids that were never written: the indexing operator inserts a default entry on read. The model reads the same default without inserting it, and no operation can tell the two apart.
- Node ids are unbounded naturals: the counter's fixed-width wrap-around is not modelled. A stored record id that is negative or not an integer is not modelled either, since `saveNode` never writes one. The narrowing of large ids on restore is modelled (RecordId).
- The `None` port type is not modelled: only inputs and outputs exist.
- The destructor is empty and is not modelled.
- GraphModel.DeleteNode: in a state that is not well formed, the snapshot may hold a connection whose ports do not resolve, and deleting it would throw. The function ignores that case. No sequence of operations reaches such a state (GraphTraces.Run).
