/**
 The node-graph model as the editor holds it: an object whose fields are
 the id counter, the live ids, the node instances, the geometry table and
 the connectivity set, updated in place. Each method is proved to leave
 the state its value-level counterpart in GraphModel describes, and to
 emit the lifecycle events the model emits, in order. The read-only
 queries are the GraphModel functions applied to State().
 */
module NodeGraph {
  import opened GraphTypes
  import opened GraphModel

  /** One ConnectionDeleted event per connection of `order`, in that order. */
  function DeletedEvents(order: seq<ConnectionId>): (r: seq<Event>)
  {
    if order == [] then []
    else DeletedEvents(order[..|order| - 1]) + [ConnectionDeleted(order[|order| - 1])]
  }

  /** The connections listed in `order`. */
  function Members(order: seq<ConnectionId>): (r: set<ConnectionId>)
  {
    if order == [] then {} else Members(order[..|order| - 1]) + {order[|order| - 1]}
  }

  /** No entry of `order` repeats an earlier one. */
  ghost predicate NoRepeats(order: seq<ConnectionId>)
  {
    order == [] ||
    (NoRepeats(order[..|order| - 1]) && order[|order| - 1] !in Members(order[..|order| - 1]))
  }

  /** `order` lists each member of `s` exactly once. */
  ghost predicate Enumerates(order: seq<ConnectionId>, s: set<ConnectionId>)
  {
    Members(order) == s && NoRepeats(order)
  }

  /** Each entry of a list is a member of it. */
  lemma {:induction false} MembersHoldEntries(order: seq<ConnectionId>)
    ensures forall i :: 0 <= i < |order| ==> order[i] in Members(order)
  {
    if order != [] {
      var prefix := order[..|order| - 1];
      MembersHoldEntries(prefix);
      assert forall i :: 0 <= i < |prefix| ==> order[i] == prefix[i];
    }
  }

  /** An enumeration has no repeated entry. */
  lemma {:induction false} EnumerationIsDistinct(order: seq<ConnectionId>, s: set<ConnectionId>)
    requires Enumerates(order, s)
    ensures forall i, j :: 0 <= i < j < |order| ==> order[i] != order[j]
  {
    if order != [] {
      var prefix := order[..|order| - 1];
      var last := order[|order| - 1];
      MembersHoldEntries(prefix);
      EnumerationIsDistinct(prefix, Members(prefix));
      forall i | 0 <= i < |prefix|
        ensures order[i] != last
      {
        assert order[i] == prefix[i];
      }
    }
  }

  /** The only enumeration of a single connection is that connection alone. */
  lemma EnumeratesSingleton(order: seq<ConnectionId>, c: ConnectionId)
    requires Enumerates(order, {c})
    ensures order == [c]
  {
  }

  /** Visiting one more member keeps an enumeration. */
  lemma EnumeratesExtend(order: seq<ConnectionId>, done: set<ConnectionId>, c: ConnectionId)
    requires Enumerates(order, done) && c !in done
    ensures Enumerates(order + [c], done + {c})
  {
  }

  /** Deleting one more connection appends one event to the log. */
  lemma DeletedEventsExtend(log: seq<Event>, order: seq<ConnectionId>, c: ConnectionId)
    ensures log + DeletedEvents(order + [c]) == log + DeletedEvents(order) + [ConnectionDeleted(c)]
  {
  }

  class NodeGraphModel {
    var nextNodeId: NodeId
    var nodeIds: set<NodeId>
    var nodes: map<NodeId, NodeInfo>
    var geometry: map<NodeId, Geometry>
    var connectivity: set<ConnectionId>

    /** The lifecycle notifications emitted so far, oldest first. */
    ghost var events: seq<Event>

    /** The fields as one value. */
    function State(): (r: Graph)
      reads this
    {
      Graph(nextNodeId, nodeIds, nodes, geometry, connectivity)
    }

    ghost predicate Valid()
      reads this
    {
      WellFormed(State())
    }

    /** A model with the counter at 0 and every table empty. */
    constructor ()
      ensures Valid() && State() == EmptyGraph && events == []
    {
      nextNodeId := 0;
      nodeIds := {};
      nodes := map[];
      geometry := map[];
      connectivity := {};
      events := [];
    }

    /** Hands out the counter's value and increments the counter. */
    method NewNodeId() returns (id: NodeId)
      modifies this`nextNodeId
      ensures id == old(nextNodeId) && nextNodeId == id + 1
    {
      id := nextNodeId;
      nextNodeId := nextNodeId + 1;
    }

    /** Creates a Negate node under a fresh id, whatever kind is asked for, and reports it. */
    method AddNode(nodeType: string) returns (id: NodeId)
      requires Valid()
      modifies this
      ensures Valid()
      ensures GraphModel.AddNode(old(State()), nodeType) == Step(Ok(id), State())
      ensures id !in old(nodeIds) && NodeExists(State(), id)
      ensures geometry == old(geometry) && connectivity == old(connectivity)
      ensures events == old(events) + [NodeCreated(id)]
    {
      id := NewNodeId();
      nodeIds := nodeIds + {id};
      if id !in nodes {
        nodes := nodes[id := NegateNode];
      }
      events := events + [NodeCreated(id)];
    }

    /**
     Resolves both ports of `c` and, if the output port accepts the input
     port, inserts `c` and reports it; a refusal changes nothing and
     reports nothing. A `c` already present is reported again.
     */
    method AddConnection(c: ConnectionId) returns (r: Outcome<()>)
      requires Valid()
      modifies this
      ensures Valid()
      ensures GraphModel.AddConnection(old(State()), c) == Step(r, State())
      ensures events == old(events) + if PortsAccept(old(State()), c) then [ConnectionCreated(c)] else []
    {
      var ports := ResolvePorts(State(), c);
      if ports.Throws? {
        r := Throws(ports.failure);
        return;
      }
      r := Ok(());
      var (output, input) := ports.value;
      if !Compatible(output, input) {
        return;
      }
      connectivity := connectivity + {c};
      events := events + [ConnectionCreated(c)];
    }

    /**
     Removes `c`, after resolving both its ports; returns whether it was
     present, and reports the deletion only then.
     */
    method DeleteConnection(c: ConnectionId) returns (r: Outcome<bool>)
      requires Valid()
      modifies this
      ensures Valid()
      ensures GraphModel.DeleteConnection(old(State()), c) == Step(r, State())
      ensures r.Ok? ==> State() == old(State()).(connectivity := old(connectivity) - {c})
      ensures events == old(events) + if r == Ok(true) then [ConnectionDeleted(c)] else []
    {
      var present := c in connectivity;
      var ports := ResolvePorts(State(), c);
      if ports.Throws? {
        r := Throws(ports.failure);
        return;
      }
      if present {
        connectivity := connectivity - {c};
        events := events + [ConnectionDeleted(c)];
      }
      r := Ok(present);
    }

    /**
     Deletes the connections of `snapshot`, all present, one at a time
     through DeleteConnection; `order` is the order they were visited in.
     */
    method DeleteEach(snapshot: set<ConnectionId>) returns (ghost order: seq<ConnectionId>)
      requires Valid() && snapshot <= connectivity
      modifies this
      ensures Valid()
      ensures State() == old(State()).(connectivity := old(connectivity) - snapshot)
      ensures Enumerates(order, snapshot)
      ensures events == old(events) + DeletedEvents(order)
    {
      var pending := snapshot;
      ghost var done: set<ConnectionId> := {};
      order := [];
      while pending != {}
        invariant Valid()
        invariant done + pending == snapshot && done !! pending
        invariant connectivity == old(connectivity) - done
        invariant nextNodeId == old(nextNodeId) && nodeIds == old(nodeIds)
        invariant nodes == old(nodes) && geometry == old(geometry)
        invariant Enumerates(order, done)
        invariant events == old(events) + DeletedEvents(order)
        decreases pending
      {
        var c :| c in pending;
        var deleted := DeleteConnection(c);
        assert deleted == Ok(true);
        assert old(connectivity) - (done + {c}) == (old(connectivity) - done) - {c};
        EnumeratesExtend(order, done, c);
        DeletedEventsExtend(old(events), order, c);
        order := order + [c];
        done := done + {c};
        pending := pending - {c};
      }
    }

    /**
     Deletes every connection touching `n`, one at a time from a snapshot
     taken first, then erases `n`'s id, instance and geometry and reports
     the node's deletion last. Returns true, also for an unknown `n`.
     `order` is the order in which the snapshot was visited.
     */
    method DeleteNode(n: NodeId) returns (r: bool, ghost order: seq<ConnectionId>)
      requires Valid()
      modifies this
      ensures Valid()
      ensures r
      ensures State() == GraphModel.DeleteNode(old(State()), n).next
      ensures Enumerates(order, AllConnectionIds(old(State()), n))
      ensures events == old(events) + DeletedEvents(order) + [NodeDeleted(n)]
    {
      ghost var target := GraphModel.DeleteNode(State(), n).next;
      var snapshot := AllConnectionIds(State(), n);
      order := DeleteEach(snapshot);
      nodeIds := nodeIds - {n};
      nodes := nodes - {n};
      geometry := geometry - {n};
      events := events + [NodeDeleted(n)];
      r := true;
      assert State() == target;
    }

    /**
     Writes a node role. Position and Size are accepted and change that
     field of `id`'s geometry; only the Position write is reported. Every
     other role is refused and changes nothing.
     */
    method SetNodeData(id: NodeId, role: NodeRole, v: Variant) returns (r: bool)
      requires Valid()
      modifies this
      ensures Valid()
      ensures GraphModel.SetNodeData(old(State()), id, role, v) == Step(Ok(r), State())
      ensures events == old(events) + if role == Position then [NodePositionUpdated(id)] else []
    {
      r := false;
      match role {
        case Position =>
          geometry := geometry[id := GeometryOf(State(), id).(pos := ToPoint(v))];
          events := events + [NodePositionUpdated(id)];
          r := true;
        case Size =>
          geometry := geometry[id := GeometryOf(State(), id).(size := ToExtent(v))];
          r := true;
        case _ =>
      }
    }

    /**
     Restores a node from a record: moves the counter above the restored
     id, registers the id without building a node, reports the creation,
     then writes the stored position as a Position write.
     */
    method LoadNode(rec: NodeRecord)
      requires Valid()
      modifies this
      ensures Valid()
      ensures State() == GraphModel.LoadNode(old(State()), rec).next
      ensures events == old(events) + [NodeCreated(RecordId(rec)), NodePositionUpdated(RecordId(rec))]
    {
      var id := RecordId(rec);
      nextNodeId := if nextNodeId > id then nextNodeId else id + 1;
      nodeIds := nodeIds + {id};
      events := events + [NodeCreated(id)];
      var _ := SetNodeData(id, Position, PointValue(RecordPosition(rec)));
    }
  }

  /**
   Two Negate nodes joined output to input: the connection is possible,
   is reported once when added, and deleting the first node reports the
   connection's deletion before the node's.
   */
  method ConnectThenDeleteScenario()
  {
    var m := new NodeGraphModel();
    var a := m.AddNode("Negate");
    var b := m.AddNode("Negate");
    assert a == 0 && b == 1;
    var c := ConnectionId(a, 0, b, 0);
    assert ConnectionPossible(m.State(), c) == Ok(true);
    assert PortData(m.State(), a, In, 0, DataType) == Ok(Text("int"));
    var added := m.AddConnection(c);
    assert ConnectionExists(m.State(), c);
    assert m.events == [NodeCreated(a), NodeCreated(b), ConnectionCreated(c)];
    ghost var before := m.events;
    ghost var s := m.State();
    assert s.connectivity == {c};
    assert AllConnectionIds(s, a) == {c};
    var deleted;
    ghost var order;
    deleted, order := m.DeleteNode(a);
    assert !ConnectionExists(m.State(), c);
    EnumeratesSingleton(order, c);
    assert m.events == before + [ConnectionDeleted(c), NodeDeleted(a)];
  }
}
