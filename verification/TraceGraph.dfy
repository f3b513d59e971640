/** Turning a traced tensor DAG into a graph of nodes and port-numbered edges. */
module TraceGraph {
  import opened Wrappers

  datatype LeafKind = Activation | Target | Constant

  /** Where a tensor comes from. Tensors are numbered in the order in which tracing made them, so the
      operands of an operation have smaller numbers. */
  datatype Source =
    | Parameter(name: Option<string>)
    | Leaf(kind: LeafKind)
    | Traced(opName: string, opType: string, operands: seq<nat>, broadcast: seq<int>)

  ghost predicate IsTrace(trace: seq<Source>) {
    forall t: nat, i: nat | t < |trace| && trace[t].Traced? && i < |trace[t].operands| :: trace[t].operands[i] < t
  }

  datatype Node =
    | OutputNode(name: string)
    | ParameterNode(name: string)
    | InputNode(name: string, kind: LeafKind)
    | OpNode(name: string, opType: string)
    | NopNode(name: string)
  {
    /** Whether the node stands for a traced tensor. */
    predicate HoldsTensor() {
      ParameterNode? || InputNode? || OpNode?
    }
  }

  datatype Edge = Edge(src: nat, srcPort: nat, dst: nat, dstPort: nat, broadcast: seq<int>)

  /** An edge still to be made: `tensor` is wanted at port `port` of node `dst`. */
  datatype Pending = Pending(tensor: nat, dst: nat, port: nat, broadcast: seq<int>)

  datatype Slot = Slot(node: nat, port: nat)

  // ---------- The state of the worklist ----------

  /** origin gives, for every node, the tensor whose value it carries. */
  datatype State = State(nodes: seq<Node>, edges: seq<Edge>, origin: seq<nat>,
                         visited: map<nat, nat>, pending: seq<Pending>)

  /** The operand tensors of a node, in port order. */
  ghost function Wanted(trace: seq<Source>, node: Node, t: nat): seq<nat>
    requires t < |trace|
  {
    match node
    case OutputNode(_) => [t]
    case NopNode(_) => [t]
    case OpNode(_, _) => if trace[t].Traced? then trace[t].operands else []
    case _ => []
  }

  ghost function Broadcast(trace: seq<Source>, node: Node, t: nat): seq<int>
    requires t < |trace|
  {
    if node.OpNode? && trace[t].Traced? then trace[t].broadcast else []
  }

  ghost predicate Typed(trace: seq<Source>, s: State) {
    && |s.origin| == |s.nodes|
    && forall n: nat | n < |s.nodes| :: s.origin[n] < |trace|
  }

  /** A node of the right kind, with the right attributes, for its tensor. */
  ghost predicate Matches(source: Source, node: Node, isPassthrough: bool) {
    match node
    case OutputNode(_) => true
    case ParameterNode(name) => source.Parameter? && (source.name.Some? ==> name == source.name.value)
    case InputNode(_, kind) => source.Leaf? && kind == if isPassthrough then Activation else source.kind
    case OpNode(name, opType) => source.Traced? && name == source.opName && opType == source.opType
    case NopNode(_) => source.Leaf? && isPassthrough
  }

  ghost predicate NodesRight(trace: seq<Source>, passthroughs: set<nat>, s: State)
    requires Typed(trace, s)
  {
    forall n: nat | n < |s.nodes| :: Matches(trace[s.origin[n]], s.nodes[n], s.origin[n] in passthroughs)
  }

  /** Exactly one node per visited tensor. */
  ghost predicate VisitedRight(trace: seq<Source>, s: State)
    requires Typed(trace, s)
  {
    && (forall t | t in s.visited :: t < |trace| && s.visited[t] < |s.nodes|
          && s.origin[s.visited[t]] == t && s.nodes[s.visited[t]].HoldsTensor())
    && (forall n: nat | n < |s.nodes| && !s.nodes[n].OutputNode? :: s.origin[n] in s.visited)
    && (forall n: nat | n < |s.nodes| && s.nodes[n].HoldsTensor() :: s.visited[s.origin[n]] == n)
  }

  /** Tensor t is what node dst wants at this port. */
  ghost predicate Fits(trace: seq<Source>, s: State, t: nat, dst: nat, port: nat, broadcast: seq<int>)
    requires Typed(trace, s)
  {
    && dst < |s.nodes|
    && port < |Wanted(trace, s.nodes[dst], s.origin[dst])|
    && Wanted(trace, s.nodes[dst], s.origin[dst])[port] == t
    && broadcast == Broadcast(trace, s.nodes[dst], s.origin[dst])
  }

  ghost predicate EdgesRight(trace: seq<Source>, s: State)
    requires Typed(trace, s)
  {
    forall e | e in s.edges ::
      && e.src < |s.nodes| && e.srcPort == 0
      && !s.nodes[e.src].OutputNode?
      && Fits(trace, s, s.origin[e.src], e.dst, e.dstPort, e.broadcast)
      && (s.nodes[e.dst].NopNode? ==> s.nodes[e.src].HoldsTensor())
  }

  ghost predicate PendingRight(trace: seq<Source>, s: State)
    requires Typed(trace, s)
  {
    forall p | p in s.pending :: Fits(trace, s, p.tensor, p.dst, p.port, p.broadcast) && !s.nodes[p.dst].NopNode?
  }

  // ---------- Every slot is filled once ----------

  ghost function EdgeSlots(edges: seq<Edge>): (r: seq<Slot>)
    ensures |r| == |edges|
  {
    seq(|edges|, i requires 0 <= i < |edges| => Slot(edges[i].dst, edges[i].dstPort))
  }

  ghost function PendingSlots(pending: seq<Pending>): (r: seq<Slot>)
    ensures |r| == |pending|
  {
    seq(|pending|, i requires 0 <= i < |pending| => Slot(pending[i].dst, pending[i].port))
  }

  ghost predicate IsSlot(trace: seq<Source>, s: State, x: Slot)
    requires Typed(trace, s)
  {
    x.node < |s.nodes| && x.port < |Wanted(trace, s.nodes[x.node], s.origin[x.node])|
  }

  ghost function Fillings(s: State, x: Slot): nat {
    multiset(EdgeSlots(s.edges))[x] + multiset(PendingSlots(s.pending))[x]
  }

  /** Conservation: every slot of every node is filled by exactly one edge made or still to be made,
      and nothing else is. */
  ghost predicate SlotsBalance(trace: seq<Source>, s: State)
    requires Typed(trace, s)
  {
    forall x: Slot :: Fillings(s, x) == if IsSlot(trace, s, x) then 1 else 0
  }

  /** A passthrough input that is still to be visited waits at an output node, ahead of every
      operand; so it is first met with port 0. */
  ghost predicate PassthroughsFirst(passthroughs: set<nat>, s: State) {
    forall t | t in passthroughs && t !in s.visited :: WaitsAtOutput(s, t)
  }

  ghost predicate WaitsAtOutput(s: State, t: nat) {
    exists i: nat :: i < |s.pending| && WaitsAt(s, t, i)
  }

  /** Queue entry i is the first for tensor t, comes before any operand, and goes to the first output
      that wants t. */
  ghost predicate WaitsAt(s: State, t: nat, i: nat)
    requires i < |s.pending|
  {
    && s.pending[i].tensor == t
    && (forall j: nat | j <= i :: s.pending[j].dst < |s.nodes| && s.nodes[s.pending[j].dst].OutputNode?)
    && (forall j: nat | j < i :: s.pending[j].tensor != t)
    && (forall m: nat | m < s.pending[i].dst && m < |s.origin| :: s.origin[m] != t)
  }

  ghost predicate Inv(trace: seq<Source>, passthroughs: set<nat>, s: State) {
    && IsTrace(trace)
    && Typed(trace, s)
    && NodesRight(trace, passthroughs, s)
    && VisitedRight(trace, s)
    && EdgesRight(trace, s)
    && PendingRight(trace, s)
    && SlotsBalance(trace, s)
    && PassthroughsFirst(passthroughs, s)
  }

  // ---------- One lemma per step ----------

  lemma FitsExtends(trace: seq<Source>, s: State, s': State, t: nat, dst: nat, port: nat, broadcast: seq<int>)
    requires Typed(trace, s) && Typed(trace, s') && s.nodes <= s'.nodes && s.origin <= s'.origin
    requires Fits(trace, s, t, dst, port, broadcast)
    ensures Fits(trace, s', t, dst, port, broadcast) && s'.nodes[dst] == s.nodes[dst]
  {
  }

  /** What the nodes already there satisfy survives the addition of nodes. */
  lemma OldEdgesStay(trace: seq<Source>, s: State, s': State)
    requires Typed(trace, s) && Typed(trace, s') && s.nodes <= s'.nodes && s.origin <= s'.origin && s'.edges == s.edges
    requires EdgesRight(trace, s)
    ensures EdgesRight(trace, s')
  {
    forall e | e in s'.edges
      ensures e.src < |s'.nodes| && !s'.nodes[e.src].OutputNode?
      ensures Fits(trace, s', s'.origin[e.src], e.dst, e.dstPort, e.broadcast)
      ensures s'.nodes[e.dst].NopNode? ==> s'.nodes[e.src].HoldsTensor()
    {
      FitsExtends(trace, s, s', s.origin[e.src], e.dst, e.dstPort, e.broadcast);
    }
  }

  lemma OldPendingStays(trace: seq<Source>, s: State, s': State)
    requires Typed(trace, s) && Typed(trace, s') && s.nodes <= s'.nodes && s.origin <= s'.origin
    requires s'.pending == s.pending
    requires PendingRight(trace, s)
    ensures PendingRight(trace, s')
  {
    forall p | p in s'.pending
      ensures Fits(trace, s', p.tensor, p.dst, p.port, p.broadcast) && !s'.nodes[p.dst].NopNode?
    {
      FitsExtends(trace, s, s', p.tensor, p.dst, p.port, p.broadcast);
    }
  }

  lemma EdgeSlotsAppend(edges: seq<Edge>, e: Edge, x: Slot)
    ensures multiset(EdgeSlots(edges + [e]))[x] == multiset(EdgeSlots(edges))[x]
            + if x == Slot(e.dst, e.dstPort) then 1 else 0
  {
    assert EdgeSlots(edges + [e]) == EdgeSlots(edges) + [Slot(e.dst, e.dstPort)];
  }

  lemma PendingSlotsPop(pending: seq<Pending>, x: Slot)
    requires pending != []
    ensures multiset(PendingSlots(pending))[x]
         == multiset(PendingSlots(pending[1..]))[x] + if x == Slot(pending[0].dst, pending[0].port) then 1 else 0
  {
    assert PendingSlots(pending) == [Slot(pending[0].dst, pending[0].port)] + PendingSlots(pending[1..]);
  }

  lemma {:induction false} EntrySlots(pending: seq<Pending>, entries: seq<Pending>, n: nat, x: Slot)
    requires forall i: nat | i < |entries| :: entries[i].dst == n && entries[i].port == i
    ensures multiset(PendingSlots(pending + entries))[x]
         == multiset(PendingSlots(pending))[x] + if x.node == n && x.port < |entries| then 1 else 0
  {
    if entries == [] {
      assert pending + entries == pending;
    } else {
      var k := |entries| - 1;
      EntrySlots(pending, entries[..k], n, x);
      assert PendingSlots(pending + entries) == PendingSlots(pending + entries[..k]) + [Slot(n, k)];
    }
  }

  /** The head of the queue, with an edge from node src that carries its tensor. */
  function Connect(s: State, src: nat): State
    requires s.pending != []
  {
    var p := s.pending[0];
    s.(edges := s.edges + [Edge(src, 0, p.dst, p.port, p.broadcast)], pending := s.pending[1..])
  }

  lemma ConnectKeepsInv(trace: seq<Source>, passthroughs: set<nat>, s: State, src: nat)
    requires Inv(trace, passthroughs, s) && s.pending != [] && src < |s.nodes|
    requires !s.nodes[src].OutputNode? && s.origin[src] == s.pending[0].tensor && s.pending[0].tensor in s.visited
    ensures Inv(trace, passthroughs, Connect(s, src))
  {
    var p, s' := s.pending[0], Connect(s, src);
    assert p in s.pending;
    forall x: Slot
      ensures Fillings(s', x) == Fillings(s, x)
    {
      EdgeSlotsAppend(s.edges, Edge(src, 0, p.dst, p.port, p.broadcast), x);
      PendingSlotsPop(s.pending, x);
    }
    assert forall x :: IsSlot(trace, s', x) == IsSlot(trace, s, x);
    forall t | t in passthroughs && t !in s'.visited
      ensures WaitsAtOutput(s', t)
    {
      WaitingMoves(s, s', t);
    }
  }

  lemma WaitingMoves(s: State, s': State, t: nat)
    requires WaitsAtOutput(s, t) && s.pending != [] && s.pending[0].tensor != t
    requires s'.nodes == s.nodes && s'.origin == s.origin && s'.pending == s.pending[1..]
    ensures WaitsAtOutput(s', t)
  {
    var i: nat :| i < |s.pending| && WaitsAt(s, t, i);
    assert forall j: nat | j <= i - 1 :: s'.pending[j] == s.pending[j + 1];
    assert WaitsAt(s', t, i - 1);
  }

  /** The queue entries for the operands of tensor t, whose node is n. */
  function Entries(trace: seq<Source>, t: nat, n: nat): (r: seq<Pending>)
    requires t < |trace|
    ensures trace[t].Traced? ==> |r| == |trace[t].operands|
    ensures !trace[t].Traced? ==> r == []
  {
    if trace[t].Traced? then
      var op := trace[t];
      seq(|op.operands|, i requires 0 <= i < |op.operands| => Pending(op.operands[i], n, i, op.broadcast))
    else
      []
  }

  /** A new node for tensor t, with its operands queued. */
  function Visit(trace: seq<Source>, s: State, t: nat, node: Node): State
    requires t < |trace|
  {
    State(s.nodes + [node], s.edges, s.origin + [t], s.visited[t := |s.nodes|],
          s.pending + Entries(trace, t, |s.nodes|))
  }

  lemma VisitKeepsNodes(trace: seq<Source>, passthroughs: set<nat>, s: State, t: nat, node: Node)
    requires Inv(trace, passthroughs, s) && t < |trace| && t !in s.visited
    requires node.HoldsTensor() && Matches(trace[t], node, t in passthroughs)
    ensures var s' := Visit(trace, s, t, node);
      Typed(trace, s') && NodesRight(trace, passthroughs, s') && VisitedRight(trace, s')
  {
    var s' := Visit(trace, s, t, node);
    assert forall m: nat | m < |s.nodes| :: s'.nodes[m] == s.nodes[m] && s'.origin[m] == s.origin[m];
  }

  lemma VisitKeepsPending(trace: seq<Source>, s: State, t: nat, node: Node)
    requires Typed(trace, s) && PendingRight(trace, s) && t < |trace|
    requires trace[t].Traced? <==> node.OpNode?
    ensures PendingRight(trace, Visit(trace, s, t, node))
  {
    var s', n := Visit(trace, s, t, node), |s.nodes|;
    OldPendingStays(trace, s, s'.(pending := s.pending));
    var entries := Entries(trace, t, n);
    forall p | p in entries
      ensures Fits(trace, s', p.tensor, p.dst, p.port, p.broadcast) && !s'.nodes[p.dst].NopNode?
    {
      var i :| 0 <= i < |entries| && entries[i] == p;
    }
    assert forall p | p in s'.pending :: p in s.pending || p in entries;
  }

  lemma VisitKeepsSlots(trace: seq<Source>, s: State, t: nat, node: Node)
    requires Typed(trace, s) && SlotsBalance(trace, s) && t < |trace|
    requires node.HoldsTensor() && (trace[t].Traced? <==> node.OpNode?)
    ensures SlotsBalance(trace, Visit(trace, s, t, node))
  {
    var s', n := Visit(trace, s, t, node), |s.nodes|;
    forall x: Slot
      ensures Fillings(s', x) == if IsSlot(trace, s', x) then 1 else 0
    {
      EntrySlots(s.pending, Entries(trace, t, n), n, x);
      assert Fillings(s, x) == if IsSlot(trace, s, x) then 1 else 0;
    }
  }

  lemma VisitKeepsInv(trace: seq<Source>, passthroughs: set<nat>, s: State, t: nat, node: Node)
    requires Inv(trace, passthroughs, s) && t < |trace| && t !in s.visited
    requires node.HoldsTensor() && Matches(trace[t], node, t in passthroughs)
    ensures Inv(trace, passthroughs, Visit(trace, s, t, node))
  {
    var s' := Visit(trace, s, t, node);
    VisitKeepsNodes(trace, passthroughs, s, t, node);
    VisitKeepsPending(trace, s, t, node);
    VisitKeepsSlots(trace, s, t, node);
    OldEdgesStay(trace, s, s');
    forall u | u in passthroughs && u !in s'.visited
      ensures WaitsAtOutput(s', u)
    {
      WaitingStays(s, s', u);
    }
  }

  lemma WaitingStays(s: State, s': State, t: nat)
    requires WaitsAtOutput(s, t) && s.nodes <= s'.nodes && s.pending <= s'.pending
    requires |s.origin| == |s.nodes| && s.origin <= s'.origin
    ensures WaitsAtOutput(s', t)
  {
    var i: nat :| i < |s.pending| && WaitsAt(s, t, i);
    assert forall j: nat | j <= i :: s'.pending[j] == s.pending[j];
    assert WaitsAt(s', t, i);
  }

  /** The nop between a passthrough input's node and the output that first wants it. */
  function AddNop(s: State, t: nat, input: nat, name: string): State {
    State(s.nodes + [NopNode(name)], s.edges + [Edge(input, 0, |s.nodes|, 0, [])], s.origin + [t], s.visited, s.pending)
  }

  lemma AddNopKeepsNodes(trace: seq<Source>, passthroughs: set<nat>, s: State, t: nat, name: string)
    requires Inv(trace, passthroughs, s) && t in s.visited && t in passthroughs && trace[t].Leaf?
    ensures var s' := AddNop(s, t, s.visited[t], name);
      Typed(trace, s') && NodesRight(trace, passthroughs, s') && VisitedRight(trace, s')
  {
    var s' := AddNop(s, t, s.visited[t], name);
    assert forall m: nat | m < |s.nodes| :: s'.nodes[m] == s.nodes[m] && s'.origin[m] == s.origin[m];
  }

  lemma AddNopKeepsEdges(trace: seq<Source>, s: State, t: nat, name: string)
    requires Typed(trace, s) && VisitedRight(trace, s) && EdgesRight(trace, s) && SlotsBalance(trace, s)
    requires t in s.visited
    ensures var s' := AddNop(s, t, s.visited[t], name); EdgesRight(trace, s') && SlotsBalance(trace, s')
  {
    var s', n, e := AddNop(s, t, s.visited[t], name), |s.nodes|, Edge(s.visited[t], 0, |s.nodes|, 0, []);
    OldEdgesStay(trace, s, s'.(edges := s.edges));
    assert Fits(trace, s', t, n, 0, []);
    forall x: Slot
      ensures Fillings(s', x) == if IsSlot(trace, s', x) then 1 else 0
    {
      EdgeSlotsAppend(s.edges, e, x);
      assert Fillings(s, x) == if IsSlot(trace, s, x) then 1 else 0;
    }
  }

  lemma AddNopKeepsInv(trace: seq<Source>, passthroughs: set<nat>, s: State, t: nat, name: string)
    requires Inv(trace, passthroughs, s) && t in s.visited && t in passthroughs && trace[t].Leaf?
    ensures Inv(trace, passthroughs, AddNop(s, t, s.visited[t], name))
  {
    var s' := AddNop(s, t, s.visited[t], name);
    AddNopKeepsNodes(trace, passthroughs, s, t, name);
    AddNopKeepsEdges(trace, s, t, name);
    OldPendingStays(trace, s, s');
    forall u | u in passthroughs && u !in s'.visited
      ensures WaitsAtOutput(s', u)
    {
      WaitingStays(s, s', u);
    }
  }

  // ---------- Reachable tensors ----------

  function ReachFrom(trace: seq<Source>, t: nat): (r: set<nat>)
    requires IsTrace(trace) && t < |trace|
    ensures t in r && forall u | u in r :: u <= t
    decreases t, 1, 0
  {
    {t} + if trace[t].Traced? then ReachOperands(trace, t, |trace[t].operands|) else {}
  }

  /** What the first k operands of t reach. */
  function ReachOperands(trace: seq<Source>, t: nat, k: nat): (r: set<nat>)
    requires IsTrace(trace) && t < |trace| && trace[t].Traced? && k <= |trace[t].operands|
    ensures forall u | u in r :: u < t
    ensures forall i: nat | i < k :: trace[t].operands[i] in r
    decreases t, 0, k
  {
    if k == 0 then {} else ReachOperands(trace, t, k - 1) + ReachFrom(trace, trace[t].operands[k - 1])
  }

  ghost predicate Closed(trace: seq<Source>, s: set<nat>) {
    forall t, i: nat | t in s && t < |trace| && trace[t].Traced? && i < |trace[t].operands| :: trace[t].operands[i] in s
  }

  lemma {:induction false} ReachFromClosed(trace: seq<Source>, t: nat)
    requires IsTrace(trace) && t < |trace|
    ensures Closed(trace, ReachFrom(trace, t))
    decreases t, 1, 0
  {
    if trace[t].Traced? {
      ReachOperandsClosed(trace, t, |trace[t].operands|);
    }
  }

  lemma {:induction false} ReachOperandsClosed(trace: seq<Source>, t: nat, k: nat)
    requires IsTrace(trace) && t < |trace| && trace[t].Traced? && k <= |trace[t].operands|
    ensures Closed(trace, ReachOperands(trace, t, k))
    decreases t, 0, k
  {
    if k > 0 {
      ReachFromClosed(trace, trace[t].operands[k - 1]);
      ReachOperandsClosed(trace, t, k - 1);
    }
  }

  lemma {:induction false} ReachFromLeast(trace: seq<Source>, t: nat, s: set<nat>)
    requires IsTrace(trace) && t < |trace| && t in s && Closed(trace, s)
    ensures ReachFrom(trace, t) <= s
    decreases t, 1, 0
  {
    if trace[t].Traced? {
      ReachOperandsLeast(trace, t, |trace[t].operands|, s);
    }
  }

  lemma {:induction false} ReachOperandsLeast(trace: seq<Source>, t: nat, k: nat, s: set<nat>)
    requires IsTrace(trace) && t < |trace| && trace[t].Traced? && k <= |trace[t].operands| && t in s && Closed(trace, s)
    ensures ReachOperands(trace, t, k) <= s
    decreases t, 0, k
  {
    if k > 0 {
      ReachFromLeast(trace, trace[t].operands[k - 1], s);
      ReachOperandsLeast(trace, t, k - 1, s);
    }
  }

  /** The tensors some output depends on. */
  function Reach(trace: seq<Source>, outputs: seq<nat>): set<nat>
    requires IsTrace(trace) && forall j: nat | j < |outputs| :: outputs[j] < |trace|
  {
    if outputs == [] then {} else Reach(trace, outputs[..|outputs| - 1]) + ReachFrom(trace, outputs[|outputs| - 1])
  }

  lemma {:induction false} ReachIsLeast(trace: seq<Source>, outputs: seq<nat>)
    requires IsTrace(trace) && forall j: nat | j < |outputs| :: outputs[j] < |trace|
    ensures Closed(trace, Reach(trace, outputs)) && forall j: nat | j < |outputs| :: outputs[j] in Reach(trace, outputs)
    ensures forall s | Closed(trace, s) && (forall j: nat | j < |outputs| :: outputs[j] in s) ::
            Reach(trace, outputs) <= s
  {
    if outputs != [] {
      var init, last := outputs[..|outputs| - 1], outputs[|outputs| - 1];
      ReachIsLeast(trace, init);
      ReachFromClosed(trace, last);
      forall s | Closed(trace, s) && (forall j: nat | j < |outputs| :: outputs[j] in s)
        ensures Reach(trace, outputs) <= s
      {
        ReachFromLeast(trace, last, s);
        assert forall j: nat | j < |init| :: init[j] == outputs[j];
      }
      assert forall j: nat | j < |init| :: outputs[j] == init[j];
    }
  }

  // ---------- generate_graph ----------

  /** The first position of t, or |s|. */
  function Position(s: seq<nat>, t: nat): (i: nat)
    ensures i <= |s|
    ensures i < |s| ==> s[i] == t
    ensures forall j: nat | j < i :: s[j] != t
    ensures i == |s| <==> t !in s
  {
    if s == [] then 0
    else if s[0] == t then 0
    else 1 + Position(s[1..], t)
  }

  /** The queue when it holds just the outputs. */
  function Starting(outputs: seq<nat>): (r: seq<Pending>)
    ensures |r| == |outputs|
  {
    seq(|outputs|, j requires 0 <= j < |outputs| => Pending(outputs[j], j, 0, []))
  }

  lemma {:induction false} StartingSlots(outputs: seq<nat>, x: Slot)
    ensures multiset(PendingSlots(Starting(outputs)))[x] == if x.node < |outputs| && x.port == 0 then 1 else 0
  {
    if outputs != [] {
      var k := |outputs| - 1;
      StartingSlots(outputs[..k], x);
      assert PendingSlots(Starting(outputs)) == PendingSlots(Starting(outputs[..k])) + [Slot(k, 0)];
    }
  }

  lemma StartInv(trace: seq<Source>, outputs: seq<nat>, nodes: seq<Node>, passthroughs: set<nat>)
    requires IsTrace(trace) && |nodes| == |outputs|
    requires forall j: nat | j < |outputs| :: outputs[j] < |trace| && nodes[j].OutputNode?
    requires forall t | t in passthroughs :: t in outputs
    ensures Inv(trace, passthroughs, State(nodes, [], outputs, map[], Starting(outputs)))
  {
    var s := State(nodes, [], outputs, map[], Starting(outputs));
    forall x: Slot
      ensures Fillings(s, x) == if IsSlot(trace, s, x) then 1 else 0
    {
      StartingSlots(outputs, x);
    }
    forall t | t in passthroughs
      ensures WaitsAtOutput(s, t)
    {
      assert WaitsAt(s, t, Position(outputs, t));
    }
  }

  ghost predicate WithinReach(s: State, reach: set<nat>) {
    && (forall t | t in s.visited :: t in reach)
    && (forall p | p in s.pending :: p.tensor in reach)
  }

  function Unvisited(n: nat, visited: set<nat>): set<nat> {
    set t: nat | t < n && t !in visited
  }

  /** One step of the worklist: nodes are only added, what is queued stays reachable, and either the
      head was visited before or it is the one tensor newly visited. */
  ghost predicate Advanced(trace: seq<Source>, passthroughs: set<nat>, s: State, s': State, reach: set<nat>)
    requires s.pending != []
  {
    && Inv(trace, passthroughs, s') && WithinReach(s', reach)
    && s.nodes <= s'.nodes && s.origin <= s'.origin
    && if s.pending[0].tensor in s.visited then s'.visited == s.visited && |s'.pending| < |s.pending|
       else s'.visited.Keys == s.visited.Keys + {s.pending[0].tensor}
  }

  lemma ConnectStep(trace: seq<Source>, passthroughs: set<nat>, s: State, reach: set<nat>)
    requires Inv(trace, passthroughs, s) && s.pending != [] && WithinReach(s, reach) && s.pending[0].tensor in s.visited
    ensures Advanced(trace, passthroughs, s, Connect(s, s.visited[s.pending[0].tensor]), reach)
  {
    ConnectKeepsInv(trace, passthroughs, s, s.visited[s.pending[0].tensor]);
  }

  lemma EntriesReach(trace: seq<Source>, s: State, node: Node, reach: set<nat>)
    requires s.pending != [] && Closed(trace, reach) && WithinReach(s, reach) && s.pending[0].tensor < |trace|
    ensures WithinReach(Visit(trace, s, s.pending[0].tensor, node), reach)
  {
    var t := s.pending[0].tensor;
    assert s.pending[0] in s.pending;
    var entries := Entries(trace, t, |s.nodes|);
    forall p | p in entries
      ensures p.tensor in reach
    {
      var i :| 0 <= i < |entries| && entries[i] == p;
    }
  }

  lemma VisitStep(trace: seq<Source>, passthroughs: set<nat>, s: State, node: Node, reach: set<nat>)
    requires Inv(trace, passthroughs, s) && s.pending != [] && Closed(trace, reach) && WithinReach(s, reach)
    requires var t := s.pending[0].tensor;
      t < |trace| && t !in s.visited && node.HoldsTensor() && Matches(trace[t], node, t in passthroughs)
    ensures Advanced(trace, passthroughs, s, Connect(Visit(trace, s, s.pending[0].tensor, node), |s.nodes|), reach)
  {
    var t := s.pending[0].tensor;
    VisitKeepsInv(trace, passthroughs, s, t, node);
    ConnectKeepsInv(trace, passthroughs, Visit(trace, s, t, node), |s.nodes|);
    EntriesReach(trace, s, node, reach);
  }

  /** A passthrough input is first met at the first output that wants it, so its only edge into a
      consumer goes to port 0. */
  lemma PassthroughPort(trace: seq<Source>, passthroughs: set<nat>, s: State)
    requires Inv(trace, passthroughs, s) && s.pending != []
    requires s.pending[0].tensor in passthroughs && s.pending[0].tensor !in s.visited
    ensures var p := s.pending[0];
      && p.port == 0 && p.broadcast == []
      && p.dst < |s.nodes| && s.nodes[p.dst].OutputNode? && s.origin[p.dst] == p.tensor
      && forall m: nat | m < p.dst :: s.origin[m] != p.tensor
  {
    assert s.pending[0] in s.pending && WaitsAtOutput(s, s.pending[0].tensor);
  }

  /** The queue has been served: the visited tensors are the reachable ones, and output j's node
      comes j-th. */
  ghost predicate Served(trace: seq<Source>, passthroughs: set<nat>, outputs: seq<nat>, s: State) {
    && Inv(trace, passthroughs, s) && s.pending == []
    && (forall j: nat | j < |outputs| :: outputs[j] < |trace|)
    && s.visited.Keys == Reach(trace, outputs)
    && outputs <= s.origin
    && (forall j: nat | j < |outputs| :: s.nodes[j].OutputNode?)
  }

  /** The finished graph; its module outputs stand for the outputs in order. */
  ghost predicate Complete(trace: seq<Source>, passthroughs: set<nat>, outputs: seq<nat>, s: State,
                           moduleOutputs: seq<nat>) {
    && Served(trace, passthroughs, outputs, s)
    && |moduleOutputs| == |outputs|
    && (forall j: nat | j < |outputs| :: moduleOutputs[j] < |outputs| && outputs[moduleOutputs[j]] == outputs[j])
  }

  /** Once the queue is empty every slot has its edge. */
  lemma SlotHasEdge(trace: seq<Source>, s: State, x: Slot) returns (i: nat)
    requires Typed(trace, s) && SlotsBalance(trace, s) && s.pending == [] && IsSlot(trace, s, x)
    ensures i < |s.edges| && s.edges[i].dst == x.node && s.edges[i].dstPort == x.port
  {
    assert Fillings(s, x) == 1;
    assert x in multiset(EdgeSlots(s.edges));
    i :| i < |s.edges| && EdgeSlots(s.edges)[i] == x;
  }

  lemma VisitedIsReach(trace: seq<Source>, passthroughs: set<nat>, outputs: seq<nat>, s: State)
    requires Inv(trace, passthroughs, s) && s.pending == []
    requires forall j: nat | j < |outputs| :: outputs[j] < |trace|
    requires outputs <= s.origin && forall j: nat | j < |outputs| :: s.nodes[j].OutputNode?
    requires forall t | t in s.visited :: t in Reach(trace, outputs)
    ensures s.visited.Keys == Reach(trace, outputs)
  {
    forall j: nat | j < |outputs|
      ensures outputs[j] in s.visited.Keys
    {
      var i := SlotHasEdge(trace, s, Slot(j, 0));
      assert s.edges[i] in s.edges;
    }
    forall t, k: nat | t in s.visited.Keys && t < |trace| && trace[t].Traced? && k < |trace[t].operands|
      ensures trace[t].operands[k] in s.visited.Keys
    {
      var n := s.visited[t];
      assert Matches(trace[s.origin[n]], s.nodes[n], t in passthroughs);
      var i := SlotHasEdge(trace, s, Slot(n, k));
      assert s.edges[i] in s.edges;
    }
    assert Closed(trace, s.visited.Keys);
    ReachIsLeast(trace, outputs);
  }
}
