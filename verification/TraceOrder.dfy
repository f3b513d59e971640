/** The order in which the worklist comes to the tensors, and who wants a tensor first. Both can be
    told from the trace alone: the order is breadth-first from the outputs. */
module TraceOrder {
  import opened GraphNames
  import opened TraceGraph
  import opened Wrappers

  // ---------- On the trace ----------

  function OperandsOf(trace: seq<Source>, t: nat): seq<nat>
    requires t < |trace|
  {
    if trace[t].Traced? then trace[t].operands else []
  }

  ghost predicate InRange(trace: seq<Source>, queue: seq<nat>) {
    forall i: nat | i < |queue| :: queue[i] < |trace|
  }

  /** The tensors in breadth-first order, those seen already first. */
  ghost function VisitOrder(trace: seq<Source>, queue: seq<nat>, seen: seq<nat>): seq<nat>
    requires IsTrace(trace) && InRange(trace, queue)
    decreases Unvisited(|trace|, set t | t in seen), |queue|
  {
    if queue == [] then seen
    else if queue[0] in seen then VisitOrder(trace, queue[1..], seen)
    else
      var more := seen + [queue[0]];
      assert queue[0] in Unvisited(|trace|, set t | t in seen) - Unvisited(|trace|, set t | t in more);
      VisitOrder(trace, queue[1..] + OperandsOf(trace, queue[0]), more)
  }

  /** The first tensor of the order with t among its operands. */
  function FirstReader(trace: seq<Source>, order: seq<nat>, t: nat): (r: Option<nat>)
    ensures r.Some? ==> r.value in order && r.value < |trace| && t in OperandsOf(trace, r.value)
    ensures r.None? ==> forall u | u in order && u < |trace| :: t !in OperandsOf(trace, u)
  {
    if order == [] then None
    else if order[0] < |trace| && t in OperandsOf(trace, order[0]) then Some(order[0])
    else FirstReader(trace, order[1..], t)
  }

  lemma {:induction false} NoEarlierReader(trace: seq<Source>, order: seq<nat>, t: nat, i: nat)
    requires i < |order| && order[i] < |trace| && t in OperandsOf(trace, order[i])
    ensures FirstReader(trace, order, t).Some?
    ensures exists k: nat :: k <= i && order[k] == FirstReader(trace, order, t).value
  {
    if order[0] < |trace| && t in OperandsOf(trace, order[0]) {
      assert order[0] == FirstReader(trace, order, t).value;
    } else {
      NoEarlierReader(trace, order[1..], t, i - 1);
      var k: nat :| k <= i - 1 && order[1..][k] == FirstReader(trace, order[1..], t).value;
      assert order[k + 1] == FirstReader(trace, order, t).value;
    }
  }

  // ---------- In the worklist ----------

  predicate Before(x: Slot, y: Slot) {
    x.node < y.node || (x.node == y.node && x.port <= y.port)
  }

  /** The queue is sorted by node and port. */
  ghost predicate InLine(pending: seq<Pending>) {
    forall i: nat, j: nat | i < j < |pending| ::
      pending[i].dst < pending[j].dst || (pending[i].dst == pending[j].dst && pending[i].port < pending[j].port)
  }

  ghost predicate Wants(trace: seq<Source>, s: State, t: nat, x: Slot)
    requires Typed(trace, s)
  {
    IsSlot(trace, s, x) && Wanted(trace, s.nodes[x.node], s.origin[x.node])[x.port] == t
  }

  /** Slot x is the first of all that want t. */
  ghost predicate FirstWant(trace: seq<Source>, s: State, t: nat, x: Slot)
    requires Typed(trace, s)
  {
    Wants(trace, s, t, x) && forall y | Wants(trace, s, t, y) :: Before(x, y)
  }

  lemma WantStays(trace: seq<Source>, s: State, s': State, t: nat, x: Slot)
    requires Typed(trace, s) && Typed(trace, s') && s.nodes <= s'.nodes && s.origin <= s'.origin
    requires FirstWant(trace, s, t, x)
    ensures FirstWant(trace, s', t, x)
  {
    assert s'.nodes[x.node] == s.nodes[x.node] && s'.origin[x.node] == s.origin[x.node];
    forall y | Wants(trace, s', t, y)
      ensures Before(x, y)
    {
      if y.node < |s.nodes| {
        assert s'.nodes[y.node] == s.nodes[y.node] && s'.origin[y.node] == s.origin[y.node];
        assert Wants(trace, s, t, y);
      }
    }
  }

  lemma FilledIsVisited(trace: seq<Source>, s: State, t: nat, x: Slot)
    requires Typed(trace, s) && VisitedRight(trace, s) && EdgesRight(trace, s) && Wants(trace, s, t, x)
    ensures x in multiset(EdgeSlots(s.edges)) ==> t in s.visited
  {
    if x in multiset(EdgeSlots(s.edges)) {
      var i: nat :| i < |s.edges| && EdgeSlots(s.edges)[i] == x;
      assert s.edges[i] in s.edges;
    }
  }

  /** A tensor comes to be visited from the first slot that wants it. */
  lemma FirstServed(trace: seq<Source>, passthroughs: set<nat>, s: State)
    requires Inv(trace, passthroughs, s) && s.pending != [] && InLine(s.pending)
    requires s.pending[0].tensor !in s.visited
    ensures FirstWant(trace, s, s.pending[0].tensor, Slot(s.pending[0].dst, s.pending[0].port))
  {
    var p := s.pending[0];
    assert p in s.pending;
    forall y | Wants(trace, s, p.tensor, y)
      ensures Before(Slot(p.dst, p.port), y)
    {
      FilledIsVisited(trace, s, p.tensor, y);
      assert Fillings(s, y) == 1;
      assert y in multiset(PendingSlots(s.pending));
      var i: nat :| i < |s.pending| && PendingSlots(s.pending)[i] == y;
    }
  }

  lemma StepKeepsLine(g: Setup, passthroughs: set<nat>, s: State)
    requires Inv(g.trace, passthroughs, s) && HeadFits(g, s) && InLine(s.pending)
    ensures InLine(StepTo(g, passthroughs, s).pending)
  {
    var s' := StepTo(g, passthroughs, s);
    forall i: nat | i < |s.pending|
      ensures s.pending[i].dst < |s.nodes|
    {
      assert s.pending[i] in s.pending;
    }
  }

  // ---------- The order of the worklist ----------

  ghost function Tensors(pending: seq<Pending>): (r: seq<nat>)
    ensures |r| == |pending|
  {
    seq(|pending|, i requires 0 <= i < |pending| => pending[i].tensor)
  }

  /** seen lists the visited tensors in the order of their nodes. */
  ghost predicate SeenRight(s: State, seen: seq<nat>) {
    && (forall i: nat | i < |seen| :: seen[i] in s.visited)
    && (forall t | t in s.visited :: t in seen)
    && (forall i: nat, j: nat | i < j < |seen| :: s.visited[seen[i]] < s.visited[seen[j]])
  }

  lemma PendingInRange(trace: seq<Source>, passthroughs: set<nat>, s: State)
    requires Inv(trace, passthroughs, s)
    ensures InRange(trace, Tensors(s.pending))
  {
    forall i: nat | i < |s.pending|
      ensures s.pending[i].tensor < |trace|
    {
      assert s.pending[i] in s.pending;
      assert Fits(trace, s, s.pending[i].tensor, s.pending[i].dst, s.pending[i].port, s.pending[i].broadcast);
    }
  }

  lemma NewIsSeen(s: State, s': State, seen: seq<nat>, t: nat, n: nat)
    requires SeenRight(s, seen) && t !in s.visited && s'.visited == s.visited[t := n]
    requires forall u | u in s.visited :: s.visited[u] < n
    ensures SeenRight(s', seen + [t])
  {
    var more := seen + [t];
    assert more[|seen|] == t;
    forall u | u in s'.visited
      ensures u in more
    {
      assert u in seen || u == t;
    }
  }

  lemma StepQueues(g: Setup, passthroughs: set<nat>, s: State)
    requires HeadFits(g, s)
    ensures var t, s' := s.pending[0].tensor, StepTo(g, passthroughs, s);
      && (t in s.visited ==> s'.visited == s.visited && Tensors(s'.pending) == Tensors(s.pending)[1..])
      && (t !in s.visited ==>
            && s'.visited == s.visited[t := |s.nodes|]
            && Tensors(s'.pending) == Tensors(s.pending)[1..] + OperandsOf(g.trace, t))
  {
  }

  lemma {:induction false} FinishSees(g: Setup, passthroughs: set<nat>, s: State, seen: seq<nat>)
    requires Inv(g.trace, passthroughs, s) && SeenRight(s, seen)
    requires IsTrace(g.trace) && InRange(g.trace, Tensors(s.pending))
    ensures SeenRight(Finish(g, passthroughs, s), VisitOrder(g.trace, Tensors(s.pending), seen))
    decreases Unvisited(|g.trace|, s.visited.Keys), |s.pending|
  {
    if s.pending != [] {
      var t, s' := s.pending[0].tensor, StepTo(g, passthroughs, s);
      StepProceeds(g, passthroughs, s);
      StepQueues(g, passthroughs, s);
      PendingInRange(g.trace, passthroughs, s');
      if t in s.visited {
        FinishSees(g, passthroughs, s', seen);
      } else {
        NewIsSeen(s, s', seen, t, |s.nodes|);
        FinishSees(g, passthroughs, s', seen + [t]);
      }
    }
  }

  // ---------- Who wants a tensor first ----------

  lemma FirstIsOutput(trace: seq<Source>, outputs: seq<nat>, s: State, t: nat, x: Slot)
    requires Typed(trace, s) && outputs <= s.origin && forall j: nat | j < |outputs| :: s.nodes[j].OutputNode?
    requires t in outputs && FirstWant(trace, s, t, x)
    ensures x == Slot(Position(outputs, t), 0)
  {
    assert Wants(trace, s, t, Slot(Position(outputs, t), 0));
  }

  lemma FirstPort(trace: seq<Source>, s: State, t: nat, x: Slot)
    requires Typed(trace, s) && FirstWant(trace, s, t, x)
    requires s.nodes[x.node].OpNode? && trace[s.origin[x.node]].Traced?
    ensures t in OperandsOf(trace, s.origin[x.node]) && x.port == Position(OperandsOf(trace, s.origin[x.node]), t)
  {
    var operands := OperandsOf(trace, s.origin[x.node]);
    assert operands[x.port] == t;
    assert Wants(trace, s, t, Slot(x.node, Position(operands, t)));
  }

  lemma ReaderWants(trace: seq<Source>, s: State, t: nat, u: nat)
    requires Typed(trace, s) && VisitedRight(trace, s) && u in s.visited && t in OperandsOf(trace, u)
    requires s.nodes[s.visited[u]].OpNode?
    ensures Wants(trace, s, t, Slot(s.visited[u], Position(OperandsOf(trace, u), t)))
  {
  }

  lemma FirstIsReader(trace: seq<Source>, s: State, order: seq<nat>, t: nat, x: Slot)
    requires Typed(trace, s) && VisitedRight(trace, s) && SeenRight(s, order) && FirstWant(trace, s, t, x)
    requires s.nodes[x.node].OpNode? && trace[s.origin[x.node]].Traced?
    requires forall u | u in order && trace[u].Traced? :: s.nodes[s.visited[u]].OpNode?
    ensures FirstReader(trace, order, t) == Some(s.origin[x.node])
  {
    var u := s.origin[x.node];
    FirstPort(trace, s, t, x);
    assert s.visited[u] == x.node;
    var i: nat :| i < |order| && order[i] == u;
    NoEarlierReader(trace, order, t, i);
    var r := FirstReader(trace, order, t).value;
    var k: nat :| k <= i && order[k] == r;
    ReaderWants(trace, s, t, r);
  }
}
