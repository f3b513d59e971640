/** The names of the graph can be read off the trace: which names they are, those made up included, and
    that they must differ. */
module NameClashes {
  import opened GraphNames
  import opened TraceGraph
  import opened TraceOrder
  import opened Wrappers

  // ---------- The names ----------

  /** What needs a name: an output, a tensor, and the nop of a passed-through input. */
  datatype Item = Output(j: nat) | Tensor(t: nat) | Nop(t: nat)

  ghost predicate IsItem(g: Setup, outputs: seq<nat>, x: Item)
    requires g.Valid() && InTrace(g, outputs)
  {
    match x
    case Output(j) => j < |outputs|
    case Tensor(t) => t in Reach(g.trace, outputs) && t < |g.trace|
    case Nop(t) => t in PassedThrough(g, outputs) && g.trace[t].Leaf?
  }

  ghost function Order(g: Setup, outputs: seq<nat>): seq<nat>
    requires g.Valid() && InTrace(g, outputs)
  {
    VisitOrder(g.trace, outputs, [])
  }

  /** What wants tensor t first: the first output that is t, otherwise the first operation that reads it. */
  ghost function ConsumerName(g: Setup, outputs: seq<nat>, t: nat): string
    requires g.Valid() && InTrace(g, outputs)
  {
    if t in outputs then OutputName(g, outputs, Position(outputs, t))
    else match FirstReader(g.trace, Order(g, outputs), t)
      case Some(u) => g.trace[u].opName
      case None => "" // no reachable tensor
  }

  ghost function ConsumerPort(g: Setup, outputs: seq<nat>, t: nat): nat
    requires g.Valid() && InTrace(g, outputs)
  {
    if t in outputs then 0
    else match FirstReader(g.trace, Order(g, outputs), t)
      case Some(u) => Position(OperandsOf(g.trace, u), t)
      case None => 0
  }

  ghost function TensorName(g: Setup, outputs: seq<nat>, t: nat): string
    requires g.Valid() && InTrace(g, outputs) && t < |g.trace|
  {
    match g.trace[t]
    case Parameter(_) => ParameterName(g.trace[t], ConsumerName(g, outputs, t))
    case Leaf(_) => InputName(g, t, ConsumerPort(g, outputs, t), ConsumerName(g, outputs, t))
    case Traced(opName, _, _, _) => opName
  }

  ghost function ItemName(g: Setup, outputs: seq<nat>, x: Item): string
    requires g.Valid() && InTrace(g, outputs) && IsItem(g, outputs, x)
  {
    match x
    case Output(j) => OutputName(g, outputs, j)
    case Tensor(t) => TensorName(g, outputs, t)
    case Nop(t) => NopName(g, Position(outputs, t))
  }

  ghost predicate NamesDiffer(g: Setup, outputs: seq<nat>)
    requires g.Valid() && InTrace(g, outputs)
  {
    forall x, y | IsItem(g, outputs, x) && IsItem(g, outputs, y) && x != y ::
      ItemName(g, outputs, x) != ItemName(g, outputs, y)
  }

  // ---------- What the worklist keeps about names and nops ----------

  ghost predicate OutputsRight(g: Setup, outputs: seq<nat>, s: State)
    requires InTrace(g, outputs)
  {
    && OutputNodes(g, outputs) <= s.nodes && outputs <= s.origin
    && forall n: nat | |outputs| <= n < |s.nodes| :: !s.nodes[n].OutputNode?
  }

  ghost predicate NopFits(g: Setup, outputs: seq<nat>, s: State, n: nat)
    requires n < |s.nodes| == |s.origin|
  {
    s.nodes[n].NopNode? ==>
      && s.nodes[n].name == NopName(g, Position(outputs, s.origin[n]))
      && s.origin[n] in s.visited && n == s.visited[s.origin[n]] + 1
  }

  ghost predicate HasNop(s: State, t: nat)
    requires |s.nodes| == |s.origin|
  {
    t in s.visited && s.visited[t] + 1 < |s.nodes|
    && s.nodes[s.visited[t] + 1].NopNode? && s.origin[s.visited[t] + 1] == t
  }

  /** The nop of a passed-through input comes right after the input's node. */
  ghost predicate NopsRight(g: Setup, outputs: seq<nat>, s: State)
    requires |s.origin| == |s.nodes|
  {
    && (forall n: nat | n < |s.nodes| :: NopFits(g, outputs, s, n))
    && (forall t | t in s.visited && t in PassedThrough(g, outputs) && g.trace[t].Leaf? :: HasNop(s, t))
  }

  ghost predicate Details(g: Setup, outputs: seq<nat>, s: State)
    requires InTrace(g, outputs)
  {
    |s.origin| == |s.nodes| && OutputsRight(g, outputs, s) && NopsRight(g, outputs, s)
  }

  /** What is served is neither visited before nor passed through. */
  ghost predicate Visiting(g: Setup, outputs: seq<nat>, s: State)
    requires HeadFits(g, s)
  {
    && s.pending[0].tensor !in s.visited
    && !(g.trace[s.pending[0].tensor].Leaf? && s.pending[0].tensor in PassedThrough(g, outputs))
  }

  lemma VisitKeepsNames(g: Setup, outputs: seq<nat>, s: State)
    requires InTrace(g, outputs) && HeadFits(g, s) && Visiting(g, outputs, s) && |s.origin| == |s.nodes|
    requires OutputsRight(g, outputs, s)
    ensures var s' := StepTo(g, PassedThrough(g, outputs), s);
      |s'.origin| == |s'.nodes| && OutputsRight(g, outputs, s')
  {
  }

  lemma NopsAfterVisit(g: Setup, outputs: seq<nat>, s: State, s': State, t: nat, node: Node)
    requires |s.origin| == |s.nodes| && Typed(g.trace, s) && VisitedRight(g.trace, s) && NopsRight(g, outputs, s)
    requires t !in s.visited && !(t in PassedThrough(g, outputs) && g.trace[t].Leaf?) && !node.NopNode?
    requires s'.nodes == s.nodes + [node] && s'.origin == s.origin + [t] && s'.visited == s.visited[t := |s.nodes|]
    ensures NopsRight(g, outputs, s')
  {
    forall n: nat | n < |s'.nodes|
      ensures NopFits(g, outputs, s', n)
    {
      if n < |s.nodes| {
        assert s'.nodes[n] == s.nodes[n] && s'.origin[n] == s.origin[n] && NopFits(g, outputs, s, n);
      }
    }
    forall u | u in s'.visited && u in PassedThrough(g, outputs) && g.trace[u].Leaf?
      ensures HasNop(s', u)
    {
      if u in s.visited {
        assert HasNop(s, u);
      }
    }
  }

  /** What is served is a passed-through input, at the first output that wants it. */
  ghost predicate Passing(g: Setup, outputs: seq<nat>, s: State)
    requires HeadFits(g, s)
  {
    && s.pending[0].tensor !in s.visited
    && g.trace[s.pending[0].tensor].Leaf? && s.pending[0].tensor in PassedThrough(g, outputs)
    && s.pending[0].dst == Position(outputs, s.pending[0].tensor)
  }

  lemma PassKeepsNames(g: Setup, outputs: seq<nat>, s: State)
    requires InTrace(g, outputs) && HeadFits(g, s) && Passing(g, outputs, s) && |s.origin| == |s.nodes|
    requires OutputsRight(g, outputs, s)
    ensures var s' := StepTo(g, PassedThrough(g, outputs), s);
      |s'.origin| == |s'.nodes| && OutputsRight(g, outputs, s')
  {
  }

  lemma NopFitsAfterPass(g: Setup, outputs: seq<nat>, s: State, s': State, t: nat, node: Node, n: nat)
    requires |s.origin| == |s.nodes| && Typed(g.trace, s) && VisitedRight(g.trace, s) && NopsRight(g, outputs, s)
    requires t !in s.visited && !node.NopNode?
    requires s'.nodes == s.nodes + [node, NopNode(NopName(g, Position(outputs, t)))]
    requires s'.origin == s.origin + [t, t] && s'.visited == s.visited[t := |s.nodes|]
    requires n < |s'.nodes|
    ensures NopFits(g, outputs, s', n)
  {
    if n < |s.nodes| {
      assert s'.nodes[n] == s.nodes[n] && s'.origin[n] == s.origin[n] && NopFits(g, outputs, s, n);
    } else {
      assert s'.origin[n] == t && (n == |s.nodes| || n == s'.visited[t] + 1);
    }
  }

  lemma HasNopAfterPass(g: Setup, outputs: seq<nat>, s: State, s': State, t: nat, node: Node, u: nat)
    requires |s.origin| == |s.nodes| && Typed(g.trace, s) && VisitedRight(g.trace, s) && NopsRight(g, outputs, s)
    requires t !in s.visited && !node.NopNode?
    requires s'.nodes == s.nodes + [node, NopNode(NopName(g, Position(outputs, t)))]
    requires s'.origin == s.origin + [t, t] && s'.visited == s.visited[t := |s.nodes|]
    requires u in s'.visited && u in PassedThrough(g, outputs) && g.trace[u].Leaf?
    ensures HasNop(s', u)
  {
    if u in s.visited {
      assert HasNop(s, u) && s'.visited[u] == s.visited[u];
    } else {
      assert u == t && s'.nodes[|s.nodes| + 1].NopNode?;
    }
  }

  lemma NopsAfterPass(g: Setup, outputs: seq<nat>, s: State, s': State, t: nat, node: Node)
    requires |s.origin| == |s.nodes| && Typed(g.trace, s) && VisitedRight(g.trace, s) && NopsRight(g, outputs, s)
    requires t !in s.visited && !node.NopNode?
    requires s'.nodes == s.nodes + [node, NopNode(NopName(g, Position(outputs, t)))]
    requires s'.origin == s.origin + [t, t] && s'.visited == s.visited[t := |s.nodes|]
    ensures NopsRight(g, outputs, s')
  {
    forall n: nat | n < |s'.nodes|
      ensures NopFits(g, outputs, s', n)
    {
      NopFitsAfterPass(g, outputs, s, s', t, node, n);
    }
    forall u | u in s'.visited && u in PassedThrough(g, outputs) && g.trace[u].Leaf?
      ensures HasNop(s', u)
    {
      HasNopAfterPass(g, outputs, s, s', t, node, u);
    }
  }

  lemma HeadIsPassing(g: Setup, outputs: seq<nat>, s: State)
    requires InTrace(g, outputs) && OutputsRight(g, outputs, s)
    requires Inv(g.trace, PassedThrough(g, outputs), s) && HeadFits(g, s) && s.pending[0].tensor !in s.visited
    requires g.trace[s.pending[0].tensor].Leaf? && s.pending[0].tensor in PassedThrough(g, outputs)
    ensures Passing(g, outputs, s)
  {
    var p := s.pending[0];
    PassthroughPort(g.trace, PassedThrough(g, outputs), s);
    assert outputs[p.dst] == p.tensor && forall m: nat | m < p.dst :: outputs[m] == s.origin[m];
  }

  lemma VisitKeepsDetails(g: Setup, outputs: seq<nat>, s: State)
    requires InTrace(g, outputs) && Details(g, outputs, s) && HeadFits(g, s) && Visiting(g, outputs, s)
    requires Typed(g.trace, s) && VisitedRight(g.trace, s)
    ensures Details(g, outputs, StepTo(g, PassedThrough(g, outputs), s))
  {
    VisitKeepsNames(g, outputs, s);
    NopsAfterVisit(g, outputs, s, StepTo(g, PassedThrough(g, outputs), s), s.pending[0].tensor,
                   HeadNode(g, PassedThrough(g, outputs), s));
  }

  lemma PassKeepsDetails(g: Setup, outputs: seq<nat>, s: State)
    requires InTrace(g, outputs) && Details(g, outputs, s) && HeadFits(g, s) && Passing(g, outputs, s)
    requires Typed(g.trace, s) && VisitedRight(g.trace, s)
    ensures Details(g, outputs, StepTo(g, PassedThrough(g, outputs), s))
  {
    PassKeepsNames(g, outputs, s);
    var p := s.pending[0];
    NopsAfterPass(g, outputs, s, StepTo(g, PassedThrough(g, outputs), s), p.tensor,
                  InputNode(InputName(g, p.tensor, p.port, s.nodes[p.dst].name), Activation));
  }

  lemma ConnectKeepsDetails(g: Setup, outputs: seq<nat>, s: State)
    requires InTrace(g, outputs) && Details(g, outputs, s) && HeadFits(g, s) && s.pending[0].tensor in s.visited
    ensures Details(g, outputs, StepTo(g, PassedThrough(g, outputs), s))
  {
    var s' := StepTo(g, PassedThrough(g, outputs), s);
    assert forall n: nat | n < |s.nodes| :: NopFits(g, outputs, s, n) && NopFits(g, outputs, s', n);
    assert forall t | t in s.visited :: HasNop(s', t) == HasNop(s, t);
  }

  lemma StepKeepsDetails(g: Setup, outputs: seq<nat>, s: State)
    requires InTrace(g, outputs) && Details(g, outputs, s) && HeadFits(g, s)
    requires Inv(g.trace, PassedThrough(g, outputs), s)
    ensures Details(g, outputs, StepTo(g, PassedThrough(g, outputs), s))
  {
    if s.pending[0].tensor in s.visited {
      ConnectKeepsDetails(g, outputs, s);
    } else if Visiting(g, outputs, s) {
      VisitKeepsDetails(g, outputs, s);
    } else {
      HeadIsPassing(g, outputs, s);
      PassKeepsDetails(g, outputs, s);
    }
  }

  lemma {:induction false} FinishKeepsDetails(g: Setup, outputs: seq<nat>, s: State)
    requires g.Valid() && InTrace(g, outputs) && Details(g, outputs, s) && Inv(g.trace, PassedThrough(g, outputs), s)
    ensures Details(g, outputs, Finish(g, PassedThrough(g, outputs), s))
    decreases Unvisited(|g.trace|, s.visited.Keys), |s.pending|
  {
    if s.pending != [] {
      StepProceeds(g, PassedThrough(g, outputs), s);
      StepKeepsDetails(g, outputs, s);
      FinishKeepsDetails(g, outputs, StepTo(g, PassedThrough(g, outputs), s));
    }
  }

  // ---------- What the worklist keeps about made-up names ----------

  ghost predicate NamedFrom(g: Setup, s: State, n: nat, x: Slot)
    requires n < |s.nodes| == |s.origin| && s.origin[n] < |g.trace| && x.node < |s.nodes|
  {
    && (s.nodes[n].InputNode? ==>
          s.nodes[n].name == InputName(g, s.origin[n], x.port, s.nodes[x.node].name))
    && (s.nodes[n].ParameterNode? && g.trace[s.origin[n]].Parameter? ==>
          s.nodes[n].name == ParameterName(g.trace[s.origin[n]], s.nodes[x.node].name))
  }

  /** Node n has its name from the first slot that wants its tensor. */
  ghost predicate NameFits(g: Setup, s: State, n: nat)
    requires Typed(g.trace, s) && n < |s.nodes|
  {
    s.nodes[n].InputNode? || s.nodes[n].ParameterNode? ==>
      exists x: Slot :: FirstWant(g.trace, s, s.origin[n], x) && NamedFrom(g, s, n, x)
  }

  ghost predicate NamedRight(g: Setup, s: State)
    requires Typed(g.trace, s)
  {
    forall n: nat | n < |s.nodes| :: NameFits(g, s, n)
  }

  lemma NameStays(g: Setup, s: State, s': State, n: nat)
    requires Typed(g.trace, s) && Typed(g.trace, s') && s.nodes <= s'.nodes && s.origin <= s'.origin
    requires n < |s.nodes| && NameFits(g, s, n)
    ensures NameFits(g, s', n)
  {
    if s.nodes[n].InputNode? || s.nodes[n].ParameterNode? {
      var x: Slot :| FirstWant(g.trace, s, s.origin[n], x) && NamedFrom(g, s, n, x);
      WantStays(g.trace, s, s', s.origin[n], x);
      assert s'.nodes[n] == s.nodes[n] && s'.origin[n] == s.origin[n] && s'.nodes[x.node] == s.nodes[x.node];
      assert NamedFrom(g, s', n, x);
    }
  }

  lemma NewNodes(g: Setup, passthroughs: set<nat>, s: State)
    requires HeadFits(g, s) && |s.origin| == |s.nodes|
    ensures var p, n, s' := s.pending[0], |s.nodes|, StepTo(g, passthroughs, s);
      && (forall m: nat | n < m < |s'.nodes| :: s'.nodes[m].NopNode?)
      && (n < |s'.nodes| ==>
            p.tensor !in s.visited && n < |s'.origin| && s'.origin[n] == p.tensor
            && (s'.nodes[n].InputNode? ==> s'.nodes[n].name == InputName(g, p.tensor, p.port, s.nodes[p.dst].name))
            && (s'.nodes[n].ParameterNode? && g.trace[p.tensor].Parameter? ==>
                  s'.nodes[n].name == ParameterName(g.trace[p.tensor], s.nodes[p.dst].name)))
  {
  }

  lemma StepKeepsNamed(g: Setup, passthroughs: set<nat>, s: State)
    requires Inv(g.trace, passthroughs, s) && HeadFits(g, s) && InLine(s.pending) && NamedRight(g, s)
    requires Typed(g.trace, StepTo(g, passthroughs, s))
    requires s.nodes <= StepTo(g, passthroughs, s).nodes && s.origin <= StepTo(g, passthroughs, s).origin
    ensures NamedRight(g, StepTo(g, passthroughs, s))
  {
    var p, s' := s.pending[0], StepTo(g, passthroughs, s);
    NewNodes(g, passthroughs, s);
    forall n: nat | n < |s'.nodes|
      ensures NameFits(g, s', n)
    {
      if n < |s.nodes| {
        NameStays(g, s, s', n);
      } else if n == |s.nodes| {
        NewIsNamed(g, passthroughs, s, s');
      }
    }
  }

  lemma NewIsNamed(g: Setup, passthroughs: set<nat>, s: State, s': State)
    requires Inv(g.trace, passthroughs, s) && HeadFits(g, s) && InLine(s.pending) && Typed(g.trace, s')
    requires s.nodes <= s'.nodes && s.origin <= s'.origin && s.pending[0].tensor !in s.visited
    requires |s.nodes| < |s'.nodes| && s'.origin[|s.nodes|] == s.pending[0].tensor
    requires NamedFrom(g, s', |s.nodes|, Slot(s.pending[0].dst, s.pending[0].port))
    ensures NameFits(g, s', |s.nodes|)
  {
    FirstServed(g.trace, passthroughs, s);
    WantStays(g.trace, s, s', s.pending[0].tensor, Slot(s.pending[0].dst, s.pending[0].port));
  }

  lemma {:induction false} FinishKeepsNamed(g: Setup, passthroughs: set<nat>, s: State)
    requires Inv(g.trace, passthroughs, s) && InLine(s.pending) && NamedRight(g, s)
    ensures NamedRight(g, Finish(g, passthroughs, s))
    decreases Unvisited(|g.trace|, s.visited.Keys), |s.pending|
  {
    if s.pending != [] {
      StepProceeds(g, passthroughs, s);
      StepKeepsLine(g, passthroughs, s);
      StepKeepsNamed(g, passthroughs, s);
      FinishKeepsNamed(g, passthroughs, StepTo(g, passthroughs, s));
    }
  }

  // ---------- Nodes and items correspond ----------

  ghost function ItemOf(s: State, n: nat): Item
    requires n < |s.nodes| == |s.origin|
  {
    match s.nodes[n]
    case OutputNode(_) => Output(n)
    case NopNode(_) => Nop(s.origin[n])
    case _ => Tensor(s.origin[n])
  }

  ghost function NodeFor(s: State, x: Item): int {
    match x
    case Output(j) => j
    case Tensor(t) => if t in s.visited then s.visited[t] else 0
    case Nop(t) => if t in s.visited then s.visited[t] + 1 else 0
  }

  /** What of the finished graph the names depend on. */
  ghost predicate Ready(g: Setup, outputs: seq<nat>, s: State)
    requires g.Valid() && InTrace(g, outputs)
  {
    && Typed(g.trace, s) && NodesRight(g.trace, PassedThrough(g, outputs), s) && VisitedRight(g.trace, s)
    && Details(g, outputs, s) && NamedRight(g, s) && SeenRight(s, Order(g, outputs))
    && s.visited.Keys == Reach(g.trace, outputs)
    && forall t | t in outputs :: t in s.visited
  }

  lemma ConsumerIs(g: Setup, outputs: seq<nat>, s: State, t: nat, x: Slot)
    requires g.Valid() && InTrace(g, outputs) && Ready(g, outputs, s) && FirstWant(g.trace, s, t, x)
    ensures s.nodes[x.node].name == ConsumerName(g, outputs, t) && x.port == ConsumerPort(g, outputs, t)
  {
    if t in outputs {
      FirstIsOutput(g.trace, outputs, s, t, x);
      assert s.nodes[x.node] == OutputNodes(g, outputs)[x.node];
    } else {
      WanterIsReader(g, outputs, s, t, x);
      ReaderConsumes(g, outputs, s, t, x);
    }
  }

  /** Only outputs and operations, and nops for what is an output, want anything. */
  lemma WanterIsReader(g: Setup, outputs: seq<nat>, s: State, t: nat, x: Slot)
    requires g.Valid() && InTrace(g, outputs) && Ready(g, outputs, s) && Wants(g.trace, s, t, x) && t !in outputs
    ensures s.nodes[x.node].OpNode? && g.trace[s.origin[x.node]].Traced?
    ensures s.nodes[x.node].name == g.trace[s.origin[x.node]].opName
  {
    assert Matches(g.trace[s.origin[x.node]], s.nodes[x.node], s.origin[x.node] in PassedThrough(g, outputs));
  }

  lemma InputIsWanted(g: Setup, outputs: seq<nat>, s: State, t: nat) returns (x: Slot)
    requires g.Valid() && InTrace(g, outputs) && Ready(g, outputs, s)
    requires t in s.visited && g.trace[t].Leaf?
    ensures FirstWant(g.trace, s, t, x)
  {
    var n := s.visited[t];
    assert Matches(g.trace[t], s.nodes[n], t in PassedThrough(g, outputs)) && NameFits(g, s, n);
    x :| FirstWant(g.trace, s, t, x) && NamedFrom(g, s, n, x);
  }

  lemma ReaderConsumes(g: Setup, outputs: seq<nat>, s: State, t: nat, x: Slot)
    requires g.Valid() && InTrace(g, outputs) && Ready(g, outputs, s) && FirstWant(g.trace, s, t, x)
    requires s.nodes[x.node].OpNode?
    ensures FirstReader(g.trace, Order(g, outputs), t) == Some(s.origin[x.node])
    ensures x.port == Position(OperandsOf(g.trace, s.origin[x.node]), t)
  {
    forall u | u in Order(g, outputs) && g.trace[u].Traced?
      ensures s.nodes[s.visited[u]].OpNode?
    {
      assert Matches(g.trace[u], s.nodes[s.visited[u]], u in PassedThrough(g, outputs));
    }
    assert Matches(g.trace[s.origin[x.node]], s.nodes[x.node], s.origin[x.node] in PassedThrough(g, outputs));
    FirstPort(g.trace, s, t, x);
    FirstIsReader(g.trace, s, Order(g, outputs), t, x);
  }

  lemma NodeIsNamed(g: Setup, outputs: seq<nat>, s: State, n: nat)
    requires g.Valid() && InTrace(g, outputs) && Ready(g, outputs, s) && n < |s.nodes|
    requires s.nodes[n].InputNode? || s.nodes[n].ParameterNode?
    ensures s.nodes[n].name == TensorName(g, outputs, s.origin[n])
  {
    assert NameFits(g, s, n);
    var x: Slot :| FirstWant(g.trace, s, s.origin[n], x) && NamedFrom(g, s, n, x);
    ConsumerIs(g, outputs, s, s.origin[n], x);
    assert Matches(g.trace[s.origin[n]], s.nodes[n], s.origin[n] in PassedThrough(g, outputs));
  }

  lemma NodeIsItem(g: Setup, outputs: seq<nat>, s: State, n: nat)
    requires g.Valid() && InTrace(g, outputs) && Ready(g, outputs, s) && n < |s.nodes|
    ensures IsItem(g, outputs, ItemOf(s, n)) && NodeFor(s, ItemOf(s, n)) == n
    ensures s.nodes[n].name == ItemName(g, outputs, ItemOf(s, n))
  {
    assert Matches(g.trace[s.origin[n]], s.nodes[n], s.origin[n] in PassedThrough(g, outputs));
    assert NopFits(g, outputs, s, n);
    if s.nodes[n].InputNode? || s.nodes[n].ParameterNode? {
      NodeIsNamed(g, outputs, s, n);
    }
  }

  lemma OutputHasNode(g: Setup, outputs: seq<nat>, s: State, j: nat)
    requires InTrace(g, outputs) && |s.origin| == |s.nodes| && OutputsRight(g, outputs, s) && j < |outputs|
    ensures j < |s.nodes| && ItemOf(s, j) == Output(j)
  {
    assert s.nodes[j] == OutputNodes(g, outputs)[j];
  }

  lemma TensorHasNode(g: Setup, s: State, t: nat)
    requires Typed(g.trace, s) && VisitedRight(g.trace, s) && t in s.visited
    ensures s.visited[t] < |s.nodes| && ItemOf(s, s.visited[t]) == Tensor(t)
  {
  }

  lemma NopHasNode(g: Setup, outputs: seq<nat>, s: State, t: nat)
    requires |s.origin| == |s.nodes| && NopsRight(g, outputs, s)
    requires t in s.visited && t in PassedThrough(g, outputs) && g.trace[t].Leaf?
    ensures s.visited[t] + 1 < |s.nodes| && ItemOf(s, s.visited[t] + 1) == Nop(t)
  {
    assert HasNop(s, t);
  }

  /** x has a node in s. */
  ghost predicate Inside(g: Setup, outputs: seq<nat>, s: State, x: Item) {
    match x
    case Output(j) => j < |outputs|
    case Tensor(t) => t in s.visited
    case Nop(t) => t in s.visited && t in PassedThrough(g, outputs) && g.trace[t].Leaf?
  }

  lemma ItemHasNode(g: Setup, outputs: seq<nat>, s: State, x: Item) returns (n: nat)
    requires InTrace(g, outputs) && Details(g, outputs, s) && Typed(g.trace, s) && VisitedRight(g.trace, s)
    requires Inside(g, outputs, s, x)
    ensures n < |s.nodes| && ItemOf(s, n) == x
  {
    match x
    case Output(j) =>
      OutputHasNode(g, outputs, s, j);
      n := j;
    case Tensor(t) =>
      TensorHasNode(g, s, t);
      n := s.visited[t];
    case Nop(t) =>
      NopHasNode(g, outputs, s, t);
      n := s.visited[t] + 1;
  }

  lemma ItemIsNamed(g: Setup, outputs: seq<nat>, s: State, x: Item) returns (n: nat)
    requires g.Valid() && InTrace(g, outputs) && Ready(g, outputs, s) && IsItem(g, outputs, x)
    ensures n < |s.nodes| && ItemOf(s, n) == x && s.nodes[n].name == ItemName(g, outputs, x)
  {
    assert Inside(g, outputs, s, x);
    n := ItemHasNode(g, outputs, s, x);
    NodeIsItem(g, outputs, s, n);
  }

  lemma NodesDiffer(g: Setup, outputs: seq<nat>, s: State, n: nat, m: nat)
    requires g.Valid() && InTrace(g, outputs) && Ready(g, outputs, s)
    requires NamesDiffer(g, outputs) && n < |s.nodes| && m < |s.nodes| && n != m
    ensures s.nodes[n].name != s.nodes[m].name
  {
    NodeIsItem(g, outputs, s, n);
    NodeIsItem(g, outputs, s, m);
  }

  lemma DraftSees(g: Setup, outputs: seq<nat>)
    requires g.Valid() && InTrace(g, outputs)
    ensures SeenRight(Draft(g, outputs), Order(g, outputs))
  {
    var start := Start(g, outputs);
    assert Tensors(start.pending) == outputs;
    FinishSees(g, PassedThrough(g, outputs), start, []);
  }

  lemma DraftNamed(g: Setup, outputs: seq<nat>)
    requires g.Valid() && InTrace(g, outputs)
    ensures NamedRight(g, Draft(g, outputs))
  {
    FinishKeepsNamed(g, PassedThrough(g, outputs), Start(g, outputs));
  }

  lemma DraftDetails(g: Setup, outputs: seq<nat>)
    requires g.Valid() && InTrace(g, outputs)
    ensures Details(g, outputs, Draft(g, outputs))
  {
    FinishKeepsDetails(g, outputs, Start(g, outputs));
  }

  lemma DraftReady(g: Setup, outputs: seq<nat>)
    requires g.Valid() && InTrace(g, outputs)
    ensures Ready(g, outputs, Draft(g, outputs))
  {
    DraftServed(g, outputs);
    ReachIsLeast(g.trace, outputs);
    DraftDetails(g, outputs);
    DraftNamed(g, outputs);
    DraftSees(g, outputs);
  }

  /** The draft's names differ exactly if those of the trace do. */
  lemma NamesAreOfTrace(g: Setup, outputs: seq<nat>)
    requires g.Valid() && InTrace(g, outputs)
    ensures Distinct(Draft(g, outputs).nodes) <==> NamesDiffer(g, outputs)
  {
    var d := Draft(g, outputs);
    DraftReady(g, outputs);
    if Distinct(d.nodes) {
      forall x, y | IsItem(g, outputs, x) && IsItem(g, outputs, y) && x != y
        ensures ItemName(g, outputs, x) != ItemName(g, outputs, y)
      {
        var n := ItemIsNamed(g, outputs, d, x);
        var m := ItemIsNamed(g, outputs, d, y);
        assert n != m;
      }
    }
    if NamesDiffer(g, outputs) {
      forall n: nat, m: nat | n < m < |d.nodes|
        ensures d.nodes[n].name != d.nodes[m].name
      {
        NodesDiffer(g, outputs, d, n, m);
      }
    }
  }

  /** The breadth-first order lists the reachable tensors, each once. */
  lemma OrderIsReach(g: Setup, outputs: seq<nat>)
    requires g.Valid() && InTrace(g, outputs)
    ensures forall t :: t in Order(g, outputs) <==> t in Reach(g.trace, outputs)
    ensures forall i: nat, j: nat | i < j < |Order(g, outputs)| :: Order(g, outputs)[i] != Order(g, outputs)[j]
  {
    DraftReady(g, outputs);
  }

  /** A reachable input that is no output is read by a reachable operation. */
  lemma InputHasReader(g: Setup, outputs: seq<nat>, t: nat)
    requires g.Valid() && InTrace(g, outputs) && t in Reach(g.trace, outputs) && t < |g.trace| && g.trace[t].Leaf?
    requires t !in outputs
    ensures FirstReader(g.trace, Order(g, outputs), t).Some?
  {
    var d := Draft(g, outputs);
    DraftReady(g, outputs);
    var x := InputIsWanted(g, outputs, d, t);
    WanterIsReader(g, outputs, d, t, x);
    ReaderConsumes(g, outputs, d, t, x);
  }

  // ---------- Parameters ----------

  ghost predicate IsParameter(g: Setup, outputs: seq<nat>, t: nat)
    requires g.Valid() && InTrace(g, outputs)
  {
    t in Reach(g.trace, outputs) && t < |g.trace| && g.trace[t].Parameter?
  }

  /** No two reachable parameters have the same name, given or made up. */
  ghost predicate ParametersDiffer(g: Setup, outputs: seq<nat>)
    requires g.Valid() && InTrace(g, outputs)
  {
    forall t: nat, u: nat | IsParameter(g, outputs, t) && IsParameter(g, outputs, u) && t != u ::
      TensorName(g, outputs, t) != TensorName(g, outputs, u)
  }

  lemma ParameterNodeIs(g: Setup, outputs: seq<nat>, s: State, n: nat)
    requires g.Valid() && InTrace(g, outputs) && Ready(g, outputs, s) && n < |s.nodes| && s.nodes[n].ParameterNode?
    ensures IsParameter(g, outputs, s.origin[n]) && s.visited[s.origin[n]] == n
    ensures s.nodes[n].name == TensorName(g, outputs, s.origin[n])
  {
    assert Matches(g.trace[s.origin[n]], s.nodes[n], s.origin[n] in PassedThrough(g, outputs));
    NodeIsNamed(g, outputs, s, n);
  }

  /** A repeated parameter name is reported only when two reachable parameters have the same name. */
  lemma RepeatedParameter(g: Setup, outputs: seq<nat>)
    requires g.Valid() && InTrace(g, outputs) && Verdict(Draft(g, outputs).nodes).DuplicateParameter?
    ensures !ParametersDiffer(g, outputs)
  {
    var d := Draft(g, outputs);
    DraftReady(g, outputs);
    var n, m := DuplicateMeans(d.nodes);
    ParameterNodeIs(g, outputs, d, n);
    ParameterNodeIs(g, outputs, d, m);
  }

  /** When two reachable parameters have the same name, something is refused. */
  lemma AcceptedParameters(g: Setup, outputs: seq<nat>)
    requires g.Valid() && InTrace(g, outputs) && Distinct(Draft(g, outputs).nodes)
    ensures ParametersDiffer(g, outputs)
  {
    NamesAreOfTrace(g, outputs);
    forall t: nat, u: nat | IsParameter(g, outputs, t) && IsParameter(g, outputs, u) && t != u
      ensures TensorName(g, outputs, t) != TensorName(g, outputs, u)
    {
      assert ItemName(g, outputs, Tensor(t)) != ItemName(g, outputs, Tensor(u));
    }
  }

  // ---------- Outputs returned twice ----------

  /** A computed tensor that is returned twice is refused: both output nodes have its name. */
  lemma ReturnedTwice(g: Setup, outputs: seq<nat>, i: nat, j: nat)
    requires g.Valid() && InTrace(g, outputs) && i < j < |outputs|
    requires outputs[i] == outputs[j] && g.trace[outputs[i]].Traced?
    ensures Verdict(Draft(g, outputs).nodes) == RepeatedName
  {
    assert OutputNodes(g, outputs)[i].name == OutputNodes(g, outputs)[j].name;
    OutputsClash(g, outputs);
  }

  /** A forward that returns its only result twice. */
  lemma ResultTwice(g: Setup)
    requires g.Valid() && g.trace == [Leaf(Activation), Traced("add0", "add", [0, 0], [])] && g.inputs == [0]
    ensures AllTraceable(g, [1, 1]) && Verdict(Draft(g, [1, 1]).nodes) == RepeatedName
  {
    ReturnedTwice(g, [1, 1], 0, 1);
  }

  /** A forward that returns one input twice and then another: the name counts different inputs. */
  lemma InputTwice(g: Setup)
    requires g.Valid() && g.trace == [Leaf(Activation), Leaf(Activation)] && g.inputs == [0, 1]
    ensures AllTraceable(g, [0, 0, 1]) && Verdict(Draft(g, [0, 0, 1]).nodes) == RepeatedName
  {
    var outputs: seq<nat> := [0, 0, 1];
    assert outputs[..1] == [0] && outputs[..2] == [0, 0];
    assert PassedThrough(g, outputs[..1]) == {0} == PassedThrough(g, outputs[..2]);
    assert OutputNodes(g, outputs)[1].name == OutputNodes(g, outputs)[2].name;
    OutputsClash(g, outputs);
  }
}
