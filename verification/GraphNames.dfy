/** The names of the graph's nodes, which must all differ: the graph the worklist would make if they
    did, and when they do. */
module GraphNames {
  import opened TraceGraph
  import opened Wrappers

  // ---------- Names ----------

  /** What the construction is given besides the outputs: the trace, the inputs, the names of the
      forward function's arguments if there is one for every input, the module's name, and the id
      that the graph library gives to the first node. */
  datatype Setup = Setup(
    trace: seq<Source>,
    inputs: seq<nat>,
    inputNames: Option<seq<string>>,
    moduleName: string,
    firstId: nat)
  {
    ghost predicate Valid() {
      IsTrace(trace) && (inputNames.Some? ==> |inputNames.value| == |inputs|)
    }

    predicate HasInputName(t: nat) {
      inputNames.Some? && t in inputs && Position(inputs, t) < |inputNames.value|
    }
  }

  function Decimal(n: nat): string {
    if n < 10 then ["0123456789"[n]] else Decimal(n / 10) + ["0123456789"[n % 10]]
  }

  /** The argument's name, or a name made from the port and the consumer that first want the tensor. */
  function InputName(g: Setup, t: nat, port: nat, consumer: string): string {
    if g.HasInputName(t) then g.inputNames.value[Position(g.inputs, t)]
    else "input_" + Decimal(port) + "_" + consumer
  }

  /** get_name() of a parameter, or a name made from the consumer that first wants it. */
  function ParameterName(source: Source, consumer: string): string
    requires source.Parameter?
  {
    if source.name.Some? then source.name.value else "parameter_" + consumer
  }

  function NopName(g: Setup, output: nat): string {
    "_passthrough_nop_" + Decimal(g.firstId + output)
  }

  ghost predicate InTrace(g: Setup, outputs: seq<nat>) {
    forall j: nat | j < |outputs| :: outputs[j] < |g.trace|
  }

  /** The outputs that are inputs passed through. */
  function PassedThrough(g: Setup, outputs: seq<nat>): (s: set<nat>) {
    set t | t in outputs && t < |g.trace| && !g.trace[t].Traced?
  }

  /** Passed-through outputs are named by how many different ones came before. */
  function OutputName(g: Setup, outputs: seq<nat>, j: nat): string
    requires j < |outputs| && outputs[j] < |g.trace|
  {
    if g.trace[outputs[j]].Traced? then g.moduleName + ".output_" + g.trace[outputs[j]].opName
    else g.moduleName + ".output_passthrough_" + Decimal(|PassedThrough(g, outputs[..j])|)
  }

  ghost function OutputNodes(g: Setup, outputs: seq<nat>): (r: seq<Node>)
    requires InTrace(g, outputs)
    ensures |r| == |outputs| && forall j: nat | j < |r| :: r[j].OutputNode?
  {
    seq(|outputs|, j requires 0 <= j < |outputs| => OutputNode(OutputName(g, outputs, j)))
  }

  // ---------- The worklist without the checks ----------

  /** The node made for the head of the queue. */
  function HeadNode(g: Setup, passthroughs: set<nat>, s: State): Node
    requires s.pending != [] && s.pending[0].tensor < |g.trace| && s.pending[0].dst < |s.nodes|
  {
    var p, consumer := s.pending[0], s.nodes[s.pending[0].dst].name;
    match g.trace[p.tensor]
    case Parameter(_) => ParameterNode(ParameterName(g.trace[p.tensor], consumer))
    case Leaf(kind) =>
      InputNode(InputName(g, p.tensor, p.port, consumer), if p.tensor in passthroughs then Activation else kind)
    case Traced(opName, opType, _, _) => OpNode(opName, opType)
  }

  /** The nodes for a passthrough input at the head of the queue. */
  function WithNop(trace: seq<Source>, s: State, inputName: string, nopName: string): (s': State)
    requires s.pending != [] && s.pending[0].tensor < |trace|
    ensures trace[s.pending[0].tensor].Leaf? ==> s'.pending == s.pending
  {
    var t, n := s.pending[0].tensor, |s.nodes|;
    AddNop(Visit(trace, s, t, InputNode(inputName, Activation)), t, n, nopName)
  }

  function AfterPassthrough(trace: seq<Source>, s: State, inputName: string, nopName: string): State
    requires s.pending != [] && s.pending[0].tensor < |trace| && trace[s.pending[0].tensor].Leaf?
  {
    Connect(WithNop(trace, s, inputName, nopName), |s.nodes| + 1)
  }

  lemma WithNopKeepsInv(trace: seq<Source>, passthroughs: set<nat>, s: State, inputName: string, nopName: string)
    requires Inv(trace, passthroughs, s) && s.pending != []
    requires var t := s.pending[0].tensor; t in passthroughs && t !in s.visited && t < |trace| && trace[t].Leaf?
    ensures Inv(trace, passthroughs, WithNop(trace, s, inputName, nopName))
  {
    var t := s.pending[0].tensor;
    VisitKeepsInv(trace, passthroughs, s, t, InputNode(inputName, Activation));
    AddNopKeepsInv(trace, passthroughs, Visit(trace, s, t, InputNode(inputName, Activation)), t, nopName);
  }

  lemma NopConnects(trace: seq<Source>, passthroughs: set<nat>, s: State, inputName: string, nopName: string)
    requires s.pending != [] && s.pending[0].tensor < |trace| && trace[s.pending[0].tensor].Leaf?
    requires Inv(trace, passthroughs, WithNop(trace, s, inputName, nopName)) && |s.origin| == |s.nodes|
    ensures Inv(trace, passthroughs, AfterPassthrough(trace, s, inputName, nopName))
  {
    ConnectKeepsInv(trace, passthroughs, WithNop(trace, s, inputName, nopName), |s.nodes| + 1);
  }

  lemma PassthroughStep(trace: seq<Source>, passthroughs: set<nat>, s: State, inputName: string, nopName: string,
                        reach: set<nat>)
    requires Inv(trace, passthroughs, s) && s.pending != [] && WithinReach(s, reach)
    requires var t := s.pending[0].tensor; t in passthroughs && t !in s.visited && t < |trace| && trace[t].Leaf?
    ensures Advanced(trace, passthroughs, s, AfterPassthrough(trace, s, inputName, nopName), reach)
  {
    WithNopKeepsInv(trace, passthroughs, s, inputName, nopName);
    NopConnects(trace, passthroughs, s, inputName, nopName);
    var s' := AfterPassthrough(trace, s, inputName, nopName);
    assert s'.pending == s.pending[1..] && s'.visited == s.visited[s.pending[0].tensor := |s.nodes|];
    assert s.pending[0] in s.pending;
  }

  ghost predicate HeadFits(g: Setup, s: State) {
    s.pending != [] && s.pending[0].tensor < |g.trace| && s.pending[0].dst < |s.nodes|
  }

  lemma HeadIsFit(g: Setup, passthroughs: set<nat>, s: State)
    requires Inv(g.trace, passthroughs, s) && s.pending != []
    ensures HeadFits(g, s)
  {
    assert s.pending[0] in s.pending;
  }

  /** Serving the head of the queue. */
  function StepTo(g: Setup, passthroughs: set<nat>, s: State): State
    requires HeadFits(g, s)
  {
    var p := s.pending[0];
    if p.tensor in s.visited then Connect(s, s.visited[p.tensor])
    else if g.trace[p.tensor].Leaf? && p.tensor in passthroughs then
      AfterPassthrough(g.trace, s, InputName(g, p.tensor, p.port, s.nodes[p.dst].name), NopName(g, p.dst))
    else Connect(Visit(g.trace, s, p.tensor, HeadNode(g, passthroughs, s)), |s.nodes|)
  }

  lemma StepAdvances(g: Setup, passthroughs: set<nat>, s: State, reach: set<nat>)
    requires Inv(g.trace, passthroughs, s) && s.pending != [] && Closed(g.trace, reach) && WithinReach(s, reach)
    requires HeadFits(g, s)
    ensures Advanced(g.trace, passthroughs, s, StepTo(g, passthroughs, s), reach)
  {
    var p := s.pending[0];
    if p.tensor in s.visited {
      ConnectStep(g.trace, passthroughs, s, reach);
    } else if g.trace[p.tensor].Leaf? && p.tensor in passthroughs {
      var inputName := InputName(g, p.tensor, p.port, s.nodes[p.dst].name);
      PassthroughStep(g.trace, passthroughs, s, inputName, NopName(g, p.dst), reach);
    } else {
      VisitStep(g.trace, passthroughs, s, HeadNode(g, passthroughs, s), reach);
    }
  }

  // ---------- The draft: every node, whatever its name ----------

  function Everything(n: nat): set<nat> {
    Unvisited(n, {})
  }

  lemma InvWithin(g: Setup, passthroughs: set<nat>, s: State)
    requires Inv(g.trace, passthroughs, s)
    ensures Closed(g.trace, Everything(|g.trace|)) && WithinReach(s, Everything(|g.trace|))
  {
    forall p | p in s.pending
      ensures p.tensor < |g.trace|
    {
      assert Fits(g.trace, s, p.tensor, p.dst, p.port, p.broadcast);
    }
  }

  lemma StepProceeds(g: Setup, passthroughs: set<nat>, s: State)
    requires Inv(g.trace, passthroughs, s) && s.pending != []
    ensures HeadFits(g, s) && Advanced(g.trace, passthroughs, s, StepTo(g, passthroughs, s), Everything(|g.trace|))
    ensures var s' := StepTo(g, passthroughs, s);
      var left, left' := Unvisited(|g.trace|, s.visited.Keys), Unvisited(|g.trace|, s'.visited.Keys);
      left' < left || (left' == left && |s'.pending| < |s.pending|)
  {
    HeadIsFit(g, passthroughs, s);
    InvWithin(g, passthroughs, s);
    StepAdvances(g, passthroughs, s, Everything(|g.trace|));
    var t, s' := s.pending[0].tensor, StepTo(g, passthroughs, s);
    if t !in s.visited {
      assert t in Unvisited(|g.trace|, s.visited.Keys) - Unvisited(|g.trace|, s'.visited.Keys);
    }
  }

  ghost function Finish(g: Setup, passthroughs: set<nat>, s: State): (r: State)
    requires Inv(g.trace, passthroughs, s)
    ensures Inv(g.trace, passthroughs, r) && r.pending == [] && s.nodes <= r.nodes && s.origin <= r.origin
    decreases Unvisited(|g.trace|, s.visited.Keys), |s.pending|
  {
    if s.pending == [] then s
    else
      StepProceeds(g, passthroughs, s);
      Finish(g, passthroughs, StepTo(g, passthroughs, s))
  }

  lemma {:induction false} FinishWithin(g: Setup, passthroughs: set<nat>, s: State, reach: set<nat>)
    requires Inv(g.trace, passthroughs, s) && Closed(g.trace, reach) && WithinReach(s, reach)
    ensures WithinReach(Finish(g, passthroughs, s), reach)
    decreases Unvisited(|g.trace|, s.visited.Keys), |s.pending|
  {
    if s.pending != [] {
      StepProceeds(g, passthroughs, s);
      StepAdvances(g, passthroughs, s, reach);
      FinishWithin(g, passthroughs, StepTo(g, passthroughs, s), reach);
    }
  }

  ghost function Start(g: Setup, outputs: seq<nat>): (s: State)
    requires g.Valid() && InTrace(g, outputs)
    ensures Inv(g.trace, PassedThrough(g, outputs), s)
  {
    StartInv(g.trace, outputs, OutputNodes(g, outputs), PassedThrough(g, outputs));
    State(OutputNodes(g, outputs), [], outputs, map[], Starting(outputs))
  }

  /** The graph the worklist makes when no name is refused. */
  ghost function Draft(g: Setup, outputs: seq<nat>): State
    requires g.Valid() && InTrace(g, outputs)
  {
    Finish(g, PassedThrough(g, outputs), Start(g, outputs))
  }

  lemma DraftServed(g: Setup, outputs: seq<nat>)
    requires g.Valid() && InTrace(g, outputs)
    ensures Served(g.trace, PassedThrough(g, outputs), outputs, Draft(g, outputs))
    ensures OutputNodes(g, outputs) <= Draft(g, outputs).nodes
  {
    var d, reach := Draft(g, outputs), Reach(g.trace, outputs);
    ReachIsLeast(g.trace, outputs);
    FinishWithin(g, PassedThrough(g, outputs), Start(g, outputs), reach);
    assert forall j: nat | j < |outputs| :: d.nodes[j] == OutputNodes(g, outputs)[j];
    VisitedIsReach(g.trace, PassedThrough(g, outputs), outputs, d);
  }

  lemma DraftComplete(g: Setup, outputs: seq<nat>, moduleOutputs: seq<nat>)
    requires g.Valid() && InTrace(g, outputs) && |moduleOutputs| == |outputs|
    requires forall j: nat | j < |outputs| :: moduleOutputs[j] < |outputs| && outputs[moduleOutputs[j]] == outputs[j]
    ensures Complete(g.trace, PassedThrough(g, outputs), outputs, Draft(g, outputs), moduleOutputs)
  {
    DraftServed(g, outputs);
  }

  // ---------- Refused names ----------

  datatype Outcome = Built | UntracedOutput | DuplicateParameter | RepeatedName

  ghost predicate Distinct(nodes: seq<Node>) {
    forall n: nat, m: nat | n < m < |nodes| :: nodes[n].name != nodes[m].name
  }

  ghost predicate Names(nodes: seq<Node>, name: string) {
    exists n: nat :: n < |nodes| && nodes[n].name == name
  }

  /** The first node whose name is taken ends the construction; a parameter whose name another
      parameter has is caught before the graph sees it. */
  ghost function Verdict(nodes: seq<Node>): Outcome {
    if nodes == [] then Built
    else
      var before, last := nodes[..|nodes| - 1], nodes[|nodes| - 1];
      if !Verdict(before).Built? then Verdict(before)
      else if last.ParameterNode? && last in before then DuplicateParameter
      else if Names(before, last.name) then RepeatedName
      else Built
  }

  lemma {:induction false} VerdictBuilt(nodes: seq<Node>)
    ensures Verdict(nodes).Built? <==> Distinct(nodes)
    ensures !Verdict(nodes).UntracedOutput?
  {
    if nodes != [] {
      var before, last := nodes[..|nodes| - 1], nodes[|nodes| - 1];
      VerdictBuilt(before);
      if Distinct(nodes) {
        assert Distinct(before) && !Names(before, last.name);
      } else if Distinct(before) {
        var n: nat, m: nat :| n < m < |nodes| && nodes[n].name == nodes[m].name;
        assert before[n].name == last.name;
      } else {
        var n: nat, m: nat :| n < m < |before| && before[n].name == before[m].name;
        assert nodes[n].name == nodes[m].name;
      }
    }
  }

  lemma {:induction false} VerdictStands(nodes: seq<Node>, more: seq<Node>)
    requires nodes <= more && !Verdict(nodes).Built?
    ensures Verdict(more) == Verdict(nodes)
    decreases |more|
  {
    if |nodes| < |more| {
      VerdictStands(nodes, more[..|more| - 1]);
    } else {
      assert nodes == more;
    }
  }

  lemma VerdictNext(nodes: seq<Node>, node: Node)
    requires Distinct(nodes)
    ensures Verdict(nodes + [node])
         == if node.ParameterNode? && node in nodes then DuplicateParameter
            else if Names(nodes, node.name) then RepeatedName
            else Built
  {
    VerdictBuilt(nodes);
    assert (nodes + [node])[..|nodes|] == nodes;
  }

  lemma {:induction false} DuplicateMeans(nodes: seq<Node>) returns (n: nat, m: nat)
    requires Verdict(nodes).DuplicateParameter?
    ensures n < m < |nodes| && nodes[n] == nodes[m] && nodes[n].ParameterNode?
  {
    var before, last := nodes[..|nodes| - 1], nodes[|nodes| - 1];
    if Verdict(before).Built? {
      m := |nodes| - 1;
      n :| n < |before| && before[n] == last;
    } else {
      n, m := DuplicateMeans(before);
    }
  }

  // ---------- Outputs ----------

  predicate Traceable(g: Setup, out: nat) {
    out < |g.trace| && (g.trace[out].Traced? || out in g.inputs)
  }

  ghost predicate AllTraceable(g: Setup, outputs: seq<nat>) {
    forall j: nat | j < |outputs| :: Traceable(g, outputs[j])
  }

  /** Output j was neither computed nor given, and nothing before it is refused. */
  ghost predicate StopsAt(g: Setup, outputs: seq<nat>, j: nat)
    requires InTrace(g, outputs)
  {
    && j < |outputs| && !Traceable(g, outputs[j])
    && AllTraceable(g, outputs[..j]) && Distinct(OutputNodes(g, outputs)[..j])
  }

  lemma NameTaken(g: Setup, outputs: seq<nat>, j: nat)
    requires InTrace(g, outputs) && j < |outputs| && Traceable(g, outputs[j]) && AllTraceable(g, outputs[..j])
    requires Names(OutputNodes(g, outputs)[..j], OutputNodes(g, outputs)[j].name)
    ensures !Distinct(OutputNodes(g, outputs)) && forall i: nat :: !StopsAt(g, outputs, i)
  {
    var nodes := OutputNodes(g, outputs);
    var n: nat :| n < j && nodes[..j][n].name == nodes[j].name;
    assert nodes[n].name == nodes[j].name;
    forall i: nat
      ensures !StopsAt(g, outputs, i)
    {
      if j < i < |outputs| {
        assert nodes[..i][n].name == nodes[..i][j].name;
      } else if i < j {
        assert outputs[..j][i] == outputs[i];
      }
    }
  }

  lemma OutputsClash(g: Setup, outputs: seq<nat>)
    requires g.Valid() && InTrace(g, outputs) && !Distinct(OutputNodes(g, outputs))
    ensures Verdict(Draft(g, outputs).nodes) == RepeatedName
  {
    var nodes := OutputNodes(g, outputs);
    VerdictBuilt(nodes);
    if Verdict(nodes).DuplicateParameter? {
      var n, m := DuplicateMeans(nodes);
      assert false;
    }
    VerdictStands(nodes, Draft(g, outputs).nodes);
  }
}
