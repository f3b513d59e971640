/** generate_graph: the worklist that turns a traced tensor DAG into a graph, with its refusals. */
module GraphConstruction {
  import opened GivenNames
  import opened GraphNames
  import opened NameClashes
  import opened TraceGraph

  /** The graph library's index of names. */
  ghost predicate Indexed(nodes: seq<Node>, byName: map<string, nat>) {
    && (forall name | name in byName :: byName[name] < |nodes| && nodes[byName[name]].name == name)
    && (forall n: nat | n < |nodes| :: nodes[n].name in byName && byName[nodes[n].name] == n)
  }

  /** The worklist's record of parameter names. */
  ghost predicate RecordedRight(nodes: seq<Node>, recorded: map<string, nat>) {
    forall name :: name in recorded <==> ParameterNode(name) in nodes
  }

  lemma RecordedGrows(nodes: seq<Node>, node: Node, recorded: map<string, nat>, recorded': map<string, nat>)
    requires RecordedRight(nodes, recorded)
    requires if node.ParameterNode? then recorded'.Keys == recorded.Keys + {node.name} else recorded' == recorded
    ensures RecordedRight(nodes + [node], recorded')
  {
    forall name
      ensures name in recorded' <==> ParameterNode(name) in nodes + [node]
    {
      assert name in recorded <==> ParameterNode(name) in nodes;
    }
  }

  lemma StartingNext(outputs: seq<nat>, j: nat)
    requires j < |outputs|
    ensures Starting(outputs[..j + 1]) == Starting(outputs[..j]) + [Pending(outputs[j], j, 0, [])]
  {
  }

  /** Each of the first j outputs is mapped to the last output node of its tensor. */
  ghost predicate OutputsMapped(outputs: seq<nat>, j: nat, outputNodes: map<nat, nat>)
    requires j <= |outputs|
  {
    forall i: nat | i < j ::
      && outputs[i] in outputNodes && i <= outputNodes[outputs[i]] < j
      && outputs[outputNodes[outputs[i]]] == outputs[i]
  }

  lemma MappedNext(outputs: seq<nat>, j: nat, outputNodes: map<nat, nat>)
    requires j < |outputs| && OutputsMapped(outputs, j, outputNodes)
    ensures OutputsMapped(outputs, j + 1, outputNodes[outputs[j] := j])
  {
  }

  lemma TraceableNext(g: Setup, outputs: seq<nat>, j: nat)
    requires j < |outputs| && AllTraceable(g, outputs[..j]) && Traceable(g, outputs[j])
    ensures AllTraceable(g, outputs[..j + 1])
  {
    assert outputs[..j + 1] == outputs[..j] + [outputs[j]];
  }

  /** The graph under construction, with the local variables of generate_graph. */
  class GraphBuilder {
    const g: Setup

    var nodes: seq<Node>
    var byName: map<string, nat>
    var edges: seq<Edge>
    var pending: seq<Pending>
    var visited: map<nat, nat>
    var recorded: map<string, nat>
    var passthroughs: set<nat>

    ghost var origin: seq<nat>

    constructor (g: Setup)
      ensures this.g == g && Fresh()
    {
      this.g := g;
      nodes, byName, edges, pending := [], map[], [], [];
      visited, recorded, passthroughs, origin := map[], map[], {}, [];
    }

    ghost function Now(): State
      reads this
    {
      State(nodes, edges, origin, visited, pending)
    }

    ghost predicate Fresh()
      reads this
    {
      Now() == State([], [], [], map[], []) && byName == map[] && recorded == map[] && passthroughs == {}
    }

    ghost predicate Consistent()
      reads this
    {
      Indexed(nodes, byName) && RecordedRight(nodes, recorded)
    }

    // ---------- The graph library ----------

    /** Graph::add_node: a name that already exists is refused. */
    method AddNode(node: Node, ghost t: nat) returns (ok: bool, id: nat)
      requires Indexed(nodes, byName)
      modifies this`nodes, this`byName, this`origin
      ensures Indexed(nodes, byName) && Distinct(nodes)
      ensures ok <==> !Names(old(nodes), node.name)
      ensures if ok then nodes == old(nodes) + [node] && origin == old(origin) + [t] && id == |old(nodes)|
              else nodes == old(nodes) && origin == old(origin)
    {
      id := |nodes|;
      if node.name in byName {
        return false, id;
      }
      nodes, byName, origin := nodes + [node], byName[node.name := id], origin + [t];
      ok := true;
    }

    method CreateDataEdge(src: nat, srcPort: nat, dst: nat, dstPort: nat, broadcast: seq<int>)
      modifies this`edges
      ensures edges == old(edges) + [Edge(src, srcPort, dst, dstPort, broadcast)]
    {
      edges := edges + [Edge(src, srcPort, dst, dstPort, broadcast)];
    }

    // ---------- The worklist ----------

    /** A passthrough input is met at an output's only port. */
    ghost predicate PassthroughInPlace()
      reads this
    {
      pending != [] && pending[0].tensor in passthroughs && pending[0].tensor !in visited ==>
        pending[0].port == 0 && pending[0].broadcast == []
    }

    /** Serves the head of the queue as StepTo does, or stops at the first name that is refused. */
    method Step() returns (outcome: Outcome)
      requires Consistent() && HeadFits(g, Now()) && PassthroughInPlace()
      modifies this`nodes, this`byName, this`edges, this`origin, this`visited, this`recorded, this`pending
      ensures outcome.Built? ==> Now() == StepTo(g, passthroughs, old(Now())) && Consistent()
      ensures !outcome.Built? ==> outcome == Verdict(StepTo(g, passthroughs, old(Now())).nodes)
    {
      var p := pending[0];
      if p.tensor in visited {
        pending := pending[1..];
        CreateDataEdge(visited[p.tensor], 0, p.dst, p.port, p.broadcast);
        return Built;
      }
      var source := g.trace[p.tensor];
      if source.Parameter? {
        outcome := StepParameter();
      } else if source.Leaf? && p.tensor in passthroughs {
        outcome := StepPassthrough();
      } else {
        outcome := StepNode();
      }
    }

    /** A node for the head of the queue, its edge and its operands queued. */
    method VisitHead(node: Node) returns (ok: bool, id: nat)
      requires Indexed(nodes, byName) && pending != [] && pending[0].tensor < |g.trace|
      modifies this`nodes, this`byName, this`edges, this`origin, this`visited, this`pending
      ensures ok <==> !Names(old(nodes), node.name)
      ensures ok ==> Indexed(nodes, byName) && id == |old(nodes)|
      ensures ok ==> Now() == Connect(Visit(g.trace, old(Now()), old(pending)[0].tensor, node), id)
    {
      var p := pending[0];
      ok, id := AddNode(node, p.tensor);
      if ok {
        QueueOperands(p.tensor, id);
        pending := pending[1..];
        visited := visited[p.tensor := id];
        CreateDataEdge(id, 0, p.dst, p.port, p.broadcast);
      }
    }

    method QueueOperands(t: nat, id: nat)
      requires t < |g.trace|
      modifies this`pending
      ensures pending == old(pending) + Entries(g.trace, t, id)
    {
      ghost var entries := Entries(g.trace, t, id);
      if g.trace[t].Traced? {
        var operands := g.trace[t].operands;
        for i := 0 to |operands|
          invariant pending == old(pending) + entries[..i]
        {
          assert entries[..i + 1] == entries[..i] + [entries[i]];
          pending := pending + [Pending(operands[i], id, i, g.trace[t].broadcast)];
        }
        assert entries[..|operands|] == entries;
      }
    }

    method StepParameter() returns (outcome: Outcome)
      requires Consistent() && HeadFits(g, Now()) && pending[0].tensor !in visited
      requires g.trace[pending[0].tensor].Parameter?
      modifies this`nodes, this`byName, this`edges, this`origin, this`visited, this`recorded, this`pending
      ensures outcome.Built? ==> Now() == StepTo(g, passthroughs, old(Now())) && Consistent()
      ensures !outcome.Built? ==> outcome == Verdict(StepTo(g, passthroughs, old(Now())).nodes)
    {
      var p := pending[0];
      var node := ParameterNode(ParameterName(g.trace[p.tensor], nodes[p.dst].name));
      VerdictNext(nodes, node);
      if node.name in recorded {
        return DuplicateParameter;
      }
      var ok, inq := VisitHead(node);
      if !ok {
        return RepeatedName;
      }
      RecordedGrows(old(nodes), node, recorded, recorded[node.name := inq]);
      recorded := recorded[node.name := inq];
      outcome := Built;
    }

    /** A tensor that is no parameter and not passed through: an input, target or constant node, or an
        operation node. */
    method StepNode() returns (outcome: Outcome)
      requires Consistent() && HeadFits(g, Now()) && pending[0].tensor !in visited
      requires g.trace[pending[0].tensor].Traced? ||
        (g.trace[pending[0].tensor].Leaf? && pending[0].tensor !in passthroughs)
      modifies this`nodes, this`byName, this`edges, this`origin, this`visited, this`pending
      ensures outcome.Built? ==> Now() == StepTo(g, passthroughs, old(Now())) && Consistent()
      ensures !outcome.Built? ==> outcome == Verdict(StepTo(g, passthroughs, old(Now())).nodes)
    {
      var p := pending[0];
      var node := match g.trace[p.tensor] {
        case Leaf(kind) => InputNode(InputName(g, p.tensor, p.port, nodes[p.dst].name), kind)
        case Traced(opName, opType, _, _) => OpNode(opName, opType)
      };
      VerdictNext(nodes, node);
      var ok, id := VisitHead(node);
      if !ok {
        return RepeatedName;
      }
      RecordedGrows(old(nodes), node, recorded, recorded);
      outcome := Built;
    }

    /** An input that is also an output: its node feeds the output through a nop, at port 0. */
    method StepPassthrough() returns (outcome: Outcome)
      requires Consistent() && HeadFits(g, Now()) && PassthroughInPlace()
      requires pending[0].tensor !in visited && pending[0].tensor in passthroughs && g.trace[pending[0].tensor].Leaf?
      modifies this`nodes, this`byName, this`edges, this`origin, this`visited, this`pending
      ensures outcome.Built? ==> Now() == StepTo(g, passthroughs, old(Now())) && Consistent()
      ensures !outcome.Built? ==> outcome == Verdict(StepTo(g, passthroughs, old(Now())).nodes)
    {
      var p := pending[0];
      var inputName, nopName := InputName(g, p.tensor, p.port, nodes[p.dst].name), NopName(g, p.dst);
      outcome := VisitPassthrough(inputName, nopName);
    }

    method VisitPassthrough(inputName: string, nopName: string) returns (outcome: Outcome)
      requires Consistent() && pending != [] && pending[0].tensor < |g.trace| && g.trace[pending[0].tensor].Leaf?
      requires pending[0].port == 0 && pending[0].broadcast == []
      modifies this`nodes, this`byName, this`edges, this`origin, this`visited, this`pending
      ensures outcome.Built? ==> Now() == AfterPassthrough(g.trace, old(Now()), inputName, nopName) && Consistent()
      ensures !outcome.Built? ==> outcome == Verdict(AfterPassthrough(g.trace, old(Now()), inputName, nopName).nodes)
    {
      var p := pending[0];
      var inq, nop;
      outcome, inq, nop := AddInputAndNop(inputName, nopName, p.tensor);
      if !outcome.Built? {
        return;
      }
      pending := pending[1..];
      CreateDataEdge(inq, 0, nop, 0, p.broadcast);
      CreateDataEdge(nop, 0, p.dst, 0, p.broadcast);
      visited := visited[p.tensor := inq];
    }

    method AddInputAndNop(inputName: string, nopName: string, ghost t: nat)
        returns (outcome: Outcome, inq: nat, nop: nat)
      requires Consistent()
      modifies this`nodes, this`byName, this`origin
      ensures outcome.Built? ==> Consistent() && inq == |old(nodes)| && nop == inq + 1
      ensures outcome.Built? ==> nodes == old(nodes) + [InputNode(inputName, Activation)] + [NopNode(nopName)]
      ensures outcome.Built? ==> origin == old(origin) + [t] + [t]
      ensures !outcome.Built? ==>
        outcome == Verdict(old(nodes) + [InputNode(inputName, Activation)] + [NopNode(nopName)])
    {
      var node, nopNode := InputNode(inputName, Activation), NopNode(nopName);
      VerdictNext(nodes, node);
      var ok;
      ok, inq := AddNode(node, t);
      if !ok {
        VerdictStands(old(nodes) + [node], old(nodes) + [node] + [nopNode]);
        return RepeatedName, 0, 0;
      }
      RecordedGrows(old(nodes), node, recorded, recorded);
      VerdictNext(nodes, nopNode);
      ok, nop := AddNode(nopNode, t);
      if !ok {
        return RepeatedName, 0, 0;
      }
      RecordedGrows(old(nodes) + [node], nopNode, recorded, recorded);
      outcome := Built;
    }

    // ---------- Outputs ----------

    /** The first j outputs have their nodes and are queued. */
    ghost predicate OutputsDone(outputs: seq<nat>, j: nat)
      requires InTrace(g, outputs) && j <= |outputs|
      reads this
    {
      && nodes == OutputNodes(g, outputs)[..j] && origin == outputs[..j] && pending == Starting(outputs[..j])
      && Indexed(nodes, byName) && passthroughs == PassedThrough(g, outputs[..j])
    }

    /** The node for output j, queued with the tensor it wants. */
    method CreateOutput(outputs: seq<nat>, j: nat) returns (outcome: Outcome)
      requires j < |outputs| && InTrace(g, outputs) && OutputsDone(outputs, j)
      modifies this`nodes, this`byName, this`origin, this`passthroughs, this`pending
      ensures outcome.UntracedOutput? <==> !Traceable(g, outputs[j])
      ensures outcome.RepeatedName? <==>
        Traceable(g, outputs[j]) && Names(OutputNodes(g, outputs)[..j], OutputNodes(g, outputs)[j].name)
      ensures !outcome.DuplicateParameter? && (outcome.Built? ==> OutputsDone(outputs, j + 1))
    {
      ghost var goal := OutputNodes(g, outputs);
      assert outputs[..j + 1] == outputs[..j] + [outputs[j]] && goal[..j + 1] == goal[..j] + [goal[j]];
      var traced, name := NameOutput(outputs, j);
      if !traced {
        return UntracedOutput;
      }
      var ok, outq := AddNode(OutputNode(name), outputs[j]);
      if !ok {
        return RepeatedName;
      }
      StartingNext(outputs, j);
      pending := pending + [Pending(outputs[j], outq, 0, [])];
      outcome := Built;
    }

    method NameOutput(outputs: seq<nat>, j: nat) returns (traced: bool, name: string)
      requires j < |outputs| && InTrace(g, outputs) && passthroughs == PassedThrough(g, outputs[..j])
      modifies this`passthroughs
      ensures traced <==> Traceable(g, outputs[j])
      ensures traced ==> name == OutputName(g, outputs, j) && passthroughs == PassedThrough(g, outputs[..j + 1])
    {
      var out := outputs[j];
      assert outputs[..j + 1] == outputs[..j] + [out];
      if g.trace[out].Traced? {
        return true, g.moduleName + ".output_" + g.trace[out].opName;
      }
      traced := out in g.inputs;
      if !traced {
        return false, "";
      }
      name := g.moduleName + ".output_passthrough_" + Decimal(|passthroughs|);
      passthroughs := passthroughs + {out};
    }

    /** One output node per output, each queued with the tensor it wants; for a tensor the last of its
        output nodes is remembered. */
    method CreateOutputs(outputs: seq<nat>) returns (outcome: Outcome, outputNodes: map<nat, nat>)
      requires g.Valid() && InTrace(g, outputs) && Fresh()
      modifies this
      ensures outcome.UntracedOutput? <==> exists j: nat :: StopsAt(g, outputs, j)
      ensures outcome.Built? <==> Distinct(OutputNodes(g, outputs)) && AllTraceable(g, outputs)
      ensures !outcome.DuplicateParameter? && (outcome.RepeatedName? ==> !Distinct(OutputNodes(g, outputs)))
      ensures outcome.Built? ==> Now() == Start(g, outputs) && Consistent() && passthroughs == PassedThrough(g, outputs)
      ensures outcome.Built? ==> OutputsMapped(outputs, |outputs|, outputNodes)
    {
      outputNodes := map[];
      for j := 0 to |outputs|
        modifies this`nodes, this`byName, this`origin, this`passthroughs, this`pending
        invariant OutputsDone(outputs, j) && AllTraceable(g, outputs[..j]) && OutputsMapped(outputs, j, outputNodes)
      {
        assert Distinct(OutputNodes(g, outputs)[..j]);
        outcome := CreateOutput(outputs, j);
        if !outcome.Built? {
          if outcome.UntracedOutput? {
            assert StopsAt(g, outputs, j);
          } else {
            NameTaken(g, outputs, j);
          }
          return;
        }
        TraceableNext(g, outputs, j);
        MappedNext(outputs, j, outputNodes);
        outputNodes := outputNodes[outputs[j] := j];
      }
      assert outputs[..|outputs|] == outputs && OutputNodes(g, outputs)[..|outputs|] == OutputNodes(g, outputs);
      assert Now() == Start(g, outputs);
      outcome := Built;
    }

    // ---------- The whole construction ----------

    /** Serves the queue to the end, or to the first name that is refused. */
    method ServePending() returns (outcome: Outcome)
      requires Inv(g.trace, passthroughs, Now()) && Consistent()
      modifies this`nodes, this`byName, this`edges, this`origin, this`visited, this`recorded, this`pending
      ensures outcome == Verdict(Finish(g, passthroughs, old(Now())).nodes)
      ensures outcome.Built? ==> Now() == Finish(g, passthroughs, old(Now()))
    {
      ghost var goal := Finish(g, passthroughs, Now());
      while pending != []
        invariant Inv(g.trace, passthroughs, Now()) && Consistent() && Finish(g, passthroughs, Now()) == goal
        decreases Unvisited(|g.trace|, visited.Keys), |pending|
      {
        ghost var s := Now();
        StepProceeds(g, passthroughs, s);
        if pending[0].tensor in passthroughs && pending[0].tensor !in visited {
          PassthroughPort(g.trace, passthroughs, s);
        }
        outcome := Step();
        if !outcome.Built? {
          VerdictStands(StepTo(g, passthroughs, s).nodes, goal.nodes);
          return;
        }
      }
      VerdictBuilt(nodes);
      outcome := Built;
    }

    /** Outputs and worklist: the draft, or the first refusal. */
    method BuildDraft(outputs: seq<nat>) returns (outcome: Outcome, outputNodes: map<nat, nat>)
      requires g.Valid() && InTrace(g, outputs) && Fresh()
      modifies this
      ensures outcome.UntracedOutput? <==> exists j: nat :: StopsAt(g, outputs, j)
      ensures !outcome.UntracedOutput? ==> outcome == Verdict(Draft(g, outputs).nodes)
      ensures outcome.Built? ==> AllTraceable(g, outputs) && Now() == Draft(g, outputs)
      ensures outcome.Built? ==> OutputsMapped(outputs, |outputs|, outputNodes)
    {
      outcome, outputNodes := CreateOutputs(outputs);
      if outcome.Built? {
        outcome := ServePending();
        VerdictBuilt(Draft(g, outputs).nodes);
      } else if outcome.RepeatedName? {
        OutputsClash(g, outputs);
      }
    }

    /** Either the draft, when all its names differ and every output was computed or given, or the
        error that comes first. The names are told from the trace; the made-up ones do not matter when
        parameters are named and no given name might be made up. */
    method GenerateGraph(outputs: seq<nat>) returns (outcome: Outcome, moduleOutputs: seq<nat>)
      requires g.Valid() && InTrace(g, outputs) && Fresh()
      modifies this
      ensures outcome.UntracedOutput? <==> exists j: nat :: StopsAt(g, outputs, j)
      ensures !outcome.UntracedOutput? ==> outcome == Verdict(Draft(g, outputs).nodes)
      ensures outcome.Built? <==> Distinct(Draft(g, outputs).nodes) && AllTraceable(g, outputs)
      ensures outcome.Built? <==> NamesDiffer(g, outputs) && AllTraceable(g, outputs)
      ensures ParametersNamed(g, outputs) && MadeUpApart(g, outputs) ==>
        (outcome.Built? <==> GivenDiffer(g, outputs) && AllTraceable(g, outputs))
      ensures outcome.Built? ==> GivenDiffer(g, outputs) && ParametersDiffer(g, outputs)
      ensures outcome.DuplicateParameter? ==> !ParametersDiffer(g, outputs)
      ensures outcome.Built? ==> Now() == Draft(g, outputs)
      ensures outcome.Built? ==> Complete(g.trace, PassedThrough(g, outputs), outputs, Now(), moduleOutputs)
    {
      var outputNodes;
      outcome, outputNodes := BuildDraft(outputs);
      VerdictBuilt(Draft(g, outputs).nodes);
      NamesDecide(g, outputs);
      moduleOutputs := [];
      if outcome.Built? {
        moduleOutputs := seq(|outputs|, j requires 0 <= j < |outputs| => outputNodes[outputs[j]]);
        DraftComplete(g, outputs, moduleOutputs);
      }
    }
  }
}
