/** What the finished graph computes: the traced expressions, with sharing kept. */
module GraphMeaning {
  import opened TraceGraph

  /** An operand as an operation sees it: its value and the broadcast attribute of its edge. */
  datatype Operand<V> = Operand(value: V, broadcast: seq<int>)

  /** The value of traced tensor t, given the values of inputs, constants and parameters. */
  function Eval<V>(trace: seq<Source>, leaf: nat -> V, apply: (string, seq<Operand<V>>) -> V, t: nat): V
    requires IsTrace(trace) && t < |trace|
    decreases t, 1
  {
    if trace[t].Traced? then apply(trace[t].opType, Operands(trace, leaf, apply, t)) else leaf(t)
  }

  function Operands<V>(trace: seq<Source>, leaf: nat -> V, apply: (string, seq<Operand<V>>) -> V,
                       t: nat): (r: seq<Operand<V>>)
    requires IsTrace(trace) && t < |trace| && trace[t].Traced?
    ensures |r| == |trace[t].operands|
    decreases t, 0
  {
    seq(|trace[t].operands|, i requires 0 <= i < |trace[t].operands| =>
      Operand(Eval(trace, leaf, apply, trace[t].operands[i]), trace[t].broadcast))
  }

  /** args are the operands of node n, read off its incoming edges. */
  ghost predicate Feeds<V>(s: State, v: seq<V>, n: nat, args: seq<Operand<V>>)
    requires |v| == |s.nodes|
  {
    && (forall e | e in s.edges && e.dst == n && e.src < |v| ::
          e.dstPort < |args| && args[e.dstPort] == Operand(v[e.src], e.broadcast))
    && (forall i: nat | i < |args| :: Arrives(s, n, i))
  }

  ghost predicate Arrives(s: State, n: nat, port: nat) {
    exists e :: e in s.edges && e.dst == n && e.dstPort == port
  }

  /** v gives every node a value as the graph's semantics demand. */
  ghost predicate Valuation<V(!new)>(trace: seq<Source>, s: State, leaf: nat -> V,
                                     apply: (string, seq<Operand<V>>) -> V, v: seq<V>) {
    && |v| == |s.nodes|
    && (forall t | t in s.visited && t < |trace| && !trace[t].Traced? && s.visited[t] < |v| ::
          v[s.visited[t]] == leaf(t))
    && (forall n: nat, args | n < |v| && s.nodes[n].OpNode? && Feeds(s, v, n, args) ::
          v[n] == apply(s.nodes[n].opType, args))
    && (forall e | e in s.edges && e.src < |v| && e.dst < |v| && !s.nodes[e.dst].HoldsTensor() :: v[e.dst] == v[e.src])
  }

  /** A slot has exactly one edge, and an edge always fills a slot. */
  lemma OneEdgePerSlot(trace: seq<Source>, passthroughs: set<nat>, outputs: seq<nat>, s: State)
    requires Served(trace, passthroughs, outputs, s)
    ensures forall x: Slot :: IsSlot(trace, s, x) <==> x in EdgeSlots(s.edges)
    ensures forall i: nat, j: nat | i < j < |s.edges| :: EdgeSlots(s.edges)[i] != EdgeSlots(s.edges)[j]
  {
    var slots := EdgeSlots(s.edges);
    forall x: Slot
      ensures IsSlot(trace, s, x) <==> x in slots
      ensures multiset(slots)[x] <= 1
    {
      assert Fillings(s, x) == if IsSlot(trace, s, x) then 1 else 0;
      assert x in slots <==> x in multiset(slots);
    }
    forall i: nat, j: nat | i < j < |slots|
      ensures slots[i] != slots[j]
    {
      RepeatsCount(slots, i, j);
    }
  }

  lemma RepeatsCount(slots: seq<Slot>, i: nat, j: nat)
    requires i < j < |slots|
    ensures slots[i] == slots[j] ==> multiset(slots)[slots[i]] >= 2
  {
    assert slots == slots[..j] + slots[j..] && slots[i] in slots[..j] && slots[j] in slots[j..];
  }

  /** Every tensor the outputs depend on has exactly one node, carrying its attributes, and no other
      tensor has one. */
  lemma OneNodePerTensor(trace: seq<Source>, passthroughs: set<nat>, outputs: seq<nat>, s: State, t: nat)
    requires Served(trace, passthroughs, outputs, s)
    ensures t in Reach(trace, outputs)
      <==> exists n: nat :: n < |s.nodes| && s.nodes[n].HoldsTensor() && s.origin[n] == t
    ensures forall n: nat, m: nat |
            n < |s.nodes| && m < |s.nodes| && s.nodes[n].HoldsTensor() && s.nodes[m].HoldsTensor()
      && s.origin[n] == t == s.origin[m] :: n == m
    ensures forall n: nat | n < |s.nodes| && s.nodes[n].HoldsTensor() && s.origin[n] == t ::
      Matches(trace[t], s.nodes[n], t in passthroughs)
  {
    if t in s.visited {
      assert s.nodes[s.visited[t]].HoldsTensor() && s.origin[s.visited[t]] == t;
    }
  }

  /** The source node of an edge has the value of the tensor it carries, once that tensor's own node has. */
  lemma SourceValue<V(!new)>(trace: seq<Source>, passthroughs: set<nat>, outputs: seq<nat>, s: State, leaf: nat -> V,
                       apply: (string, seq<Operand<V>>) -> V, v: seq<V>, e: Edge, x: V)
    requires Served(trace, passthroughs, outputs, s) && Valuation(trace, s, leaf, apply, v) && e in s.edges
    requires s.origin[e.src] in s.visited && v[s.visited[s.origin[e.src]]] == x
    ensures v[e.src] == x
  {
    if s.nodes[e.src].NopNode? {
      var i := SlotHasEdge(trace, s, Slot(e.src, 0));
      assert s.edges[i] in s.edges;
      assert Fits(trace, s, s.origin[s.edges[i].src], e.src, 0, s.edges[i].broadcast);
    }
  }

  /** In every valuation of the graph the node of a tensor has the tensor's traced value. */
  lemma {:induction false} NodeValue<V(!new)>(trace: seq<Source>, passthroughs: set<nat>, outputs: seq<nat>,
                                              s: State, leaf: nat -> V,
                                        apply: (string, seq<Operand<V>>) -> V, v: seq<V>, t: nat)
    requires Served(trace, passthroughs, outputs, s) && Valuation(trace, s, leaf, apply, v) && t in s.visited
    ensures v[s.visited[t]] == Eval(trace, leaf, apply, t)
    decreases t
  {
    if trace[t].Traced? {
      var n, args := s.visited[t], Operands(trace, leaf, apply, t);
      assert Matches(trace[t], s.nodes[n], t in passthroughs);
      forall e | e in s.edges && e.dst == n
        ensures e.dstPort < |args| && args[e.dstPort] == Operand(v[e.src], e.broadcast)
      {
        var u := s.origin[e.src];
        assert Fits(trace, s, u, n, e.dstPort, e.broadcast);
        NodeValue(trace, passthroughs, outputs, s, leaf, apply, v, u);
        SourceValue(trace, passthroughs, outputs, s, leaf, apply, v, e, Eval(trace, leaf, apply, u));
      }
      forall i: nat | i < |args|
        ensures Arrives(s, n, i)
      {
        var k := SlotHasEdge(trace, s, Slot(n, i));
        assert s.edges[k] in s.edges;
      }
      assert Feeds(s, v, n, args);
    }
  }

  /** Whatever values the graph's semantics allow, output node j has the traced value of output j. */
  lemma GraphComputesTrace<V(!new)>(trace: seq<Source>, passthroughs: set<nat>, outputs: seq<nat>,
                                    s: State, moduleOutputs: seq<nat>,
                              leaf: nat -> V, apply: (string, seq<Operand<V>>) -> V, v: seq<V>, j: nat)
    requires TraceGraph.Complete(trace, passthroughs, outputs, s, moduleOutputs)
    requires Valuation(trace, s, leaf, apply, v) && j < |outputs|
    ensures v[j] == v[moduleOutputs[j]] == Eval(trace, leaf, apply, outputs[j])
  {
    OutputValue(trace, passthroughs, outputs, s, leaf, apply, v, j);
    OutputValue(trace, passthroughs, outputs, s, leaf, apply, v, moduleOutputs[j]);
  }

  lemma OutputValue<V(!new)>(trace: seq<Source>, passthroughs: set<nat>, outputs: seq<nat>, s: State,
                       leaf: nat -> V, apply: (string, seq<Operand<V>>) -> V, v: seq<V>, j: nat)
    requires Served(trace, passthroughs, outputs, s) && Valuation(trace, s, leaf, apply, v) && j < |outputs|
    ensures v[j] == Eval(trace, leaf, apply, outputs[j])
  {
    var i := SlotHasEdge(trace, s, Slot(j, 0));
    var e := s.edges[i];
    assert e in s.edges && Fits(trace, s, s.origin[e.src], j, 0, e.broadcast);
    NodeValue(trace, passthroughs, outputs, s, leaf, apply, v, outputs[j]);
    SourceValue(trace, passthroughs, outputs, s, leaf, apply, v, e, Eval(trace, leaf, apply, outputs[j]));
  }

  /** And there is such a valuation: giving every node the value of the tensor it carries. */
  lemma TraceIsValuation<V(!new)>(trace: seq<Source>, passthroughs: set<nat>, outputs: seq<nat>, s: State,
                            leaf: nat -> V, apply: (string, seq<Operand<V>>) -> V)
    requires Served(trace, passthroughs, outputs, s)
    ensures Valuation(trace, s, leaf, apply,
                      seq(|s.nodes|, n requires 0 <= n < |s.nodes| => Eval(trace, leaf, apply, s.origin[n])))
  {
    var v := seq(|s.nodes|, n requires 0 <= n < |s.nodes| => Eval(trace, leaf, apply, s.origin[n]));
    forall n: nat, args | n < |v| && s.nodes[n].OpNode? && Feeds(s, v, n, args)
      ensures v[n] == apply(s.nodes[n].opType, args)
    {
      OperandsRead(trace, passthroughs, outputs, s, leaf, apply, v, n, args);
    }
    forall e | e in s.edges && !s.nodes[e.dst].HoldsTensor()
      ensures v[e.dst] == v[e.src]
    {
      assert Fits(trace, s, s.origin[e.src], e.dst, e.dstPort, e.broadcast);
    }
  }

  lemma OperandsRead<V>(trace: seq<Source>, passthroughs: set<nat>, outputs: seq<nat>, s: State, leaf: nat -> V,
                        apply: (string, seq<Operand<V>>) -> V, v: seq<V>, n: nat, args: seq<Operand<V>>)
    requires Served(trace, passthroughs, outputs, s) && |v| == |s.nodes|
    requires forall m: nat | m < |v| :: v[m] == Eval(trace, leaf, apply, s.origin[m])
    requires n < |v| && s.nodes[n].OpNode? && Feeds(s, v, n, args)
    ensures v[n] == apply(s.nodes[n].opType, args)
  {
    var t := s.origin[n];
    assert Matches(trace[t], s.nodes[n], t in passthroughs);
    var expected := Operands(trace, leaf, apply, t);
    if |args| < |expected| {
      var k := SlotHasEdge(trace, s, Slot(n, |args|));
      assert false;
    }
    forall i: nat | i < |expected|
      ensures args[i] == expected[i]
    {
      var k := SlotHasEdge(trace, s, Slot(n, i));
      var e := s.edges[k];
      assert e in s.edges && Fits(trace, s, s.origin[e.src], n, i, e.broadcast);
    }
    assert !Arrives(s, n, |expected|);
    assert args == expected;
  }
}
