/** When the made-up names cannot be mistaken for given ones, only the given names have to differ; and
    which names are given does not depend on any order. */
module GivenNames {
  import opened GraphNames
  import opened NameClashes
  import opened TraceGraph
  import opened TraceOrder

  /** The name comes with the trace: no parameter without a name, no input that is not an argument. */
  ghost predicate IsGiven(g: Setup, outputs: seq<nat>, x: Item)
    requires g.Valid() && InTrace(g, outputs)
  {
    && IsItem(g, outputs, x)
    && (x.Tensor? ==>
          && (g.trace[x.t].Parameter? ==> g.trace[x.t].name.Some?)
          && (g.trace[x.t].Leaf? ==> g.HasInputName(x.t)))
  }

  function GivenName(g: Setup, outputs: seq<nat>, x: Item): string
    requires InTrace(g, outputs) && (x.Output? ==> x.j < |outputs|) && (x.Tensor? ==> x.t < |g.trace|)
  {
    match x
    case Output(j) => OutputName(g, outputs, j)
    case Nop(t) => NopName(g, Position(outputs, t))
    case Tensor(t) =>
      match g.trace[t]
      case Parameter(name) => if name.Some? then name.value else ""
      case Leaf(_) => if g.HasInputName(t) then g.inputNames.value[Position(g.inputs, t)] else ""
      case Traced(opName, _, _, _) => opName
  }

  ghost predicate GivenDiffer(g: Setup, outputs: seq<nat>)
    requires g.Valid() && InTrace(g, outputs)
  {
    forall x, y | IsGiven(g, outputs, x) && IsGiven(g, outputs, y) && x != y ::
      GivenName(g, outputs, x) != GivenName(g, outputs, y)
  }

  ghost predicate ParametersNamed(g: Setup, outputs: seq<nat>)
    requires g.Valid() && InTrace(g, outputs)
  {
    forall t: nat | IsParameter(g, outputs, t) :: g.trace[t].name.Some?
  }

  /** x is an output or a reachable operation that wants tensor t at this port. */
  ghost predicate Consumes(g: Setup, outputs: seq<nat>, x: Item, t: nat, port: nat)
    requires g.Valid() && InTrace(g, outputs)
  {
    && IsItem(g, outputs, x)
    && match x
       case Output(j) => outputs[j] == t && port == 0
       case Tensor(u) => port < |OperandsOf(g.trace, u)| && OperandsOf(g.trace, u)[port] == t
       case Nop(_) => false
  }

  function MadeUp(port: nat, consumer: string): string {
    "input_" + Decimal(port) + "_" + consumer
  }

  /** No given name is one that might be made up for an input: one from a port and the name of something
      that wants, at that port, a reachable input that is no argument. */
  ghost predicate MadeUpApart(g: Setup, outputs: seq<nat>)
    requires g.Valid() && InTrace(g, outputs)
  {
    forall x, y, t: nat, port: nat |
      IsGiven(g, outputs, x) && IsUnnamedInput(g, outputs, t) && Consumes(g, outputs, y, t, port) ::
      GivenName(g, outputs, x) != MadeUp(port, GivenName(g, outputs, y))
  }

  ghost predicate IsUnnamedInput(g: Setup, outputs: seq<nat>, t: nat)
    requires g.Valid() && InTrace(g, outputs)
  {
    t in Reach(g.trace, outputs) && t < |g.trace| && g.trace[t].Leaf? && !g.HasInputName(t)
  }

  // ---------- Made-up names are one-to-one ----------

  predicate IsDigit(c: char) {
    '0' <= c <= '9'
  }

  lemma {:induction false} DecimalDigits(n: nat)
    ensures Decimal(n) != [] && forall i | 0 <= i < |Decimal(n)| :: IsDigit(Decimal(n)[i])
  {
    if n >= 10 {
      DecimalDigits(n / 10);
    }
  }

  lemma DigitOneToOne(i: nat, j: nat)
    requires i < 10 && j < 10 && "0123456789"[i] == "0123456789"[j]
    ensures i == j
  {
  }

  lemma DecimalEnds(n: nat)
    ensures Decimal(n) != [] && Decimal(n)[|Decimal(n)| - 1] == "0123456789"[n % 10]
    ensures if n < 10 then |Decimal(n)| == 1
            else |Decimal(n)| > 1 && Decimal(n)[..|Decimal(n)| - 1] == Decimal(n / 10)
  {
    DecimalDigits(n / 10);
  }

  lemma {:induction false} DecimalOneToOne(n: nat, m: nat)
    requires Decimal(n) == Decimal(m)
    ensures n == m
  {
    DecimalEnds(n);
    DecimalEnds(m);
    DigitOneToOne(n % 10, m % 10);
    if n >= 10 {
      DecimalOneToOne(n / 10, m / 10);
    }
  }

  lemma FirstUnderscore(a: string, b: string, a': string, b': string)
    requires a + "_" + b == a' + "_" + b'
    requires '_' !in a && '_' !in a'
    ensures a == a' && b == b'
  {
    var s, s' := a + "_" + b, a' + "_" + b';
    assert s[|a|] == '_' && s'[|a'|] == '_';
    assert forall i | 0 <= i < |a| :: s[i] == a[i];
    assert forall i | 0 <= i < |a'| :: s'[i] == a'[i];
    assert |a| == |a'|;
    assert a == s[..|a|] && a' == s'[..|a|] && b == s[|a| + 1..] && b' == s'[|a| + 1..];
  }

  lemma MadeUpOneToOne(port: nat, consumer: string, port': nat, consumer': string)
    requires MadeUp(port, consumer) == MadeUp(port', consumer')
    ensures port == port' && consumer == consumer'
  {
    DecimalDigits(port);
    DecimalDigits(port');
    var s, s' := MadeUp(port, consumer), MadeUp(port', consumer');
    assert s[6..] == Decimal(port) + "_" + consumer && s'[6..] == Decimal(port') + "_" + consumer';
    FirstUnderscore(Decimal(port), consumer, Decimal(port'), consumer');
    DecimalOneToOne(port, port');
  }

  // ---------- What is made up ----------

  lemma GivenIs(g: Setup, outputs: seq<nat>, x: Item)
    requires g.Valid() && InTrace(g, outputs) && IsGiven(g, outputs, x)
    ensures ItemName(g, outputs, x) == GivenName(g, outputs, x)
  {
  }

  /** The item that wants an unnamed input first, and where. */
  lemma FirstConsumer(g: Setup, outputs: seq<nat>, t: nat) returns (x: Item)
    requires g.Valid() && InTrace(g, outputs) && IsUnnamedInput(g, outputs, t)
    ensures Consumes(g, outputs, x, t, ConsumerPort(g, outputs, t)) && IsGiven(g, outputs, x)
    ensures GivenName(g, outputs, x) == ConsumerName(g, outputs, t)
    ensures TensorName(g, outputs, t) == MadeUp(ConsumerPort(g, outputs, t), GivenName(g, outputs, x))
  {
    if t in outputs {
      x := Output(Position(outputs, t));
    } else {
      InputHasReader(g, outputs, t);
      OrderIsReach(g, outputs);
      x := Tensor(FirstReader(g.trace, Order(g, outputs), t).value);
    }
  }

  lemma UnnamedDiffer(g: Setup, outputs: seq<nat>, t: nat, u: nat)
    requires g.Valid() && InTrace(g, outputs) && GivenDiffer(g, outputs) && t != u
    requires IsUnnamedInput(g, outputs, t) && IsUnnamedInput(g, outputs, u)
    ensures TensorName(g, outputs, t) != TensorName(g, outputs, u)
  {
    var x := FirstConsumer(g, outputs, t);
    var y := FirstConsumer(g, outputs, u);
    if TensorName(g, outputs, t) == TensorName(g, outputs, u) {
      MadeUpOneToOne(ConsumerPort(g, outputs, t), GivenName(g, outputs, x),
                     ConsumerPort(g, outputs, u), GivenName(g, outputs, y));
    }
  }

  lemma UnnamedFromGiven(g: Setup, outputs: seq<nat>, x: Item, t: nat)
    requires g.Valid() && InTrace(g, outputs) && MadeUpApart(g, outputs)
    requires IsGiven(g, outputs, x) && IsUnnamedInput(g, outputs, t)
    ensures GivenName(g, outputs, x) != TensorName(g, outputs, t)
  {
    var y := FirstConsumer(g, outputs, t);
  }

  lemma TwoDiffer(g: Setup, outputs: seq<nat>, x: Item, y: Item)
    requires g.Valid() && InTrace(g, outputs) && ParametersNamed(g, outputs)
    requires MadeUpApart(g, outputs) && GivenDiffer(g, outputs)
    requires IsItem(g, outputs, x) && IsItem(g, outputs, y) && x != y
    ensures ItemName(g, outputs, x) != ItemName(g, outputs, y)
  {
    assert forall z | IsItem(g, outputs, z) :: IsGiven(g, outputs, z) || (z.Tensor? && IsUnnamedInput(g, outputs, z.t));
    if IsGiven(g, outputs, x) {
      GivenIs(g, outputs, x);
      if IsGiven(g, outputs, y) {
        GivenIs(g, outputs, y);
      } else {
        UnnamedFromGiven(g, outputs, x, y.t);
      }
    } else if IsGiven(g, outputs, y) {
      GivenIs(g, outputs, y);
      UnnamedFromGiven(g, outputs, y, x.t);
    } else {
      UnnamedDiffer(g, outputs, x.t, y.t);
    }
  }

  /** The given names of a graph that is built differ. If the parameters are named and no given name might
      be a made-up one, that is all it takes. */
  lemma GivenDecide(g: Setup, outputs: seq<nat>)
    requires g.Valid() && InTrace(g, outputs)
    ensures NamesDiffer(g, outputs) ==> GivenDiffer(g, outputs)
    ensures ParametersNamed(g, outputs) && MadeUpApart(g, outputs) ==>
      (NamesDiffer(g, outputs) <==> GivenDiffer(g, outputs))
  {
    if NamesDiffer(g, outputs) {
      forall x, y | IsGiven(g, outputs, x) && IsGiven(g, outputs, y) && x != y
        ensures GivenName(g, outputs, x) != GivenName(g, outputs, y)
      {
        GivenIs(g, outputs, x);
        GivenIs(g, outputs, y);
      }
    }
    if ParametersNamed(g, outputs) && MadeUpApart(g, outputs) && GivenDiffer(g, outputs) {
      forall x, y | IsItem(g, outputs, x) && IsItem(g, outputs, y) && x != y
        ensures ItemName(g, outputs, x) != ItemName(g, outputs, y)
      {
        TwoDiffer(g, outputs, x, y);
      }
    }
  }

  /** What the names decide about the draft. */
  lemma NamesDecide(g: Setup, outputs: seq<nat>)
    requires g.Valid() && InTrace(g, outputs)
    ensures Distinct(Draft(g, outputs).nodes) <==> NamesDiffer(g, outputs)
    ensures NamesDiffer(g, outputs) ==> GivenDiffer(g, outputs) && ParametersDiffer(g, outputs)
    ensures ParametersNamed(g, outputs) && MadeUpApart(g, outputs) ==>
      (NamesDiffer(g, outputs) <==> GivenDiffer(g, outputs))
    ensures Verdict(Draft(g, outputs).nodes).DuplicateParameter? ==> !ParametersDiffer(g, outputs)
  {
    NamesAreOfTrace(g, outputs);
    GivenDecide(g, outputs);
    if NamesDiffer(g, outputs) {
      AcceptedParameters(g, outputs);
    }
    if Verdict(Draft(g, outputs).nodes).DuplicateParameter? {
      RepeatedParameter(g, outputs);
    }
  }

  lemma ClashOrder(trace: seq<Source>)
    requires trace == [Leaf(Constant), Traced("input_0_add0", "exp", [0], []), Traced("add0", "add", [0, 1], [])]
    ensures IsTrace(trace) && VisitOrder(trace, [2], []) == [2, 0, 1]
  {
    assert [0, 1] == [2][1..] + OperandsOf(trace, 2) && [2] == [] + [2];
    assert VisitOrder(trace, [2], []) == VisitOrder(trace, [0, 1], [2]);
    assert [1] == [0, 1][1..] + OperandsOf(trace, 0) && [2, 0] == [2] + [0];
    assert VisitOrder(trace, [0, 1], [2]) == VisitOrder(trace, [1], [2, 0]);
    assert [0] == [1][1..] + OperandsOf(trace, 1) && [2, 0, 1] == [2, 0] + [1];
    assert VisitOrder(trace, [1], [2, 0]) == VisitOrder(trace, [0], [2, 0, 1]);
    assert [0][1..] == [];
  }

  /** A made-up name can be a given one: the constant that `add0` reads at port 0 is to be named like the
      operation that `add0` reads at port 1. */
  lemma ConstantClash(g: Setup)
    requires g.Valid() && g.inputNames.None?
    requires g.trace == [Leaf(Constant), Traced("input_0_add0", "exp", [0], []), Traced("add0", "add", [0, 1], [])]
    ensures ParametersNamed(g, [2]) && !NamesDiffer(g, [2])
  {
    var outputs: seq<nat> := [2];
    ClashOrder(g.trace);
    OrderIsReach(g, outputs);
    assert 0 in [2, 0, 1] && 1 in [2, 0, 1];
    assert ConsumerName(g, outputs, 0) == "add0" && ConsumerPort(g, outputs, 0) == 0 && Decimal(0) == "0";
    assert "input_" + "0" + "_" + "add0" == "input_0_add0";
    assert ItemName(g, outputs, Tensor(0)) == ItemName(g, outputs, Tensor(1));
  }
}
