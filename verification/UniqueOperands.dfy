/** How a traced operation is prepared for the table of unique operations: its operands' types, shapes
    and formats are adjusted, and its operand names join its metadata. */
module UniqueOperands {
  import opened UniqueOps
  import opened Wrappers

  datatype NodeType = Activation | Parameter | Constant

  datatype Operands<D> = Operands(types: seq<NodeType>, shapes: seq<seq<nat>>, dtypes: seq<D>)

  datatype Operation<D, V, M> = Operation(
    functionName: string,
    operandNames: seq<string>,
    operands: Operands<D>,
    args: Args<V>,
    metadata: map<string, M>)

  /** The optional arguments. parameterShapes gives the shapes of the named parameters; lowered is the
      format that replaces floating-point formats, loweredArg the argument that then records it. */
  datatype Settings<!D, V, !M> = Settings(
    toActivation: bool,
    nodeTypes: Option<map<string, NodeType>>,
    parameterShapes: Option<map<string, seq<nat>>>,
    lowered: Option<D>,
    loweredArg: V,
    isFloat: D -> bool,
    asMetadata: seq<string> -> M)

  // ---------- Types ----------

  predicate NoActivation(types: seq<NodeType>) {
    forall i | 0 <= i < |types| :: !types[i].Activation?
  }

  function Converted(toActivation: bool, types: seq<NodeType>): (r: seq<NodeType>)
    ensures |r| == |types|
  {
    if toActivation && NoActivation(types) then seq(|types|, _ => Activation) else types
  }

  /** Every operand that has both a name and a type is known, with that type. */
  predicate TypesValid(names: seq<string>, types: seq<NodeType>, nodeTypes: map<string, NodeType>) {
    forall i | 0 <= i < |names| && i < |types| :: names[i] in nodeTypes && nodeTypes[names[i]] == types[i]
  }

  /** validate_node_types; false also stands for the KeyError of an unknown name. */
  method ValidateNodeTypes(names: seq<string>, types: seq<NodeType>, nodeTypes: map<string, NodeType>)
      returns (ok: bool)
    ensures ok <==> TypesValid(names, types, nodeTypes)
  {
    var i: nat := 0;
    while i < |names| && i < |types|
      invariant i <= |names| && i <= |types|
      invariant forall j | 0 <= j < i :: names[j] in nodeTypes && nodeTypes[names[j]] == types[j]
    {
      if names[i] !in nodeTypes {
        return false;
      }
      if types[i].Parameter? && nodeTypes[names[i]] != Parameter {
        return false;
      }
      if types[i].Constant? && nodeTypes[names[i]] != Constant {
        return false;
      }
      if types[i].Activation? && nodeTypes[names[i]] != Activation {
        return false;
      }
      i := i + 1;
    }
    ok := true;
  }

  // ---------- Shapes ----------

  /** A constant's shape is its parameter's, and (1,) if that has no dimensions. */
  function ShapeFor(nodeType: NodeType, shape: seq<nat>, name: string, parameterShapes: map<string, seq<nat>>): seq<nat>
    requires nodeType.Constant? ==> name in parameterShapes
  {
    if !nodeType.Constant? then shape
    else if parameterShapes[name] == [] then [1]
    else parameterShapes[name]
  }

  predicate ShapesKnown(names: seq<string>, types: seq<NodeType>, parameterShapes: map<string, seq<nat>>)
    requires |names| == |types|
  {
    forall i | 0 <= i < |types| && types[i].Constant? :: names[i] in parameterShapes
  }

  /** The shapes of all operands; false is the KeyError of a constant without a parameter. */
  method ShapesOfConstants(names: seq<string>, operands: Operands, parameterShapes: map<string, seq<nat>>)
      returns (ok: bool, shapes: seq<seq<nat>>)
    requires |names| == |operands.types| == |operands.shapes|
    ensures ok <==> ShapesKnown(names, operands.types, parameterShapes)
    ensures ok ==> |shapes| == |names| && forall i | 0 <= i < |names| ::
      shapes[i] == ShapeFor(operands.types[i], operands.shapes[i], names[i], parameterShapes)
  {
    shapes := [];
    for i := 0 to |names|
      invariant |shapes| == i
      invariant forall j | 0 <= j < i && operands.types[j].Constant? :: names[j] in parameterShapes
      invariant forall j | 0 <= j < i ::
        shapes[j] == ShapeFor(operands.types[j], operands.shapes[j], names[j], parameterShapes)
    {
      if operands.types[i].Constant? {
        if names[i] !in parameterShapes {
          return false, [];
        }
        shapes := shapes + [if parameterShapes[names[i]] == [] then [1] else parameterShapes[names[i]]];
      } else {
        shapes := shapes + [operands.shapes[i]];
      }
    }
    ok := true;
  }

  // ---------- Formats ----------

  function Lowered<D>(dtypes: seq<D>, lowered: Option<D>, isFloat: D -> bool): (r: seq<D>)
    ensures |r| == |dtypes|
  {
    if lowered.None? then dtypes
    else seq(|dtypes|, i requires 0 <= i < |dtypes| => if isFloat(dtypes[i]) then lowered.value else dtypes[i])
  }

  /** The argument that records a lowering is added exactly if some format has changed. */
  function LoweredArgs<D(==), V>(args: Args<V>, dtypes: seq<D>, lowered: Option<D>,
                                 isFloat: D -> bool, loweredArg: V): Args<V> {
    if Lowered(dtypes, lowered, isFloat) != dtypes then args["default_df_override" := loweredArg] else args
  }

  // ---------- The whole preparation ----------

  /** No assertion fails and no name is unknown. */
  predicate Preparable<D, V, M>(op: Operation<D, V, M>, c: Settings<D, V, M>) {
    && (c.toActivation ==> c.nodeTypes.None?)
    && (c.nodeTypes.Some? ==> TypesValid(op.operandNames, op.operands.types, c.nodeTypes.value))
    && |op.operands.types| == |op.operandNames| == |op.operands.shapes| == |op.operands.dtypes|
    && (c.parameterShapes.Some? ==>
          ShapesKnown(op.operandNames, Converted(c.toActivation, op.operands.types), c.parameterShapes.value))
  }

  function PreparedShapes<D, V, M>(op: Operation<D, V, M>, c: Settings<D, V, M>): seq<seq<nat>>
    requires Preparable(op, c)
  {
    var types := Converted(c.toActivation, op.operands.types);
    if c.parameterShapes.None? then
      op.operands.shapes
    else
      seq(|types|, i requires 0 <= i < |types| =>
        ShapeFor(types[i], op.operands.shapes[i], op.operandNames[i], c.parameterShapes.value))
  }

  /** What the table gets to see of an operation. */
  function Prepared<D(==), V, M>(op: Operation<D, V, M>, c: Settings<D, V, M>): Op<Operands<D>, V, M>
    requires Preparable(op, c)
  {
    Op(op.functionName,
       Operands(Converted(c.toActivation, op.operands.types), PreparedShapes(op, c),
                Lowered(op.operands.dtypes, c.lowered, c.isFloat)),
       LoweredArgs(op.args, op.operands.dtypes, c.lowered, c.isFloat, c.loweredArg),
       map["operand_names" := c.asMetadata(op.operandNames)] + op.metadata)
  }

  method Prepare<D(==), V, M>(op: Operation<D, V, M>, c: Settings<D, V, M>) returns (r: Option<Op<Operands<D>, V, M>>)
    ensures r.Some? <==> Preparable(op, c)
    ensures r.Some? ==> r.value == Prepared(op, c)
  {
    var types := op.operands.types;
    if c.toActivation {
      if c.nodeTypes.Some? {
        return None;
      }
      types := Converted(true, types);
    }
    if c.nodeTypes.Some? {
      var valid := ValidateNodeTypes(op.operandNames, types, c.nodeTypes.value);
      if !valid {
        return None;
      }
    }
    if !(|types| == |op.operandNames| == |op.operands.shapes| == |op.operands.dtypes|) {
      return None;
    }
    var shapes := op.operands.shapes;
    if c.parameterShapes.Some? {
      var known;
      known, shapes := ShapesOfConstants(op.operandNames, op.operands.(types := types), c.parameterShapes.value);
      if !known {
        return None;
      }
      assert shapes == PreparedShapes(op, c);
    }
    var dtypes := Lowered(op.operands.dtypes, c.lowered, c.isFloat);
    var args := if dtypes != op.operands.dtypes then op.args["default_df_override" := c.loweredArg] else op.args;
    r := Some(Op(op.functionName, Operands(types, shapes, dtypes), args,
                 map["operand_names" := c.asMetadata(op.operandNames)] + op.metadata));
  }

  // ---------- What preparing amounts to ----------

  /** After lowering every format is either not a floating-point one or the lowered one. */
  lemma LoweredFormats<D, V, M>(op: Operation<D, V, M>, c: Settings<D, V, M>, i: nat)
    requires Preparable(op, c) && c.lowered.Some? && i < |op.operands.dtypes|
    ensures var d := Prepared(op, c).operands.dtypes[i]; !c.isFloat(d) || d == c.lowered.value
  {
  }

  /** With lowering on, operations that differ only in floating-point formats, none of them lowered
      already, fall into one group with the same arguments. */
  lemma LoweringMerges<D, V, M>(a: Operation<D, V, M>, b: Operation<D, V, M>, c: Settings<D, V, M>)
    requires Preparable(a, c) && Preparable(b, c) && c.lowered.Some?
    requires a == b.(operands := b.operands.(dtypes := a.operands.dtypes))
    requires forall i | 0 <= i < |a.operands.dtypes| && a.operands.dtypes[i] != b.operands.dtypes[i] ::
      c.isFloat(a.operands.dtypes[i]) && c.isFloat(b.operands.dtypes[i])
    requires exists i :: 0 <= i < |a.operands.dtypes| &&
              c.isFloat(a.operands.dtypes[i]) && a.operands.dtypes[i] != c.lowered.value
    requires exists i :: 0 <= i < |b.operands.dtypes| &&
              c.isFloat(b.operands.dtypes[i]) && b.operands.dtypes[i] != c.lowered.value
    ensures Prepared(a, c) == Prepared(b, c)
  {
    var x, y := Lowered(a.operands.dtypes, c.lowered, c.isFloat), Lowered(b.operands.dtypes, c.lowered, c.isFloat);
    assert x == y;
    var i :| 0 <= i < |a.operands.dtypes| && c.isFloat(a.operands.dtypes[i]) && a.operands.dtypes[i] != c.lowered.value;
    assert x[i] != a.operands.dtypes[i];
    var j :| 0 <= j < |b.operands.dtypes| && c.isFloat(b.operands.dtypes[j]) && b.operands.dtypes[j] != c.lowered.value;
    assert y[j] != b.operands.dtypes[j];
  }
}
