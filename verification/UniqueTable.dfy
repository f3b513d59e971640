/** The whole table of unique operations: per function name a list of operand groups, per group the
    entries of UniqueOps. */
module UniqueTable {
  import opened UniqueOps

  datatype Row<Od, V, M> = Row(operands: Od, entries: seq<Entry<V, M>>)

  type Table<Od, V, M> = map<string, seq<Row<Od, V, M>>>

  function FirstRow<Od(==), V, M>(rows: seq<Row<Od, V, M>>, operands: Od): (i: nat)
    ensures i <= |rows|
    ensures i < |rows| ==> rows[i].operands == operands
    ensures forall j: nat | j < i :: rows[j].operands != operands
  {
    if rows == [] then 0
    else if rows[0].operands == operands then 0
    else 1 + FirstRow(rows[1..], operands)
  }

  function RowsUpdated<Od(==), V(==), M(==)>(rows: seq<Row<Od, V, M>>, operands: Od, args: Args<V>,
                                             metadata: map<string, M>): seq<Row<Od, V, M>>
  {
    var i := FirstRow(rows, operands);
    if i < |rows| then rows[i := Row(rows[i].operands, Updated(rows[i].entries, args, metadata))]
    else rows + [Row(operands, [Entry(args, Listed(metadata))])]
  }

  function RowsOf<Od, V, M>(t: Table<Od, V, M>, functionName: string): seq<Row<Od, V, M>> {
    if functionName in t then t[functionName] else []
  }

  function TableUpdated<Od(==), V(==), M(==)>(t: Table<Od, V, M>, op: Op<Od, V, M>): Table<Od, V, M> {
    t[op.functionName := RowsUpdated(RowsOf(t, op.functionName), op.operands, op.args, op.metadata)]
  }

  function Processed<Od(==), V(==), M(==)>(t: Table<Od, V, M>, ops: seq<Op<Od, V, M>>): Table<Od, V, M> {
    if ops == [] then t else TableUpdated(Processed(t, ops[..|ops| - 1]), ops[|ops| - 1])
  }

  // ---------- A table is its groups ----------

  function EntriesFor<Od(==), V, M>(rows: seq<Row<Od, V, M>>, operands: Od): seq<Entry<V, M>> {
    var i := FirstRow(rows, operands);
    if i < |rows| then rows[i].entries else []
  }

  /** The entries under a function name and operands; none if there is no such group. */
  function Group<Od(==), V, M>(t: Table<Od, V, M>, functionName: string, operands: Od): seq<Entry<V, M>> {
    EntriesFor(RowsOf(t, functionName), operands)
  }

  predicate Of<Od(==), V, M>(op: Op<Od, V, M>, functionName: string, operands: Od) {
    op.functionName == functionName && op.operands == operands
  }

  ghost function Selected<Od, V, M>(ops: seq<Op<Od, V, M>>, functionName: string, operands: Od): seq<Op<Od, V, M>> {
    if ops == [] then []
    else
      Selected(ops[..|ops| - 1], functionName, operands)
      + if Of(ops[|ops| - 1], functionName, operands) then [ops[|ops| - 1]] else []
  }

  ghost predicate DistinctOperands<Od, V, M>(rows: seq<Row<Od, V, M>>) {
    forall i: nat, j: nat | i < j < |rows| :: rows[i].operands != rows[j].operands
  }

  lemma FirstRowIs<Od, V, M>(rows: seq<Row<Od, V, M>>, operands: Od, i: nat)
    requires i <= |rows| && (i < |rows| ==> rows[i].operands == operands)
    requires forall j: nat | j < i :: rows[j].operands != operands
    ensures FirstRow(rows, operands) == i
  {
  }

  lemma RowsUpdatedEntries<Od, V, M>(rows: seq<Row<Od, V, M>>, operands: Od, args: Args<V>, metadata: map<string, M>,
                                     asked: Od)
    ensures EntriesFor(RowsUpdated(rows, operands, args, metadata), asked)
         == if asked == operands then Updated(EntriesFor(rows, asked), args, metadata) else EntriesFor(rows, asked)
  {
    var r, i := RowsUpdated(rows, operands, args, metadata), FirstRow(rows, asked);
    if i < |rows| || asked == operands {
      FirstRowIs(r, asked, i);
    } else {
      FirstRowIs(r, asked, |r|);
    }
  }

  lemma RowsStayDistinct<Od, V, M>(rows: seq<Row<Od, V, M>>, operands: Od, args: Args<V>, metadata: map<string, M>)
    requires DistinctOperands(rows)
    ensures DistinctOperands(RowsUpdated(rows, operands, args, metadata))
  {
  }

  /** One operation changes its own group and no other. */
  lemma GroupUpdated<Od, V, M>(t: Table<Od, V, M>, op: Op<Od, V, M>, functionName: string, operands: Od)
    ensures Group(TableUpdated(t, op), functionName, operands)
         == if Of(op, functionName, operands) then Updated(Group(t, functionName, operands), op.args, op.metadata)
            else Group(t, functionName, operands)
  {
    RowsUpdatedEntries(RowsOf(t, op.functionName), op.operands, op.args, op.metadata, operands);
  }

  /** Every group sees exactly its own operations, in order. */
  lemma {:induction false} GroupOfProcessed<Od, V, M>(t: Table<Od, V, M>, ops: seq<Op<Od, V, M>>, functionName: string,
                                                      operands: Od)
    ensures Group(Processed(t, ops), functionName, operands)
         == Fed(Group(t, functionName, operands), Selected(ops, functionName, operands))
  {
    if ops != [] {
      var before, op := ops[..|ops| - 1], ops[|ops| - 1];
      GroupOfProcessed(t, before, functionName, operands);
      GroupUpdated(Processed(t, before), op, functionName, operands);
      var mine := Selected(before, functionName, operands);
      if Of(op, functionName, operands) {
        assert (mine + [op])[..|mine|] == mine;
      } else {
        assert mine + [] == mine;
      }
    }
  }

  lemma {:induction false} SelectedAre<Od, V, M>(ops: seq<Op<Od, V, M>>, functionName: string, operands: Od,
                                                 op: Op<Od, V, M>)
    ensures op in Selected(ops, functionName, operands) <==> op in ops && Of(op, functionName, operands)
  {
    if ops != [] {
      SelectedAre(ops[..|ops| - 1], functionName, operands, op);
      assert ops == ops[..|ops| - 1] + [ops[|ops| - 1]];
    }
  }

  // ---------- The theorem ----------

  ghost predicate OperandKeysDistinct<Od, V, M>(t: Table<Od, V, M>) {
    forall functionName | functionName in t :: DistinctOperands(t[functionName])
  }

  /** The operand keys under every function name stay distinct. */
  lemma {:induction false} ProcessedKeepsKeysDistinct<Od, V, M>(t: Table<Od, V, M>, ops: seq<Op<Od, V, M>>)
    requires OperandKeysDistinct(t)
    ensures OperandKeysDistinct(Processed(t, ops))
  {
    if ops != [] {
      var before, op := Processed(t, ops[..|ops| - 1]), ops[|ops| - 1];
      ProcessedKeepsKeysDistinct(t, ops[..|ops| - 1]);
      RowsStayDistinct(RowsOf(before, op.functionName), op.operands, op.args, op.metadata);
    }
  }

  /** No update of the run stops with a KeyError. */
  predicate Unrefused<Od(==), V(==), M(==)>(t: Table<Od, V, M>, ops: seq<Op<Od, V, M>>) {
    ops != [] ==> Unrefused(t, ops[..|ops| - 1]) && Takes(Processed(t, ops[..|ops| - 1]), ops[|ops| - 1])
  }

  predicate Takes<Od(==), V(==), M(==)>(t: Table<Od, V, M>, op: Op<Od, V, M>) {
    Accepts(Group(t, op.functionName, op.operands), op.args, op.metadata)
  }

  /** Feeding in two parts, as an existing table is fed further, is feeding in one. */
  lemma {:induction false} ProcessedInParts<Od, V, M>(t: Table<Od, V, M>, a: seq<Op<Od, V, M>>, b: seq<Op<Od, V, M>>)
    ensures Processed(t, a + b) == Processed(Processed(t, a), b)
  {
    if b == [] {
      assert a + b == a;
    } else {
      ProcessedInParts(t, a, b[..|b| - 1]);
      assert (a + b)[..|a + b| - 1] == a + b[..|b| - 1];
    }
  }

  lemma {:induction false} UnrefusedInParts<Od, V, M>(t: Table<Od, V, M>, a: seq<Op<Od, V, M>>, b: seq<Op<Od, V, M>>)
    ensures Unrefused(t, a + b) <==> Unrefused(t, a) && Unrefused(Processed(t, a), b)
  {
    if b == [] {
      assert a + b == a;
    } else {
      var init := b[..|b| - 1];
      UnrefusedInParts(t, a, init);
      ProcessedInParts(t, a, init);
      assert (a + b)[..|a + b| - 1] == a + init;
    }
  }

  lemma {:induction false} UnrefusedGroups<Od, V, M>(t: Table<Od, V, M>, ops: seq<Op<Od, V, M>>, functionName: string,
                                                     operands: Od)
    requires Unrefused(t, ops)
    ensures Accepted(Group(t, functionName, operands), Selected(ops, functionName, operands))
  {
    if ops != [] {
      var before, op := ops[..|ops| - 1], ops[|ops| - 1];
      UnrefusedGroups(t, before, functionName, operands);
      var mine := Selected(before, functionName, operands);
      if Of(op, functionName, operands) {
        GroupOfProcessed(t, before, functionName, operands);
        assert (mine + [op])[..|mine|] == mine;
      } else {
        assert mine + [] == mine;
      }
    }
  }

  lemma {:induction false} SameNamesUnrefused<Od, V, M>(ops: seq<Op<Od, V, M>>, names: set<string>)
    requires SameNames(ops, names)
    ensures Unrefused<Od, V, M>(map[], ops)
  {
    if ops != [] {
      var before, op := ops[..|ops| - 1], ops[|ops| - 1];
      var mine := Selected(before, op.functionName, op.operands);
      SameNamesUnrefused(before, names);
      forall k: nat | k < |mine|
        ensures mine[k].metadata.Keys == names
      {
        SelectedAre(before, op.functionName, op.operands, mine[k]);
      }
      SameNamesAccepted<Od, V, M>([], mine, names);
      GroupOfProcessed<Od, V, M>(map[], before, op.functionName, op.operands);
      UpdateKeepsNames(Fed([], mine), op.args, op.metadata);
    }
  }

  /** Every group holds nothing redundant, one entry for exactly those of its operations that no earlier
      one of them is contained in, and in its lists exactly the metadata of the operations it stands for. */
  lemma GroupsAreUnique<Od, V, M>(ops: seq<Op<Od, V, M>>, functionName: string, operands: Od)
    requires Unrefused<Od, V, M>(map[], ops)
    ensures var g, mine :=
        Group<Od, V, M>(Processed(map[], ops), functionName, operands), Selected(ops, functionName, operands);
      && Irredundant(g) && EachOnce(g)
      && HeadsOf(g) == Opened(mine)
      && forall i: nat, name, value | i < |g| :: Lists(g, i, name, value) <==> Carried(g, mine, i, name, value)
  {
    var mine := Selected(ops, functionName, operands);
    GroupOfProcessed<Od, V, M>(map[], ops, functionName, operands);
    UnrefusedGroups<Od, V, M>(map[], ops, functionName, operands);
    FedKeepsIrredundant<Od, V, M>([], mine);
    FedKeepsEachOnce<Od, V, M>([], mine);
    EntriesAreOpened(mine);
    var g: seq<Entry<V, M>> := Fed([], mine);
    forall i: nat, name, value | i < |g|
      ensures Lists(g, i, name, value) <==> Carried(g, mine, i, name, value)
    {
      ListsExactlyTheCarried(mine, i, name, value);
    }
  }

  /** Every processed operation is covered by an entry of its group. */
  lemma ProcessedCovers<Od, V, M>(ops: seq<Op<Od, V, M>>, op: Op<Od, V, M>)
    requires Unrefused<Od, V, M>(map[], ops) && op in ops
    ensures Covers(Group(Processed(map[], ops), op.functionName, op.operands), op)
  {
    var mine := Selected(ops, op.functionName, op.operands);
    GroupOfProcessed<Od, V, M>(map[], ops, op.functionName, op.operands);
    UnrefusedGroups<Od, V, M>(map[], ops, op.functionName, op.operands);
    FedCovers<Od, V, M>([], mine);
    SelectedAre(ops, op.functionName, op.operands, op);
    var k: nat :| k < |mine| && mine[k] == op;
    assert Covers(Fed([], mine), mine[k]);
  }

  lemma CoveredLeavesTable<Od, V, M>(t: Table<Od, V, M>, op: Op<Od, V, M>)
    requires Covers(Group(t, op.functionName, op.operands), op)
    ensures TableUpdated(t, op) == t
  {
    var rows := RowsOf(t, op.functionName);
    var i := FirstRow(rows, op.operands);
    CoveredChangesNothing(rows[i].entries, op);
    assert RowsUpdated(rows, op.operands, op.args, op.metadata) == rows;
  }

  lemma {:induction false} CoveredAgain<Od, V, M>(t: Table<Od, V, M>, ops: seq<Op<Od, V, M>>)
    requires forall k: nat | k < |ops| :: Covers(Group(t, ops[k].functionName, ops[k].operands), ops[k])
    ensures Processed(t, ops) == t
  {
    if ops != [] {
      CoveredAgain(t, ops[..|ops| - 1]);
      CoveredLeavesTable(t, ops[|ops| - 1]);
    }
  }

  /** Feeding the same operations again, in any order and any number of times, changes nothing. */
  lemma ProcessedAgain<Od, V, M>(ops: seq<Op<Od, V, M>>, again: seq<Op<Od, V, M>>)
    requires Unrefused<Od, V, M>(map[], ops)
    requires forall k: nat | k < |again| :: again[k] in ops
    ensures Processed(Processed<Od, V, M>(map[], ops), again) == Processed(map[], ops)
  {
    var t := Processed<Od, V, M>(map[], ops);
    forall k: nat | k < |again|
      ensures Covers(Group(t, again[k].functionName, again[k].operands), again[k])
    {
      ProcessedCovers(ops, again[k]);
    }
    CoveredAgain(t, again);
  }
}
