/** The classes that build the table of unique operations in place, proved against UniqueTable. */
module UniqueClasses {
  import opened UniqueOperands
  import opened UniqueOps
  import opened UniqueTable

  import Sorting

  // ---------- One group ----------

  ghost function Part<M>(metadata: map<string, M>, names: set<string>): map<string, M> {
    map name | name in metadata && name in names :: metadata[name]
  }

  /** An update that stopped with a KeyError has recorded some of the metadata names. */
  ghost predicate PartlyRecorded<V, M>(entries: seq<Entry<V, M>>, args: Args<V>, metadata: map<string, M>,
                                       left: seq<Entry<V, M>>)
  {
    exists done: set<string> :: done < metadata.Keys && left == Updated(entries, args, Part(metadata, done))
  }

  /** left is entries with the metadata of some names recorded at i: of all of them if and only if ok. */
  ghost predicate RecordedSome<V, M>(entries: seq<Entry<V, M>>, i: nat, metadata: map<string, M>, ok: bool,
                                     left: seq<Entry<V, M>>)
    requires i < |entries|
  {
    exists done: set<string> ::
      && done <= metadata.Keys && (ok <==> done == metadata.Keys)
      && left == entries[i := entries[i].(metadata := Recorded(entries[i].metadata, Part(metadata, done)))]
  }

  lemma RecordOneMore<M>(lists: map<string, seq<M>>, metadata: map<string, M>, done: set<string>, name: string)
    requires name in metadata && name in lists && name !in done
    ensures var r := Recorded(lists, Part(metadata, done));
      Recorded(lists, Part(metadata, done + {name})) == r[name := Noted(r[name], metadata[name])]
  {
  }

  lemma FirstMatchIs<V, M>(entries: seq<Entry<V, M>>, args: Args<V>, i: nat)
    requires i <= |entries| && (i < |entries| ==> SubMap(entries[i].args, args))
    requires forall j: nat | j < i :: !SubMap(entries[j].args, args)
    ensures FirstMatch(entries, args) == i
  {
  }

  class OpArgsOpMetadata<V(==), M(==)> {
    var entries: seq<Entry<V, M>>

    constructor (args: Args<V>, metadata: map<string, M>)
      ensures entries == [Entry(args, Listed(metadata))]
    {
      entries := [Entry(args, Listed(metadata))];
    }

    /** The names of the metadata are taken in any order; a name without a list is a KeyError. */
    method Record(i: nat, metadata: map<string, M>) returns (ok: bool)
      requires i < |entries|
      modifies this
      ensures ok <==> metadata.Keys <= old(entries)[i].metadata.Keys
      ensures RecordedSome(old(entries), i, metadata, ok, entries)
    {
      ghost var was := entries[i];
      var todo := metadata.Keys;
      ghost var done: set<string> := {};
      assert Recorded(was.metadata, Part(metadata, done)) == was.metadata;
      while todo != {}
        invariant done == metadata.Keys - todo && todo <= metadata.Keys && done <= was.metadata.Keys
        invariant entries == old(entries)[i := was.(metadata := Recorded(was.metadata, Part(metadata, done)))]
      {
        var name :| name in todo;
        if name !in entries[i].metadata {
          return false;
        }
        RecordOneMore(was.metadata, metadata, done, name);
        entries := entries[i := entries[i].(metadata :=
          entries[i].metadata[name := Noted(entries[i].metadata[name], metadata[name])])];
        todo := todo - {name};
        done := done + {name};
      }
      assert done == metadata.Keys;
      ok := true;
    }

    method Update(newArgs: Args<V>, metadata: map<string, M>) returns (ok: bool)
      modifies this
      ensures ok <==> Accepts(old(entries), newArgs, metadata)
      ensures ok ==> entries == Updated(old(entries), newArgs, metadata)
      ensures !ok ==> PartlyRecorded(old(entries), newArgs, metadata, entries)
    {
      var i: nat := 0;
      while i < |entries| && !((entries[i].args == map[] && newArgs == map[]) || SubMap(entries[i].args, newArgs))
        invariant i <= |entries|
        invariant forall j: nat | j < i :: !SubMap(entries[j].args, newArgs)
      {
        i := i + 1;
      }
      FirstMatchIs(entries, newArgs, i);
      if i < |entries| {
        ok := Record(i, metadata);
        assert Part(metadata, metadata.Keys) == metadata;
      } else {
        entries := entries + [Entry(newArgs, Listed(metadata))];
        ok := true;
      }
    }
  }

  // ---------- One function name ----------

  class UniqueOperationInfo<Od(==), V(==), M(==)> {
    var groups: seq<(Od, OpArgsOpMetadata<V, M>)>
    ghost var Rows: seq<Row<Od, V, M>>
    ghost var Repr: set<object>

    ghost predicate Valid()
      reads this, Repr
    {
      && this in Repr
      && |Rows| == |groups|
      && (forall i: nat | i < |groups| :: groups[i].1 in Repr && Rows[i] == Row(groups[i].0, groups[i].1.entries))
      && (forall i: nat, j: nat | i < j < |groups| :: groups[i].1 != groups[j].1)
    }

    constructor (operands: Od, args: Args<V>, metadata: map<string, M>)
      ensures Valid() && fresh(Repr)
      ensures Rows == [Row(operands, [Entry(args, Listed(metadata))])]
    {
      var group := new OpArgsOpMetadata(args, metadata);
      groups := [(operands, group)];
      Rows := [Row(operands, [Entry(args, Listed(metadata))])];
      Repr := {this, group};
    }

    twostate lemma Stands()
      requires old(Valid()) && forall o | o in old(Repr) :: unchanged(o)
      ensures Valid() && Rows == old(Rows) && Repr == old(Repr)
    {
    }

    method AddOperandsArgs(operands: Od, args: Args<V>, metadata: map<string, M>) returns (ok: bool)
      requires Valid()
      modifies Repr
      ensures Valid() && fresh(Repr - old(Repr))
      ensures ok <==> Accepts(EntriesFor(old(Rows), operands), args, metadata)
      ensures ok ==> Rows == RowsUpdated(old(Rows), operands, args, metadata)
    {
      var i: nat := 0;
      while i < |groups| && groups[i].0 != operands
        invariant i <= |groups|
        invariant forall j: nat | j < i :: groups[j].0 != operands
      {
        i := i + 1;
      }
      FirstRowIs(Rows, operands, i);
      if i < |groups| {
        ok := groups[i].1.Update(args, metadata);
        Rows := Rows[i := Row(groups[i].0, groups[i].1.entries)];
      } else {
        var group := new OpArgsOpMetadata(args, metadata);
        groups := groups + [(operands, group)];
        Rows := Rows + [Row(operands, group.entries)];
        Repr := Repr + {group};
        ok := true;
      }
    }
  }

  // ---------- The whole table ----------

  predicate Listing<D, V, M>(ops: map<int, Operation<D, V, M>>, keys: seq<int>) {
    forall i | 0 <= i < |keys| :: keys[i] in ops
  }

  /** The first n operations can be prepared. */
  predicate AllPreparable<D, V, M>(ops: map<int, Operation<D, V, M>>, keys: seq<int>, n: nat, c: Settings<D, V, M>)
    requires Listing(ops, keys) && n <= |keys|
  {
    forall i | 0 <= i < n :: Preparable(ops[keys[i]], c)
  }

  /** The first n operations as the table gets to see them. */
  ghost function InOrder<D, V, M>(ops: map<int, Operation<D, V, M>>, keys: seq<int>, n: nat, c: Settings<D, V, M>):
      (r: seq<Op<Operands<D>, V, M>>)
    requires Listing(ops, keys) && n <= |keys| && AllPreparable(ops, keys, n, c)
    ensures |r| == n
  {
    seq(n, i requires 0 <= i < n => Prepared(ops[keys[i]], c))
  }

  lemma InOrderPrefix<D, V, M>(ops: map<int, Operation<D, V, M>>, keys: seq<int>, k: nat, n: nat, c: Settings<D, V, M>)
    requires Listing(ops, keys) && k <= n <= |keys| && AllPreparable(ops, keys, n, c)
    ensures InOrder(ops, keys, n, c)[..k] == InOrder(ops, keys, k, c)
  {
  }

  lemma UnrefusedPrefix<Od, V, M>(t: Table<Od, V, M>, ops: seq<Op<Od, V, M>>, k: nat)
    requires k <= |ops| && Unrefused(t, ops)
    ensures Unrefused(t, ops[..k])
  {
    assert ops == ops[..k] + ops[k..];
    UnrefusedInParts(t, ops[..k], ops[k..]);
  }

  lemma NextOp<Od, V, M>(t: Table<Od, V, M>, ops: seq<Op<Od, V, M>>, op: Op<Od, V, M>)
    ensures Processed(t, ops + [op]) == TableUpdated(Processed(t, ops), op)
    ensures Unrefused(t, ops + [op]) <==> Unrefused(t, ops) && Takes(Processed(t, ops), op)
  {
    assert (ops + [op])[..|ops|] == ops;
  }

  /** keys is the key order of the dict of operations. */
  ghost predicate KeysOf<D, V, M>(ops: map<int, Operation<D, V, M>>, keys: seq<int>) {
    Sorting.NoRepeats(keys) && forall k :: k in keys <==> k in ops
  }

  lemma SortedLists<D, V, M>(ops: map<int, Operation<D, V, M>>, keys: seq<int>)
    requires KeysOf(ops, keys)
    ensures Listing(ops, Sorting.Sorted(keys)) && Sorting.Ascending(Sorting.Sorted(keys))
  {
    Sorting.SortedSorts(keys);
    var s := Sorting.Sorted(keys);
    forall i | 0 <= i < |s|
      ensures s[i] in ops
    {
      assert s[i] in s;
    }
  }

  lemma FirstOfFunction<Od, V, M>(operands: Od, args: Args<V>, metadata: map<string, M>)
    ensures RowsUpdated([], operands, args, metadata) == [Row(operands, [Entry(args, Listed(metadata))])]
    ensures Accepts(EntriesFor<Od, V, M>([], operands), args, metadata)
  {
  }

  class UniqueOperations<Od(==), V(==), M(==)> {
    var infos: map<string, UniqueOperationInfo<Od, V, M>>
    ghost var Contents: Table<Od, V, M>
    ghost var owner: map<object, string>
    ghost var Repr: set<object>

    /** The object under a function name, with the rows the table shows for it. */
    ghost predicate Holds(f: string)
      requires f in infos
      reads this, infos[f], infos[f].Repr
    {
      && infos[f].Valid() && infos[f].Repr <= Repr - {this}
      && f in Contents && Contents[f] == infos[f].Rows
      && forall o | o in infos[f].Repr :: o in owner && owner[o] == f
    }

    ghost predicate Valid()
      reads this, Repr
    {
      && this in Repr
      && Contents.Keys == infos.Keys
      && (forall f | f in infos :: infos[f] in Repr && infos[f].Repr <= Repr)
      && (forall f | f in infos :: Holds(f))
    }

    constructor ()
      ensures Valid() && fresh(Repr) && Contents == map[]
    {
      infos := map[];
      Contents := map[];
      owner := map[];
      Repr := {this};
    }

    method AddToKnown(op: Op<Od, V, M>) returns (ok: bool)
      requires Valid() && op.functionName in infos
      modifies Repr
      ensures Valid() && fresh(Repr - old(Repr))
      ensures ok <==> Accepts(EntriesFor(old(Contents)[op.functionName], op.operands), op.args, op.metadata)
      ensures ok ==> Contents == old(Contents)[op.functionName :=
        RowsUpdated(old(Contents)[op.functionName], op.operands, op.args, op.metadata)]
    {
      var info := infos[op.functionName];
      label before:
      ok := info.AddOperandsArgs(op.operands, op.args, op.metadata);
      forall g | g in infos && g != op.functionName
        ensures Holds(g)
      {
        assert old(Holds(g));
        infos[g].Stands@before();
      }
      Adopt(op.functionName);
    }

    twostate lemma HoldsStill(g: string)
      requires infos == old(infos) && g in infos && old(Holds(g)) && forall o | o in old(infos[g].Repr) :: unchanged(o)
      requires old(Repr) <= Repr && g in Contents && Contents[g] == old(Contents[g])
      requires forall o | o in old(infos[g].Repr) :: o in owner && owner[o] == g
      ensures Holds(g)
    {
      infos[g].Stands();
    }

    lemma Disjoint(f: string, g: string)
      requires f in infos && g in infos && f != g && Holds(g)
      requires forall o | o in infos[f].Repr :: o !in owner || owner[o] == f
      ensures infos[f].Repr !! infos[g].Repr
      ensures forall o | o in infos[g].Repr :: o in owner && owner[o] == g
    {
    }

    /** Records the objects of one function name. */
    ghost method Own(f: string)
      requires f in infos && this !in infos[f].Repr
      requires forall g | g in infos && g != f :: Holds(g)
      requires forall o | o in infos[f].Repr :: o !in owner || owner[o] == f
      modifies this`owner
      ensures forall g | g in infos && g != f :: Holds(g)
      ensures forall o | o in infos[f].Repr :: o in owner && owner[o] == f
    {
      label before:
      forall g | g in infos && g != f
        ensures infos[f].Repr !! infos[g].Repr
      {
        Disjoint(f, g);
      }
      owner := owner + map o | o in infos[f].Repr :: f;
      forall g | g in infos && g != f
        ensures Holds(g)
      {
        assert old(Holds(g));
        HoldsStill@before(g);
      }
    }

    /** Records the rows and the objects of one function name. */
    ghost method Adopt(f: string)
      requires f in infos && infos[f].Valid() && this in Repr && this !in infos[f].Repr
      requires infos.Keys == Contents.Keys + {f}
      requires forall g | g in infos && g != f :: Holds(g)
      requires forall o | o in infos[f].Repr :: o !in owner || owner[o] == f
      modifies this`Contents, this`owner, this`Repr
      ensures forall g | g in infos :: Holds(g)
      ensures Contents == old(Contents)[f := infos[f].Rows] && Repr == old(Repr) + infos[f].Repr
    {
      Own(f);
      label before:
      Contents := Contents[f := infos[f].Rows];
      Repr := Repr + infos[f].Repr;
      infos[f].Stands@before();
      forall g | g in infos && g != f
        ensures Holds(g)
      {
        HoldsStill@before(g);
      }
    }

    method AddUnknown(op: Op<Od, V, M>)
      requires Valid() && op.functionName !in infos
      modifies this
      ensures Valid() && fresh(Repr - old(Repr))
      ensures Contents == old(Contents)[op.functionName := [Row(op.operands, [Entry(op.args, Listed(op.metadata))])]]
    {
      var info := new UniqueOperationInfo(op.operands, op.args, op.metadata);
      infos := infos[op.functionName := info];
      Adopt(op.functionName);
    }

    method AddOperation(op: Op<Od, V, M>) returns (ok: bool)
      requires Valid()
      modifies Repr
      ensures Valid() && fresh(Repr - old(Repr))
      ensures ok <==> Takes(old(Contents), op)
      ensures ok ==> Contents == TableUpdated(old(Contents), op)
    {
      if op.functionName in infos {
        ok := AddToKnown(op);
      } else {
        FirstOfFunction(op.operands, op.args, op.metadata);
        AddUnknown(op);
        ok := true;
      }
    }
  }

  /** The operations in the given order are fed into the table, up to the first error. */
  ghost predicate FeedsWell<D, V, M>(t: Table<Operands<D>, V, M>, ops: map<int, Operation<D, V, M>>, order: seq<int>,
                                     c: Settings<D, V, M>)
    requires Listing(ops, order)
  {
    AllPreparable(ops, order, |order|, c) && Unrefused(t, InOrder(ops, order, |order|, c))
  }

  lemma Stops<D, V, M>(t: Table<Operands<D>, V, M>, ops: map<int, Operation<D, V, M>>, order: seq<int>,
                       c: Settings<D, V, M>, k: nat)
    requires Listing(ops, order) && k < |order| && AllPreparable(ops, order, k + 1, c)
    requires !Unrefused(t, InOrder(ops, order, k + 1, c))
    ensures !FeedsWell(t, ops, order, c)
  {
    if FeedsWell(t, ops, order, c) {
      InOrderPrefix(ops, order, k + 1, |order|, c);
      UnrefusedPrefix(t, InOrder(ops, order, |order|, c), k + 1);
      assert false;
    }
  }

  /** now is the table was after the first k operations. */
  ghost predicate FedSoFar<D, V, M>(was: Table<Operands<D>, V, M>, now: Table<Operands<D>, V, M>,
                                    ops: map<int, Operation<D, V, M>>, order: seq<int>, k: nat, c: Settings<D, V, M>)
    requires Listing(ops, order) && k <= |order|
  {
    && AllPreparable(ops, order, k, c)
    && Unrefused(was, InOrder(ops, order, k, c))
    && now == Processed(was, InOrder(ops, order, k, c))
  }

  lemma InOrderNext<D, V, M>(ops: map<int, Operation<D, V, M>>, order: seq<int>, k: nat, c: Settings<D, V, M>)
    requires Listing(ops, order) && k < |order| && AllPreparable(ops, order, k, c) && Preparable(ops[order[k]], c)
    ensures AllPreparable(ops, order, k + 1, c)
    ensures InOrder(ops, order, k + 1, c) == InOrder(ops, order, k, c) + [Prepared(ops[order[k]], c)]
  {
  }

  lemma FedNext<D, V, M>(was: Table<Operands<D>, V, M>, now: Table<Operands<D>, V, M>,
                         ops: map<int, Operation<D, V, M>>, order: seq<int>, k: nat, c: Settings<D, V, M>)
    requires Listing(ops, order) && k < |order| && FedSoFar(was, now, ops, order, k, c)
    requires Preparable(ops[order[k]], c) && Takes(now, Prepared(ops[order[k]], c))
    ensures FedSoFar(was, TableUpdated(now, Prepared(ops[order[k]], c)), ops, order, k + 1, c)
  {
    InOrderNext(ops, order, k, c);
    NextOp(was, InOrder(ops, order, k, c), Prepared(ops[order[k]], c));
  }

  lemma StopsNext<D, V, M>(was: Table<Operands<D>, V, M>, now: Table<Operands<D>, V, M>,
                           ops: map<int, Operation<D, V, M>>, order: seq<int>, k: nat, c: Settings<D, V, M>)
    requires Listing(ops, order) && k < |order| && FedSoFar(was, now, ops, order, k, c)
    requires !(Preparable(ops[order[k]], c) && Takes(now, Prepared(ops[order[k]], c)))
    ensures !FeedsWell(was, ops, order, c)
  {
    if Preparable(ops[order[k]], c) {
      InOrderNext(ops, order, k, c);
      NextOp(was, InOrder(ops, order, k, c), Prepared(ops[order[k]], c));
      Stops(was, ops, order, c, k);
    }
  }

  method AddPrepared<D(==), V, M>(table: UniqueOperations<Operands<D>, V, M>, op: Operation<D, V, M>,
                                  c: Settings<D, V, M>)
      returns (ok: bool)
    requires table.Valid()
    modifies table.Repr
    ensures table.Valid() && fresh(table.Repr - old(table.Repr))
    ensures ok <==> Preparable(op, c) && Takes(old(table.Contents), Prepared(op, c))
    ensures ok ==> table.Contents == TableUpdated(old(table.Contents), Prepared(op, c))
  {
    var prepared := Prepare(op, c);
    if prepared.None? {
      return false;
    }
    ok := table.AddOperation(prepared.value);
  }

  /** Adds the operations in the given order; a failed assertion or a KeyError ends it. */
  method AddAll<D(==), V, M>(table: UniqueOperations<Operands<D>, V, M>, ops: map<int, Operation<D, V, M>>,
                             order: seq<int>, c: Settings<D, V, M>)
      returns (ok: bool)
    requires table.Valid() && Listing(ops, order)
    modifies table.Repr
    ensures table.Valid() && fresh(table.Repr - old(table.Repr))
    ensures ok <==> FeedsWell(old(table.Contents), ops, order, c)
    ensures ok ==> table.Contents == Processed(old(table.Contents), InOrder(ops, order, |order|, c))
  {
    ghost var was := table.Contents;
    for k := 0 to |order|
      invariant table.Valid() && fresh(table.Repr - old(table.Repr))
      invariant FedSoFar(was, table.Contents, ops, order, k, c)
    {
      ghost var now := table.Contents;
      var taken := AddPrepared(table, ops[order[k]], c);
      if !taken {
        StopsNext(was, now, ops, order, k, c);
        return false;
      }
      FedNext(was, now, ops, order, k, c);
    }
    ok := true;
  }

  /** Feeds the operations in key order into the existing table or a new one. */
  method CreateUniqueOperations<D(==), V, M>(ops: map<int, Operation<D, V, M>>, keys: seq<int>, c: Settings<D, V, M>,
                                         existing: UniqueOperations?<Operands<D>, V, M>)
      returns (table: UniqueOperations<Operands<D>, V, M>, ok: bool)
    requires KeysOf(ops, keys) && (existing != null ==> existing.Valid())
    modifies if existing != null then existing.Repr else {}
    ensures Listing(ops, Sorting.Sorted(keys)) && table.Valid()
    ensures existing != null ==> table == existing
    ensures var was, order := if existing != null then old(existing.Contents) else map[], Sorting.Sorted(keys);
      && (ok <==> FeedsWell(was, ops, order, c))
      && (ok ==> table.Contents == Processed(was, InOrder(ops, order, |order|, c)))
  {
    if existing != null {
      table := existing;
    } else {
      table := new UniqueOperations<Operands<D>, V, M>();
    }
    SortedLists(ops, keys);
    ok := AddAll(table, ops, Sorting.Sorted(keys), c);
  }
}
