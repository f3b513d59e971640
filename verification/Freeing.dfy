/** Early freeing: which intermediate tensors the generated forward releases after which operation. */
module Freeing {
  import opened Sorting

  /** repeats is len(loop_with): the submodule calls that this one stands for besides itself, from
      layer loopStart on. */
  datatype OpInfo = OpInfo(functionName: string, inputs: seq<string>, output: string, isSubmoduleCall: bool,
                           repeats: nat, loopStart: nat)

  /** The part of a traced operation that freeing and code generation look at. */
  class Operation {
    const info: OpInfo
    var inputsToDelete: seq<string>

    constructor (info: OpInfo)
      ensures this.info == info && inputsToDelete == []
    {
      this.info, inputsToDelete := info, [];
    }
  }

  /** A dict of operations: its keys in insertion order and what they map to. */
  datatype Ops = Ops(keys: seq<int>, at: map<int, Operation>) {
    ghost predicate Valid() {
      && (forall k :: k in keys <==> k in at)
      && NoRepeats(keys)
      && (forall k, k' | k in at && k' in at && k != k' :: at[k] != at[k'])
    }
  }

  // ---------- The program and its frees ----------

  predicate Covers(at: map<int, Operation>, keys: seq<int>) {
    forall i | 0 <= i < |keys| :: keys[i] in at
  }

  /** The operations in key order, as the generated code runs them. */
  function Program(at: map<int, Operation>, keys: seq<int>): (p: seq<OpInfo>)
    requires Covers(at, keys)
    ensures |p| == |keys|
  {
    seq(|keys|, i requires 0 <= i < |keys| => at[keys[i]].info)
  }

  function Outputs(p: seq<OpInfo>): set<string> {
    set i | 0 <= i < |p| :: p[i].output
  }

  lemma OutputsAppend(p: seq<OpInfo>, op: OpInfo)
    ensures Outputs(p + [op]) == Outputs(p) + {op.output}
  {
    var q := p + [op];
    forall i | 0 <= i < |q|
      ensures q[i].output in Outputs(p) + {op.output}
    {
    }
    forall i | 0 <= i < |p|
      ensures p[i].output in Outputs(q)
    {
      assert q[i] == p[i];
    }
    assert q[|p|].output == op.output;
  }

  lemma OutputOf(at: map<int, Operation>, keys: seq<int>, name: string)
    requires Covers(at, keys)
    ensures name in Outputs(Program(at, keys)) <==> exists k :: k in keys && k in at && at[k].info.output == name
  {
    var p := Program(at, keys);
    if name in Outputs(p) {
      var i :| 0 <= i < |keys| && p[i].output == name;
      var k := keys[i];
      assert k in keys && k in at && at[k].info.output == name;
    }
    if k :| k in keys && k in at && at[k].info.output == name {
      var i :| 0 <= i < |keys| && keys[i] == k;
      assert p[i].output in Outputs(p);
    }
  }

  /** Input m of operation j is an operation's output that is not returned, and no later input of
      this or of a later operation reads it again. */
  predicate IsLastRead(p: seq<OpInfo>, returned: seq<string>, j: nat, m: nat)
    requires j < |p| && m < |p[j].inputs|
  {
    var x := p[j].inputs[m];
    && x in Outputs(p) && x !in returned
    && x !in p[j].inputs[m + 1..]
    && forall j' | j < j' < |p| :: x !in p[j'].inputs
  }

  /** What is freed after operation j, looking at its inputs from m on. */
  function FreesFrom(p: seq<OpInfo>, returned: seq<string>, j: nat, m: nat): seq<string>
    requires j < |p| && m <= |p[j].inputs|
    decreases |p[j].inputs| - m
  {
    if m == |p[j].inputs| then []
    else (if IsLastRead(p, returned, j, m) then [p[j].inputs[m]] else []) + FreesFrom(p, returned, j, m + 1)
  }

  function Frees(p: seq<OpInfo>, returned: seq<string>, j: nat): seq<string>
    requires j < |p|
  {
    FreesFrom(p, returned, j, 0)
  }

  // ---------- Counting ----------

  function Occurs(s: seq<string>, x: string): nat {
    multiset(s)[x]
  }

  ghost function Uses(p: seq<OpInfo>, x: string): nat {
    if p == [] then 0 else Occurs(p[0].inputs, x) + Uses(p[1..], x)
  }

  lemma {:induction false} UsesZero(p: seq<OpInfo>, x: string)
    ensures Uses(p, x) == 0 <==> forall j | 0 <= j < |p| :: x !in p[j].inputs
  {
    if p != [] {
      UsesZero(p[1..], x);
      assert forall j | 0 < j < |p| :: p[j] == p[1..][j - 1];
      if Uses(p, x) == 0 {
        forall j | 0 <= j < |p|
          ensures x !in p[j].inputs
        {
          if j > 0 { assert x !in p[1..][j - 1].inputs; }
        }
      } else if x !in p[0].inputs {
        var j :| 0 <= j < |p| - 1 && x in p[1..][j].inputs;
        assert x in p[j + 1].inputs;
      }
    }
  }

  lemma {:induction false} UsesAppend(p: seq<OpInfo>, op: OpInfo, x: string)
    ensures Uses(p + [op], x) == Uses(p, x) + Occurs(op.inputs, x)
  {
    if p == [] {
      assert p + [op] == [op];
    } else {
      UsesAppend(p[1..], op, x);
      assert (p + [op])[1..] == p[1..] + [op];
    }
  }

  lemma {:induction false} UsesInsert(at: map<int, Operation>, k: int, s: seq<int>, x: string)
    requires k in at && Covers(at, s)
    ensures Covers(at, InsertKey(k, s))
    ensures Uses(Program(at, InsertKey(k, s)), x) == Occurs(at[k].info.inputs, x) + Uses(Program(at, s), x)
  {
    var r := InsertKey(k, s);
    if s == [] || k <= s[0] {
      assert Program(at, r)[1..] == Program(at, s);
    } else {
      UsesInsert(at, k, s[1..], x);
      assert r[1..] == InsertKey(k, s[1..]);
      assert Program(at, r)[1..] == Program(at, r[1..]);
      assert Program(at, s)[1..] == Program(at, s[1..]);
    }
  }

  /** Counting in insertion order or in key order makes no difference. */
  lemma {:induction false} UsesSorted(at: map<int, Operation>, keys: seq<int>, x: string)
    requires Covers(at, keys)
    ensures Covers(at, Sorted(keys))
    ensures Uses(Program(at, Sorted(keys)), x) == Uses(Program(at, keys), x)
  {
    if keys != [] {
      UsesSorted(at, keys[1..], x);
      UsesInsert(at, keys[0], Sorted(keys[1..]), x);
      assert Program(at, keys)[1..] == Program(at, keys[1..]);
    }
  }

  // ---------- delete_unneeded_outputs ----------

  function Reserved(returned: seq<string>, x: string): nat {
    if x in returned then 1 else 0
  }

  /** consumers holds, for every name read by p or by `part` or returned, the number of these reads,
      plus one if it is returned. */
  ghost predicate Counted(consumers: map<string, int>, returned: seq<string>, p: seq<OpInfo>, part: seq<string>) {
    && (forall x: string :: x in consumers <==> x in returned || Uses(p, x) > 0 || Occurs(part, x) > 0)
    && (forall x | x in consumers :: consumers[x] == Reserved(returned, x) + Uses(p, x) + Occurs(part, x))
  }

  lemma CountedReturn(consumers: map<string, int>, returned: seq<string>, name: string)
    requires Counted(consumers, returned, [], [])
    ensures Counted(consumers[name := 1], returned + [name], [], [])
  {
  }

  lemma CountedRead(consumers: map<string, int>, returned: seq<string>, p: seq<OpInfo>, part: seq<string>, name: string)
    requires Counted(consumers, returned, p, part)
    ensures Counted(consumers[name := if name !in consumers then 1 else consumers[name] + 1],
                    returned, p, part + [name])
  {
    assert forall x :: Occurs(part + [name], x) == Occurs(part, x) + if x == name then 1 else 0;
  }

  lemma CountedOp(consumers: map<string, int>, returned: seq<string>, p: seq<OpInfo>, op: OpInfo)
    requires Counted(consumers, returned, p, op.inputs)
    ensures Counted(consumers, returned, p + [op], [])
  {
    forall x: string
      ensures Uses(p + [op], x) == Uses(p, x) + Occurs(op.inputs, x)
    {
      UsesAppend(p, op, x);
    }
  }

  method CountConsumers(ops: Ops, returned: seq<string>) returns (consumers: map<string, int>, opOutputs: set<string>)
    requires Covers(ops.at, ops.keys)
    ensures opOutputs == Outputs(Program(ops.at, ops.keys))
    ensures Counted(consumers, returned, Program(ops.at, ops.keys), [])
  {
    consumers, opOutputs := map[], {};
    for i := 0 to |returned|
      invariant Counted(consumers, returned[..i], [], [])
    {
      CountedReturn(consumers, returned[..i], returned[i]);
      assert returned[..i + 1] == returned[..i] + [returned[i]];
      consumers := consumers[returned[i] := 1];
    }
    assert returned[..|returned|] == returned;
    ghost var p := Program(ops.at, ops.keys);
    for i := 0 to |ops.keys|
      invariant opOutputs == Outputs(p[..i]) && Counted(consumers, returned, p[..i], [])
    {
      var op := ops.at[ops.keys[i]].info;
      opOutputs := opOutputs + {op.output};
      consumers := CountReads(consumers, returned, p[..i], op);
      CountedOp(consumers, returned, p[..i], op);
      OutputsAppend(p[..i], op);
      assert p[..i + 1] == p[..i] + [op];
    }
    assert p[..|ops.keys|] == p;
  }

  method CountReads(start: map<string, int>, ghost returned: seq<string>, ghost p: seq<OpInfo>, op: OpInfo)
      returns (consumers: map<string, int>)
    requires Counted(start, returned, p, [])
    ensures Counted(consumers, returned, p, op.inputs)
  {
    consumers := start;
    for m := 0 to |op.inputs|
      invariant Counted(consumers, returned, p, op.inputs[..m])
    {
      var name := op.inputs[m];
      CountedRead(consumers, returned, p, op.inputs[..m], name);
      assert op.inputs[..m + 1] == op.inputs[..m] + [name];
      consumers := consumers[name := if name !in consumers then 1 else consumers[name] + 1];
    }
    assert op.inputs[..|op.inputs|] == op.inputs;
  }

  /** Among operation outputs, consumers holds the reads still to come. */
  ghost predicate Remaining(consumers: map<string, int>, returned: seq<string>, outs: set<string>, rest: seq<OpInfo>,
                            part: seq<string>) {
    forall x | x in outs && x in consumers :: consumers[x] == Reserved(returned, x) + Uses(rest, x) + Occurs(part, x)
  }

  /** What was counted in insertion order still holds of the program in key order. */
  lemma InKeyOrder(ops: Ops, returned: seq<string>, consumers: map<string, int>, outs: set<string>)
    requires ops.Valid() && Covers(ops.at, ops.keys) && outs == Outputs(Program(ops.at, ops.keys))
    requires Counted(consumers, returned, Program(ops.at, ops.keys), [])
    ensures var keys := Sorted(ops.keys);
      Ascending(keys) && Covers(ops.at, keys) && outs == Outputs(Program(ops.at, keys))
    ensures Remaining(consumers, returned, outs, Program(ops.at, Sorted(ops.keys)), [])
    ensures forall x: string | Uses(Program(ops.at, Sorted(ops.keys)), x) > 0 :: x in consumers
  {
    var keys, p := Sorted(ops.keys), Program(ops.at, ops.keys);
    SortedSorts(ops.keys);
    UsesSorted(ops.at, ops.keys, "");
    forall x: string
      ensures Uses(Program(ops.at, keys), x) == Uses(p, x)
    {
      UsesSorted(ops.at, ops.keys, x);
    }
    forall name: string
      ensures name in Outputs(p) <==> name in Outputs(Program(ops.at, keys))
    {
      OutputOf(ops.at, keys, name);
      OutputOf(ops.at, ops.keys, name);
    }
  }

  lemma LastReadCounts(p: seq<OpInfo>, returned: seq<string>, j: nat, m: nat)
    requires j < |p| && m < |p[j].inputs| && p[j].inputs[m] in Outputs(p)
    ensures var x := p[j].inputs[m];
      IsLastRead(p, returned, j, m)
      <==> Reserved(returned, x) + Uses(p[j + 1..], x) + Occurs(p[j].inputs[m + 1..], x) == 0
  {
    var x := p[j].inputs[m];
    UsesZero(p[j + 1..], x);
    assert forall j' | j < j' < |p| :: p[j'] == p[j + 1..][j' - j - 1];
  }

  /** Before operation j: the outputs that are read at all, with the reads still to come. */
  ghost predicate Pending(consumers: map<string, int>, returned: seq<string>, outs: set<string>, p: seq<OpInfo>,
                          j: nat) {
    && j <= |p| && Remaining(consumers, returned, outs, p[j..], [])
    && forall x | x in outs && Uses(p, x) > 0 :: x in consumers
  }

  /** Appends to every operation the names to free after it. */
  method DeleteUnneededOutputs(ops: Ops, returned: seq<string>)
    requires ops.Valid() && Covers(ops.at, ops.keys)
    modifies set k | k in ops.at :: ops.at[k]
    ensures Covers(ops.at, Sorted(ops.keys))
    ensures forall j | 0 <= j < |ops.keys| ::
      var op := ops.at[Sorted(ops.keys)[j]];
      op.inputsToDelete == old(op.inputsToDelete) + Frees(Program(ops.at, Sorted(ops.keys)), returned, j)
  {
    var consumers, opOutputs := CountConsumers(ops, returned);
    var keys := Sorted(ops.keys);
    InKeyOrder(ops, returned, consumers, opOutputs);
    ghost var p := Program(ops.at, keys);
    assert p[0..] == p;
    MarkAll(seq(|keys|, i requires 0 <= i < |keys| => ops.at[keys[i]]), consumers, opOutputs, p, returned);
  }

  method MarkAll(ops: seq<Operation>, start: map<string, int>, opOutputs: set<string>,
                 ghost p: seq<OpInfo>, ghost returned: seq<string>)
    requires |p| == |ops| && forall i | 0 <= i < |ops| :: ops[i].info == p[i]
    requires forall i, j | 0 <= i < j < |ops| :: ops[i] != ops[j]
    requires opOutputs == Outputs(p) && Pending(start, returned, opOutputs, p, 0)
    modifies ops
    ensures forall i | 0 <= i < |ops| :: ops[i].inputsToDelete == old(ops[i].inputsToDelete) + Frees(p, returned, i)
  {
    var consumers := start;
    for j := 0 to |ops|
      invariant Pending(consumers, returned, opOutputs, p, j)
      invariant forall i | 0 <= i < j :: ops[i].inputsToDelete == old(ops[i].inputsToDelete) + Frees(p, returned, i)
      invariant forall i | j <= i < |ops| :: ops[i].inputsToDelete == old(ops[i].inputsToDelete)
    {
      consumers := MarkLastReads(ops[j], consumers, opOutputs, p, returned, j);
    }
  }

  lemma RemainingNext(consumers: map<string, int>, returned: seq<string>, outs: set<string>, rest: seq<OpInfo>,
                      inputs: seq<string>, m: nat)
    requires m < |inputs| && Remaining(consumers, returned, outs, rest, inputs[m..])
    ensures var x, part := inputs[m], inputs[m + 1..];
      if x in outs && x in consumers then Remaining(consumers[x := consumers[x] - 1], returned, outs, rest, part)
      else Remaining(consumers, returned, outs, rest, part)
  {
    assert inputs[m..] == [inputs[m]] + inputs[m + 1..];
  }

  lemma FreesNext(p: seq<OpInfo>, returned: seq<string>, j: nat, m: nat, before: seq<string>)
    requires j < |p| && m < |p[j].inputs|
    ensures before + FreesFrom(p, returned, j, m)
         == (if IsLastRead(p, returned, j, m) then before + [p[j].inputs[m]] else before)
            + FreesFrom(p, returned, j, m + 1)
  {
  }

  method MarkLastReads(op: Operation, start: map<string, int>, opOutputs: set<string>,
                       ghost p: seq<OpInfo>, ghost returned: seq<string>, ghost j: nat)
      returns (consumers: map<string, int>)
    requires j < |p| && p[j] == op.info && opOutputs == Outputs(p)
    requires Remaining(start, returned, opOutputs, p[j..], [])
    requires forall x | x in opOutputs && Uses(p, x) > 0 :: x in start
    modifies op
    ensures Remaining(consumers, returned, opOutputs, p[j + 1..], []) && consumers.Keys == start.Keys
    ensures op.inputsToDelete == old(op.inputsToDelete) + Frees(p, returned, j)
  {
    consumers := start;
    var inputs := op.info.inputs;
    ghost var goal := op.inputsToDelete + Frees(p, returned, j);
    assert p[j..] == [op.info] + p[j + 1..] && inputs[0..] == inputs;
    for m := 0 to |inputs|
      invariant Remaining(consumers, returned, opOutputs, p[j + 1..], inputs[m..]) && consumers.Keys == start.Keys
      invariant op.inputsToDelete + FreesFrom(p, returned, j, m) == goal
    {
      var name := inputs[m];
      FreesNext(p, returned, j, m, op.inputsToDelete);
      RemainingNext(consumers, returned, opOutputs, p[j + 1..], inputs, m);
      if name !in opOutputs {
        continue;
      }
      UsesZero(p, name);
      LastReadCounts(p, returned, j, m);
      consumers := consumers[name := consumers[name] - 1];
      if consumers[name] == 0 {
        op.inputsToDelete := op.inputsToDelete + [name];
      }
    }
  }
}
