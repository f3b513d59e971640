/** The generated forward function: the order in which it is written and what running it yields. */
module GeneratedForward {
  import opened Freeing
  import opened Sorting
  import opened Wrappers

  // ---------- Writing ----------

  /** Loop is a for statement over the layers from first up to but not including end. */
  datatype Line =
    | Assign(op: OpInfo)
    | Loop(op: OpInfo, first: nat, end: nat)
    | Free(name: string)
    | Return(names: seq<string>)

  /** The call of an operation; the calls of repeated submodules are written as one loop. */
  function CallLine(op: OpInfo, numLayers: nat): (call: Line)
    ensures (call.Assign? || call.Loop?) && call.op == op
    ensures call.Loop? <==> op.isSubmoduleCall && op.repeats > 0
    ensures call.Loop? ==> call.end - call.first == op.repeats + 1
  {
    if !op.isSubmoduleCall || op.repeats == 0 then Assign(op)
    else if op.repeats + 1 == numLayers then Loop(op, 0, numLayers)
    else if op.loopStart == 0 then Loop(op, 0, op.repeats + 1)
    else Loop(op, op.loopStart, op.repeats + op.loopStart + 1)
  }

  function FreeLines(names: seq<string>): (r: seq<Line>)
    ensures |r| == |names|
  {
    seq(|names|, i requires 0 <= i < |names| => Free(names[i]))
  }

  /** The lines for the operations from j on; frees[j] are the names to free after operation j. */
  function Body(p: seq<OpInfo>, frees: seq<seq<string>>, numLayers: nat, deleteInputs: bool, j: nat): seq<Line>
    requires |frees| == |p| && j <= |p|
    decreases |p| - j
  {
    if j == |p| then
      []
    else
      [CallLine(p[j], numLayers)] + FreesAfter(p[j], frees[j], deleteInputs)
      + Body(p, frees, numLayers, deleteInputs, j + 1)
  }

  /** No frees are written after a submodule call, nor when deletion is switched off. */
  function FreesAfter(op: OpInfo, names: seq<string>, deleteInputs: bool): seq<Line> {
    if deleteInputs && !op.isSubmoduleCall then FreeLines(names) else []
  }

  function AllFrees(p: seq<OpInfo>, returned: seq<string>): (r: seq<seq<string>>)
    ensures |r| == |p|
  {
    seq(|p|, j requires 0 <= j < |p| => Frees(p, returned, j))
  }

  lemma Associate<T>(a: seq<T>, b: seq<T>, c: seq<T>)
    ensures (a + b) + c == a + (b + c)
  {
  }

  class ForgeWriter {
    const numSubmodels: nat
    const deleteInputs: bool
    var lines: seq<Line>

    constructor (numSubmodels: nat, deleteInputs: bool)
      ensures this.numSubmodels == numSubmodels && this.deleteInputs == deleteInputs && lines == []
    {
      this.numSubmodels, this.deleteInputs, lines := numSubmodels, deleteInputs, [];
    }

    /** The function body: operations in key order, each followed by its frees, then the return. */
    method WriteForward(ops: Ops, outputs: seq<string>, ghost frees: seq<seq<string>>)
      requires Covers(ops.at, Sorted(ops.keys)) && |frees| == |ops.keys|
      requires forall j | 0 <= j < |frees| :: ops.at[Sorted(ops.keys)[j]].inputsToDelete == frees[j]
      modifies this`lines
      ensures lines == old(lines)
                     + Body(Program(ops.at, Sorted(ops.keys)), frees, numSubmodels, deleteInputs, 0) + [Return(outputs)]
    {
      var keys := Sorted(ops.keys);
      ghost var p := Program(ops.at, keys);
      for j := 0 to |keys|
        invariant lines + Body(p, frees, numSubmodels, deleteInputs, j)
               == old(lines) + Body(p, frees, numSubmodels, deleteInputs, 0)
      {
        ghost var before := lines;
        WriteOperation(ops.at[keys[j]]);
        Associate(before, [CallLine(p[j], numSubmodels)] + FreesAfter(p[j], frees[j], deleteInputs),
                  Body(p, frees, numSubmodels, deleteInputs, j + 1));
      }
      lines := lines + [Return(outputs)];
    }

    method WriteOperation(op: Operation)
      modifies this`lines
      ensures lines == old(lines)
                     + ([CallLine(op.info, numSubmodels)] + FreesAfter(op.info, op.inputsToDelete, deleteInputs))
    {
      if op.info.isSubmoduleCall {
        WriteSubmoduleCall(op.info);
      } else {
        lines := lines + [Assign(op.info)];
        if deleteInputs {
          var names := op.inputsToDelete;
          for m := 0 to |names|
            invariant lines == old(lines) + ([Assign(op.info)] + FreeLines(names[..m]))
          {
            assert FreeLines(names[..m + 1]) == FreeLines(names[..m]) + [Free(names[m])];
            lines := lines + [Free(names[m])];
          }
          assert names[..|names|] == names;
        }
      }
    }

    method WriteSubmoduleCall(op: OpInfo)
      requires op.isSubmoduleCall
      modifies this`lines
      ensures lines == old(lines) + [CallLine(op, numSubmodels)]
    {
      if op.repeats > 0 {
        var first, end := 0, op.repeats + 1;
        if op.repeats + 1 != numSubmodels && op.loopStart != 0 {
          first, end := op.loopStart, op.repeats + op.loopStart + 1;
        }
        lines := lines + [Loop(op, first, end)];
      } else {
        lines := lines + [Assign(op)];
      }
    }
  }

  /** delete_unneeded_outputs followed by write_forward. */
  method GenerateForward(ops: Ops, returned: seq<string>, numSubmodels: nat, deleteInputs: bool)
      returns (writer: ForgeWriter)
    requires ops.Valid() && Covers(ops.at, ops.keys)
    requires forall k | k in ops.at :: ops.at[k].inputsToDelete == []
    modifies set k | k in ops.at :: ops.at[k]
    ensures Covers(ops.at, Sorted(ops.keys))
    ensures var p := Program(ops.at, Sorted(ops.keys));
      writer.lines == Body(p, AllFrees(p, returned), numSubmodels, deleteInputs, 0) + [Return(returned)]
  {
    InsertionSortCovers(ops);
    ghost var p := Program(ops.at, Sorted(ops.keys));
    DeleteUnneededOutputs(ops, returned);
    forall j | 0 <= j < |p|
      ensures ops.at[Sorted(ops.keys)[j]].inputsToDelete == AllFrees(p, returned)[j]
    {
      var k := Sorted(ops.keys)[j];
      assert k in ops.at && old(ops.at[k].inputsToDelete) == [];
    }
    writer := new ForgeWriter(numSubmodels, deleteInputs);
    writer.WriteForward(ops, returned, AllFrees(p, returned));
  }

  lemma InsertionSortCovers(ops: Ops)
    requires Covers(ops.at, ops.keys)
    ensures Covers(ops.at, Sorted(ops.keys))
  {
    UsesSorted(ops.at, ops.keys, "");
  }

  // ---------- Running ----------

  /** A run's variables name tensors; a tensor that has been freed has lost its value. */
  datatype Machine<V> = Machine(env: map<string, nat>, store: seq<Option<V>>) {
    ghost predicate Valid() {
      forall x | x in env :: env[x] < |store|
    }

    function Bind(name: string, value: V): Machine<V> {
      Machine(env[name := |store|], store + [Some(value)])
    }

    function Drop(name: string): Machine<V>
      requires name in env
    {
      if env[name] < |store| then Machine(env, store[env[name] := None]) else this
    }
  }

  /** Reading a name: a parameter or constant of the module, or a local variable. */
  function Read<V>(params: map<string, V>, m: Machine<V>, name: string): Option<V> {
    if name in params then Some(params[name])
    else if name in m.env && m.env[name] < |m.store| then m.store[m.env[name]]
    else None
  }

  function ReadAll<V>(params: map<string, V>, m: Machine<V>, names: seq<string>): Option<seq<V>> {
    if names == [] then Some([])
    else
      var first, rest := Read(params, m, names[0]), ReadAll(params, m, names[1..]);
      if first.None? || rest.None? then None else Some([first.value] + rest.value)
  }

  /** Running the call of an operation for the layers from i up to end. */
  function Repeat<V>(apply: (OpInfo, nat, seq<V>) -> V, params: map<string, V>, m: Machine<V>,
                     op: OpInfo, i: nat, end: nat): Option<Machine<V>>
    decreases end - i
  {
    if i >= end then Some(m)
    else
      var args := ReadAll(params, m, op.inputs);
      if args.None? then None
      else Repeat(apply, params, m.Bind(op.output, apply(op, i, args.value)), op, i + 1, end)
  }

  function Call<V>(apply: (OpInfo, nat, seq<V>) -> V, params: map<string, V>, m: Machine<V>, call: Line):
      Option<Machine<V>>
    requires call.Assign? || call.Loop?
  {
    if call.Assign? then Repeat(apply, params, m, call.op, 0, 1)
    else Repeat(apply, params, m, call.op, call.first, call.end)
  }

  /** Running the lines: None is a failed run, otherwise the returned values. An operation, given its
      layer in a loop, makes a new tensor; a free drops the value of the tensor a variable names. */
  function Execute<V>(apply: (OpInfo, nat, seq<V>) -> V, params: map<string, V>, m: Machine<V>, lines: seq<Line>):
      Option<seq<V>>
    decreases |lines|
  {
    if lines == [] then None
    else match lines[0]
      case Free(name) =>
        if name !in m.env then None else Execute(apply, params, m.Drop(name), lines[1..])
      case Return(names) => ReadAll(map[], m, names)
      case _ =>
        var after := Call(apply, params, m, lines[0]);
        if after.None? then None else Execute(apply, params, after.value, lines[1..])
  }

  // ---------- Frees change nothing ----------

  ghost predicate Needed(p: seq<OpInfo>, returned: seq<string>, j: nat, x: string) {
    x in returned || exists i: nat :: j <= i < |p| && x in p[i].inputs
  }

  /** The run with frees, m', against the run without, m, before operation j: they agree on every
      variable still needed, and a tensor made by an operation has one name only. */
  ghost predicate Related<V>(m: Machine<V>, m': Machine<V>, p: seq<OpInfo>, returned: seq<string>, j: nat, n0: nat) {
    && m.Valid() && m'.env == m.env && |m'.store| == |m.store| && n0 <= |m.store|
    && (forall x, y | x in m.env && y in m.env && m.env[x] == m.env[y] && n0 <= m.env[x] :: x == y)
    && j <= |p| && (forall x | x in Outputs(p[..j]) :: x in m.env && n0 <= m.env[x])
    && (forall x | x in m.env && Needed(p, returned, j, x) :: m'.store[m.env[x]] == m.store[m.env[x]])
  }

  lemma {:induction false} ReadAllAgrees<V>(params: map<string, V>, m: Machine<V>, m': Machine<V>, names: seq<string>)
    requires forall x | x in names :: Read(params, m, x) == Read(params, m', x)
    ensures ReadAll(params, m, names) == ReadAll(params, m', names)
  {
    if names != [] {
      ReadAllAgrees(params, m, m', names[1..]);
    }
  }

  lemma {:induction false} ReadAllBound<V>(params: map<string, V>, m: Machine<V>, names: seq<string>)
    requires ReadAll(params, m, names).Some?
    ensures forall x | x in names :: x in params || x in m.env
  {
    if names != [] {
      ReadAllBound(params, m, names[1..]);
    }
  }

  /** Every name freed after operation j is one of its inputs, is an operation's output, is not
      returned and is not read by a later operation. */
  lemma {:induction false} FreedIsDead(p: seq<OpInfo>, returned: seq<string>, j: nat, m: nat, x: string)
    requires j < |p| && m <= |p[j].inputs| && x in FreesFrom(p, returned, j, m)
    ensures x in p[j].inputs && x in Outputs(p) && !Needed(p, returned, j + 1, x)
    decreases |p[j].inputs| - m
  {
    if x in FreesFrom(p, returned, j, m + 1) {
      FreedIsDead(p, returned, j, m + 1, x);
    }
  }

  lemma {:induction false} DropsAreHarmless<V>(apply: (OpInfo, nat, seq<V>) -> V, params: map<string, V>,
                                               m: Machine<V>, m': Machine<V>, p: seq<OpInfo>, returned: seq<string>,
                                               j: nat, n0: nat, names: seq<string>, rest: seq<Line>)
      returns (m'': Machine<V>)
    requires Related(m, m', p, returned, j, n0)
    requires forall x | x in names :: x in m.env && n0 <= m.env[x] && !Needed(p, returned, j, x)
    ensures Related(m, m'', p, returned, j, n0)
    ensures Execute(apply, params, m', FreeLines(names) + rest) == Execute(apply, params, m'', rest)
    decreases |names|
  {
    if names == [] {
      assert FreeLines(names) + rest == rest;
      m'' := m';
    } else {
      assert FreeLines(names) + rest == [Free(names[0])] + (FreeLines(names[1..]) + rest);
      m'' := DropsAreHarmless(apply, params, m, m'.Drop(names[0]), p, returned, j, n0, names[1..], rest);
    }
  }

  lemma BindKeepsRelated<V>(m: Machine<V>, m': Machine<V>, p: seq<OpInfo>, returned: seq<string>, j: nat, n0: nat,
                            name: string, v: V)
    requires Related(m, m', p, returned, j, n0)
    ensures Related(m.Bind(name, v), m'.Bind(name, v), p, returned, j, n0)
  {
  }

  lemma MadeIsRelated<V>(m: Machine<V>, m': Machine<V>, p: seq<OpInfo>, returned: seq<string>, j: nat, n0: nat)
    requires j < |p| && Related(m, m', p, returned, j, n0)
    requires p[j].output in m.env && n0 <= m.env[p[j].output]
    ensures Related(m, m', p, returned, j + 1, n0)
  {
    OutputsAppend(p[..j], p[j]);
    assert p[..j + 1] == p[..j] + [p[j]];
  }

  /** No operation's output is read before it is made, unless nothing else has its name. In particular
      of a topologically ordered program, and when outputs are not named like inputs or parameters. */
  ghost predicate ReadsAreMade(p: seq<OpInfo>, taken: set<string>) {
    forall j: nat, x | j < |p| && x in p[j].inputs && x in Outputs(p) && x in taken :: x in Outputs(p[..j])
  }

  /** No operation frees a name taken at the start that no operation has made yet. A submodule call frees
      nothing, so a loop may carry an input along under the input's own name. */
  ghost predicate FreesAreMade(p: seq<OpInfo>, returned: seq<string>, taken: set<string>) {
    forall j: nat, x | j < |p| && !p[j].isSubmoduleCall && x in Frees(p, returned, j) && x in taken ::
      x in Outputs(p[..j])
  }

  lemma ReadsMadeSuffice(p: seq<OpInfo>, returned: seq<string>, taken: set<string>)
    requires ReadsAreMade(p, taken)
    ensures FreesAreMade(p, returned, taken)
  {
    forall j: nat, x | j < |p| && !p[j].isSubmoduleCall && x in Frees(p, returned, j) && x in taken
      ensures x in Outputs(p[..j])
    {
      FreedIsDead(p, returned, j, 0, x);
    }
  }

  /** Before operation j only the names taken at the start and the outputs made are bound. */
  ghost predicate BoundBy<V>(m: Machine<V>, p: seq<OpInfo>, j: nat, taken: set<string>) {
    j <= |p| && forall x | x in m.env :: x in taken || x in Outputs(p[..j])
  }

  lemma FreedIsMade<V>(params: map<string, V>, m: Machine<V>, p: seq<OpInfo>, returned: seq<string>, j: nat,
                       taken: set<string>, x: string)
    requires j < |p| && BoundBy(m, p, j, taken) && FreesAreMade(p, returned, taken) && params.Keys <= taken
    requires !p[j].isSubmoduleCall && ReadAll(params, m, p[j].inputs).Some? && x in Frees(p, returned, j)
    ensures x in Outputs(p[..j])
  {
    FreedIsDead(p, returned, j, 0, x);
    ReadAllBound(params, m, p[j].inputs);
  }

  /** Operation j, for one layer or in a loop: both runs fail or the runs stay related. */
  lemma {:induction false} RepeatKeepsRelated<V>(apply: (OpInfo, nat, seq<V>) -> V, params: map<string, V>,
                                                 m: Machine<V>, m': Machine<V>, p: seq<OpInfo>, returned: seq<string>,
                                                 j: nat, n0: nat, taken: set<string>, i: nat, end: nat)
    requires j < |p| && Related(m, m', p, returned, j, n0) && BoundBy(m, p, j + 1, taken) && i < end
    ensures var after, after' := Repeat(apply, params, m, p[j], i, end), Repeat(apply, params, m', p[j], i, end);
      && (after.None? <==> after'.None?)
      && (after.Some? ==>
            Related(after.value, after'.value, p, returned, j + 1, n0) && BoundBy(after.value, p, j + 1, taken))
    decreases end - i
  {
    var op := p[j];
    assert forall x | x in op.inputs :: Needed(p, returned, j, x);
    ReadAllAgrees(params, m, m', op.inputs);
    var args := ReadAll(params, m, op.inputs);
    if args.Some? {
      var v := apply(op, i, args.value);
      var m1, m1' := m.Bind(op.output, v), m'.Bind(op.output, v);
      BindKeepsRelated(m, m', p, returned, j, n0, op.output, v);
      assert op.output in Outputs(p[..j + 1]) by {
        assert p[..j + 1][j] == op;
      }
      if i + 1 < end {
        RepeatKeepsRelated(apply, params, m1, m1', p, returned, j, n0, taken, i + 1, end);
      } else {
        MadeIsRelated(m1, m1', p, returned, j, n0);
      }
    }
  }

  lemma CallKeepsRelated<V>(apply: (OpInfo, nat, seq<V>) -> V, params: map<string, V>, m: Machine<V>, m': Machine<V>,
                            p: seq<OpInfo>, returned: seq<string>, j: nat, n0: nat, taken: set<string>, numLayers: nat)
    requires j < |p| && Related(m, m', p, returned, j, n0) && BoundBy(m, p, j, taken)
    ensures var call := CallLine(p[j], numLayers);
      var after, after' := Call(apply, params, m, call), Call(apply, params, m', call);
      && (after.None? <==> after'.None?)
      && (after.Some? ==>
            && Related(after.value, after'.value, p, returned, j + 1, n0) && BoundBy(after.value, p, j + 1, taken)
            && ReadAll(params, m, p[j].inputs).Some?)
  {
    OutputsAppend(p[..j], p[j]);
    assert p[..j + 1] == p[..j] + [p[j]];
    var call := CallLine(p[j], numLayers);
    RepeatKeepsRelated(apply, params, m, m', p, returned, j, n0, taken,
                       if call.Loop? then call.first else 0, if call.Loop? then call.end else 1);
  }

  /** The frees after operation j drop nothing that is needed, whatever lines follow. */
  lemma FreesKeepRelated<V>(apply: (OpInfo, nat, seq<V>) -> V, params: map<string, V>, m: Machine<V>,
                            m1: Machine<V>, m1': Machine<V>, p: seq<OpInfo>, returned: seq<string>,
                            j: nat, n0: nat, taken: set<string>, rest: seq<Line>)
      returns (m2': Machine<V>)
    requires j < |p| && Related(m1, m1', p, returned, j + 1, n0) && BoundBy(m, p, j, taken)
    requires FreesAreMade(p, returned, taken) && params.Keys <= taken && ReadAll(params, m, p[j].inputs).Some?
    ensures Related(m1, m2', p, returned, j + 1, n0)
    ensures Execute(apply, params, m1', FreesAfter(p[j], Frees(p, returned, j), true) + rest)
         == Execute(apply, params, m2', rest)
  {
    var op, frees := p[j], Frees(p, returned, j);
    OutputsAppend(p[..j], op);
    assert p[..j + 1] == p[..j] + [op];
    if op.isSubmoduleCall {
      m2' := m1';
      assert FreesAfter(op, frees, true) + rest == rest;
    } else {
      forall x | x in frees
        ensures x in m1.env && n0 <= m1.env[x] && !Needed(p, returned, j + 1, x)
      {
        FreedIsDead(p, returned, j, 0, x);
        FreedIsMade(params, m, p, returned, j, taken, x);
      }
      m2' := DropsAreHarmless(apply, params, m1, m1', p, returned, j + 1, n0, frees, rest);
    }
  }

  lemma ExecuteCall<V>(apply: (OpInfo, nat, seq<V>) -> V, params: map<string, V>, m: Machine<V>,
                       call: Line, rest: seq<Line>)
    requires call.Assign? || call.Loop?
    ensures var after := Call(apply, params, m, call);
      Execute(apply, params, m, [call] + rest)
      == if after.None? then None else Execute(apply, params, after.value, rest)
  {
    assert ([call] + rest)[1..] == rest;
  }

  /** Operation j and its frees: both runs fail, or they stay related, whatever lines follow. */
  lemma OperationKeepsRelated<V>(apply: (OpInfo, nat, seq<V>) -> V, params: map<string, V>,
                                 m: Machine<V>, m': Machine<V>, p: seq<OpInfo>, returned: seq<string>,
                                 j: nat, n0: nat, taken: set<string>, numLayers: nat, more: seq<Line>, more': seq<Line>)
      returns (after: Option<Machine<V>>, after': Machine<V>)
    requires j < |p| && Related(m, m', p, returned, j, n0) && BoundBy(m, p, j, taken)
    requires FreesAreMade(p, returned, taken) && params.Keys <= taken
    ensures var call := CallLine(p[j], numLayers);
      var run := Execute(apply, params, m, [call] + more);
      var run' := Execute(apply, params, m', [call] + (FreesAfter(p[j], Frees(p, returned, j), true) + more'));
      && after == Call(apply, params, m, call)
      && (after.None? ==> run.None? && run'.None?)
      && (after.Some? ==>
            && Related(after.value, after', p, returned, j + 1, n0) && BoundBy(after.value, p, j + 1, taken)
            && run == Execute(apply, params, after.value, more) && run' == Execute(apply, params, after', more'))
  {
    var call, drops := CallLine(p[j], numLayers), FreesAfter(p[j], Frees(p, returned, j), true);
    CallKeepsRelated(apply, params, m, m', p, returned, j, n0, taken, numLayers);
    ExecuteCall(apply, params, m, call, more);
    ExecuteCall(apply, params, m', call, drops + more');
    after, after' := Call(apply, params, m, call), m';
    if after.Some? {
      var made' := Call(apply, params, m', call).value;
      after' := FreesKeepRelated(apply, params, m, after.value, made', p, returned, j, n0, taken, more');
    }
  }

  lemma BodyStep(p: seq<OpInfo>, frees: seq<seq<string>>, numLayers: nat, deleteInputs: bool, j: nat, end: seq<Line>)
    requires j < |p| == |frees|
    ensures var drops := FreesAfter(p[j], frees[j], deleteInputs);
      Body(p, frees, numLayers, deleteInputs, j) + end
      == [CallLine(p[j], numLayers)] + (drops + (Body(p, frees, numLayers, deleteInputs, j + 1) + end))
  {
  }

  lemma {:induction false} FreesChangeNothing<V>(apply: (OpInfo, nat, seq<V>) -> V, params: map<string, V>,
                                                 m: Machine<V>, m': Machine<V>, p: seq<OpInfo>, returned: seq<string>,
                                                 j: nat, n0: nat, taken: set<string>, numLayers: nat)
    requires Related(m, m', p, returned, j, n0) && BoundBy(m, p, j, taken)
    requires FreesAreMade(p, returned, taken) && params.Keys <= taken
    ensures var frees, end := AllFrees(p, returned), [Return(returned)];
      Execute(apply, params, m', Body(p, frees, numLayers, true, j) + end)
      == Execute(apply, params, m, Body(p, frees, numLayers, false, j) + end)
    decreases |p| - j
  {
    var frees, end := AllFrees(p, returned), [Return(returned)];
    if j == |p| {
      assert [] + end == end;
      ReadAllAgrees(map[], m, m', returned);
    } else {
      var more, more' := Body(p, frees, numLayers, false, j + 1) + end, Body(p, frees, numLayers, true, j + 1) + end;
      BodyStep(p, frees, numLayers, true, j, end);
      BodyStep(p, frees, numLayers, false, j, end);
      assert [] + more == more;
      var after, after' :=
        OperationKeepsRelated(apply, params, m, m', p, returned, j, n0, taken, numLayers, more, more');
      if after.Some? {
        FreesChangeNothing(apply, params, after.value, after', p, returned, j + 1, n0, taken, numLayers);
      }
    }
  }

  /** The generated forward returns the same with and without frees, and fails in the same cases. */
  lemma FreeingPreservesMeaning<V>(apply: (OpInfo, nat, seq<V>) -> V, params: map<string, V>, inputs: Machine<V>,
                                   p: seq<OpInfo>, returned: seq<string>, numLayers: nat)
    requires inputs.Valid() && FreesAreMade(p, returned, params.Keys + inputs.env.Keys)
    ensures var frees, end := AllFrees(p, returned), [Return(returned)];
      Execute(apply, params, inputs, Body(p, frees, numLayers, true, 0) + end)
      == Execute(apply, params, inputs, Body(p, frees, numLayers, false, 0) + end)
  {
    FreesChangeNothing(apply, params, inputs, inputs, p, returned, 0, |inputs.store|,
                       params.Keys + inputs.env.Keys, numLayers);
  }

  lemma ReadOne<V>(params: map<string, V>, m: Machine<V>, name: string)
    ensures var value := Read(params, m, name);
      ReadAll(params, m, [name]) == if value.None? then None else Some([value.value])
  {
    var value := Read(params, m, name);
    assert [name][1..] == [];
    assert ReadAll(params, m, []) == Some([]);
    assert value.Some? ==> [value.value] + [] == [value.value];
  }

  const UNMADE := [OpInfo("f", ["w"], "y", false, 0, 0), OpInfo("g", ["y"], "w", false, 0, 0)]

  lemma UnmadeFrees()
    ensures Frees(UNMADE, ["y"], 0) == ["w"] && !FreesAreMade(UNMADE, ["y"], {"w"})
  {
    assert UNMADE[1].output == "w" && "w" in Outputs(UNMADE) && IsLastRead(UNMADE, ["y"], 0, 0);
    assert Frees(UNMADE, ["y"], 0) == ["w"];
  }

  lemma UnmadeFails<V>(apply: (OpInfo, nat, seq<V>) -> V, w: V, end: seq<Line>)
    ensures Execute(apply, map["w" := w], Machine(map[], []),
                    Body(UNMADE, AllFrees(UNMADE, ["y"]), 0, true, 0) + end).None?
  {
    var frees, start: Machine<V> := AllFrees(UNMADE, ["y"]), Machine(map[], []);
    UnmadeFrees();
    assert FreeLines(["w"]) == [Free("w")];
    BodyStep(UNMADE, frees, 0, true, 0, end);
    ReadOne(map["w" := w], start, "w");
    ExecuteCall(apply, map["w" := w], start, Assign(UNMADE[0]), [Free("w")] + (Body(UNMADE, frees, 0, true, 1) + end));
  }

  lemma UnmadeRuns<V>(apply: (OpInfo, nat, seq<V>) -> V, w: V)
    ensures Execute(apply, map["w" := w], Machine(map[], []),
                    Body(UNMADE, AllFrees(UNMADE, ["y"]), 0, false, 0) + [Return(["y"])]).Some?
  {
    var frees, end, params := AllFrees(UNMADE, ["y"]), [Return(["y"])], map["w" := w];
    var start: Machine<V> := Machine(map[], []);
    var rest := Body(UNMADE, frees, 0, false, 1) + end;
    BodyStep(UNMADE, frees, 0, false, 0, end);
    BodyStep(UNMADE, frees, 0, false, 1, end);
    assert [] + rest == rest && [] + end == end;
    ExecuteCall(apply, params, start, Assign(UNMADE[0]), rest);
    ReadOne(params, start, "w");
    var m := start.Bind("y", apply(UNMADE[0], 0, [w]));
    ExecuteCall(apply, params, m, Assign(UNMADE[1]), end);
    ReadOne(params, m, "y");
    ReadOne(map[], m.Bind("w", apply(UNMADE[1], 0, [m.store[0].value])), "y");
  }

  /** An output named like a parameter that was read before: freeing it fails, as it is no variable yet. */
  lemma UnmadeFreeFails<V>(apply: (OpInfo, nat, seq<V>) -> V, w: V)
    ensures var frees, end, params, start :=
        AllFrees(UNMADE, ["y"]), [Return(["y"])], map["w" := w], Machine(map[], []);
      && !FreesAreMade(UNMADE, ["y"], {"w"})
      && Execute(apply, params, start, Body(UNMADE, frees, 0, true, 0) + end).None?
      && Execute(apply, params, start, Body(UNMADE, frees, 0, false, 0) + end).Some?
  {
    UnmadeFrees();
    UnmadeFails(apply, w, [Return(["y"])]);
    UnmadeRuns(apply, w);
  }

  // ---------- Frees are exact ----------

  ghost predicate IsLastReader(p: seq<OpInfo>, j: nat, x: string) {
    j < |p| && x in p[j].inputs && forall i: nat | j < i < |p| :: x !in p[i].inputs
  }

  /** How often operation j frees x: once if it is the last reader of an output that is not
      returned, however often it reads it; otherwise never. */
  lemma {:induction false} FreeCount(p: seq<OpInfo>, returned: seq<string>, j: nat, m: nat, x: string)
    requires j < |p| && m <= |p[j].inputs|
    ensures Occurs(FreesFrom(p, returned, j, m), x)
         == if x in Outputs(p) && x !in returned && x in p[j].inputs[m..] && IsLastReader(p, j, x) then 1 else 0
    decreases |p[j].inputs| - m
  {
    if m < |p[j].inputs| {
      FreeCount(p, returned, j, m + 1, x);
      assert p[j].inputs[m..] == [p[j].inputs[m]] + p[j].inputs[m + 1..];
    }
  }

  ghost function CountFree(lines: seq<Line>, x: string): nat {
    multiset(lines)[Free(x)]
  }

  lemma {:induction false} CountFreeLines(names: seq<string>, x: string)
    ensures CountFree(FreeLines(names), x) == Occurs(names, x)
  {
    if names != [] {
      CountFreeLines(names[1..], x);
      assert FreeLines(names) == [Free(names[0])] + FreeLines(names[1..]);
      assert names == [names[0]] + names[1..];
    }
  }

  ghost predicate FreedFrom(p: seq<OpInfo>, returned: seq<string>, j: nat, x: string) {
    x in Outputs(p) && x !in returned && exists i: nat :: j <= i && IsLastReader(p, i, x) && !p[i].isSubmoduleCall
  }

  /** A name is freed exactly once if it is an operation's output that is read and not returned
      (and its last reader is not a submodule call), and never otherwise. */
  lemma {:induction false} FreedExactlyOnce(p: seq<OpInfo>, returned: seq<string>, numLayers: nat, j: nat, x: string)
    requires j <= |p|
    ensures CountFree(Body(p, AllFrees(p, returned), numLayers, true, j), x)
         == if FreedFrom(p, returned, j, x) then 1 else 0
    decreases |p| - j
  {
    if j < |p| {
      var frees := AllFrees(p, returned);
      FreedExactlyOnce(p, returned, numLayers, j + 1, x);
      FreeCount(p, returned, j, 0, x);
      CountFreeLines(frees[j], x);
      assert p[j].inputs[0..] == p[j].inputs;
      if IsLastReader(p, j, x) {
        assert !FreedFrom(p, returned, j + 1, x);
      } else {
        assert FreedFrom(p, returned, j, x) == FreedFrom(p, returned, j + 1, x);
      }
    }
  }
}
