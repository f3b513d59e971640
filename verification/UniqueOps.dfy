/** The table of unique operations: a two-level first-match deduplication in which an entry's
    arguments "equal" new ones when they are contained in them. */
module UniqueOps {

  type Args<V> = map<string, V>

  /** An operation as the table sees it; od stands for operand types, shapes and dtypes. */
  datatype Op<Od, V, M> = Op(functionName: string, operands: Od, args: Args<V>, metadata: map<string, M>)

  datatype Entry<V, M> = Entry(args: Args<V>, metadata: map<string, seq<M>>)

  /** OpArgs.__eq__ with self = a: every item of a is an item of b. */
  predicate SubMap<V(==)>(a: Args<V>, b: Args<V>) {
    forall name | name in a :: name in b && a[name] == b[name]
  }

  lemma SubMapTransitive<V>(a: Args<V>, b: Args<V>, c: Args<V>)
    requires SubMap(a, b) && SubMap(b, c)
    ensures SubMap(a, c)
  {
  }

  // ---------- One operand group ----------

  /** The first entry whose arguments are contained in args, or |entries|. */
  function FirstMatch<V(==), M>(entries: seq<Entry<V, M>>, args: Args<V>): (i: nat)
    ensures i <= |entries|
    ensures i < |entries| ==> SubMap(entries[i].args, args)
    ensures forall j: nat | j < i :: !SubMap(entries[j].args, args)
  {
    if entries == [] then 0
    else if SubMap(entries[0].args, args) then 0
    else 1 + FirstMatch(entries[1..], args)
  }

  function Listed<M>(metadata: map<string, M>): map<string, seq<M>> {
    map name | name in metadata :: [metadata[name]]
  }

  function Noted<M(==)>(values: seq<M>, value: M): seq<M> {
    if value in values then values else values + [value]
  }

  /** Every new metadata value joins the list of its name, unless it is already there. */
  function Recorded<M(==)>(lists: map<string, seq<M>>, metadata: map<string, M>): map<string, seq<M>> {
    map name | name in lists :: if name in metadata then Noted(lists[name], metadata[name]) else lists[name]
  }

  function Updated<V(==), M(==)>(entries: seq<Entry<V, M>>, args: Args<V>, metadata: map<string, M>): seq<Entry<V, M>> {
    var i := FirstMatch(entries, args);
    if i < |entries| then entries[i := entries[i].(metadata := Recorded(entries[i].metadata, metadata))]
    else entries + [Entry(args, Listed(metadata))]
  }

  /** Feeding the operations of one group in order. */
  function Fed<Od, V(==), M(==)>(entries: seq<Entry<V, M>>, ops: seq<Op<Od, V, M>>): seq<Entry<V, M>> {
    if ops == [] then entries
    else
      var op := ops[|ops| - 1];
      Updated(Fed(entries, ops[..|ops| - 1]), op.args, op.metadata)
  }

  /** No entry's arguments are contained in those of a later entry. */
  ghost predicate Irredundant<V, M>(entries: seq<Entry<V, M>>) {
    forall i: nat, j: nat | i < j < |entries| :: !SubMap(entries[i].args, entries[j].args)
  }

  ghost predicate NamesAre<V, M>(entries: seq<Entry<V, M>>, names: set<string>) {
    forall i: nat | i < |entries| :: entries[i].metadata.Keys == names
  }

  /** The update finds a list for every metadata name; otherwise it stops with a KeyError. */
  predicate Accepts<V(==), M>(entries: seq<Entry<V, M>>, args: Args<V>, metadata: map<string, M>) {
    var i := FirstMatch(entries, args);
    i < |entries| ==> metadata.Keys <= entries[i].metadata.Keys
  }

  /** The first matching entry has the operation's metadata in its lists. */
  ghost predicate Covers<Od, V, M>(entries: seq<Entry<V, M>>, op: Op<Od, V, M>) {
    var i := FirstMatch(entries, op.args);
    && i < |entries|
    && forall name | name in op.metadata ::
         name in entries[i].metadata && op.metadata[name] in entries[i].metadata[name]
  }

  lemma UpdatedArgs<V, M>(entries: seq<Entry<V, M>>, args: Args<V>, metadata: map<string, M>)
    ensures var r := Updated(entries, args, metadata);
      && |entries| <= |r|
      && (forall i: nat | i < |entries| :: r[i].args == entries[i].args)
      && (|r| > |entries| ==>
            |r| == |entries| + 1 && r[|entries|].args == args && FirstMatch(entries, args) == |entries|)
  {
  }

  /** Updates leave the first match of earlier operations where it is. */
  lemma {:induction false} FirstMatchStays<V, M>(entries: seq<Entry<V, M>>, more: seq<Entry<V, M>>, args: Args<V>)
    requires |entries| <= |more| && forall i: nat | i < |entries| :: more[i].args == entries[i].args
    requires FirstMatch(entries, args) < |entries|
    ensures FirstMatch(more, args) == FirstMatch(entries, args)
  {
    var i, j := FirstMatch(entries, args), FirstMatch(more, args);
    assert SubMap(more[i].args, args);
    assert j <= i;
    assert more[j].args == entries[j].args;
  }

  lemma UpdateKeepsIrredundant<V, M>(entries: seq<Entry<V, M>>, args: Args<V>, metadata: map<string, M>)
    requires Irredundant(entries)
    ensures Irredundant(Updated(entries, args, metadata))
  {
    UpdatedArgs(entries, args, metadata);
  }

  lemma UpdateKeepsMatch<V, M>(entries: seq<Entry<V, M>>, args: Args<V>, metadata: map<string, M>, earlier: Args<V>)
    requires FirstMatch(entries, earlier) < |entries|
    ensures FirstMatch(Updated(entries, args, metadata), earlier) == FirstMatch(entries, earlier)
  {
    UpdatedArgs(entries, args, metadata);
    FirstMatchStays(entries, Updated(entries, args, metadata), earlier);
  }

  lemma UpdateMatches<V, M>(entries: seq<Entry<V, M>>, args: Args<V>, metadata: map<string, M>)
    ensures FirstMatch(Updated(entries, args, metadata), args)
            == FirstMatch(entries, args) < |Updated(entries, args, metadata)|
  {
    var r, i := Updated(entries, args, metadata), FirstMatch(entries, args);
    UpdatedArgs(entries, args, metadata);
    if i < |entries| {
      FirstMatchStays(entries, r, args);
    } else {
      assert SubMap(r[i].args, args);
    }
  }

  /** An update covers its operation exactly if it does not stop with a KeyError. */
  lemma UpdateCovers<Od, V, M>(entries: seq<Entry<V, M>>, op: Op<Od, V, M>)
    ensures Covers(Updated(entries, op.args, op.metadata), op) <==> Accepts(entries, op.args, op.metadata)
  {
    UpdateMatches(entries, op.args, op.metadata);
    var r, i := Updated(entries, op.args, op.metadata), FirstMatch(entries, op.args);
    if i < |entries| {
      assert r[i].metadata.Keys == entries[i].metadata.Keys;
      if Covers(r, op) {
        forall name | name in op.metadata
          ensures name in entries[i].metadata
        {
          assert name in r[i].metadata;
        }
      }
    }
  }

  lemma UpdateKeepsCover<Od, V, M>(entries: seq<Entry<V, M>>, op: Op<Od, V, M>, args: Args<V>, metadata: map<string, M>)
    requires Covers(entries, op)
    ensures Covers(Updated(entries, args, metadata), op)
  {
    UpdatedArgs(entries, args, metadata);
    FirstMatchStays(entries, Updated(entries, args, metadata), op.args);
  }

  /** An operation already covered changes nothing. */
  lemma CoveredChangesNothing<Od, V, M>(entries: seq<Entry<V, M>>, op: Op<Od, V, M>)
    requires Covers(entries, op)
    ensures Updated(entries, op.args, op.metadata) == entries
  {
    var i := FirstMatch(entries, op.args);
    assert Recorded(entries[i].metadata, op.metadata) == entries[i].metadata;
  }

  // ---------- Runs of one group ----------

  ghost predicate SameNames<Od, V, M>(ops: seq<Op<Od, V, M>>, names: set<string>) {
    forall k: nat | k < |ops| :: ops[k].metadata.Keys == names
  }

  /** No update of the run stops with a KeyError. */
  predicate Accepted<Od, V(==), M(==)>(entries: seq<Entry<V, M>>, ops: seq<Op<Od, V, M>>) {
    ops != [] ==>
      var before, op := ops[..|ops| - 1], ops[|ops| - 1];
      Accepted(entries, before) && Accepts(Fed(entries, before), op.args, op.metadata)
  }

  lemma UpdateKeepsNames<V, M>(entries: seq<Entry<V, M>>, args: Args<V>, metadata: map<string, M>)
    requires NamesAre(entries, metadata.Keys)
    ensures Accepts(entries, args, metadata)
    ensures NamesAre(Updated(entries, args, metadata), metadata.Keys)
  {
    var r, i := Updated(entries, args, metadata), FirstMatch(entries, args);
    if i < |entries| {
      assert r[i].metadata.Keys == entries[i].metadata.Keys;
    } else {
      assert r[i].metadata.Keys == metadata.Keys;
    }
  }

  /** Operations that carry the same metadata names never run into a KeyError. */
  lemma {:induction false} SameNamesAccepted<Od, V, M>(entries: seq<Entry<V, M>>, ops: seq<Op<Od, V, M>>,
                                                       names: set<string>)
    requires NamesAre(entries, names) && SameNames(ops, names)
    ensures Accepted(entries, ops) && NamesAre(Fed(entries, ops), names)
  {
    if ops != [] {
      var before, op := ops[..|ops| - 1], ops[|ops| - 1];
      SameNamesAccepted(entries, before, names);
      UpdateKeepsNames(Fed(entries, before), op.args, op.metadata);
    }
  }

  lemma {:induction false} FedKeepsIrredundant<Od, V, M>(entries: seq<Entry<V, M>>, ops: seq<Op<Od, V, M>>)
    requires Irredundant(entries)
    ensures Irredundant(Fed(entries, ops))
  {
    if ops != [] {
      FedKeepsIrredundant(entries, ops[..|ops| - 1]);
      UpdateKeepsIrredundant(Fed(entries, ops[..|ops| - 1]), ops[|ops| - 1].args, ops[|ops| - 1].metadata);
    }
  }

  /** After a run, every operation fed is covered. */
  lemma {:induction false} FedCovers<Od, V, M>(entries: seq<Entry<V, M>>, ops: seq<Op<Od, V, M>>)
    requires Accepted(entries, ops)
    ensures forall k: nat | k < |ops| :: Covers(Fed(entries, ops), ops[k])
  {
    if ops != [] {
      var before, op := ops[..|ops| - 1], ops[|ops| - 1];
      var mid := Fed(entries, before);
      FedCovers(entries, before);
      UpdateCovers(mid, op);
      forall k: nat | k < |ops|
        ensures Covers(Fed(entries, ops), ops[k])
      {
        if k < |before| {
          assert ops[k] == before[k];
          UpdateKeepsCover(mid, ops[k], op.args, op.metadata);
        }
      }
    }
  }

  // ---------- What the entries are ----------

  /** The first operation whose arguments are contained in args, or |ops|. */
  function FirstWithin<Od, V(==), M>(ops: seq<Op<Od, V, M>>, args: Args<V>): (i: nat)
    ensures i <= |ops|
    ensures i < |ops| ==> SubMap(ops[i].args, args)
    ensures forall j: nat | j < i :: !SubMap(ops[j].args, args)
  {
    if ops == [] then 0
    else
      var i := FirstWithin(ops[..|ops| - 1], args);
      if i < |ops| - 1 then i
      else if SubMap(ops[|ops| - 1].args, args) then |ops| - 1
      else |ops|
  }

  /** Independently of the table: operation k opens an entry if no earlier operation's arguments are
      contained in its own. */
  ghost predicate Opens<Od, V, M>(ops: seq<Op<Od, V, M>>, k: nat) {
    k < |ops| && forall j: nat | j < k :: !SubMap(ops[j].args, ops[k].args)
  }

  /** What an entry keeps of the operation that opened it. */
  datatype Head<V> = Head(args: Args<V>, names: set<string>)

  function HeadOf<Od, V, M>(op: Op<Od, V, M>): Head<V> {
    Head(op.args, op.metadata.Keys)
  }

  ghost function Opened<Od, V, M>(ops: seq<Op<Od, V, M>>): seq<Head<V>> {
    if ops == [] then []
    else Opened(ops[..|ops| - 1]) + if Opens(ops, |ops| - 1) then [HeadOf(ops[|ops| - 1])] else []
  }

  ghost function HeadsOf<V, M>(entries: seq<Entry<V, M>>): (r: seq<Head<V>>)
    ensures |r| == |entries|
  {
    seq(|entries|, i requires 0 <= i < |entries| => Head(entries[i].args, entries[i].metadata.Keys))
  }

  /** The head at i is the first one contained in args, or there is none and i is their number. */
  ghost predicate FirstHead<V>(heads: seq<Head<V>>, args: Args<V>, i: nat) {
    && i <= |heads|
    && (i < |heads| ==> SubMap(heads[i].args, args))
    && forall j: nat | j < i :: !SubMap(heads[j].args, args)
  }

  /** The first opened head within args is that of the first operation within args. */
  lemma {:induction false} OpenedFirst<Od, V, M>(ops: seq<Op<Od, V, M>>, args: Args<V>) returns (i: nat)
    ensures FirstHead(Opened(ops), args, i)
    ensures i < |Opened(ops)| <==> FirstWithin(ops, args) < |ops|
    ensures i < |Opened(ops)| ==> Opened(ops)[i] == HeadOf(ops[FirstWithin(ops, args)])
  {
    if ops == [] {
      i := 0;
    } else {
      var init, last := ops[..|ops| - 1], ops[|ops| - 1];
      i := OpenedFirst(init, args);
      if FirstWithin(init, args) == |init| {
        if SubMap(last.args, args) {
          OpensWithin(ops, args);
        } else {
          i := |Opened(ops)|;
        }
      }
    }
  }

  lemma OpensWithin<Od, V, M>(ops: seq<Op<Od, V, M>>, args: Args<V>)
    requires ops != [] && FirstWithin(ops[..|ops| - 1], args) == |ops| - 1 && SubMap(ops[|ops| - 1].args, args)
    ensures Opens(ops, |ops| - 1)
  {
    var init, last := ops[..|ops| - 1], ops[|ops| - 1];
    forall j: nat | j < |init|
      ensures !SubMap(ops[j].args, last.args)
    {
      assert !SubMap(init[j].args, args);
      if SubMap(ops[j].args, last.args) {
        SubMapTransitive(ops[j].args, last.args, args);
        assert false;
      }
    }
  }

  lemma HeadsOfUpdated<V, M>(entries: seq<Entry<V, M>>, args: Args<V>, metadata: map<string, M>)
    ensures HeadsOf(Updated(entries, args, metadata))
         == HeadsOf(entries) + if FirstMatch(entries, args) < |entries| then [] else [Head(args, metadata.Keys)]
  {
    var r := Updated(entries, args, metadata);
    assert forall i: nat | i < |entries| ::
           r[i].args == entries[i].args && r[i].metadata.Keys == entries[i].metadata.Keys;
    assert Listed(metadata).Keys == metadata.Keys;
  }

  /** With the heads of the opening operations, the table matches what the first operation within the
      arguments stands for. */
  lemma MatchIsFirst<Od, V, M>(entries: seq<Entry<V, M>>, ops: seq<Op<Od, V, M>>, args: Args<V>)
    requires HeadsOf(entries) == Opened(ops)
    ensures var i, f := FirstMatch(entries, args), FirstWithin(ops, args);
      && (i < |entries| <==> f < |ops|)
      && (i < |entries| ==> entries[i].args == ops[f].args && entries[i].metadata.Keys == ops[f].metadata.Keys)
  {
    var i := FirstMatch(entries, args);
    var k := OpenedFirst(ops, args);
    assert forall j: nat | j < |entries| :: HeadsOf(entries)[j] == Head(entries[j].args, entries[j].metadata.Keys);
    FirstHeadIsUnique(HeadsOf(entries), args, i, k);
  }

  lemma FirstHeadIsUnique<V>(heads: seq<Head<V>>, args: Args<V>, i: nat, k: nat)
    requires FirstHead(heads, args, i) && FirstHead(heads, args, k)
    ensures i == k
  {
  }

  /** The entries of a group, in order, are those of exactly the operations that open one. */
  lemma {:induction false} EntriesAreOpened<Od, V, M>(ops: seq<Op<Od, V, M>>)
    ensures HeadsOf(Fed<Od, V, M>([], ops)) == Opened(ops)
  {
    if ops != [] {
      var init, last := ops[..|ops| - 1], ops[|ops| - 1];
      EntriesAreOpened(init);
      HeadsOfUpdated(Fed<Od, V, M>([], init), last.args, last.metadata);
      MatchIsFirst(Fed<Od, V, M>([], init), init, last.args);
      assert Opens(ops, |init|) <==> FirstWithin(init, last.args) == |init|;
    }
  }

  // ---------- When an update stops ----------

  /** The first earlier operation whose arguments are contained in those of operation k, if there is
      one, has all the metadata names of operation k. */
  ghost predicate EarlierCarries<Od, V, M>(ops: seq<Op<Od, V, M>>, k: nat) {
    k < |ops| ==>
      var f := FirstWithin(ops[..k], ops[k].args);
      f < k ==> ops[k].metadata.Keys <= ops[f].metadata.Keys
  }

  lemma LastCarries<Od, V, M>(ops: seq<Op<Od, V, M>>)
    requires ops != []
    ensures var init, last := ops[..|ops| - 1], ops[|ops| - 1];
      Accepts(Fed<Od, V, M>([], init), last.args, last.metadata) <==> EarlierCarries(ops, |init|)
  {
    var init, last := ops[..|ops| - 1], ops[|ops| - 1];
    EntriesAreOpened(init);
    MatchIsFirst(Fed<Od, V, M>([], init), init, last.args);
  }

  lemma InitCarries<Od, V, M>(ops: seq<Op<Od, V, M>>, k: nat)
    requires k < |ops| - 1
    ensures EarlierCarries(ops, k) <==> EarlierCarries(ops[..|ops| - 1], k)
  {
    assert ops[..|ops| - 1][..k] == ops[..k];
  }

  /** Feeding a group never runs into a KeyError exactly if that holds of every operation. */
  lemma {:induction false} AcceptedExactly<Od, V, M>(ops: seq<Op<Od, V, M>>)
    ensures Accepted<Od, V, M>([], ops) <==> forall k: nat | k < |ops| :: EarlierCarries(ops, k)
  {
    if ops != [] {
      var init := ops[..|ops| - 1];
      AcceptedExactly(init);
      LastCarries(ops);
      assert Accepted<Od, V, M>([], ops) <==> Accepted<Od, V, M>([], init) && EarlierCarries(ops, |init|);
      forall k: nat | k < |init|
        ensures EarlierCarries(ops, k) <==> EarlierCarries(init, k)
      {
        InitCarries(ops, k);
      }
      if Accepted<Od, V, M>([], ops) {
        forall k: nat | k < |ops|
          ensures EarlierCarries(ops, k)
        {
          if k < |init| {
            InitCarries(ops, k);
          }
        }
      }
    }
  }

  /** Two operations with the same arguments, the second with a metadata name the first lacks. */
  lemma MissingNameStops<Od, V, M>(od: Od, args: Args<V>, metadata: map<string, M>, name: string, value: M)
    requires name !in metadata
    ensures !Accepted<Od, V, M>([], [Op("f", od, args, metadata), Op("f", od, args, metadata[name := value])])
  {
    var ops: seq<Op<Od, V, M>> := [Op("f", od, args, metadata), Op("f", od, args, metadata[name := value])];
    AcceptedExactly(ops);
    assert ops[..1][0] == ops[0] && SubMap(args, args);
    assert FirstWithin(ops[..1], args) == 0 && name in ops[1].metadata.Keys;
    assert !EarlierCarries(ops, 1);
  }

  // ---------- Order ----------

  lemma FedTwo<Od, V, M>(a: Op<Od, V, M>, b: Op<Od, V, M>)
    ensures Fed([], [a, b]) == Updated([Entry(a.args, Listed(a.metadata))], b.args, b.metadata)
  {
    assert [a, b][..1] == [a] && [a][..0] == [];
    assert Fed<Od, V, M>([], []) == [];
    assert Fed([], [a]) == Updated(Fed<Od, V, M>([], []), a.args, a.metadata);
  }

  /** The order of feeding matters: a later entry may have fewer arguments than an earlier one. */
  lemma EarlierMayContainLater<Od, V, M>(od: Od, v: V, metadata: map<string, M>)
    ensures var more, fewer := Op("f", od, map["a" := v], metadata), Op("f", od, map[], metadata);
      && |Fed<Od, V, M>([], [more, fewer])| == 2
      && |Fed<Od, V, M>([], [fewer, more])| == 1
  {
    var more, fewer := Op("f", od, map["a" := v], metadata), Op("f", od, map[], metadata);
    FedTwo(more, fewer);
    FedTwo(fewer, more);
    assert "a" in more.args && "a" !in fewer.args;
  }

  // ---------- What the lists hold ----------

  /** Some operation of ops, matched by entry i, carries the value under the name. */
  ghost predicate Carried<Od, V, M>(entries: seq<Entry<V, M>>, ops: seq<Op<Od, V, M>>, i: nat, name: string, value: M) {
    exists k: nat :: k < |ops| && Carries(entries, ops[k], i, name, value)
  }

  ghost predicate Carries<Od, V, M>(entries: seq<Entry<V, M>>, op: Op<Od, V, M>, i: nat, name: string, value: M) {
    FirstMatch(entries, op.args) == i && name in op.metadata && op.metadata[name] == value
  }

  ghost predicate Lists<V, M>(entries: seq<Entry<V, M>>, i: nat, name: string, value: M) {
    i < |entries| && name in entries[i].metadata && value in entries[i].metadata[name]
  }

  lemma UpdateLists<Od, V, M>(entries: seq<Entry<V, M>>, op: Op<Od, V, M>, i: nat, name: string, value: M)
    requires Lists(Updated(entries, op.args, op.metadata), i, name, value)
    ensures Lists(entries, i, name, value)
         || (FirstMatch(entries, op.args) == i && name in op.metadata && op.metadata[name] == value)
  {
  }

  lemma {:induction false} ListedIsCarried<Od, V, M>(ops: seq<Op<Od, V, M>>, i: nat, name: string, value: M)
    requires Lists(Fed([], ops), i, name, value)
    ensures Carried(Fed([], ops), ops, i, name, value)
  {
    if ops != [] {
      var n, before := |ops| - 1, ops[..|ops| - 1];
      var mid: seq<Entry<V, M>> := Fed([], before);
      UpdateLists(mid, ops[n], i, name, value);
      if Lists(mid, i, name, value) {
        ListedIsCarried(before, i, name, value);
        var k: nat :| k < |before| && Carries(mid, before[k], i, name, value);
        UpdateKeepsMatch(mid, ops[n].args, ops[n].metadata, before[k].args);
        assert Carries(Fed([], ops), ops[k], i, name, value);
      } else {
        UpdateMatches(mid, ops[n].args, ops[n].metadata);
        assert Carries(Fed([], ops), ops[n], i, name, value);
      }
    }
  }

  /** An entry lists exactly the metadata of the operations it is the first match of. */
  lemma ListsExactlyTheCarried<Od, V, M>(ops: seq<Op<Od, V, M>>, i: nat, name: string, value: M)
    requires Accepted<Od, V, M>([], ops) && i < |Fed<Od, V, M>([], ops)|
    ensures Lists(Fed([], ops), i, name, value) <==> Carried(Fed([], ops), ops, i, name, value)
  {
    var entries: seq<Entry<V, M>> := Fed([], ops);
    if Lists(entries, i, name, value) {
      ListedIsCarried(ops, i, name, value);
    }
    if Carried(entries, ops, i, name, value) {
      var k: nat :| k < |ops| && Carries(entries, ops[k], i, name, value);
      FedCovers<Od, V, M>([], ops);
      assert Covers(entries, ops[k]);
    }
  }

  ghost predicate Once<M>(values: seq<M>) {
    forall j: nat, k: nat | j < k < |values| :: values[j] != values[k]
  }

  ghost predicate EachOnce<V, M>(entries: seq<Entry<V, M>>) {
    forall i: nat, name | i < |entries| && name in entries[i].metadata :: Once(entries[i].metadata[name])
  }

  lemma UpdateKeepsEachOnce<V, M>(entries: seq<Entry<V, M>>, args: Args<V>, metadata: map<string, M>)
    requires EachOnce(entries)
    ensures EachOnce(Updated(entries, args, metadata))
  {
    var r := Updated(entries, args, metadata);
    forall i: nat, name | i < |r| && name in r[i].metadata
      ensures Once(r[i].metadata[name])
    {
      if i < |entries| {
        assert name in entries[i].metadata;
      }
    }
  }

  /** No list ever holds a value twice. */
  lemma {:induction false} FedKeepsEachOnce<Od, V, M>(entries: seq<Entry<V, M>>, ops: seq<Op<Od, V, M>>)
    requires EachOnce(entries)
    ensures EachOnce(Fed(entries, ops))
  {
    if ops != [] {
      FedKeepsEachOnce(entries, ops[..|ops| - 1]);
      UpdateKeepsEachOnce(Fed(entries, ops[..|ops| - 1]), ops[|ops| - 1].args, ops[|ops| - 1].metadata);
    }
  }
}
