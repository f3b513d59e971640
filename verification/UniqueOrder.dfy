/** When every order of feeding operations fills the table of unique operations, and with the same
    contents; and when none, or a given one, runs into a KeyError. */
module UniqueOrder {
  import opened UniqueOps
  import opened UniqueTable

  // ---------- One group ----------

  /** Feeding ops makes an entry with these arguments. */
  ghost predicate MakesEntry<Od, V, M>(ops: seq<Op<Od, V, M>>, args: Args<V>) {
    exists k: nat :: Opens(ops, k) && ops[k].args == args
  }

  ghost predicate HasEntry<V, M>(entries: seq<Entry<V, M>>, args: Args<V>) {
    exists i: nat :: i < |entries| && entries[i].args == args
  }

  ghost predicate HasHead<V>(heads: seq<Head<V>>, args: Args<V>) {
    exists i: nat :: i < |heads| && heads[i].args == args
  }

  lemma HeadAdded<V>(heads: seq<Head<V>>, more: seq<Head<V>>, args: Args<V>)
    ensures HasHead(heads + more, args) <==> HasHead(heads, args) || HasHead(more, args)
  {
    if HasHead(heads, args) {
      var i: nat :| i < |heads| && heads[i].args == args;
      assert (heads + more)[i].args == args;
    }
    if HasHead(more, args) {
      var i: nat :| i < |more| && more[i].args == args;
      assert (heads + more)[|heads| + i].args == args;
    }
  }

  lemma LastMakes<Od, V, M>(ops: seq<Op<Od, V, M>>, args: Args<V>)
    requires ops != []
    ensures var n := |ops| - 1;
      MakesEntry(ops, args) <==> MakesEntry(ops[..n], args) || (Opens(ops, n) && ops[n].args == args)
  {
    var n := |ops| - 1;
    assert forall k: nat | k < n :: Opens(ops, k) == Opens(ops[..n], k);
    if MakesEntry(ops[..n], args) {
      var k: nat :| Opens(ops[..n], k) && ops[..n][k].args == args;
      assert Opens(ops, k);
    }
  }

  lemma {:induction false} OpenedMakes<Od, V, M>(ops: seq<Op<Od, V, M>>, args: Args<V>)
    ensures MakesEntry(ops, args) <==> HasHead(Opened(ops), args)
  {
    if ops != [] {
      var n := |ops| - 1;
      OpenedMakes(ops[..n], args);
      LastMakes(ops, args);
      var more := if Opens(ops, n) then [HeadOf(ops[n])] else [];
      HeadAdded(Opened(ops[..n]), more, args);
      assert HasHead(more, args) <==> Opens(ops, n) && ops[n].args == args by {
        if Opens(ops, n) {
          assert more[0].args == ops[n].args;
        }
      }
    }
  }

  /** The entries of a group after feeding it. */
  lemma EntriesAreMade<Od, V, M>(ops: seq<Op<Od, V, M>>, args: Args<V>)
    ensures HasEntry(Fed<Od, V, M>([], ops), args) <==> MakesEntry(ops, args)
  {
    var entries := Fed<Od, V, M>([], ops);
    EntriesAreOpened(ops);
    OpenedMakes(ops, args);
    assert forall i: nat | i < |entries| :: HeadsOf(entries)[i].args == entries[i].args;
  }

  /** Operations whose arguments are contained in one another have the same arguments. */
  ghost predicate NoneContained<Od, V, M>(ops: seq<Op<Od, V, M>>) {
    forall j: nat, k: nat | j < |ops| && k < |ops| && SubMap(ops[j].args, ops[k].args) :: ops[j].args == ops[k].args
  }

  ghost predicate Permuted<T>(s: seq<T>, t: seq<T>) {
    multiset(s) == multiset(t)
  }

  lemma PermutedElements<T>(s: seq<T>, t: seq<T>, x: T)
    requires Permuted(s, t)
    ensures x in s <==> x in t
  {
    assert x in s <==> x in multiset(s);
    assert x in t <==> x in multiset(t);
  }

  function ToFront<T>(s: seq<T>, i: nat): (r: seq<T>)
    requires i < |s|
    ensures |r| == |s| && r[0] == s[i]
  {
    [s[i]] + s[..i] + s[i + 1..]
  }

  lemma ToFrontPermutes<T>(s: seq<T>, i: nat)
    requires i < |s|
    ensures Permuted(ToFront(s, i), s)
  {
    assert s == s[..i] + [s[i]] + s[i + 1..];
  }

  /** If no arguments properly contain others, the entries are simply the arguments that occur. */
  lemma UncontainedMakes<Od, V, M>(ops: seq<Op<Od, V, M>>, args: Args<V>)
    requires NoneContained(ops)
    ensures MakesEntry(ops, args) <==> exists op :: op in ops && op.args == args
  {
    if op :| op in ops && op.args == args {
      var f := FirstWithin(ops, args);
      var k: nat :| k < |ops| && ops[k] == op;
      assert SubMap(ops[k].args, args);
      assert ops[f].args == args;
      assert Opens(ops, f);
    }
  }

  lemma FrontMakes<Od, V, M>(ops: seq<Op<Od, V, M>>)
    requires ops != []
    ensures MakesEntry(ops, ops[0].args)
    ensures forall args | SubMap(ops[0].args, args) && args != ops[0].args :: !MakesEntry(ops, args)
  {
    assert Opens(ops, 0);
  }

  ghost predicate SameElements<Od, V, M>(s: seq<Op<Od, V, M>>, t: seq<Op<Od, V, M>>) {
    (forall x | x in s :: x in t) && (forall x | x in t :: x in s)
  }

  lemma PermutedSame<Od, V, M>(s: seq<Op<Od, V, M>>, t: seq<Op<Od, V, M>>)
    requires Permuted(s, t)
    ensures SameElements(s, t)
  {
    forall x | x in s || x in t
      ensures x in s && x in t
    {
      PermutedElements(s, t, x);
    }
  }

  lemma SameUncontained<Od, V, M>(ops: seq<Op<Od, V, M>>, other: seq<Op<Od, V, M>>, args: Args<V>)
    requires NoneContained(ops) && SameElements(ops, other)
    ensures NoneContained(other) && (MakesEntry(other, args) <==> MakesEntry(ops, args))
  {
    forall j: nat, k: nat | j < |other| && k < |other| && SubMap(other[j].args, other[k].args)
      ensures other[j].args == other[k].args
    {
      assert other[j] in ops && other[k] in ops;
    }
    UncontainedMakes(ops, args);
    UncontainedMakes(other, args);
  }

  /** Arguments contained in others' come with all the metadata names of the others. */
  ghost predicate NamesCarried<Od, V, M>(ops: seq<Op<Od, V, M>>) {
    forall j: nat, k: nat | j < |ops| && k < |ops| && SubMap(ops[j].args, ops[k].args) ::
      ops[k].metadata.Keys <= ops[j].metadata.Keys
  }

  lemma CarriedIsAccepted<Od, V, M>(ops: seq<Op<Od, V, M>>)
    requires NamesCarried(ops)
    ensures Accepted<Od, V, M>([], ops)
  {
    forall k: nat | k < |ops|
      ensures EarlierCarries(ops, k)
    {
      var f := FirstWithin(ops[..k], ops[k].args);
      assert f < k ==> ops[..k][f] == ops[f];
    }
    AcceptedExactly(ops);
  }

  lemma PermutedCarried<Od, V, M>(ops: seq<Op<Od, V, M>>, other: seq<Op<Od, V, M>>)
    requires NamesCarried(ops) && Permuted(other, ops)
    ensures NamesCarried(other)
  {
    forall j: nat, k: nat | j < |other| && k < |other| && SubMap(other[j].args, other[k].args)
      ensures other[k].metadata.Keys <= other[j].metadata.Keys
    {
      PermutedElements(other, ops, other[j]);
      PermutedElements(other, ops, other[k]);
    }
  }

  /** Elements j and k of s, then the others. */
  function TwoToFront<T>(s: seq<T>, j: nat, k: nat): (r: seq<T>)
    requires j < |s| && k < |s| && j != k
    ensures |r| == |s| && r[0] == s[j] && r[1] == s[k]
  {
    ToFront(ToFront(s, k), if j < k then j + 1 else j)
  }

  lemma TwoToFrontPermutes<T>(s: seq<T>, j: nat, k: nat)
    requires j < |s| && k < |s| && j != k
    ensures Permuted(TwoToFront(s, j, k), s)
  {
    ToFrontPermutes(s, k);
    ToFrontPermutes(ToFront(s, k), if j < k then j + 1 else j);
  }

  lemma SecondStops<Od, V, M>(ops: seq<Op<Od, V, M>>)
    requires |ops| >= 2 && SubMap(ops[0].args, ops[1].args) && !(ops[1].metadata.Keys <= ops[0].metadata.Keys)
    ensures !Accepted<Od, V, M>([], ops)
  {
    AcceptedExactly(ops);
    assert ops[..1][0] == ops[0];
    assert FirstWithin(ops[..1], ops[1].args) == 0;
    assert !EarlierCarries(ops, 1);
  }

  ghost predicate AlwaysAccepted<Od(!new), V(!new), M(!new)>(ops: seq<Op<Od, V, M>>) {
    forall other | Permuted(other, ops) :: Accepted<Od, V, M>([], other)
  }

  /** No order of feeding a group runs into a KeyError, exactly if contained arguments carry the names. */
  lemma AlwaysAcceptedExactly<Od(!new), V(!new), M(!new)>(ops: seq<Op<Od, V, M>>)
    ensures AlwaysAccepted(ops) <==> NamesCarried(ops)
  {
    if NamesCarried(ops) {
      forall other: seq<Op<Od, V, M>> | Permuted(other, ops)
        ensures Accepted<Od, V, M>([], other)
      {
        PermutedCarried(ops, other);
        CarriedIsAccepted(other);
      }
    } else {
      var j: nat, k: nat :| j < |ops| && k < |ops| && SubMap(ops[j].args, ops[k].args)
        && !(ops[k].metadata.Keys <= ops[j].metadata.Keys);
      TwoToFrontPermutes(ops, j, k);
      SecondStops(TwoToFront(ops, j, k));
    }
  }

  // ---------- What a group holds ----------

  /** An entry with these arguments lists the value under the name. */
  ghost predicate Holds<V, M>(entries: seq<Entry<V, M>>, args: Args<V>, name: string, value: M) {
    exists i: nat :: i < |entries| && entries[i].args == args && Lists(entries, i, name, value)
  }

  /** The same entries with the same metadata, whatever their order and that of the listed values. */
  ghost predicate SameEntries<V(!new), M(!new)>(e: seq<Entry<V, M>>, e': seq<Entry<V, M>>) {
    && (forall args :: HasEntry(e, args) <==> HasEntry(e', args))
    && (forall args, name, value :: Holds(e, args, name, value) <==> Holds(e', args, name, value))
  }

  predicate Brings<Od, V(==), M(==)>(op: Op<Od, V, M>, args: Args<V>, name: string, value: M) {
    op.args == args && name in op.metadata && op.metadata[name] == value
  }

  /** If no arguments properly contain others, an operation's first match has its very arguments. */
  lemma UncontainedMatch<Od, V, M>(ops: seq<Op<Od, V, M>>, k: nat)
    requires NoneContained(ops) && Accepted<Od, V, M>([], ops) && k < |ops|
    ensures var e := Fed<Od, V, M>([], ops);
      FirstMatch(e, ops[k].args) < |e| && e[FirstMatch(e, ops[k].args)].args == ops[k].args
  {
    var e: seq<Entry<V, M>> := Fed([], ops);
    FedCovers<Od, V, M>([], ops);
    assert Covers(e, ops[k]);
    var i := FirstMatch(e, ops[k].args);
    EntriesAreMade(ops, e[i].args);
    assert HasEntry(e, e[i].args);
    var j: nat :| Opens(ops, j) && ops[j].args == e[i].args;
  }

  /** What is listed is then simply what occurs. */
  lemma UncontainedHolds<Od, V, M>(ops: seq<Op<Od, V, M>>, args: Args<V>, name: string, value: M)
    requires NoneContained(ops) && Accepted<Od, V, M>([], ops)
    ensures Holds(Fed<Od, V, M>([], ops), args, name, value)
      <==> exists op :: op in ops && Brings(op, args, name, value)
  {
    var e: seq<Entry<V, M>> := Fed([], ops);
    if Holds(e, args, name, value) {
      var i: nat :| i < |e| && e[i].args == args && Lists(e, i, name, value);
      ListsExactlyTheCarried(ops, i, name, value);
      var k: nat :| k < |ops| && Carries(e, ops[k], i, name, value);
      UncontainedMatch(ops, k);
      assert ops[k] in ops && Brings(ops[k], args, name, value);
    }
    if op :| op in ops && Brings(op, args, name, value) {
      var k: nat :| k < |ops| && ops[k] == op;
      UncontainedMatch(ops, k);
      var i := FirstMatch(e, ops[k].args);
      assert Carries(e, ops[k], i, name, value);
      ListsExactlyTheCarried(ops, i, name, value);
    }
  }

  lemma UncontainedSame<Od, V(!new), M(!new)>(ops: seq<Op<Od, V, M>>, other: seq<Op<Od, V, M>>)
    requires NoneContained(ops) && SameElements(ops, other)
    requires Accepted<Od, V, M>([], ops) && Accepted<Od, V, M>([], other)
    ensures SameEntries(Fed<Od, V, M>([], ops), Fed<Od, V, M>([], other))
  {
    var e: seq<Entry<V, M>>, e': seq<Entry<V, M>> := Fed([], ops), Fed([], other);
    forall args
      ensures HasEntry(e, args) <==> HasEntry(e', args)
    {
      SameUncontained(ops, other, args);
      EntriesAreMade(ops, args);
      EntriesAreMade(other, args);
    }
    forall args, name, value
      ensures Holds(e, args, name, value) <==> Holds(e', args, name, value)
    {
      SameUncontained(ops, other, args);
      UncontainedHolds(ops, args, name, value);
      UncontainedHolds(other, args, name, value);
    }
  }

  /** Every order of feeding the group finishes, and with the same entries. */
  ghost predicate OrderFree<Od(!new), V(!new), M(!new)>(ops: seq<Op<Od, V, M>>) {
    forall other | Permuted(other, ops) ::
      Accepted<Od, V, M>([], other) && SameEntries(Fed<Od, V, M>([], ops), Fed<Od, V, M>([], other))
  }

  /** Every order of feeding a group finishes with the same entries, exactly if no operation's arguments
      properly contain another's and operations with the same arguments have the same metadata names. */
  lemma OrderFreeExactly<Od(!new), V(!new), M(!new)>(ops: seq<Op<Od, V, M>>)
    ensures OrderFree(ops) <==> NoneContained(ops) && NamesCarried(ops)
  {
    AlwaysAcceptedExactly(ops);
    if NoneContained(ops) && NamesCarried(ops) {
      assert Permuted(ops, ops);
      forall other: seq<Op<Od, V, M>> | Permuted(other, ops)
        ensures Accepted<Od, V, M>([], other) && SameEntries(Fed<Od, V, M>([], ops), Fed<Od, V, M>([], other))
      {
        PermutedSame(ops, other);
        UncontainedSame(ops, other);
      }
    } else if OrderFree(ops) {
      assert AlwaysAccepted(ops);
      ContainedDiffers(ops);
      assert false;
    }
  }

  lemma ContainedDiffers<Od(!new), V(!new), M(!new)>(ops: seq<Op<Od, V, M>>)
    requires !NoneContained(ops)
    ensures !OrderFree(ops)
  {
    var j: nat, k: nat :| j < |ops| && k < |ops| && SubMap(ops[j].args, ops[k].args) && ops[j].args != ops[k].args;
    var first, second, args := ToFront(ops, j), ToFront(ops, k), ops[k].args;
    ToFrontPermutes(ops, j);
    ToFrontPermutes(ops, k);
    FrontMakes(first);
    FrontMakes(second);
    EntriesAreMade(first, args);
    EntriesAreMade(second, args);
    assert HasEntry(Fed<Od, V, M>([], second), args) && !HasEntry(Fed<Od, V, M>([], first), args);
  }

  // ---------- The whole table ----------

  lemma SelectedSame<Od, V, M>(ops: seq<Op<Od, V, M>>, other: seq<Op<Od, V, M>>, functionName: string, operands: Od)
    requires SameElements(ops, other)
    ensures SameElements(Selected(ops, functionName, operands), Selected(other, functionName, operands))
  {
    var mine, others := Selected(ops, functionName, operands), Selected(other, functionName, operands);
    forall op | op in mine
      ensures op in others
    {
      SelectedAre(ops, functionName, operands, op);
      SelectedAre(other, functionName, operands, op);
    }
    forall op | op in others
      ensures op in mine
    {
      SelectedAre(ops, functionName, operands, op);
      SelectedAre(other, functionName, operands, op);
    }
  }

  lemma {:induction false} SelectedFront<Od, V, M>(ops: seq<Op<Od, V, M>>, n: nat, functionName: string, operands: Od)
    requires n <= |ops| && forall i: nat | i < n :: Of(ops[i], functionName, operands)
    ensures n <= |Selected(ops, functionName, operands)| && Selected(ops, functionName, operands)[..n] == ops[..n]
  {
    if ops != [] {
      var init := ops[..|ops| - 1];
      if n < |ops| {
        SelectedFront(init, n, functionName, operands);
      } else {
        SelectedFront(init, n - 1, functionName, operands);
        SelectedLength(init, functionName, operands);
        assert ops == init + [ops[n - 1]];
      }
    }
  }

  lemma {:induction false} SelectedLength<Od, V, M>(ops: seq<Op<Od, V, M>>, functionName: string, operands: Od)
    ensures |Selected(ops, functionName, operands)| <= |ops|
  {
    if ops != [] {
      SelectedLength(ops[..|ops| - 1], functionName, operands);
    }
  }

  /** The table has an entry with these arguments under the function name and operands. */
  ghost predicate Shows<Od, V, M>(ops: seq<Op<Od, V, M>>, functionName: string, operands: Od, args: Args<V>) {
    HasEntry(Group<Od, V, M>(Processed(map[], ops), functionName, operands), args)
  }

  lemma ShowsMade<Od, V, M>(ops: seq<Op<Od, V, M>>, functionName: string, operands: Od, args: Args<V>)
    ensures Shows(ops, functionName, operands, args) <==> MakesEntry(Selected(ops, functionName, operands), args)
  {
    GroupOfProcessed<Od, V, M>(map[], ops, functionName, operands);
    EntriesAreMade(Selected(ops, functionName, operands), args);
  }

  predicate Alike<Od(==), V, M>(a: Op<Od, V, M>, b: Op<Od, V, M>) {
    a.functionName == b.functionName && a.operands == b.operands
  }

  ghost predicate TableNoneContained<Od, V, M>(ops: seq<Op<Od, V, M>>) {
    forall a, b | a in ops && b in ops && Alike(a, b) && SubMap(a.args, b.args) :: a.args == b.args
  }

  lemma GroupNoneContained<Od, V, M>(ops: seq<Op<Od, V, M>>, functionName: string, operands: Od)
    requires TableNoneContained(ops)
    ensures NoneContained(Selected(ops, functionName, operands))
  {
    var mine := Selected(ops, functionName, operands);
    forall j: nat, k: nat | j < |mine| && k < |mine| && SubMap(mine[j].args, mine[k].args)
      ensures mine[j].args == mine[k].args
    {
      SelectedAre(ops, functionName, operands, mine[j]);
      SelectedAre(ops, functionName, operands, mine[k]);
    }
  }

  /** What the first operation of a run shows and hides. */
  lemma FrontShows<Od, V, M>(ops: seq<Op<Od, V, M>>, args: Args<V>)
    requires ops != [] && SubMap(ops[0].args, args)
    ensures Shows(ops, ops[0].functionName, ops[0].operands, args) <==> args == ops[0].args
  {
    var mine := Selected(ops, ops[0].functionName, ops[0].operands);
    SelectedFront(ops, 1, ops[0].functionName, ops[0].operands);
    assert mine[0] == mine[..1][0] == ops[..1][0];
    FrontMakes(mine);
    ShowsMade(ops, ops[0].functionName, ops[0].operands, args);
  }

  // ---------- KeyErrors of the whole table ----------

  /** The first operation with the function name, the operands and arguments contained in those of op,
      or |ops|. */
  function FirstAlike<Od(==), V(==), M>(ops: seq<Op<Od, V, M>>, op: Op<Od, V, M>): (i: nat)
    ensures i <= |ops|
    ensures i < |ops| ==> Alike(ops[i], op) && SubMap(ops[i].args, op.args)
    ensures forall j: nat | j < i :: !(Alike(ops[j], op) && SubMap(ops[j].args, op.args))
  {
    if ops == [] then 0
    else
      var i := FirstAlike(ops[..|ops| - 1], op);
      if i < |ops| - 1 then i
      else if Alike(ops[|ops| - 1], op) && SubMap(ops[|ops| - 1].args, op.args) then |ops| - 1
      else |ops|
  }

  lemma {:induction false} SelectedFirst<Od, V, M>(ops: seq<Op<Od, V, M>>, op: Op<Od, V, M>)
    ensures var mine := Selected(ops, op.functionName, op.operands);
      var f, i := FirstWithin(mine, op.args), FirstAlike(ops, op);
      (f < |mine| <==> i < |ops|) && (f < |mine| ==> mine[f] == ops[i])
  {
    if ops != [] {
      var init, last := ops[..|ops| - 1], ops[|ops| - 1];
      SelectedFirst(init, op);
      var before := Selected(init, op.functionName, op.operands);
      if Of(last, op.functionName, op.operands) {
        assert (before + [last])[..|before|] == before;
      } else {
        assert before + [] == before;
      }
    }
  }

  /** As EarlierCarries, for the whole table. */
  ghost predicate EarlierAlikeCarries<Od, V, M>(ops: seq<Op<Od, V, M>>, k: nat) {
    k < |ops| ==>
      var f := FirstAlike(ops[..k], ops[k]);
      f < k ==> ops[k].metadata.Keys <= ops[f].metadata.Keys
  }

  lemma LastTaken<Od, V, M>(ops: seq<Op<Od, V, M>>)
    requires ops != []
    ensures Takes<Od, V, M>(Processed(map[], ops[..|ops| - 1]), ops[|ops| - 1]) <==> EarlierAlikeCarries(ops, |ops| - 1)
  {
    var init, last := ops[..|ops| - 1], ops[|ops| - 1];
    var mine := Selected(init, last.functionName, last.operands);
    GroupOfProcessed<Od, V, M>(map[], init, last.functionName, last.operands);
    EntriesAreOpened(mine);
    MatchIsFirst(Fed<Od, V, M>([], mine), mine, last.args);
    SelectedFirst(init, last);
  }

  lemma InitAlikeCarries<Od, V, M>(ops: seq<Op<Od, V, M>>, k: nat)
    requires k < |ops| - 1
    ensures EarlierAlikeCarries(ops, k) <==> EarlierAlikeCarries(ops[..|ops| - 1], k)
  {
    assert ops[..|ops| - 1][..k] == ops[..k];
  }

  /** Feeding a run of operations never runs into a KeyError exactly if, for every one, the first alike
      operation before it whose arguments are contained in its own has all its metadata names. */
  lemma {:induction false} UnrefusedExactly<Od, V, M>(ops: seq<Op<Od, V, M>>)
    ensures Unrefused<Od, V, M>(map[], ops) <==> forall k: nat | k < |ops| :: EarlierAlikeCarries(ops, k)
  {
    if ops != [] {
      var init := ops[..|ops| - 1];
      UnrefusedExactly(init);
      LastTaken(ops);
      assert Unrefused<Od, V, M>(map[], ops) <==> Unrefused<Od, V, M>(map[], init) && EarlierAlikeCarries(ops, |init|);
      forall k: nat | k < |init|
        ensures EarlierAlikeCarries(ops, k) <==> EarlierAlikeCarries(init, k)
      {
        InitAlikeCarries(ops, k);
      }
      if Unrefused<Od, V, M>(map[], ops) {
        forall k: nat | k < |ops|
          ensures EarlierAlikeCarries(ops, k)
        {
          if k < |init| {
            InitAlikeCarries(ops, k);
          }
        }
      }
    }
  }

  ghost predicate TableNamesCarried<Od, V, M>(ops: seq<Op<Od, V, M>>) {
    forall a, b | a in ops && b in ops && Alike(a, b) && SubMap(a.args, b.args) :: b.metadata.Keys <= a.metadata.Keys
  }

  ghost predicate AlwaysUnrefused<Od(!new), V(!new), M(!new)>(ops: seq<Op<Od, V, M>>) {
    forall other | Permuted(other, ops) :: Unrefused<Od, V, M>(map[], other)
  }

  lemma TableCarriedIsUnrefused<Od, V, M>(ops: seq<Op<Od, V, M>>, other: seq<Op<Od, V, M>>)
    requires TableNamesCarried(ops) && Permuted(other, ops)
    ensures Unrefused<Od, V, M>(map[], other)
  {
    forall k: nat | k < |other|
      ensures EarlierAlikeCarries(other, k)
    {
      var f := FirstAlike(other[..k], other[k]);
      if f < k {
        PermutedElements(other, ops, other[f]);
        PermutedElements(other, ops, other[k]);
        assert other[..k][f] == other[f];
      }
    }
    UnrefusedExactly(other);
  }

  lemma SecondRefused<Od, V, M>(ops: seq<Op<Od, V, M>>)
    requires |ops| >= 2 && Alike(ops[0], ops[1]) && SubMap(ops[0].args, ops[1].args)
    requires !(ops[1].metadata.Keys <= ops[0].metadata.Keys)
    ensures !Unrefused<Od, V, M>(map[], ops)
  {
    UnrefusedExactly(ops);
    assert ops[..1][0] == ops[0];
    assert FirstAlike(ops[..1], ops[1]) == 0;
    assert !EarlierAlikeCarries(ops, 1);
  }

  /** No order of feeding the table runs into a KeyError, exactly if among alike operations contained
      arguments carry the names. */
  lemma AlwaysUnrefusedExactly<Od(!new), V(!new), M(!new)>(ops: seq<Op<Od, V, M>>)
    ensures AlwaysUnrefused(ops) <==> TableNamesCarried(ops)
  {
    if TableNamesCarried(ops) {
      forall other: seq<Op<Od, V, M>> | Permuted(other, ops)
        ensures Unrefused<Od, V, M>(map[], other)
      {
        TableCarriedIsUnrefused(ops, other);
      }
    } else {
      var a, b :|
        a in ops && b in ops && Alike(a, b) && SubMap(a.args, b.args) && !(b.metadata.Keys <= a.metadata.Keys);
      var j: nat :| j < |ops| && ops[j] == a;
      var k: nat :| k < |ops| && ops[k] == b;
      TwoToFrontPermutes(ops, j, k);
      SecondRefused(TwoToFront(ops, j, k));
    }
  }

  // ---------- What the whole table holds ----------

  ghost predicate SameTable<Od(!new), V(!new), M(!new)>(t: Table<Od, V, M>, t': Table<Od, V, M>) {
    forall functionName, operands :: SameEntries(Group(t, functionName, operands), Group(t', functionName, operands))
  }

  /** Every order of feeding the table finishes, and with the same contents. */
  ghost predicate TableOrderFree<Od(!new), V(!new), M(!new)>(ops: seq<Op<Od, V, M>>) {
    forall other | Permuted(other, ops) ::
      Unrefused<Od, V, M>(map[], other) && SameTable<Od, V, M>(Processed(map[], ops), Processed(map[], other))
  }

  lemma UncontainedTable<Od(!new), V(!new), M(!new)>(ops: seq<Op<Od, V, M>>, other: seq<Op<Od, V, M>>)
    requires TableNoneContained(ops) && SameElements(ops, other)
    requires Unrefused<Od, V, M>(map[], ops) && Unrefused<Od, V, M>(map[], other)
    ensures SameTable<Od, V, M>(Processed(map[], ops), Processed(map[], other))
  {
    var t: Table<Od, V, M>, t': Table<Od, V, M> := Processed(map[], ops), Processed(map[], other);
    forall functionName, operands
      ensures SameEntries(Group(t, functionName, operands), Group(t', functionName, operands))
    {
      GroupOfProcessed<Od, V, M>(map[], ops, functionName, operands);
      GroupOfProcessed<Od, V, M>(map[], other, functionName, operands);
      UnrefusedGroups<Od, V, M>(map[], ops, functionName, operands);
      UnrefusedGroups<Od, V, M>(map[], other, functionName, operands);
      GroupNoneContained(ops, functionName, operands);
      SelectedSame(ops, other, functionName, operands);
      UncontainedSame(Selected(ops, functionName, operands), Selected(other, functionName, operands));
    }
  }

  lemma ContainedShows<Od(!new), V(!new), M(!new)>(ops: seq<Op<Od, V, M>>, a: Op<Od, V, M>, b: Op<Od, V, M>)
    requires a in ops && b in ops && Alike(a, b) && SubMap(a.args, b.args) && a.args != b.args
    ensures !TableOrderFree(ops)
  {
    var j: nat :| j < |ops| && ops[j] == a;
    var k: nat :| k < |ops| && ops[k] == b;
    ToFrontPermutes(ops, j);
    ToFrontPermutes(ops, k);
    FrontShows(ToFront(ops, j), b.args);
    FrontShows(ToFront(ops, k), b.args);
    var t: Table<Od, V, M>, t': Table<Od, V, M> := Processed(map[], ToFront(ops, j)), Processed(map[], ToFront(ops, k));
    var was: Table<Od, V, M> := Processed(map[], ops);
    assert HasEntry(Group(t', b.functionName, b.operands), b.args);
    assert !HasEntry(Group(t, b.functionName, b.operands), b.args);
    assert !(SameTable(was, t) && SameTable(was, t'));
  }

  /** Every order of feeding the table finishes with the same contents, exactly if, among operations with
      the same function name and operands, no arguments properly contain another's and those with the
      same arguments have the same metadata names. */
  lemma TableOrderFreeExactly<Od(!new), V(!new), M(!new)>(ops: seq<Op<Od, V, M>>)
    ensures TableOrderFree(ops) <==> TableNoneContained(ops) && TableNamesCarried(ops)
  {
    AlwaysUnrefusedExactly(ops);
    if TableNoneContained(ops) && TableNamesCarried(ops) {
      assert Permuted(ops, ops);
      forall other: seq<Op<Od, V, M>> | Permuted(other, ops)
        ensures Unrefused<Od, V, M>(map[], other) && SameTable<Od, V, M>(Processed(map[], ops), Processed(map[], other))
      {
        PermutedSame(ops, other);
        UncontainedTable(ops, other);
      }
    } else if TableOrderFree(ops) {
      assert AlwaysUnrefused(ops);
      var a, b :| a in ops && b in ops && Alike(a, b) && SubMap(a.args, b.args) && a.args != b.args;
      ContainedShows(ops, a, b);
      assert false;
    }
  }

  // ---------- Two orders that differ ----------

  lemma TwoUnrefused<Od, V, M>(a: Op<Od, V, M>, b: Op<Od, V, M>)
    requires Alike(a, b)
    ensures Unrefused<Od, V, M>(map[], [a, b]) <==> (SubMap(a.args, b.args) ==> b.metadata.Keys <= a.metadata.Keys)
  {
    var ops := [a, b];
    UnrefusedExactly(ops);
    assert ops[..1] == [a] && ops[..0] == [];
    assert EarlierAlikeCarries(ops, 0);
    assert FirstAlike([a], b) == if SubMap(a.args, b.args) then 0 else 1 by {
      assert [a][0] == a;
    }
    assert EarlierAlikeCarries(ops, 1) <==> (SubMap(a.args, b.args) ==> b.metadata.Keys <= a.metadata.Keys);
  }

  /** Equal arguments: the order with the longer metadata first finishes, the other one does not. */
  lemma EqualArgsMayStop<Od, V, M>(od: Od, args: Args<V>, metadata: map<string, M>, name: string, value: M)
    requires name !in metadata
    ensures var a, b := Op("f", od, args, metadata), Op("f", od, args, metadata[name := value]);
      && TableNoneContained([a, b])
      && Unrefused<Od, V, M>(map[], [b, a]) && !Unrefused<Od, V, M>(map[], [a, b])
  {
    var a, b := Op("f", od, args, metadata), Op("f", od, args, metadata[name := value]);
    TwoUnrefused(a, b);
    TwoUnrefused(b, a);
    assert name in b.metadata.Keys && SubMap(args, args);
  }

  /** Contained arguments: only the order that makes two entries finishes. */
  lemma OneOrderFinishes<Od, V, M>(od: Od, v: V, metadata: map<string, M>, name: string, value: M)
    requires name !in metadata
    ensures var a, b := Op("f", od, map[], metadata), Op("f", od, map["x" := v], metadata[name := value]);
      && !TableNoneContained([a, b])
      && Unrefused<Od, V, M>(map[], [b, a]) && !Unrefused<Od, V, M>(map[], [a, b])
  {
    var a, b := Op("f", od, map[], metadata), Op("f", od, map["x" := v], metadata[name := value]);
    TwoUnrefused(a, b);
    TwoUnrefused(b, a);
    assert name in b.metadata.Keys && "x" in b.args && SubMap(a.args, b.args);
    assert a in [a, b] && b in [a, b] && Alike(a, b);
  }
}
