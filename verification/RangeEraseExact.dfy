/** Range erase is right exactly when no renumbered entry is carried back across the end of the
    array: every such entry lowers a weight that a right result would have kept. */
module RangeEraseExact {
  import opened OrderedSpec
  import opened RangeErase
  import opened RobinHood

  // ---------- The weight of a table during the walk ----------

  /** One more than the index the entry will end with, 0 for what will be gone. */
  ghost function Worth(x: Bucket, done: bool, start: nat, end: nat): nat
    requires start <= end
  {
    if x.Empty() || (!done && InRange(x, start, end)) then 0
    else if done then x.index + 1
    else Lowered(x, start, end).index + 1
  }

  /** The first k buckets when the walk has passed the first i. */
  ghost function Weight(b: seq<Bucket>, i: nat, k: nat, start: nat, end: nat): nat
    requires k <= |b| && start <= end
  {
    if k == 0 then 0 else Weight(b, i, k - 1, start, end) + Worth(b[k - 1], k - 1 < i, start, end)
  }

  lemma {:induction false} WeightUpdate(b: seq<Bucket>, j: nat, x: Bucket, i: nat, k: nat, start: nat, end: nat)
    requires j < |b| && k <= |b| && start <= end
    ensures Weight(b[j := x], i, k, start, end)
         == Weight(b, i, k, start, end)
          + if j < k then Worth(x, j < i, start, end) - Worth(b[j], j < i, start, end) else 0
  {
    if k > 0 {
      WeightUpdate(b, j, x, i, k - 1, start, end);
    }
  }

  lemma {:induction false} WeightPass(b: seq<Bucket>, i: nat, k: nat, start: nat, end: nat)
    requires i < |b| && k <= |b| && start <= end && !InRange(b[i], start, end) && Bounded(b)
    ensures Weight(b[i := Lowered(b[i], start, end)], i + 1, k, start, end) == Weight(b, i, k, start, end)
  {
    if k > 0 {
      WeightPass(b, i, k - 1, start, end);
    }
  }

  // ---------- A shift never adds weight ----------

  lemma MoveWeight(b: seq<Bucket>, hole: nat, i: nat, start: nat, end: nat)
    requires start < end && hole < |b| && i < |b| && b[hole].Empty() && CanMoveBack(b, hole)
    requires i > 0 ==> Next(|b|, hole) != i
    ensures Weight(MoveBack(b, hole), i, |b|, start, end) <= Weight(b, i, |b|, start, end)
    ensures hole >= i > 0 && Next(|b|, hole) == 0 && b[0].index >= start ==>
      Weight(MoveBack(b, hole), i, |b|, start, end) < Weight(b, i, |b|, start, end)
  {
    var n, cur := |b|, Next(|b|, hole);
    WeightUpdate(b, hole, b[cur], i, n, start, end);
    WeightUpdate(b[hole := b[cur]], cur, b[hole], i, n, start, end);
  }

  lemma {:induction false} ShiftWeight(b: seq<Bucket>, hole: nat, i: nat, start: nat, end: nat)
    requires start < end && hole < |b| && i < |b| && b[hole].Empty()
    requires i > 0 ==> StopsBefore(b, hole, i)
    ensures Weight(BackwardShift(b, hole), i, |b|, start, end) <= Weight(b, i, |b|, start, end)
    ensures hole >= i > 0 && Crosses(b, hole) && b[0].index >= start ==>
      Weight(BackwardShift(b, hole), i, |b|, start, end) < Weight(b, i, |b|, start, end)
    decreases Displacement(b, |b|)
  {
    if CanMoveBack(b, hole) {
      MoveBackShrinks(b, hole);
      if i > 0 {
        StopsNext(b, hole, i);
      }
      if hole > 0 {
        CrossesNext(b, hole);
      }
      MoveWeight(b, hole, i, start, end);
      ShiftWeight(MoveBack(b, hole), Next(|b|, hole), i, start, end);
    } else {
      CrossesStep(b, hole);
    }
  }

  lemma CutWeight(b: seq<Bucket>, i: nat, start: nat, end: nat)
    requires start < end && Shape(b) && Anchored(b) && i < |b| && InRange(b[i], start, end)
    ensures Weight(Cut(b, i), i, |b|, start, end) <= Weight(b, i, |b|, start, end)
    ensures i > 0 && Crosses(b, i) && b[0].index >= start ==>
      Weight(Cut(b, i), i, |b|, start, end) < Weight(b, i, |b|, start, end)
  {
    var holed := b[i := b[i].Clear()];
    WeightUpdate(b, i, b[i].Clear(), i, |b|, start, end);
    if i > 0 {
      SameCrosses(b, holed, i);
    }
    if CanMoveBack(holed, i) {
      FirstMoveStops(b, i);
      MoveBackShrinks(holed, i);
      if i > 0 {
        CrossesNext(holed, i);
      }
      MoveWeight(holed, i, i, start, end);
      ShiftWeight(MoveBack(holed, i), Next(|b|, i), i, start, end);
    } else {
      CrossesStep(holed, i);
    }
  }

  lemma {:induction false} ShiftKeepsBounded(b: seq<Bucket>, hole: nat)
    requires hole < |b| && b[hole].Empty() && Bounded(b)
    ensures Bounded(BackwardShift(b, hole))
    decreases Displacement(b, |b|)
  {
    if CanMoveBack(b, hole) {
      MoveBackShrinks(b, hole);
      ShiftKeepsBounded(MoveBack(b, hole), Next(|b|, hole));
    }
  }

  lemma PassKeepsShape(b: seq<Bucket>, i: nat, start: nat, end: nat)
    requires start <= end && Shape(b) && Anchored(b) && Bounded(b) && i < |b| && !InRange(b[i], start, end)
    ensures var b' := b[i := Lowered(b[i], start, end)]; Shape(b') && Anchored(b') && Bounded(b')
  {
    OutlineKeepsShape(b, b[i := Lowered(b[i], start, end)]);
  }

  /** The walk never adds weight, and loses some when an entry is carried back. */
  lemma {:induction false} SweepWeight(b: seq<Bucket>, i: nat, start: nat, end: nat)
    requires start < end && i <= |b| && Shape(b) && Anchored(b) && Bounded(b)
    ensures var r := Sweep(b, i, start, end);
      && Weight(r, |b|, |b|, start, end) <= Weight(b, i, |b|, start, end)
      && (!NoneCarriedBack(b, i, start, end) ==> Weight(r, |b|, |b|, start, end) < Weight(b, i, |b|, start, end))
    decreases Occupied(b, |b|), |b| - i
  {
    if i == |b| {
    } else if InRange(b[i], start, end) {
      CutShrinks(b, i);
      CutKeepsShape(b, i);
      ShiftKeepsBounded(b[i := b[i].Clear()], i);
      CutWeight(b, i, start, end);
      SweepWeight(Cut(b, i), i, start, end);
    } else {
      LoweredShrinks(b, i, start, end);
      PassKeepsShape(b, i, start, end);
      WeightPass(b, i, |b|, start, end);
      SweepWeight(b[i := Lowered(b[i], start, end)], i + 1, start, end);
    }
  }

  // ---------- The weight of a right table ----------

  /** The weight of the values 0 .. n - 1. */
  ghost function Ranks(n: nat, done: bool, start: nat, end: nat): nat
    requires start <= end && n <= EMPTY_MARKER_INDEX
  {
    if n == 0 then 0 else Ranks(n - 1, done, start, end) + Worth(Bucket(n - 1, 0), done, start, end)
  }

  lemma {:induction false} RanksClose(n: nat, start: nat, end: nat)
    requires start <= end <= EMPTY_MARKER_INDEX && n <= EMPTY_MARKER_INDEX
    ensures Ranks(n, false, start, end)
         == Ranks(if n <= start then n else if n <= end then start else n - (end - start), true, start, end)
  {
    if n > 0 {
      RanksClose(n - 1, start, end);
    }
  }

  lemma {:induction false} WeightOfNothing(b: seq<Bucket>, i: nat, k: nat, start: nat, end: nat)
    requires start <= end && k <= |b| && forall j | 0 <= j < |b| :: b[j].Empty()
    ensures Weight(b, i, k, start, end) == 0
  {
    if k > 0 {
      WeightOfNothing(b, i, k - 1, start, end);
    }
  }

  /** Before the walk (i == 0) or after it (i == |b|), the weight of an index of n values. */
  lemma {:induction false} WeightOfIndex(b: seq<Bucket>, pos: map<nat, nat>, hashes: seq<nat>, n: nat, i: nat,
                                         start: nat, end: nat)
    requires start <= end && Linked(b, pos, hashes) && Complete(pos, n) && n <= EMPTY_MARKER_INDEX
    requires i == 0 || i == |b|
    ensures Weight(b, i, |b|, start, end) == Ranks(n, i > 0, start, end)
    decreases n
  {
    if n == 0 {
      WeightOfNothing(b, i, |b|, start, end);
    } else {
      var p := pos[n - 1];
      WeightUpdate(b, p, b[p].Clear(), i, |b|, start, end);
      WeightOfIndex(b[p := b[p].Clear()], pos - {n - 1}, hashes, n - 1, i, start, end);
    }
  }

  // ---------- The theorem ----------

  ghost predicate Represents(b: seq<Bucket>, hashes: seq<nat>) {
    exists pos: map<nat, nat> :: Indexes(b, pos, hashes)
  }

  /** A right result keeps the weight. */
  lemma RightKeepsWeight(b: seq<Bucket>, start: nat, end: nat, pos: map<nat, nat>, hashes: seq<nat>)
    requires start < end <= |hashes| && Indexes(b, pos, hashes)
    requires Represents(Sweep(b, 0, start, end), WithoutRange(hashes, start, end))
    ensures Weight(Sweep(b, 0, start, end), |b|, |b|, start, end) == Weight(b, 0, |b|, start, end)
  {
    var r, left := Sweep(b, 0, start, end), WithoutRange(hashes, start, end);
    var pos' :| Indexes(r, pos', left);
    assert |hashes| - 1 in pos;
    WeightOfIndex(b, pos, hashes, |hashes|, 0, start, end);
    WeightOfIndex(r, pos', left, |left|, |b|, start, end);
    RanksClose(|hashes|, start, end);
  }

  /** The walk yields the index of the values without the slice if and only if it never carries a
      renumbered entry back across the end of the array. */
  lemma SweepIsRightExactly(b: seq<Bucket>, start: nat, end: nat, pos: map<nat, nat>, hashes: seq<nat>)
    requires start < end <= |hashes| && Indexes(b, pos, hashes)
    ensures Represents(Sweep(b, 0, start, end), WithoutRange(hashes, start, end)) <==> NoneCarriedBack(b, 0, start, end)
  {
    if NoneCarriedBack(b, 0, start, end) {
      var pos' := SweepIsRight(b, start, end, pos, hashes);
    } else {
      SweepWeight(b, 0, start, end);
      if Represents(Sweep(b, 0, start, end), WithoutRange(hashes, start, end)) {
        RightKeepsWeight(b, start, end, pos, hashes);
        assert false;
      }
    }
  }

  // ---------- What a caller can check ----------

  lemma {:induction false} NothingToCut(b: seq<Bucket>, i: nat, start: nat, end: nat)
    requires start <= end && i <= |b| && forall j: nat | i <= j < |b| :: !InRange(b[j], start, end)
    ensures NoneCarriedBack(b, i, start, end)
    decreases |b| - i
  {
    if i < |b| {
      NothingToCut(b[i := Lowered(b[i], start, end)], i + 1, start, end);
    }
  }

  /** The walk comes to the first bucket of the range unharmed. */
  lemma {:induction false} WalkTo(b: seq<Bucket>, i: nat, p: nat, start: nat, end: nat)
    requires start <= end && i <= p < |b| && Bounded(b) && Swept(b, p, start, end)
    ensures NoneCarriedBack(LowerPrefix(b, i, start, end), i, start, end)
       <==> NoneCarriedBack(LowerPrefix(b, p, start, end), p, start, end)
    decreases p - i
  {
    if i < p {
      var lb := LowerPrefix(b, i, start, end);
      assert lb[i := Lowered(lb[i], start, end)] == LowerPrefix(b, i + 1, start, end);
      WalkTo(b, i + 1, p, start, end);
    }
  }

  /** Erasing the one value x by range is right unless its bucket is not the first and every bucket
      after it, and bucket 0, holds an entry away from home, that of bucket 0 for a later value. */
  lemma OneValueExactly(b: seq<Bucket>, x: nat, pos: map<nat, nat>, hashes: seq<nat>)
    requires Indexes(b, pos, hashes) && x < |hashes|
    ensures Represents(Sweep(b, 0, x, x + 1), Without(hashes, x))
       <==> !(pos[x] > 0 && Crosses(b, pos[x]) && b[0].index > x)
  {
    var p := pos[x];
    SweepIsRightExactly(b, x, x + 1, pos, hashes);
    assert WithoutRange(hashes, x, x + 1) == Without(hashes, x);
    assert Swept(b, p, x, x + 1);
    assert LowerPrefix(b, 0, x, x + 1) == b;
    WalkTo(b, 0, p, x, x + 1);
    OneCut(b, x, pos, hashes);
  }

  lemma OneCut(b: seq<Bucket>, x: nat, pos: map<nat, nat>, hashes: seq<nat>)
    requires Indexes(b, pos, hashes) && x < |hashes|
    ensures NoneCarriedBack(LowerPrefix(b, pos[x], x, x + 1), pos[x], x, x + 1)
       <==> !(pos[x] > 0 && Crosses(b, pos[x]) && b[0].index > x)
  {
    var p := pos[x];
    var lb := LowerPrefix(b, p, x, x + 1);
    LoweredCrosses(b, p, x, x + 1);
    assert p > 0 ==> !InRange(b[0], x, x + 1);
    CutShrinks(lb, p);
    assert NoneCarriedBack(lb, p, x, x + 1)
      <==> (p > 0 && Crosses(lb, p) ==> lb[0].index < x) && NoneCarriedBack(Cut(lb, p), p, x, x + 1);
    if !(p > 0 && Crosses(b, p) && b[0].index > x) {
      OneCutIsAll(b, x, pos, hashes);
    }
  }

  lemma OneCutIsAll(b: seq<Bucket>, x: nat, pos: map<nat, nat>, hashes: seq<nat>)
    requires Indexes(b, pos, hashes) && x < |hashes|
    requires pos[x] > 0 && Crosses(b, pos[x]) ==> b[0].index < x
    ensures InRange(LowerPrefix(b, pos[x], x, x + 1)[pos[x]], x, x + 1)
    ensures NoneCarriedBack(Cut(LowerPrefix(b, pos[x], x, x + 1), pos[x]), pos[x], x, x + 1)
  {
    var p := pos[x];
    CutCommutes(b, p, x, x + 1);
    var pos' := CutKeepsIndex(b, p, pos, hashes);
    var cut, lowered := Cut(b, p), Cut(LowerPrefix(b, p, x, x + 1), p);
    forall j: nat | p <= j < |b|
      ensures !InRange(lowered[j], x, x + 1)
    {
      assert lowered[j] == cut[j];
      assert !cut[j].Empty() ==> cut[j].index in pos';
    }
    NothingToCut(lowered, p, x, x + 1);
  }

  /** The entry in this bucket has been displaced across the end of the array. */
  predicate Wrapped(b: seq<Bucket>, j: nat)
    requires j < |b|
  {
    !b[j].Empty() && Dist(b, j) > j
  }

  /** The entries displaced across the end that the walk has passed are of values before the range,
      those it has not of values before its end. */
  ghost predicate WrappedAreEarly(b: seq<Bucket>, i: nat, start: nat, end: nat) {
    forall j: nat | j < |b| && Wrapped(b, j) :: b[j].index < if j < i then start else end
  }

  lemma MoveKeepsEarly(b: seq<Bucket>, hole: nat, i: nat, start: nat, end: nat)
    requires start <= end && i < |b| && hole < |b| && b[hole].Empty() && CanMoveBack(b, hole)
    requires i > 0 ==> Next(|b|, hole) != i
    requires WrappedAreEarly(b, i, start, end)
    ensures WrappedAreEarly(MoveBack(b, hole), i, start, end)
  {
    var n, cur, b' := |b|, Next(|b|, hole), MoveBack(b, hole);
    forall j: nat | j < n && Wrapped(b', j)
      ensures b'[j].index < if j < i then start else end
    {
      if j == hole {
        assert Wrapped(b, cur);
      } else {
        assert Wrapped(b, j);
      }
    }
  }

  lemma {:induction false} ShiftKeepsEarly(b: seq<Bucket>, hole: nat, i: nat, start: nat, end: nat)
    requires start <= end && i < |b| && hole < |b| && b[hole].Empty()
    requires i > 0 ==> StopsBefore(b, hole, i)
    requires WrappedAreEarly(b, i, start, end)
    ensures WrappedAreEarly(BackwardShift(b, hole), i, start, end)
    decreases Displacement(b, |b|)
  {
    if CanMoveBack(b, hole) {
      MoveBackShrinks(b, hole);
      if i > 0 {
        StopsNext(b, hole, i);
      }
      MoveKeepsEarly(b, hole, i, start, end);
      ShiftKeepsEarly(MoveBack(b, hole), Next(|b|, hole), i, start, end);
    }
  }

  lemma CutKeepsEarly(b: seq<Bucket>, i: nat, start: nat, end: nat)
    requires start <= end && Shape(b) && Anchored(b) && i < |b| && !b[i].Empty() && WrappedAreEarly(b, i, start, end)
    ensures WrappedAreEarly(Cut(b, i), i, start, end)
  {
    var holed := b[i := b[i].Clear()];
    assert forall j: nat | j < |b| && Wrapped(holed, j) :: Wrapped(b, j);
    if CanMoveBack(holed, i) {
      FirstMoveStops(b, i);
      MoveBackShrinks(holed, i);
      MoveKeepsEarly(holed, i, i, start, end);
      ShiftKeepsEarly(MoveBack(holed, i), Next(|b|, i), i, start, end);
    }
  }

  lemma PassKeepsEarly(b: seq<Bucket>, i: nat, start: nat, end: nat)
    requires start <= end && i < |b| && !InRange(b[i], start, end) && Bounded(b) && WrappedAreEarly(b, i, start, end)
    ensures WrappedAreEarly(b[i := Lowered(b[i], start, end)], i + 1, start, end)
  {
    var b' := b[i := Lowered(b[i], start, end)];
    forall j: nat | j < |b| && Wrapped(b', j)
      ensures b'[j].index < if j < i + 1 then start else end
    {
      assert Wrapped(b, j);
    }
  }

  /** No harm can come while every entry displaced across the end is of a value before the end of the
      range; so in particular when the range reaches the end of the values. */
  lemma {:induction false} EarlyIsHarmless(b: seq<Bucket>, i: nat, start: nat, end: nat)
    requires start <= end && i <= |b| && Shape(b) && Anchored(b) && Bounded(b) && WrappedAreEarly(b, i, start, end)
    ensures NoneCarriedBack(b, i, start, end)
    decreases Occupied(b, |b|), |b| - i
  {
    if i == |b| {
    } else if InRange(b[i], start, end) {
      CutShrinks(b, i);
      CutKeepsShape(b, i);
      ShiftKeepsBounded(b[i := b[i].Clear()], i);
      CutKeepsEarly(b, i, start, end);
      EarlyIsHarmless(Cut(b, i), i, start, end);
      assert i > 0 && Crosses(b, i) ==> Wrapped(b, 0);
    } else {
      LoweredShrinks(b, i, start, end);
      PassKeepsShape(b, i, start, end);
      PassKeepsEarly(b, i, start, end);
      EarlyIsHarmless(b[i := Lowered(b[i], start, end)], i + 1, start, end);
    }
  }

  lemma WrappedReachesFirst(b: seq<Bucket>, j: nat)
    requires Shape(b) && j < |b| && Wrapped(b, j)
    ensures Displaced(b, 0)
  {
    PathOccupied(b, j, Dist(b, j) - j);
    assert Forward(|b|, Home(|b|, b[j].hash), Dist(b, j) - j) == 0;
  }

  /** Nothing is displaced across the end when bucket 0 is empty or holds an entry at home. */
  lemma UnwrappedIsEarly(b: seq<Bucket>, start: nat, end: nat)
    requires Shape(b) && (b != [] ==> !Displaced(b, 0))
    ensures WrappedAreEarly(b, 0, start, end)
  {
    if j: nat :| j < |b| && Wrapped(b, j) {
      WrappedReachesFirst(b, j);
      assert false;
    }
  }
}
