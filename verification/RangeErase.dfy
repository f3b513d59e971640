/** Range erase on the bucket array: one walk that clears, shifts back and renumbers in place. */
module RangeErase {
  import opened OrderedSpec
  import opened RobinHood

  // ---------- The walk ----------

  ghost function Occupied(b: seq<Bucket>, k: nat): nat
    requires k <= |b|
  {
    if k == 0 then 0 else Occupied(b, k - 1) + if b[k - 1].Empty() then 0 else 1
  }

  lemma {:induction false} OccupiedUpdate(b: seq<Bucket>, i: nat, x: Bucket, k: nat)
    requires i < |b| && k <= |b|
    ensures Occupied(b[i := x], k) == Occupied(b, k)
         + if k <= i || x.Empty() == b[i].Empty() then 0 else if x.Empty() then -1 else 1
  {
    if k > 0 {
      OccupiedUpdate(b, i, x, k - 1);
    }
  }

  lemma {:induction false} ShiftKeepsOccupied(b: seq<Bucket>, hole: nat)
    requires hole < |b| && b[hole].Empty()
    ensures Occupied(BackwardShift(b, hole), |b|) == Occupied(b, |b|)
    decreases Displacement(b, |b|)
  {
    if CanMoveBack(b, hole) {
      var cur := Next(|b|, hole);
      OccupiedUpdate(b, hole, b[cur], |b|);
      OccupiedUpdate(b[hole := b[cur]], cur, b[hole], |b|);
      MoveBackShrinks(b, hole);
      ShiftKeepsOccupied(MoveBack(b, hole), cur);
    }
  }

  /** Bucket i is cleared and the entries after it shift back. */
  function Cut(b: seq<Bucket>, i: nat): (r: seq<Bucket>)
    requires i < |b| && !b[i].Empty()
    ensures |r| == |b|
  {
    BackwardShift(b[i := b[i].Clear()], i)
  }

  lemma CutShrinks(b: seq<Bucket>, i: nat)
    requires i < |b| && !b[i].Empty()
    ensures Occupied(Cut(b, i), |b|) < Occupied(b, |b|)
  {
    OccupiedUpdate(b, i, b[i].Clear(), |b|);
    ShiftKeepsOccupied(b[i := b[i].Clear()], i);
  }

  /** The new index of a surviving value once the values in [start, end) are gone. */
  function Lowered(x: Bucket, start: nat, end: nat): (y: Bucket)
    requires start <= end
  {
    if !x.Empty() && x.index >= end then x.(index := x.index - (end - start)) else x
  }

  lemma LoweredShrinks(b: seq<Bucket>, i: nat, start: nat, end: nat)
    requires i < |b| && start <= end
    ensures Occupied(b[i := Lowered(b[i], start, end)], |b|) <= Occupied(b, |b|)
  {
    OccupiedUpdate(b, i, Lowered(b[i], start, end), |b|);
  }

  predicate InRange(x: Bucket, start: nat, end: nat) {
    !x.Empty() && start <= x.index < end
  }

  /** The walk from bucket i on. A cleared bucket is looked at again. */
  function Sweep(b: seq<Bucket>, i: nat, start: nat, end: nat): (r: seq<Bucket>)
    requires i <= |b| && start <= end
    ensures |r| == |b|
    decreases Occupied(b, |b|), |b| - i
  {
    if i == |b| then b
    else if InRange(b[i], start, end) then
      CutShrinks(b, i);
      Sweep(Cut(b, i), i, start, end)
    else
      LoweredShrinks(b, i, start, end);
      Sweep(b[i := Lowered(b[i], start, end)], i + 1, start, end)
  }

  // ---------- When the walk is right ----------

  /** The backward shift from this hole carries the entry of bucket 0 into the last bucket. */
  predicate Crosses(b: seq<Bucket>, hole: nat)
    requires hole < |b|
  {
    Displaced(b, 0) && forall j: nat | hole < j < |b| :: Displaced(b, j)
  }

  /** No cut of the walk carries a bucket-0 entry that the walk has renumbered back across the end of
      the array, where the walk would meet it again. */
  predicate NoneCarriedBack(b: seq<Bucket>, i: nat, start: nat, end: nat)
    requires i <= |b| && start <= end
    decreases Occupied(b, |b|), |b| - i
  {
    if i == |b| then true
    else if InRange(b[i], start, end) then
      CutShrinks(b, i);
      (i > 0 && Crosses(b, i) ==> b[0].index < start) && NoneCarriedBack(Cut(b, i), i, start, end)
    else
      LoweredShrinks(b, i, start, end);
      NoneCarriedBack(b[i := Lowered(b[i], start, end)], i + 1, start, end)
  }

  /** b with the first i buckets already renumbered. */
  function LowerPrefix(b: seq<Bucket>, i: nat, start: nat, end: nat): (r: seq<Bucket>)
    requires start <= end
    ensures |r| == |b|
  {
    seq(|b|, j requires 0 <= j < |b| => if j < i then Lowered(b[j], start, end) else b[j])
  }

  ghost predicate Bounded(b: seq<Bucket>) {
    forall j | 0 <= j < |b| :: b[j].index <= EMPTY_MARKER_INDEX
  }

  ghost predicate Swept(b: seq<Bucket>, i: nat, start: nat, end: nat) {
    forall j: nat | j < |b| && j < i :: !InRange(b[j], start, end)
  }

  /** Going forward from the hole, the shift meets a bucket it stops at before it leaves bucket i. */
  ghost predicate StopsBefore(b: seq<Bucket>, hole: nat, i: nat)
    requires hole < |b| && i < |b|
  {
    exists d: nat :: 1 <= d <= Steps(|b|, hole, i) && !Displaced(b, Forward(|b|, hole, d))
  }

  lemma StopsNext(b: seq<Bucket>, hole: nat, i: nat)
    requires hole < |b| && i < |b| && b[hole].Empty() && StopsBefore(b, hole, i) && CanMoveBack(b, hole)
    ensures Next(|b|, hole) != i && StopsBefore(MoveBack(b, hole), Next(|b|, hole), i)
  {
    var n, cur, b' := |b|, Next(|b|, hole), MoveBack(b, hole);
    var d: nat :| 1 <= d <= Steps(n, hole, i) && !Displaced(b, Forward(n, hole, d));
    assert Forward(n, hole, 1) == cur && Forward(n, cur, d - 1) == Forward(n, hole, d);
    assert !Displaced(b', Forward(n, cur, d - 1));
  }

  /** After the first move of a cut, the shift cannot come round to the cut bucket again. */
  lemma FirstMoveStops(b: seq<Bucket>, i: nat)
    requires Shape(b) && Anchored(b) && i < |b| && !b[i].Empty() && CanMoveBack(b[i := b[i].Clear()], i)
    ensures Next(|b|, i) != i && StopsBefore(MoveBack(b[i := b[i].Clear()], i), Next(|b|, i), i)
  {
    var n, cur, b' := |b|, Next(|b|, i), MoveBack(b[i := b[i].Clear()], i);
    var a: nat :| a < n && !Displaced(b, a);
    var d := Steps(n, cur, a);
    assert Forward(n, cur, d) == a;
    if a == i {
      assert Link(b, i);
    }
    assert !Displaced(b', Forward(n, cur, d));
  }

  lemma SameCrosses(b: seq<Bucket>, b': seq<Bucket>, hole: nat)
    requires 0 < |b| == |b'| && hole < |b| && b'[0] == b[0]
    requires forall j: nat | hole < j < |b| :: b'[j] == b[j]
    ensures Crosses(b, hole) == Crosses(b', hole)
  {
    assert forall j: nat | hole < j < |b| || j == 0 :: Displaced(b', j) == Displaced(b, j);
  }

  lemma CrossesStep(b: seq<Bucket>, hole: nat)
    requires hole < |b|
    ensures hole + 1 == |b| ==> (Crosses(b, hole) <==> CanMoveBack(b, hole))
    ensures hole + 1 < |b| ==> (Crosses(b, hole) <==> CanMoveBack(b, hole) && Crosses(b, hole + 1))
  {
    if hole + 1 < |b| && CanMoveBack(b, hole) && Crosses(b, hole + 1) {
      forall j: nat | hole < j < |b|
        ensures Displaced(b, j)
      {
        assert j == hole + 1 || hole + 1 < j;
      }
    }
  }

  lemma CrossesNext(b: seq<Bucket>, hole: nat)
    requires 0 < hole < |b| && CanMoveBack(b, hole)
    ensures hole + 1 == |b| ==> Crosses(b, hole)
    ensures hole + 1 < |b| ==> (Crosses(b, hole) <==> Crosses(MoveBack(b, hole), hole + 1))
  {
    CrossesStep(b, hole);
    if hole + 1 < |b| {
      SameCrosses(b, MoveBack(b, hole), hole + 1);
    }
  }

  /** One move that does not carry a renumbered entry back commutes with the renumbering. */
  lemma MoveCommutes(b: seq<Bucket>, hole: nat, i: nat, start: nat, end: nat)
    requires start <= end && i < |b| && hole < |b| && b[hole].Empty() && Bounded(b) && Swept(b, i, start, end)
    requires CanMoveBack(b, hole) && Next(|b|, hole) != i
    requires hole >= i && Next(|b|, hole) == 0 ==> b[0].index < start
    ensures CanMoveBack(LowerPrefix(b, i, start, end), hole)
    ensures MoveBack(LowerPrefix(b, i, start, end), hole) == LowerPrefix(MoveBack(b, hole), i, start, end)
    ensures Bounded(MoveBack(b, hole)) && Swept(MoveBack(b, hole), i, start, end)
  {
  }

  lemma {:induction false} ShiftCommutes(b: seq<Bucket>, hole: nat, i: nat, start: nat, end: nat)
    requires start <= end && 0 < i < |b| && hole < |b| && b[hole].Empty() && StopsBefore(b, hole, i)
    requires Bounded(b) && Swept(b, i, start, end)
    requires hole >= i && Crosses(b, hole) ==> b[0].index < start
    ensures BackwardShift(LowerPrefix(b, i, start, end), hole) == LowerPrefix(BackwardShift(b, hole), i, start, end)
    ensures Swept(BackwardShift(b, hole), i, start, end)
    decreases Displacement(b, |b|)
  {
    var lb := LowerPrefix(b, i, start, end);
    assert CanMoveBack(b, hole) == CanMoveBack(lb, hole);
    if CanMoveBack(b, hole) {
      StopsNext(b, hole, i);
      if hole > 0 {
        CrossesNext(b, hole);
      }
      MoveCommutes(b, hole, i, start, end);
      MoveBackShrinks(b, hole);
      ShiftCommutes(MoveBack(b, hole), Next(|b|, hole), i, start, end);
    }
  }

  /** Cutting bucket i leaves the first i buckets renumbered and swept, unless it carries a renumbered
      entry back. */
  lemma CutCommutes(b: seq<Bucket>, i: nat, start: nat, end: nat)
    requires start <= end && Shape(b) && Anchored(b) && Bounded(b) && Swept(b, i, start, end)
    requires i < |b| && InRange(b[i], start, end)
    requires i > 0 && Crosses(b, i) ==> b[0].index < start
    ensures Cut(LowerPrefix(b, i, start, end), i) == LowerPrefix(Cut(b, i), i, start, end)
    ensures Swept(Cut(b, i), i, start, end)
  {
    var holed, lb := b[i := b[i].Clear()], LowerPrefix(b, i, start, end);
    assert lb[i := lb[i].Clear()] == LowerPrefix(holed, i, start, end);
    if i == 0 {
      assert lb == b && LowerPrefix(Cut(b, i), i, start, end) == Cut(b, i);
    } else {
      SameCrosses(b, holed, i);
      if CanMoveBack(holed, i) {
        CrossesNext(holed, i);
        FirstMoveStops(b, i);
        MoveCommutes(holed, i, i, start, end);
        ShiftCommutes(MoveBack(holed, i), Next(|b|, i), i, start, end);
      }
    }
  }

  lemma {:induction false} ShiftLeavesHole(b: seq<Bucket>, hole: nat)
    requires hole < |b| && b[hole].Empty()
    ensures Anchored(BackwardShift(b, hole))
    decreases Displacement(b, |b|)
  {
    if CanMoveBack(b, hole) {
      MoveBackShrinks(b, hole);
      ShiftLeavesHole(MoveBack(b, hole), Next(|b|, hole));
    } else {
      assert !Displaced(b, hole);
    }
  }

  lemma CutKeepsShape(b: seq<Bucket>, i: nat)
    requires Shape(b) && i < |b| && !b[i].Empty()
    ensures Shape(Cut(b, i)) && Anchored(Cut(b, i))
  {
    ClearingHoles(b, i);
    BackwardShiftRestoresShape(b[i := b[i].Clear()], i, Dist(b, i));
    ShiftLeavesHole(b[i := b[i].Clear()], i);
  }

  lemma CutKeepsIndex(b: seq<Bucket>, i: nat, pos: map<nat, nat>, hashes: seq<nat>) returns (pos': map<nat, nat>)
    requires Linked(b, pos, hashes) && i < |b| && !b[i].Empty()
    ensures Linked(Cut(b, i), pos', hashes) && pos'.Keys == pos.Keys - {b[i].index}
  {
    pos' := BackwardShiftLinks(b[i := b[i].Clear()], i, pos - {b[i].index}, hashes);
  }

  /** The indexes still in the table include all those outside [start, end). */
  ghost predicate KeepsOutside(pos: map<nat, nat>, n: nat, start: nat, end: nat) {
    forall k: nat :: k < n && !(start <= k < end) ==> k in pos
  }

  /** As long as none is carried back, the walk does what cutting every entry of the range and then
      renumbering the rest would do. */
  lemma {:induction false} SweepCuts(b: seq<Bucket>, i: nat, start: nat, end: nat, pos: map<nat, nat>, hashes: seq<nat>)
      returns (c: seq<Bucket>, pos': map<nat, nat>)
    requires i <= |b| && start <= end && Shape(b) && Anchored(b) && Linked(b, pos, hashes)
    requires NoneCarriedBack(LowerPrefix(b, i, start, end), i, start, end)
    requires Swept(b, i, start, end) && KeepsOutside(pos, |hashes|, start, end)
    ensures |c| == |b| && Sweep(LowerPrefix(b, i, start, end), i, start, end) == LowerPrefix(c, |c|, start, end)
    ensures Shape(c) && Linked(c, pos', hashes)
    ensures Swept(c, |c|, start, end) && KeepsOutside(pos', |hashes|, start, end)
    decreases Occupied(b, |b|), |b| - i
  {
    var lb := LowerPrefix(b, i, start, end);
    if i == |b| {
      c, pos' := b, pos;
    } else if InRange(b[i], start, end) {
      CutShrinks(b, i);
      LoweredCrosses(b, i, start, end);
      CutCommutes(b, i, start, end);
      CutKeepsShape(b, i);
      pos' := CutKeepsIndex(b, i, pos, hashes);
      c, pos' := SweepCuts(Cut(b, i), i, start, end, pos', hashes);
    } else {
      assert lb[i := Lowered(lb[i], start, end)] == LowerPrefix(b, i + 1, start, end);
      c, pos' := SweepCuts(b, i + 1, start, end, pos, hashes);
    }
  }

  lemma LoweredCrosses(b: seq<Bucket>, i: nat, start: nat, end: nat)
    requires start <= end && i < |b| && Bounded(b) && Swept(b, i, start, end)
    ensures Crosses(b, i) <==> Crosses(LowerPrefix(b, i, start, end), i)
    ensures i > 0 && Displaced(b, 0) ==> (b[0].index < start <==> LowerPrefix(b, i, start, end)[0].index < start)
  {
    var lb := LowerPrefix(b, i, start, end);
    assert forall j: nat | j < |b| :: Displaced(b, j) == Displaced(lb, j);
    assert i > 0 ==> !InRange(b[0], start, end);
  }

  function Raised(k: nat, start: nat, end: nat): nat
    requires start <= end
  {
    if k < start then k else k + (end - start)
  }

  lemma LoweredEntry(c: seq<Bucket>, start: nat, end: nat, pos: map<nat, nat>, hashes: seq<nat>, i: nat)
    requires start <= end <= |hashes| && Linked(c, pos, hashes) && Swept(c, |c|, start, end) && i < |c|
    ensures var y := Lowered(c[i], start, end);
      && y.Empty() == c[i].Empty() && y.hash == c[i].hash
      && (!y.Empty() ==> y.index < |hashes| - (end - start) && Raised(y.index, start, end) == c[i].index)
  {
    assert !InRange(c[i], start, end);
    assert !c[i].Empty() ==> c[i].index in pos;
  }

  lemma LoweredValue(c: seq<Bucket>, start: nat, end: nat, pos: map<nat, nat>, hashes: seq<nat>, k: nat)
    requires start <= end <= |hashes| && Linked(c, pos, hashes) && KeepsOutside(pos, |hashes|, start, end)
    requires k < |hashes| - (end - start)
    ensures var was := Raised(k, start, end);
      && k < EMPTY_MARKER_INDEX && was in pos && pos[was] < |c|
      && Lowered(c[pos[was]], start, end) == Bucket(k, WithoutRange(hashes, start, end)[k])
  {
    var was := Raised(k, start, end);
    assert was in pos;
    assert c[pos[was]] == Bucket(was, hashes[was]);
  }

  lemma LoweredLinks(c: seq<Bucket>, start: nat, end: nat, pos: map<nat, nat>, hashes: seq<nat>)
      returns (pos': map<nat, nat>)
    requires start <= end <= |hashes| && Linked(c, pos, hashes)
    requires Swept(c, |c|, start, end) && KeepsOutside(pos, |hashes|, start, end)
    ensures SameOutline(c, LowerPrefix(c, |c|, start, end))
    ensures Linked(LowerPrefix(c, |c|, start, end), pos', WithoutRange(hashes, start, end))
    ensures Complete(pos', |hashes| - (end - start))
  {
    var r, less := LowerPrefix(c, |c|, start, end), WithoutRange(hashes, start, end);
    pos' := map k: nat | k < |less| :: pos[Raised(k, start, end)];
    forall i: nat | i < |c|
      ensures c[i].Empty() == r[i].Empty() && c[i].hash == r[i].hash
      ensures !r[i].Empty() ==> r[i].index in pos' && pos'[r[i].index] == i
    {
      LoweredEntry(c, start, end, pos, hashes, i);
    }
    forall k | k in pos'
      ensures k < EMPTY_MARKER_INDEX && pos'[k] < |r| && r[pos'[k]] == Bucket(k, less[k])
    {
      LoweredValue(c, start, end, pos, hashes, k);
    }
  }

  /** When none is carried back, the walk yields the index of the values with the slice removed. */
  lemma SweepIsRight(b: seq<Bucket>, start: nat, end: nat, pos: map<nat, nat>, hashes: seq<nat>)
      returns (pos': map<nat, nat>)
    requires start < end <= |hashes| && Indexes(b, pos, hashes)
    requires NoneCarriedBack(b, 0, start, end)
    ensures Indexes(Sweep(b, 0, start, end), pos', WithoutRange(hashes, start, end))
  {
    assert LowerPrefix(b, 0, start, end) == b;
    var c, pos1 := SweepCuts(b, 0, start, end, pos, hashes);
    pos' := LoweredLinks(c, start, end, pos1, hashes);
    OutlineKeepsShape(c, LowerPrefix(c, |c|, start, end));
    EmptyAnchors(LowerPrefix(c, |c|, start, end), pos', WithoutRange(hashes, start, end));
  }

  lemma SweepCut(b: seq<Bucket>, i: nat, start: nat, end: nat)
    requires start <= end && i < |b| && InRange(b[i], start, end)
    ensures Sweep(b, i, start, end) == Sweep(Cut(b, i), i, start, end)
  {
  }

  lemma SweepPass(b: seq<Bucket>, i: nat, start: nat, end: nat)
    requires start <= end && i < |b| && !InRange(b[i], start, end) && Lowered(b[i], start, end) == b[i]
    ensures Sweep(b, i, start, end) == Sweep(b, i + 1, start, end)
  {
    assert b[i := b[i]] == b;
  }

  /** With a wrapped entry it can lose a value: four buckets, two values with hash 3, the second
      displaced into bucket 0. Erasing the first value alone empties the whole array. */
  lemma WrappedEntryIsLost()
    ensures var b := [Bucket(1, 3), Bucket(EMPTY_MARKER_INDEX, 0), Bucket(EMPTY_MARKER_INDEX, 0), Bucket(0, 3)];
      && Indexes(b, map[0 := 3, 1 := 0], [3, 3])
      && forall i | 0 <= i < 4 :: Sweep(b, 0, 0, 1)[i].Empty()
  {
    var e, hole := Bucket(EMPTY_MARKER_INDEX, 0), Bucket(EMPTY_MARKER_INDEX, 3);
    var b0 := [Bucket(1, 3), e, e, Bucket(0, 3)];
    assert !Displaced(b0, 1);
    var b1 := [Bucket(0, 3), e, e, Bucket(0, 3)]; // bucket 0 renumbered
    var b2 := [hole, e, e, Bucket(0, 3)];         // bucket 3 cut: bucket 0 shifts back into it
    var b3 := [hole, e, e, hole];                 // and is taken for the erased value
    assert b0[0 := Lowered(b0[0], 0, 1)] == b1;
    SweepPass(b1, 1, 0, 1);
    SweepPass(b1, 2, 0, 1);
    SweepCut(b1, 3, 0, 1);
    var holed := b1[3 := b1[3].Clear()];
    assert holed == [Bucket(0, 3), e, e, hole] && CanMoveBack(holed, 3);
    assert MoveBack(holed, 3) == b2 && !CanMoveBack(b2, 0);
    assert BackwardShift(holed, 3) == BackwardShift(b2, 0);
    SweepCut(b2, 3, 0, 1);
    assert b2[3 := b2[3].Clear()] == b3 && Cut(b2, 3) == b3;
    SweepPass(b3, 3, 0, 1);
  }
}
