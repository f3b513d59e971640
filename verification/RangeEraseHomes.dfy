/** When range erase is right, read off the buckets as they are before the call: one pass over the
    homes and indexes counts the shifts that reach the end of the array, and a second follows the
    entries displaced across the end as those shifts carry them back. */
module RangeEraseHomes {
  import opened OrderedSpec
  import opened RangeErase
  import opened RangeEraseExact
  import opened RobinHood

  /** Of g shifts that reach bucket j, the ones that move its entry and so reach the bucket after it,
      and one more when the walk cuts the entry. */
  function Passing(b: seq<Bucket>, j: nat, g: nat, start: nat, end: nat): nat
    requires j < |b|
  {
    (if b[j].Empty() then 0 else Min(g, Dist(b, j))) + if InRange(b[j], start, end) then 1 else 0
  }

  /** Of g shifts that reach bucket j, those that come out at the end of the array, with those that
      the cuts from bucket j on add. */
  function Arriving(b: seq<Bucket>, j: nat, g: nat, start: nat, end: nat): nat
    requires j <= |b|
    decreases |b| - j
  {
    if j == |b| then g else Arriving(b, j + 1, Passing(b, j, g, start, end), start, end)
  }

  /** Follows the entries displaced across the end from bucket k on. pulls shifts carry back the
      bucket's predecessor; cut entries before it are cut at the start of the array. An entry that is
      carried back to the end itself must belong to a value before the range: below start if the walk
      has passed it, and so renumbered it, otherwise below end. */
  predicate Harmless(b: seq<Bucket>, i: nat, k: nat, pulls: nat, cut: nat, start: nat, end: nat)
    requires cut <= k <= |b|
    decreases |b| - k
  {
    if k == |b| || !Wrapped(b, k) then true
    else if k >= i && InRange(b[k], start, end) then Harmless(b, i, k + 1, pulls, cut + 1, start, end)
    else if pulls <= k - cut then true
    else
      && b[k].index < (if k < i then start else end)
      && Harmless(b, i, k + 1, Min(pulls, Dist(b, k) - cut), cut, start, end)
  }

  /** Every entry displaced across the end that the erasure of [start, end) carries back to the end
      belongs to a value before the range. */
  predicate Spares(b: seq<Bucket>, start: nat, end: nat) {
    Harmless(b, 0, 0, Arriving(b, 0, 0, start, end), 0, start, end)
  }

  // ---------- Buckets that play no part ----------

  lemma {:induction false} ArrivingFrom(b: seq<Bucket>, b': seq<Bucket>, j: nat, g: nat, start: nat, end: nat)
    requires j <= |b| == |b'| && forall k: nat | j <= k < |b| :: b'[k] == b[k]
    ensures Arriving(b', j, g, start, end) == Arriving(b, j, g, start, end)
    decreases |b| - j
  {
    if j < |b| {
      ArrivingFrom(b, b', j + 1, Passing(b, j, g, start, end), start, end);
    }
  }

  lemma {:induction false} HarmlessFrom(b: seq<Bucket>, b': seq<Bucket>, i: nat, k: nat, pulls: nat, cut: nat,
                                        start: nat, end: nat)
    requires cut <= k <= |b| == |b'| && forall j: nat | k <= j < |b| :: b'[j] == b[j]
    ensures Harmless(b', i, k, pulls, cut, start, end) == Harmless(b, i, k, pulls, cut, start, end)
    decreases |b| - k
  {
    if k < |b| && Wrapped(b, k) {
      if k >= i && InRange(b[k], start, end) {
        HarmlessFrom(b, b', i, k + 1, pulls, cut + 1, start, end);
      } else {
        HarmlessFrom(b, b', i, k + 1, Min(pulls, Dist(b, k) - cut), cut, start, end);
      }
    }
  }

  // ---------- A bucket the walk passes ----------

  lemma {:induction false} PassHarmless(b: seq<Bucket>, i: nat, k: nat, pulls: nat, cut: nat, start: nat, end: nat)
    requires start <= end && i < |b| && !InRange(b[i], start, end) && Bounded(b) && cut <= k <= |b|
    ensures Harmless(b[i := Lowered(b[i], start, end)], i + 1, k, pulls, cut, start, end)
         == Harmless(b, i, k, pulls, cut, start, end)
    decreases |b| - k
  {
    var b' := b[i := Lowered(b[i], start, end)];
    if k < |b| {
      assert Wrapped(b', k) == Wrapped(b, k) && Dist(b', k) == Dist(b, k);
      if Wrapped(b, k) {
        if k >= i && InRange(b[k], start, end) {
          PassHarmless(b, i, k + 1, pulls, cut + 1, start, end);
        } else {
          PassHarmless(b, i, k + 1, Min(pulls, Dist(b, k) - cut), cut, start, end);
        }
      }
    }
  }

  lemma PassArriving(b: seq<Bucket>, i: nat, start: nat, end: nat)
    requires start <= end && i < |b| && !InRange(b[i], start, end)
    ensures Arriving(b[i := Lowered(b[i], start, end)], i + 1, 0, start, end) == Arriving(b, i, 0, start, end)
  {
    assert Passing(b, i, 0, start, end) == 0;
    ArrivingFrom(b, b[i := Lowered(b[i], start, end)], i + 1, 0, start, end);
  }

  // ---------- What a cut leaves where ----------

  /** The len entries after bucket i are displaced, the one after them is not. */
  ghost predicate RunAfter(b: seq<Bucket>, i: nat, len: nat)
    requires i < |b|
  {
    && len < |b|
    && (forall d: nat | 1 <= d <= len :: Displaced(b, Forward(|b|, i, d)))
    && !Displaced(b, Forward(|b|, i, len + 1))
  }

  /** c is b with the entry of bucket i gone and the next len entries moved back by one bucket. */
  ghost predicate MovedBack(b: seq<Bucket>, c: seq<Bucket>, i: nat, len: nat)
    requires i < |b|
  {
    && |c| == |b| && len < |b|
    && forall j: nat | j < |b| ::
         if Steps(|b|, i, j) < len then c[j] == b[Next(|b|, j)]
         else if Steps(|b|, i, j) == len then c[j].Empty()
         else c[j] == b[j]
  }

  lemma {:induction false} FindRun(b: seq<Bucket>, i: nat, d: nat, stop: nat) returns (len: nat)
    requires i < |b| && d < stop <= |b| && !Displaced(b, Forward(|b|, i, stop))
    requires forall e: nat | 1 <= e <= d :: Displaced(b, Forward(|b|, i, e))
    ensures RunAfter(b, i, len)
    decreases stop - d
  {
    if Displaced(b, Forward(|b|, i, d + 1)) {
      len := FindRun(b, i, d + 1, stop);
    } else {
      len := d;
    }
  }

  /** A run that ends before it comes round to the hole moves back as a whole. */
  lemma {:induction false} ShiftMovesRun(x: seq<Bucket>, hole: nat, len: nat)
    requires hole < |x| && x[hole].Empty() && len + 1 < |x| && RunAfter(x, hole, len)
    ensures MovedBack(x, BackwardShift(x, hole), hole, len)
    decreases len
  {
    var n, cur := |x|, Next(|x|, hole);
    assert Forward(n, hole, 1) == cur;
    if len > 0 {
      var y := MoveBack(x, hole);
      MoveBackShrinks(x, hole);
      MovedRun(x, hole, len);
      ShiftMovesRun(y, cur, len - 1);
      MovedTwice(x, BackwardShift(x, hole), hole, len);
    }
  }

  lemma MovedRun(x: seq<Bucket>, hole: nat, len: nat)
    requires hole < |x| && x[hole].Empty() && 0 < len < |x| && CanMoveBack(x, hole)
    requires forall d: nat | 1 <= d <= len :: Displaced(x, Forward(|x|, hole, d))
    requires !Displaced(MoveBack(x, hole), Forward(|x|, hole, len + 1))
    ensures MoveBack(x, hole)[Next(|x|, hole)].Empty() && RunAfter(MoveBack(x, hole), Next(|x|, hole), len - 1)
  {
    var n, cur, y := |x|, Next(|x|, hole), MoveBack(x, hole);
    forall d: nat | 1 <= d <= len
      ensures Forward(n, cur, d) == Forward(n, hole, d + 1)
      ensures d < len ==> y[Forward(n, cur, d)] == x[Forward(n, hole, d + 1)] && Displaced(x, Forward(n, hole, d + 1))
    {
    }
  }

  lemma MovedTwice(x: seq<Bucket>, c: seq<Bucket>, hole: nat, len: nat)
    requires hole < |x| && x[hole].Empty() && 0 < len < |x|
    requires MovedBack(MoveBack(x, hole), c, Next(|x|, hole), len - 1)
    ensures MovedBack(x, c, hole, len)
  {
    var n, cur, y := |x|, Next(|x|, hole), MoveBack(x, hole);
    forall j: nat | j < n
      ensures if Steps(n, hole, j) < len then c[j] == x[Next(n, j)]
              else if Steps(n, hole, j) == len then c[j].Empty()
              else c[j] == x[j]
    {
      if j == hole {
        assert Steps(n, cur, j) == n - 1;
      } else {
        assert Steps(n, hole, j) == Steps(n, cur, j) + 1;
      }
    }
  }

  lemma SomeRun(b: seq<Bucket>, i: nat) returns (len: nat)
    requires Anchored(b) && i < |b|
    ensures RunAfter(b, i, len)
  {
    var a: nat :| a < |b| && !Displaced(b, a);
    var stop := if a == i then |b| else Steps(|b|, i, a);
    assert Forward(|b|, i, stop) == a;
    len := FindRun(b, i, 0, stop);
  }

  lemma CutMovesRun(b: seq<Bucket>, i: nat) returns (len: nat)
    requires Shape(b) && Anchored(b) && i < |b| && !b[i].Empty()
    ensures RunAfter(b, i, len) && MovedBack(b, Cut(b, i), i, len)
  {
    var holed := b[i := b[i].Clear()];
    len := SomeRun(b, i);
    if len + 1 < |b| {
      assert RunAfter(holed, i, len) by {
        ClearedRun(b, i, len);
      }
      ShiftMovesRun(holed, i, len);
    } else if len > 0 {
      WholeRun(b, i, len);
    } else {
      assert !CanMoveBack(holed, i);
    }
    assert MovedBack(holed, Cut(b, i), i, len);
  }

  lemma ClearedRun(b: seq<Bucket>, i: nat, len: nat)
    requires i < |b| && RunAfter(b, i, len)
    ensures var holed := b[i := b[i].Clear()];
      && (forall d: nat | 1 <= d <= len :: Displaced(holed, Forward(|b|, i, d)))
      && !Displaced(holed, Forward(|b|, i, len + 1))
  {
    var holed := b[i := b[i].Clear()];
    forall d: nat | 1 <= d <= len
      ensures Displaced(holed, Forward(|b|, i, d))
    {
      assert Displaced(b, Forward(|b|, i, d)) && Forward(|b|, i, d) != i;
    }
  }

  /** All entries but that of bucket i are displaced: the first one then moves home, into bucket i. */
  lemma WholeRun(b: seq<Bucket>, i: nat, len: nat)
    requires Shape(b) && i < |b| && !b[i].Empty() && 0 < len == |b| - 1 && RunAfter(b, i, len)
    ensures MovedBack(b[i := b[i].Clear()], Cut(b, i), i, len)
  {
    var n, holed := |b|, b[i := b[i].Clear()];
    assert Forward(n, i, n) == i && Forward(n, i, 1) == Next(n, i);
    ClearedRun(b, i, len);
    assert Link(b, i);
    MoveBackShrinks(holed, i);
    MovedRun(holed, i, len);
    ShiftMovesRun(MoveBack(holed, i), Next(n, i), len - 1);
    MovedTwice(holed, Cut(b, i), i, len);
  }

  lemma CrossesIsLong(b: seq<Bucket>, i: nat, len: nat)
    requires 0 < i < |b| && RunAfter(b, i, len)
    ensures Crosses(b, i) <==> i + len >= |b|
  {
    var n := |b|;
    forall j: nat | j < n && 1 <= Steps(n, i, j) <= len
      ensures Displaced(b, j)
    {
      assert Forward(n, i, Steps(n, i, j)) == j;
    }
  }

  // ---------- A cut whose run ends before the end of the array ----------

  lemma RunEndArriving(b: seq<Bucket>, c: seq<Bucket>, i: nat, len: nat, g: nat, start: nat, end: nat)
    requires i < |b| && i + len + 1 < |b| && RunAfter(b, i, len) && MovedBack(b, c, i, len)
    ensures Arriving(c, i + len, g, start, end) == Arriving(b, i + len + 1, g + 1, start, end)
  {
    var stop := i + len + 1;
    assert Forward(|b|, i, len + 1) == stop && !Displaced(b, stop);
    assert c[stop - 1].Empty() && Passing(c, stop - 1, g, start, end) == 0;
    assert Passing(b, stop, g + 1, start, end) == Passing(b, stop, 0, start, end);
    ArrivingFrom(b, c, stop, 0, start, end);
  }

  lemma {:induction false} ShortRunArriving(b: seq<Bucket>, c: seq<Bucket>, i: nat, len: nat, j: nat, g: nat,
                                            start: nat, end: nat)
    requires i < |b| && i + len + 1 < |b| && RunAfter(b, i, len) && MovedBack(b, c, i, len) && i <= j <= i + len
    ensures Arriving(c, j, g, start, end) == Arriving(b, j + 1, g + 1, start, end)
    decreases i + len - j
  {
    if j < i + len {
      MovedEntry(b, c, i, len, j);
      ShortRunArriving(b, c, i, len, j + 1, Passing(c, j, g, start, end), start, end);
    } else {
      RunEndArriving(b, c, i, len, g, start, end);
    }
  }

  /** An entry of the run has come one bucket closer to its home. */
  lemma MovedEntry(b: seq<Bucket>, c: seq<Bucket>, i: nat, len: nat, j: nat)
    requires i < |b| && j < |b| && RunAfter(b, i, len) && MovedBack(b, c, i, len) && Steps(|b|, i, j) < len
    ensures c[j] == b[Next(|b|, j)] && !c[j].Empty() && Dist(c, j) + 1 == Dist(b, Next(|b|, j))
  {
    assert Forward(|b|, i, Steps(|b|, i, j) + 1) == Next(|b|, j);
  }

  lemma MovedWrapped(b: seq<Bucket>, c: seq<Bucket>, i: nat, len: nat, k: nat)
    requires i < |b| && k + 1 < |b| && RunAfter(b, i, len) && MovedBack(b, c, i, len) && Steps(|b|, i, k) < len
    ensures c[k] == b[k + 1] && Dist(c, k) + 1 == Dist(b, k + 1) && Wrapped(c, k) == Wrapped(b, k + 1)
  {
    MovedEntry(b, c, i, len, k);
  }

  lemma RunEnds(b: seq<Bucket>, c: seq<Bucket>, i: nat, len: nat, k: nat)
    requires i < |b| && k < |b| && RunAfter(b, i, len) && MovedBack(b, c, i, len) && Steps(|b|, i, k) == len
    ensures !Wrapped(c, k) && (k + 1 < |b| ==> !Wrapped(b, k + 1))
  {
    assert k + 1 < |b| ==> Forward(|b|, i, len + 1) == k + 1;
  }

  lemma {:induction false} ShortRunHarmless(b: seq<Bucket>, c: seq<Bucket>, i: nat, len: nat,
                                            k: nat, pulls: nat, cut: nat, start: nat, end: nat)
    requires i < |b| && i + len < |b| && RunAfter(b, i, len) && MovedBack(b, c, i, len)
    requires i <= k <= i + len && cut <= k
    ensures Harmless(c, i, k, pulls, cut, start, end) == Harmless(b, i, k + 1, pulls, cut + 1, start, end)
    decreases i + len - k
  {
    if k < i + len {
      MovedWrapped(b, c, i, len, k);
      if Wrapped(c, k) {
        if InRange(c[k], start, end) {
          ShortRunHarmless(b, c, i, len, k + 1, pulls, cut + 1, start, end);
        } else {
          ShortRunHarmless(b, c, i, len, k + 1, Min(pulls, Dist(c, k) - cut), cut, start, end);
        }
      }
    } else {
      RunEnds(b, c, i, len, k);
    }
  }

  lemma {:induction false} ShortCutHarmless(b: seq<Bucket>, c: seq<Bucket>, i: nat, len: nat, k: nat, pulls: nat,
                                            start: nat, end: nat)
    requires Shape(b) && i < |b| && i + len < |b| && RunAfter(b, i, len) && MovedBack(b, c, i, len)
    requires InRange(b[i], start, end) && k <= i
    ensures Harmless(c, i, k, pulls, 0, start, end) == Harmless(b, i, k, pulls, 0, start, end)
    decreases i - k
  {
    if k < i {
      assert c[k] == b[k];
      if Wrapped(b, k) {
        ShortCutHarmless(b, c, i, len, k + 1, Min(pulls, Dist(b, k)), start, end);
      }
    } else {
      ShortRunHarmless(b, c, i, len, i, pulls, 0, start, end);
      assert Link(b, i);
    }
  }

  // ---------- A cut whose run goes on across the end of the array ----------

  lemma {:induction false} LongRunReaches(b: seq<Bucket>, j: nat, g: nat, start: nat, end: nat)
    requires j <= |b| && g > 0 && forall k: nat | j <= k < |b| :: Displaced(b, k)
    ensures Arriving(b, j, g, start, end) > 0
    decreases |b| - j
  {
    if j < |b| {
      assert Displaced(b, j);
      LongRunReaches(b, j + 1, Passing(b, j, g, start, end), start, end);
    }
  }

  lemma {:induction false} LongRunArriving(b: seq<Bucket>, c: seq<Bucket>, i: nat, len: nat, j: nat, g: nat,
                                           start: nat, end: nat)
    requires 0 < i <= j < |b| <= i + len && RunAfter(b, i, len) && MovedBack(b, c, i, len)
    requires !InRange(b[0], start, end)
    ensures Arriving(c, j, g, start, end) + 1 == Min(Arriving(b, j + 1, g + 1, start, end), Dist(b, 0))
    decreases |b| - j
  {
    MovedEntry(b, c, i, len, j);
    if j + 1 < |b| {
      LongRunArriving(b, c, i, len, j + 1, Passing(c, j, g, start, end), start, end);
    }
  }

  lemma {:induction false} LongRunHarmless(b: seq<Bucket>, c: seq<Bucket>, i: nat, len: nat, k: nat, pulls: nat,
                                           start: nat, end: nat)
    requires 0 < i < |b| && k + |b| <= i + len && RunAfter(b, i, len) && MovedBack(b, c, i, len)
    ensures Harmless(c, i, k, pulls, 0, start, end) == Harmless(b, i, k + 1, pulls + 1, 0, start, end)
    decreases i + len - k
  {
    if k + |b| < i + len {
      MovedWrapped(b, c, i, len, k);
      if Wrapped(c, k) {
        LongRunHarmless(b, c, i, len, k + 1, Min(pulls, Dist(c, k)), start, end);
      }
    } else {
      RunEnds(b, c, i, len, k);
    }
  }

  // ---------- The theorem ----------

  lemma ShortCut(b: seq<Bucket>, c: seq<Bucket>, i: nat, len: nat, start: nat, end: nat)
    requires Shape(b) && i < |b| && InRange(b[i], start, end) && i + len < |b|
    requires RunAfter(b, i, len) && MovedBack(b, c, i, len)
    ensures Harmless(c, i, 0, Arriving(c, i, 0, start, end), 0, start, end)
         == Harmless(b, i, 0, Arriving(b, i, 0, start, end), 0, start, end)
  {
    ShortCutHarmless(b, c, i, len, 0, Arriving(c, i, 0, start, end), start, end);
    if i + len + 1 < |b| {
      ShortRunArriving(b, c, i, len, i, 0, start, end);
    } else {
      assert !Displaced(b, Forward(|b|, i, len + 1));
    }
  }

  lemma LongCutPulls(b: seq<Bucket>, i: nat, len: nat, start: nat, end: nat)
    requires 0 < i < |b| && InRange(b[i], start, end) && i + len >= |b| && RunAfter(b, i, len)
    ensures Wrapped(b, 0) && Arriving(b, i, 0, start, end) == Arriving(b, i + 1, 1, start, end) > 0
  {
    CrossesIsLong(b, i, len);
    LongRunReaches(b, i + 1, 1, start, end);
  }

  lemma LongCut(b: seq<Bucket>, c: seq<Bucket>, i: nat, len: nat, start: nat, end: nat)
    requires 0 < i < |b| && InRange(b[i], start, end) && i + len >= |b|
    requires RunAfter(b, i, len) && MovedBack(b, c, i, len)
    ensures Harmless(b, i, 0, Arriving(b, i, 0, start, end), 0, start, end)
      <==> b[0].index < start && Harmless(c, i, 0, Arriving(c, i, 0, start, end), 0, start, end)
  {
    LongCutPulls(b, i, len, start, end);
    var pulls := Arriving(b, i, 0, start, end);
    assert Harmless(b, i, 0, pulls, 0, start, end)
      <==> b[0].index < start && Harmless(b, i, 1, Min(pulls, Dist(b, 0)), 0, start, end);
    if b[0].index < start {
      LongRunArriving(b, c, i, len, i, 0, start, end);
      LongRunHarmless(b, c, i, len, 0, Arriving(c, i, 0, start, end), start, end);
    }
  }

  /** What the walk will do from bucket i on shows in the buckets as they are there. */
  lemma {:induction false} WalkShowsInHomes(b: seq<Bucket>, i: nat, start: nat, end: nat)
    requires start <= end && i <= |b| && Shape(b) && Anchored(b) && Bounded(b)
    ensures NoneCarriedBack(b, i, start, end) <==> Harmless(b, i, 0, Arriving(b, i, 0, start, end), 0, start, end)
    decreases Occupied(b, |b|), |b| - i
  {
    if i == |b| {
    } else if InRange(b[i], start, end) {
      CutShrinks(b, i);
      CutKeepsShape(b, i);
      ShiftKeepsBounded(b[i := b[i].Clear()], i);
      WalkShowsInHomes(Cut(b, i), i, start, end);
      var len := CutMovesRun(b, i);
      if i > 0 {
        CrossesIsLong(b, i, len);
      }
      if i + len < |b| {
        ShortCut(b, Cut(b, i), i, len, start, end);
      } else {
        LongCut(b, Cut(b, i), i, len, start, end);
      }
    } else {
      LoweredShrinks(b, i, start, end);
      PassKeepsShape(b, i, start, end);
      PassArriving(b, i, start, end);
      PassHarmless(b, i, 0, Arriving(b, i, 0, start, end), 0, start, end);
      WalkShowsInHomes(b[i := Lowered(b[i], start, end)], i + 1, start, end);
    }
  }

  /** Range erase yields the index of the remaining values if and only if every entry that it carries
      back to the end of the array belongs to a value before the range. */
  lemma HomesDecide(b: seq<Bucket>, start: nat, end: nat, pos: map<nat, nat>, hashes: seq<nat>)
    requires start < end <= |hashes| && Indexes(b, pos, hashes)
    ensures Represents(Sweep(b, 0, start, end), WithoutRange(hashes, start, end)) <==> Spares(b, start, end)
  {
    SweepIsRightExactly(b, start, end, pos, hashes);
    WalkShowsInHomes(b, 0, start, end);
  }

  /** Two simpler cases: the entries displaced across the end all belong to values before the end of
      the range, or there are none. */
  lemma EarlyIsSpared(b: seq<Bucket>, start: nat, end: nat, pos: map<nat, nat>, hashes: seq<nat>)
    requires start < end <= |hashes| && Indexes(b, pos, hashes)
    ensures WrappedAreEarly(b, 0, start, end) ==> Spares(b, start, end)
    ensures end == |hashes| || !Displaced(b, 0) ==> Spares(b, start, end)
  {
    if !Displaced(b, 0) {
      UnwrappedIsEarly(b, start, end);
    }
    if WrappedAreEarly(b, 0, start, end) {
      EarlyIsHarmless(b, 0, start, end);
      WalkShowsInHomes(b, 0, start, end);
    }
  }

  /** What the walk leaves, and exactly when that is right. */
  lemma SweepOutcome(b: seq<Bucket>, start: nat, end: nat, pos: map<nat, nat>, hashes: seq<nat>)
      returns (pos': map<nat, nat>)
    requires start < end <= |hashes| && Indexes(b, pos, hashes)
    ensures Indexes(Sweep(b, 0, start, end), pos', WithoutRange(hashes, start, end)) <==> Spares(b, start, end)
  {
    HomesDecide(b, start, end, pos, hashes);
    pos' := map[];
    if Spares(b, start, end) {
      pos' :| Indexes(Sweep(b, 0, start, end), pos', WithoutRange(hashes, start, end));
    } else {
      assert !Represents(Sweep(b, 0, start, end), WithoutRange(hashes, start, end));
    }
  }
}
