/** Robin Hood linear probing over a circular bucket array, as pure functions on the sequence of
    buckets: the distances, the displacement chain, the backward shift and their invariants. */
module RobinHood {
  import opened OrderedSpec

  const EMPTY_MARKER_INDEX := 0xFFFF_FFFF // largest 32-bit index

  /** bucket_entry: an index into the values and the truncated hash of the value found there. */
  datatype Bucket = Bucket(index: nat, hash: nat) {
    predicate Empty() {
      index == EMPTY_MARKER_INDEX
    }

    function Clear(): Bucket {
      this.(index := EMPTY_MARKER_INDEX)
    }
  }

  // ---------- Circular positions ----------

  function Next(n: nat, i: nat): (j: nat)
    requires i < n
    ensures j < n
  {
    if i + 1 < n then i + 1 else 0
  }

  function Prev(n: nat, i: nat): (j: nat)
    requires i < n
    ensures j < n && Next(n, j) == i
  {
    if i > 0 then i - 1 else n - 1
  }

  /** The number of steps from bucket a forward to bucket i. */
  function Steps(n: nat, a: nat, i: nat): (d: nat)
    requires a < n && i < n
    ensures d < n && (d == 0 <==> a == i)
  {
    if i >= a then i - a else n + i - a
  }

  /** The bucket d steps after bucket a. */
  function Forward(n: nat, a: nat, d: nat): (i: nat)
    requires a < n && d <= n
    ensures i < n
  {
    if a + d < n then a + d else a + d - n
  }

  function Home(n: nat, hash: nat): (i: nat)
    requires n > 0
    ensures i < n
  {
    hash % n
  }

  /** distance_from_ideal_bucket of an entry with this hash sitting in bucket i. */
  function Away(n: nat, hash: nat, i: nat): (d: nat)
    requires i < n
    ensures d < n
  {
    Steps(n, Home(n, hash), i)
  }

  function Dist(b: seq<Bucket>, i: nat): (d: nat)
    requires i < |b|
    ensures d < |b|
  {
    Away(|b|, b[i].hash, i)
  }

  // ---------- The shape invariant ----------

  /** Bucket Next(i) is at most one further from home than bucket i, and at home if i is empty. */
  ghost predicate Link(b: seq<Bucket>, i: nat)
    requires i < |b|
  {
    var j := Next(|b|, i);
    b[j].Empty() || Dist(b, j) == 0 || (!b[i].Empty() && Dist(b, j) <= Dist(b, i) + 1)
  }

  ghost predicate Shape(b: seq<Bucket>) {
    forall i: nat | i < |b| :: Link(b, i)
  }

  predicate Displaced(b: seq<Bucket>, i: nat)
    requires i < |b|
  {
    !b[i].Empty() && Dist(b, i) > 0
  }

  /** Not every bucket holds an entry away from its home. */
  ghost predicate Anchored(b: seq<Bucket>) {
    b != [] ==> exists a: nat :: a < |b| && !Displaced(b, a)
  }

  /** Every bucket on the way from an entry's home to the entry is occupied, at a distance at
      least as large as the number of steps taken. */
  lemma {:induction false} PathOccupied(b: seq<Bucket>, p: nat, d: nat)
    requires Shape(b) && p < |b| && !b[p].Empty() && d <= Dist(b, p)
    ensures var i := Forward(|b|, Home(|b|, b[p].hash), d); !b[i].Empty() && d <= Dist(b, i)
    decreases Dist(b, p) - d
  {
    var n, h := |b|, Home(|b|, b[p].hash);
    if d < Dist(b, p) {
      PathOccupied(b, p, d + 1);
      assert Link(b, Forward(n, h, d));
    }
  }

  /** A probe for the hash of the entry in bucket p, after at most as many steps as that entry is
      away from home, is at an occupied bucket that does not stop it. */
  lemma ProbeMeets(b: seq<Bucket>, p: nat, i: nat, d: nat, hash: nat)
    requires Shape(b) && p < |b| && !b[p].Empty() && Home(|b|, b[p].hash) == Home(|b|, hash)
    requires d <= Dist(b, p) && i == Forward(|b|, Home(|b|, hash), d)
    ensures !b[i].Empty() && d <= Dist(b, i) && (d == Dist(b, p) ==> i == p)
  {
    PathOccupied(b, p, d);
  }

  /** No entry lies on the far side of an empty bucket from its home. */
  lemma {:induction false} NoCrossing(b: seq<Bucket>, z: nat, p: nat)
    requires Shape(b) && z < |b| && b[z].Empty() && p < |b| && !b[p].Empty()
    ensures Dist(b, p) < Steps(|b|, z, p)
  {
    if Steps(|b|, z, p) <= Dist(b, p) {
      PathOccupied(b, p, Dist(b, p) - Steps(|b|, z, p));
    }
  }

  // ---------- Who owns which bucket ----------

  /** pos maps the index of every stored value to its bucket; hashes gives the truncated hash of
      every value. */
  ghost predicate Linked(b: seq<Bucket>, pos: map<nat, nat>, hashes: seq<nat>) {
    && (forall k | k in pos :: k < |hashes| && k < EMPTY_MARKER_INDEX)
    && (forall k | k in pos :: pos[k] < |b| && b[pos[k]] == Bucket(k, hashes[k]))
    && (forall i: nat | i < |b| && !b[i].Empty() :: b[i].index in pos && pos[b[i].index] == i)
  }

  ghost predicate Complete(pos: map<nat, nat>, n: nat) {
    forall k: nat :: k in pos <==> k < n
  }

  /** b is an index of the values with these hashes. */
  ghost predicate Indexes(b: seq<Bucket>, pos: map<nat, nat>, hashes: seq<nat>) {
    && Shape(b) && Anchored(b)
    && Linked(b, pos, hashes) && Complete(pos, |hashes|)
    && |hashes| <= |b|
  }

  lemma {:induction false} CompleteSize(pos: map<nat, nat>, n: nat)
    requires Complete(pos, n)
    ensures |pos| == n
  {
    if n == 0 {
      assert pos == map[];
    } else {
      CompleteSize(pos - {n - 1}, n - 1);
      assert pos == (pos - {n - 1})[n - 1 := pos[n - 1]];
    }
  }

  // ---------- The displacement chain ----------

  /** The buckets after an insertion and the largest distance the carried entry was checked at. */
  datatype Placed = Placed(buckets: seq<Bucket>, longest: nat)

  function Max(a: nat, b: nat): nat {
    if a < b then b else a
  }

  function Min(a: nat, b: nat): nat {
    if a < b then a else b
  }

  /** The buckets, the entry still to be placed and its distance at the next bucket. */
  datatype Carried = Carried(buckets: seq<Bucket>, dist: nat, entry: Bucket)

  /** Entry e, d steps from home, meets occupied bucket i: it takes over the bucket of an entry that
      is closer to its own home. */
  function Meet(b: seq<Bucket>, i: nat, d: nat, e: Bucket): (c: Carried)
    requires i < |b| && !b[i].Empty() && !e.Empty()
    ensures |c.buckets| == |b| && !c.entry.Empty()
    ensures forall j: nat | j < |b| :: c.buckets[j].Empty() == b[j].Empty()
  {
    if d > Dist(b, i) then Carried(b[i := e], Dist(b, i) + 1, b[i]) else Carried(b, d + 1, e)
  }

  /** Entry e, d steps from home, is carried from bucket i to the first empty bucket, here z. */
  ghost function Place(b: seq<Bucket>, i: nat, d: nat, e: Bucket, z: nat): (r: Placed)
    requires i < |b| && z < |b| && b[z].Empty() && !e.Empty()
    ensures |r.buckets| == |b|
    decreases Steps(|b|, i, z)
  {
    if b[i].Empty() then
      Placed(b[i := e], 0)
    else
      var c := Meet(b, i, d, e);
      var rest := Place(c.buckets, Next(|b|, i), c.dist, c.entry, z);
      Placed(rest.buckets, Max(c.dist, rest.longest))
  }

  /** Entry e may sit in bucket i: it is d steps from home and its predecessor is far enough. */
  ghost predicate Fits(b: seq<Bucket>, i: nat, d: nat, e: Bucket)
    requires i < |b|
  {
    && !e.Empty()
    && Away(|b|, e.hash, i) == d
    && (d > 0 ==> var h := Prev(|b|, i); !b[h].Empty() && d <= Dist(b, h) + 1)
  }

  /** A probe that has come d steps from the home of this hash, past entries that were each at
      least as far from theirs as the probe. */
  ghost predicate MayStart(b: seq<Bucket>, i: nat, d: nat, hash: nat) {
    && d <= |b| && i < |b|
    && i == Forward(|b|, Home(|b|, hash), d)
    && (d > 0 ==> var h := Prev(|b|, i); !b[h].Empty() && d <= Dist(b, h) + 1)
  }

  lemma ProbeStep(b: seq<Bucket>, i: nat, d: nat, hash: nat)
    requires MayStart(b, i, d, hash) && !b[i].Empty() && d <= Dist(b, i)
    ensures MayStart(b, Next(|b|, i), d + 1, hash)
  {
  }

  lemma StartFits(b: seq<Bucket>, i: nat, d: nat, e: Bucket, z: nat)
    requires Shape(b) && z < |b| && b[z].Empty() && !e.Empty() && MayStart(b, i, d, e.hash)
    ensures Fits(b, i, d, e)
  {
    if d > 0 {
      NoCrossing(b, z, Prev(|b|, i));
    }
  }

  lemma SettleKeepsShape(b: seq<Bucket>, i: nat, d: nat, e: Bucket)
    requires Shape(b) && i < |b| && Fits(b, i, d, e)
    requires b[i].Empty() || Dist(b, i) <= d
    ensures Shape(b[i := e])
  {
    var b' := b[i := e];
    forall h: nat | h < |b|
      ensures Link(b', h)
    {
      assert Link(b, h);
    }
  }

  lemma MeetKeepsShape(b: seq<Bucket>, i: nat, d: nat, e: Bucket, z: nat)
    requires Shape(b) && i < |b| && z < |b| && b[z].Empty() && !b[i].Empty() && Fits(b, i, d, e)
    ensures var c := Meet(b, i, d, e); Shape(c.buckets) && Fits(c.buckets, Next(|b|, i), c.dist, c.entry)
  {
    NoCrossing(b, z, i);
    if d > Dist(b, i) {
      SettleKeepsShape(b, i, d, e);
    }
  }

  lemma {:induction false} PlaceKeepsShape(b: seq<Bucket>, i: nat, d: nat, e: Bucket, z: nat)
    requires Shape(b) && i < |b| && z < |b| && b[z].Empty() && Fits(b, i, d, e)
    ensures Shape(Place(b, i, d, e, z).buckets) && Anchored(Place(b, i, d, e, z).buckets)
    decreases Steps(|b|, i, z)
  {
    if b[i].Empty() {
      SettleKeepsShape(b, i, d, e);
      assert Link(b, i);
      assert !Displaced(b[i := e], Next(|b|, i));
    } else {
      MeetKeepsShape(b, i, d, e, z);
      var c := Meet(b, i, d, e);
      PlaceKeepsShape(c.buckets, Next(|b|, i), c.dist, c.entry, z);
    }
  }

  /** Entry e is the next one to be placed: its index is not in the table yet. */
  ghost predicate Pending(e: Bucket, pos: map<nat, nat>, hashes: seq<nat>) {
    !e.Empty() && e.index !in pos && e.index < |hashes| && e.index < EMPTY_MARKER_INDEX && e.hash == hashes[e.index]
  }

  lemma SettleLinks(b: seq<Bucket>, i: nat, e: Bucket, pos: map<nat, nat>, hashes: seq<nat>)
    requires i < |b| && b[i].Empty() && Linked(b, pos, hashes) && Pending(e, pos, hashes)
    ensures Linked(b[i := e], pos[e.index := i], hashes)
  {
  }

  lemma MeetLinks(b: seq<Bucket>, i: nat, d: nat, e: Bucket, pos: map<nat, nat>, hashes: seq<nat>)
      returns (pos': map<nat, nat>)
    requires i < |b| && !b[i].Empty() && Linked(b, pos, hashes) && Pending(e, pos, hashes)
    ensures Linked(Meet(b, i, d, e).buckets, pos', hashes) && Pending(Meet(b, i, d, e).entry, pos', hashes)
    ensures pos'.Keys + {Meet(b, i, d, e).entry.index} == pos.Keys + {e.index}
  {
    if d > Dist(b, i) {
      pos' := (pos - {b[i].index})[e.index := i];
    } else {
      pos' := pos;
    }
  }

  lemma {:induction false} PlaceLinks(b: seq<Bucket>, i: nat, d: nat, e: Bucket, z: nat,
                                      pos: map<nat, nat>, hashes: seq<nat>)
      returns (pos': map<nat, nat>)
    requires i < |b| && z < |b| && b[z].Empty() && Linked(b, pos, hashes) && Pending(e, pos, hashes)
    ensures Linked(Place(b, i, d, e, z).buckets, pos', hashes) && pos'.Keys == pos.Keys + {e.index}
    decreases Steps(|b|, i, z)
  {
    if b[i].Empty() {
      SettleLinks(b, i, e, pos, hashes);
      pos' := pos[e.index := i];
    } else {
      var c := Meet(b, i, d, e);
      pos' := MeetLinks(b, i, d, e, pos, hashes);
      pos' := PlaceLinks(c.buckets, Next(|b|, i), c.dist, c.entry, z, pos', hashes);
    }
  }

  lemma LinkedExtends(b: seq<Bucket>, pos: map<nat, nat>, hashes: seq<nat>, more: seq<nat>)
    requires Linked(b, pos, hashes) && hashes <= more
    ensures Linked(b, pos, more)
  {
  }

  lemma AppendLinks(b: seq<Bucket>, i: nat, d: nat, e: Bucket, z: nat, pos: map<nat, nat>, hashes: seq<nat>)
      returns (pos': map<nat, nat>)
    requires i < |b| && z < |b| && b[z].Empty() && Linked(b, pos, hashes) && Complete(pos, |hashes|)
    requires e.index == |hashes| < EMPTY_MARKER_INDEX
    ensures Linked(Place(b, i, d, e, z).buckets, pos', hashes + [e.hash]) && Complete(pos', |hashes| + 1)
  {
    var more := hashes + [e.hash];
    LinkedExtends(b, pos, hashes, more);
    pos' := PlaceLinks(b, i, d, e, z, pos, more);
  }

  /** Placing the entry of a value just appended keeps the index. */
  lemma AppendPlaces(b: seq<Bucket>, i: nat, d: nat, e: Bucket, pos: map<nat, nat>, hashes: seq<nat>, more: seq<nat>)
      returns (z: nat, pos': map<nat, nat>)
    requires Indexes(b, pos, hashes) && |hashes| < |b|
    requires e.index == |hashes| < EMPTY_MARKER_INDEX && MayStart(b, i, d, e.hash) && more == hashes + [e.hash]
    ensures z < |b| && b[z].Empty()
    ensures Indexes(Place(b, i, d, e, z).buckets, pos', more)
  {
    CompleteSize(pos, |hashes|);
    z := SomeEmpty(b, pos, hashes);
    StartFits(b, i, d, e, z);
    PlaceKeepsShape(b, i, d, e, z);
    pos' := AppendLinks(b, i, d, e, z, pos, hashes);
  }

  // ---------- The backward shift ----------

  ghost function Slack(n: nat, x: Bucket, i: nat): nat
    requires i < n
  {
    if x.Empty() then 0 else Away(n, x.hash, i)
  }

  /** Total displacement of the entries in the first k buckets. */
  ghost function Displacement(b: seq<Bucket>, k: nat): nat
    requires k <= |b|
  {
    if k == 0 then 0 else Displacement(b, k - 1) + Slack(|b|, b[k - 1], k - 1)
  }

  lemma {:induction false} DisplacementUpdate(b: seq<Bucket>, i: nat, x: Bucket, k: nat)
    requires i < |b| && k <= |b|
    ensures Displacement(b[i := x], k)
         == Displacement(b, k) + if i < k then Slack(|b|, x, i) - Slack(|b|, b[i], i) else 0
  {
    if k > 0 {
      DisplacementUpdate(b, i, x, k - 1);
    }
  }

  function MoveBack(b: seq<Bucket>, hole: nat): (r: seq<Bucket>)
    requires hole < |b|
    ensures |r| == |b|
  {
    b[hole := b[Next(|b|, hole)]][Next(|b|, hole) := b[hole]]
  }

  predicate CanMoveBack(b: seq<Bucket>, hole: nat)
    requires hole < |b|
  {
    Displaced(b, Next(|b|, hole))
  }

  lemma MoveBackShrinks(b: seq<Bucket>, hole: nat)
    requires hole < |b| && b[hole].Empty() && CanMoveBack(b, hole)
    ensures Displacement(MoveBack(b, hole), |b|) == Displacement(b, |b|) - 1
  {
    var n, cur := |b|, Next(|b|, hole);
    DisplacementUpdate(b, hole, b[cur], n);
    DisplacementUpdate(b[hole := b[cur]], cur, b[hole], n);
  }

  /** Entries after the hole move back one by one up to the next empty bucket or the next entry
      that is at home. */
  function BackwardShift(b: seq<Bucket>, hole: nat): (r: seq<Bucket>)
    requires hole < |b| && b[hole].Empty()
    ensures |r| == |b|
    decreases Displacement(b, |b|)
  {
    if CanMoveBack(b, hole) then
      MoveBackShrinks(b, hole);
      BackwardShift(MoveBack(b, hole), Next(|b|, hole))
    else
      b
  }

  /** Shape, except that the hole stands for an entry at distance v. */
  ghost predicate HoledShape(b: seq<Bucket>, hole: nat, v: nat)
    requires hole < |b|
  {
    var n := |b|;
    && b[hole].Empty()
    && (forall i: nat | i < n && i != hole :: Link(b, i))
    && (v > 0 ==> !b[Prev(n, hole)].Empty() && v <= Dist(b, Prev(n, hole)) + 1)
    && (b[Next(n, hole)].Empty() || Dist(b, Next(n, hole)) <= v + 1)
  }

  lemma ClearingHoles(b: seq<Bucket>, i: nat)
    requires Shape(b) && i < |b| && !b[i].Empty()
    ensures HoledShape(b[i := b[i].Clear()], i, Dist(b, i))
  {
    var b' := b[i := b[i].Clear()];
    assert Link(b, i) && Link(b, Prev(|b|, i));
    forall h: nat | h < |b| && h != i
      ensures Link(b', h)
    {
      assert Link(b, h);
    }
  }

  lemma MoveBackKeepsHoledShape(b: seq<Bucket>, hole: nat, v: nat)
    requires hole < |b| && HoledShape(b, hole, v) && CanMoveBack(b, hole)
    ensures HoledShape(MoveBack(b, hole), Next(|b|, hole), Dist(b, Next(|b|, hole)))
  {
    var n, cur, b' := |b|, Next(|b|, hole), MoveBack(b, hole);
    assert Link(b, cur);
    forall i: nat | i < n && i != cur
      ensures Link(b', i)
    {
      assert i != hole ==> Link(b, i);
    }
  }

  lemma {:induction false} BackwardShiftRestoresShape(b: seq<Bucket>, hole: nat, v: nat)
    requires hole < |b| && HoledShape(b, hole, v)
    ensures Shape(BackwardShift(b, hole))
    decreases Displacement(b, |b|)
  {
    if CanMoveBack(b, hole) {
      MoveBackShrinks(b, hole);
      MoveBackKeepsHoledShape(b, hole, v);
      BackwardShiftRestoresShape(MoveBack(b, hole), Next(|b|, hole), Dist(b, Next(|b|, hole)));
    }
  }

  lemma {:induction false} BackwardShiftLinks(b: seq<Bucket>, hole: nat, pos: map<nat, nat>, hashes: seq<nat>)
      returns (pos': map<nat, nat>)
    requires hole < |b| && b[hole].Empty() && Linked(b, pos, hashes)
    ensures Linked(BackwardShift(b, hole), pos', hashes) && pos'.Keys == pos.Keys
    decreases Displacement(b, |b|)
  {
    if CanMoveBack(b, hole) {
      MoveBackShrinks(b, hole);
      var cur := Next(|b|, hole);
      pos' := BackwardShiftLinks(MoveBack(b, hole), cur, pos[b[cur].index := hole], hashes);
    } else {
      pos' := pos;
    }
  }

  // ---------- Counting ----------

  lemma {:induction false} OwnersOf(b: seq<Bucket>, pos: map<nat, nat>, hashes: seq<nat>, n: nat) returns (s: set<nat>)
    requires Linked(b, pos, hashes) && n <= |b|
    requires forall i: nat | i < n :: !b[i].Empty()
    ensures |s| == n && s <= pos.Keys && forall k | k in s :: pos[k] < n
  {
    if n == 0 {
      s := {};
    } else {
      s := OwnersOf(b, pos, hashes, n - 1);
      s := s + {b[n - 1].index};
    }
  }

  /** A table with fewer entries than buckets has an empty bucket. */
  lemma SomeEmpty(b: seq<Bucket>, pos: map<nat, nat>, hashes: seq<nat>) returns (z: nat)
    requires Linked(b, pos, hashes) && |pos| < |b|
    ensures z < |b| && b[z].Empty()
  {
    if forall i: nat | i < |b| :: !b[i].Empty() {
      var s := OwnersOf(b, pos, hashes, |b|);
      SubsetSize(s, pos.Keys);
      assert false;
    }
    z :| z < |b| && b[z].Empty();
  }

  lemma {:induction false} SubsetSize(a: set<nat>, b: set<nat>)
    requires a <= b
    ensures |a| <= |b|
  {
    if a != {} {
      var x :| x in a;
      SubsetSize(a - {x}, b - {x});
    }
  }

  lemma AllEmptyIsFine(b: seq<Bucket>)
    requires forall i: nat | i < |b| :: b[i].Empty()
    ensures Shape(b) && Anchored(b) && Linked(b, map[], []) && Complete(map[], 0)
  {
    assert b != [] ==> !Displaced(b, 0);
  }

  lemma EmptyAnchors(b: seq<Bucket>, pos: map<nat, nat>, hashes: seq<nat>)
    requires Linked(b, pos, hashes) && Complete(pos, |hashes|) && |hashes| < |b|
    ensures Anchored(b)
  {
    CompleteSize(pos, |hashes|);
    var z := SomeEmpty(b, pos, hashes);
    assert !Displaced(b, z);
  }

  /** While the entries of a complete table are being placed into another array, that array still
      has an empty bucket for the next one. */
  lemma Vacancy(b: seq<Bucket>, pos: map<nat, nat>, all: map<nat, nat>, hashes: seq<nat>, k: nat) returns (z: nat)
    requires Linked(b, pos, hashes) && Complete(all, |hashes|) && |hashes| <= |b|
    requires pos.Keys <= all.Keys && k in all && k !in pos
    ensures z < |b| && b[z].Empty()
  {
    CompleteSize(all, |hashes|);
    SubsetSize(pos.Keys, all.Keys - {k});
    assert all.Keys == (all.Keys - {k}) + {k};
    z := SomeEmpty(b, pos, hashes);
  }

  // ---------- Renumbering ----------

  /** Indexes in (from, to] go down by one: the values after `from` have moved left. */
  function Lower(x: Bucket, from: nat, to: nat): Bucket {
    if !x.Empty() && from < x.index <= to then x.(index := x.index - 1) else x
  }

  function Renumber(b: seq<Bucket>, from: nat, to: nat): (r: seq<Bucket>)
    ensures |r| == |b|
  {
    seq(|b|, i requires 0 <= i < |b| => Lower(b[i], from, to))
  }

  /** Lowering one more index changes exactly the bucket that holds it. */
  lemma RenumberStep(b: seq<Bucket>, pos: map<nat, nat>, hashes: seq<nat>, from: nat, to: nat)
    requires Linked(b, pos, hashes) && Complete(pos, |hashes|) && from <= to < |hashes| - 1
    ensures var p, r := pos[to + 1], Renumber(b, from, to);
      r[p := r[p].(index := to)] == Renumber(b, from, to + 1)
    ensures var r := Renumber(b, from, to); forall i | 0 <= i < |b| :: r[i].index == to + 1 <==> i == pos[to + 1]
  {
  }

  ghost predicate SameOutline(b: seq<Bucket>, b': seq<Bucket>) {
    |b| == |b'| && forall i: nat | i < |b| :: b[i].Empty() == b'[i].Empty() && b[i].hash == b'[i].hash
  }

  lemma OutlineKeepsShape(b: seq<Bucket>, b': seq<Bucket>)
    requires SameOutline(b, b') && Shape(b)
    ensures Shape(b') && (Anchored(b) ==> Anchored(b'))
  {
    if b != [] && Anchored(b) {
      var a: nat :| a < |b| && !Displaced(b, a);
      assert !Displaced(b', a);
    }
    forall i: nat | i < |b'|
      ensures Link(b', i)
    {
      assert Link(b, i);
    }
  }

  /** Where the value with new index k was before value x was dropped. */
  function Raise(k: nat, x: nat): nat {
    if k < x then k else k + 1
  }

  /** Dropping value x: the higher indexes go down by one and the bucket of x is cleared. */
  lemma DroppingLinks(b: seq<Bucket>, pos: map<nat, nat>, hashes: seq<nat>, x: nat, b': seq<Bucket>)
      returns (pos': map<nat, nat>)
    requires Linked(b, pos, hashes) && Complete(pos, |hashes|) && x < |hashes|
    requires var r := Renumber(b, x, |hashes| - 1); b' == r[pos[x] := r[pos[x]].Clear()]
    ensures Linked(b', pos', Without(hashes, x)) && Complete(pos', |hashes| - 1)
  {
    pos' := map k: nat | k < |hashes| - 1 :: pos[Raise(k, x)];
    forall i: nat | i < |b'| && !b'[i].Empty()
      ensures b'[i].index in pos' && pos'[b'[i].index] == i
    {
      assert Raise(b'[i].index, x) == b[i].index;
    }
  }

  /** The buckets after the value in bucket p has been erased. */
  function Erased(b: seq<Bucket>, p: nat, last: nat): (r: seq<Bucket>)
    requires p < |b| && !b[p].Empty()
    ensures |r| == |b|
  {
    var lowered := Renumber(b, b[p].index, last);
    BackwardShift(lowered[p := lowered[p].Clear()], p)
  }

  lemma ErasedKeepsIndex(b: seq<Bucket>, pos: map<nat, nat>, hashes: seq<nat>, p: nat) returns (pos': map<nat, nat>)
    requires Indexes(b, pos, hashes) && p < |b| && !b[p].Empty()
    ensures Indexes(Erased(b, p, |hashes| - 1), pos', Without(hashes, b[p].index))
  {
    var x := b[p].index;
    var lowered := Renumber(b, x, |hashes| - 1);
    OutlineKeepsShape(b, lowered);
    ClearingHoles(lowered, p);
    var holed := lowered[p := lowered[p].Clear()];
    BackwardShiftRestoresShape(holed, p, Dist(lowered, p));
    pos' := DroppingLinks(b, pos, hashes, x, holed);
    pos' := BackwardShiftLinks(holed, p, pos', Without(hashes, x));
    EmptyAnchors(BackwardShift(holed, p), pos', Without(hashes, x));
  }

  /** Exchanging two values together with the indexes in their buckets. */
  function SwapIndexes(b: seq<Bucket>, p: nat, q: nat): (r: seq<Bucket>)
    requires p < |b| && q < |b|
    ensures |r| == |b|
  {
    b[p := b[p].(index := b[q].index)][q := b[q].(index := b[p].index)]
  }

  lemma SwapLinks(b: seq<Bucket>, p: nat, q: nat, pos: map<nat, nat>, hashes: seq<nat>) returns (pos': map<nat, nat>)
    requires Indexes(b, pos, hashes)
    requires p < |b| && q < |b| && p != q && !b[p].Empty() && !b[q].Empty()
    ensures Indexes(SwapIndexes(b, p, q), pos', Swapped(hashes, b[p].index, b[q].index))
  {
    OutlineKeepsShape(b, SwapIndexes(b, p, q));
    pos' := pos[b[p].index := q][b[q].index := p];
  }
}
