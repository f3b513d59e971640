/** Whole runs of table operations against the sequence they refine. */
module OrderedRuns {
  import opened Bits
  import opened LoadFactor
  import opened OrderedHash
  import opened OrderedSpec
  import opened RangeEraseHomes
  import opened RobinHood

  /** Container calls; EraseRange(first, last) is erase(begin() + first, begin() + last). Three requests
      that the container's callers must not make stand for "no call": positions past the end or out of
      order, a size whose bucket count does not fit a size_type, and no buckets at all for an empty
      table that has some. */
  datatype Op<K, V> =
    | Insert(value: V)
    | Find(key: K)
    | Count(key: K)
    | Erase(key: K)
    | EraseAt(index: nat)
    | EraseRange(first: nat, last: nat)
    | UnorderedErase(key: K)
    | Rehash(count: nat)
    | Reserve(count: nat)
    | SetMaxLoadFactor(load: real)
    | Clear

  /** Unsafe: no call is made, as the range erase would leave the buckets wrong. */
  datatype Answer =
    | Done
    | Position(index: nat)
    | Number(count: nat)
    | Inserted(at: nat, isNew: bool)
    | Refused
    | Unsafe

  type Load = x: real | 0.1 <= x <= 0.95 witness 0.5

  /** The values, the maximal load, whether the next insertion has to grow the bucket array, and the
      array itself. A step says how long the array is afterwards, not what is in it. */
  datatype State<V> = State(vals: seq<V>, held: seq<Bucket>, maxLoad: Load, due: bool) {
    predicate NeedsGrowth() {
      due || |vals| >= Threshold(|held|, maxLoad)
    }
  }

  /** The insertion of a value whose key is not stored: refused when the indexes are used up or when
      the array is due to grow and cannot. Long probes may make growth due for the next one. */
  ghost predicate Appends<V>(maxBuckets: nat, s: State<V>, value: V, answer: Answer, s': State<V>) {
    if |s.vals| >= MAX_SIZE || (s.NeedsGrowth() && !RoundsWithin(Max(1, |s.held| * 2), maxBuckets)) then
      answer == Refused && s' == s
    else
      && answer == Inserted(|s.vals|, true) && s'.vals == s.vals + [value] && s'.maxLoad == s.maxLoad
      && |s'.held| == if s.NeedsGrowth() then Max(1, |s.held| * 2) else |s.held|
  }

  /** A rehash for this many buckets: refused when no power of two from there on can be allocated. */
  ghost predicate Resizes<V>(maxBuckets: nat, s: State<V>, target: nat, answer: Answer, s': State<V>) {
    if target > 0 && !RoundsWithin(target, maxBuckets) then
      answer == Refused && s' == s
    else
      && answer == Done && s'.vals == s.vals && s'.maxLoad == s.maxLoad
      && (if target == 0 then |s'.held| == 0 else LeastPow2AtLeast(|s'.held|, target))
      && s'.due == (s.due && |s'.held| == |s.held|)
  }

  ghost predicate Erases<V>(s: State<V>, vals: seq<V>, s': State<V>) {
    s' == s.(vals := vals, held := s'.held) && |s'.held| == |s.held|
  }

  predicate IsCall(count: nat, s: State) {
    count < WORD && !(count == 0 && s.vals == [] && |s.held| > 0)
  }

  /** One operation on the duplicate-free sequence: the answer and the state afterwards. */
  ghost predicate Step<K, V>(keyOf: V -> K, maxBuckets: nat, s: State<V>, op: Op<K, V>, answer: Answer, s': State<V>) {
    match op
    case Insert(value) =>
      var k := IndexOf(keyOf, s.vals, keyOf(value));
      if k < |s.vals| then answer == Inserted(k, false) && s' == s
      else Appends(maxBuckets, s, value, answer, s')
    case Find(key) =>
      answer == Position(IndexOf(keyOf, s.vals, key)) && s' == s
    case Count(key) =>
      answer == Number(if exists v :: v in s.vals && keyOf(v) == key then 1 else 0) && s' == s
    case Erase(key) =>
      var k := IndexOf(keyOf, s.vals, key);
      if k == |s.vals| then answer == Number(0) && s' == s
      else answer == Number(1) && Erases(s, Without(s.vals, k), s')
    case EraseAt(index) =>
      if index < |s.vals| then answer == Position(index) && Erases(s, Without(s.vals, index), s')
      else answer == Done && s' == s
    case EraseRange(first, last) =>
      if !(first <= last <= |s.vals|) then answer == Done && s' == s
      else if first < last < |s.vals| && !Spares(s.held, first, last) then answer == Unsafe && s' == s
      else answer == Done && Erases(s, WithoutRange(s.vals, first, last), s')
    case UnorderedErase(key) =>
      var k := IndexOf(keyOf, s.vals, key);
      if k == |s.vals| then answer == Number(0) && s' == s
      else answer == Number(1) && Erases(s, FillHole(s.vals, k), s')
    case Rehash(count) =>
      if IsCall(count, s) then Resizes(maxBuckets, s, Max(count, CeilDiv(|s.vals|, s.maxLoad)), answer, s')
      else answer == Done && s' == s
    case Reserve(count) =>
      var needed := CeilDiv(count, s.maxLoad);
      if IsCall(needed, s) then Resizes(maxBuckets, s, Max(needed, CeilDiv(|s.vals|, s.maxLoad)), answer, s')
      else answer == Done && s' == s
    case SetMaxLoadFactor(load) =>
      answer == Done && IsClamped(s'.maxLoad, load) && s' == s.(maxLoad := s'.maxLoad)
    case Clear =>
      answer == Done && Erases(s.(due := false), [], s')
  }

  ghost predicate Run<K, V>(keyOf: V -> K, maxBuckets: nat, ops: seq<Op<K, V>>, answers: seq<Answer>,
                            states: seq<State<V>>) {
    && |answers| == |ops| && |states| == |ops| + 1
    && forall i: nat | i < |ops| :: Step(keyOf, maxBuckets, states[i], ops[i], answers[i], states[i + 1])
  }

  ghost function Now<K, V>(table: Table<K, V>): State<V>
    requires table.Valid()
    reads table, table.buckets
  {
    State(table.values, table.buckets[..], table.maxLoadFactor, table.growOnNextInsert)
  }

  method PerformInsert<K, V>(table: Table<K, V>, value: V) returns (answer: Answer)
    requires table.Valid()
    modifies table, table.buckets
    ensures table.Valid() && (table.buckets == old(table.buckets) || fresh(table.buckets))
    ensures Step(table.keyOf, table.maxBucketCount, old(Now(table)), Insert(value), answer, Now(table))
  {
    var r := table.Insert(value);
    answer := if r.Ok? then Inserted(r.value.0, r.value.1) else Refused;
  }

  method PerformErase<K, V>(table: Table<K, V>, key: K) returns (answer: Answer)
    requires table.Valid()
    modifies table`values, table`pos, table.buckets
    ensures table.Valid()
    ensures Step(table.keyOf, table.maxBucketCount, old(Now(table)), Erase(key), answer, Now(table))
  {
    var count := table.Erase(key);
    answer := Number(count);
  }

  method PerformEraseAt<K, V>(table: Table<K, V>, index: nat) returns (answer: Answer)
    requires table.Valid()
    modifies table`values, table`pos, table.buckets
    ensures table.Valid()
    ensures Step(table.keyOf, table.maxBucketCount, old(Now(table)), EraseAt(index), answer, Now(table))
  {
    if index >= |table.values| {
      return Done;
    }
    var next := table.EraseAt(index);
    answer := Position(next);
  }

  method PerformUnorderedErase<K, V>(table: Table<K, V>, key: K) returns (answer: Answer)
    requires table.Valid()
    modifies table`values, table`pos, table.buckets
    ensures table.Valid()
    ensures Step(table.keyOf, table.maxBucketCount, old(Now(table)), UnorderedErase(key), answer, Now(table))
  {
    var count := table.UnorderedErase(key);
    answer := Number(count);
  }

  method PerformRangeErase<K, V>(table: Table<K, V>, first: nat, last: nat) returns (answer: Answer)
    requires table.Valid()
    modifies table`values, table`pos, table.buckets
    ensures table.Valid()
    ensures Step(table.keyOf, table.maxBucketCount, old(Now(table)), EraseRange(first, last), answer, Now(table))
  {
    if !(first <= last <= |table.values|) {
      return Done;
    }
    if first < last < |table.values| && !Spares(table.buckets[..], first, last) {
      return Unsafe;
    }
    table.EraseRange(first, last);
    answer := Done;
  }

  method PerformRehash<K, V>(table: Table<K, V>, count: nat) returns (answer: Answer)
    requires table.Valid()
    modifies table, table.buckets
    ensures table.Valid() && (table.buckets == old(table.buckets) || fresh(table.buckets))
    ensures Step(table.keyOf, table.maxBucketCount, old(Now(table)), Rehash(count), answer, Now(table))
  {
    if count >= WORD || (count == 0 && |table.values| == 0 && table.buckets.Length > 0) {
      return Done;
    }
    var ok := table.Rehash(count);
    answer := if ok then Done else Refused;
  }

  method PerformReserve<K, V>(table: Table<K, V>, count: nat) returns (answer: Answer)
    requires table.Valid()
    modifies table, table.buckets
    ensures table.Valid() && (table.buckets == old(table.buckets) || fresh(table.buckets))
    ensures Step(table.keyOf, table.maxBucketCount, old(Now(table)), Reserve(count), answer, Now(table))
  {
    var needed := CeilDiv(count, table.maxLoadFactor);
    if needed >= WORD || (needed == 0 && |table.values| == 0 && table.buckets.Length > 0) {
      return Done;
    }
    var ok := table.Reserve(count);
    answer := if ok then Done else Refused;
  }

  method Perform<K, V>(table: Table<K, V>, op: Op<K, V>) returns (answer: Answer)
    requires table.Valid()
    modifies table, table.buckets
    ensures table.Valid() && (table.buckets == old(table.buckets) || fresh(table.buckets))
    ensures Step(table.keyOf, table.maxBucketCount, old(Now(table)), op, answer, Now(table))
  {
    match op
    case Insert(value) =>
      answer := PerformInsert(table, value);
    case Find(key) =>
      var index := table.Find(key);
      answer := Position(index);
    case Count(key) =>
      var count := table.Count(key);
      answer := Number(count);
    case Erase(key) =>
      answer := PerformErase(table, key);
    case EraseAt(index) =>
      answer := PerformEraseAt(table, index);
    case EraseRange(first, last) =>
      answer := PerformRangeErase(table, first, last);
    case UnorderedErase(key) =>
      answer := PerformUnorderedErase(table, key);
    case Rehash(count) =>
      answer := PerformRehash(table, count);
    case Reserve(count) =>
      answer := PerformReserve(table, count);
    case SetMaxLoadFactor(load) =>
      table.SetMaxLoadFactor(load);
      answer := Done;
    case Clear =>
      table.Clear();
      answer := Done;
  }

  /** Every run of a table refines a run of the sequence. */
  method PerformAll<K, V>(table: Table<K, V>, ops: seq<Op<K, V>>)
      returns (answers: seq<Answer>, ghost states: seq<State<V>>)
    requires table.Valid()
    modifies table, table.buckets
    ensures table.Valid()
    ensures Run(table.keyOf, table.maxBucketCount, ops, answers, states)
    ensures states[0] == old(Now(table)) && states[|ops|] == Now(table)
  {
    answers, states := [], [Now(table)];
    for i := 0 to |ops|
      invariant table.Valid() && (table.buckets == old(table.buckets) || fresh(table.buckets))
      invariant Run(table.keyOf, table.maxBucketCount, ops[..i], answers, states)
      invariant states[0] == old(Now(table)) && states[i] == Now(table)
    {
      var answer := Perform(table, ops[i]);
      answers, states := answers + [answer], states + [Now(table)];
      assert ops[..i + 1] == ops[..i] + [ops[i]];
    }
    assert ops[..|ops|] == ops;
  }

  lemma StepKeepsDistinct<K, V>(keyOf: V -> K, maxBuckets: nat, s: State<V>, op: Op<K, V>, answer: Answer, s': State<V>)
    requires Step(keyOf, maxBuckets, s, op, answer, s') && Distinct(keyOf, s.vals)
    ensures Distinct(keyOf, s'.vals)
  {
    match op
    case Insert(value) =>
      if IndexOf(keyOf, s.vals, keyOf(value)) == |s.vals| {
        DistinctAppend(keyOf, s.vals, value);
      }
    case Erase(key) =>
      if IndexOf(keyOf, s.vals, key) < |s.vals| {
        DistinctWithout(keyOf, s.vals, IndexOf(keyOf, s.vals, key));
      }
    case EraseAt(index) =>
      if index < |s.vals| {
        DistinctWithout(keyOf, s.vals, index);
      }
    case EraseRange(first, last) =>
      if first <= last <= |s.vals| {
        DistinctWithoutRange(keyOf, s.vals, first, last);
      }
    case _ =>
  }

  /** A run keeps the keys distinct. */
  lemma {:induction false} RunKeepsDistinct<K, V>(keyOf: V -> K, maxBuckets: nat, ops: seq<Op<K, V>>,
                                                  answers: seq<Answer>, states: seq<State<V>>, i: nat)
    requires Run(keyOf, maxBuckets, ops, answers, states) && i <= |ops| && Distinct(keyOf, states[0].vals)
    ensures Distinct(keyOf, states[i].vals)
  {
    if i > 0 {
      RunKeepsDistinct(keyOf, maxBuckets, ops, answers, states, i - 1);
      StepKeepsDistinct(keyOf, maxBuckets, states[i - 1], ops[i - 1], answers[i - 1], states[i]);
    }
  }

  /** No buckets, or a power of two of them that can be allocated. */
  ghost predicate Sized(maxBuckets: nat, buckets: nat) {
    buckets == 0 || (IsPow2(buckets) && buckets <= maxBuckets)
  }

  lemma RoundsToItself(maxBuckets: nat, n: nat)
    requires IsPow2(n)
    ensures RoundsWithin(n, maxBuckets) <==> n <= maxBuckets
  {
    RoundedFits(n, n, maxBuckets);
  }

  lemma StepKeepsSized<K, V>(keyOf: V -> K, maxBuckets: nat, s: State<V>, op: Op<K, V>, answer: Answer, s': State<V>)
    requires Step(keyOf, maxBuckets, s, op, answer, s') && Sized(maxBuckets, |s.held|)
    ensures Sized(maxBuckets, |s'.held|)
  {
    match op
    case Insert(_) =>
      GrownCount(|s.held|);
      RoundsToItself(maxBuckets, Max(1, |s.held| * 2));
    case Rehash(count) =>
      ResizesKeepsSized(maxBuckets, s, Max(count, CeilDiv(|s.vals|, s.maxLoad)), answer, s');
    case Reserve(count) =>
      ResizesKeepsSized(maxBuckets, s, Max(CeilDiv(count, s.maxLoad), CeilDiv(|s.vals|, s.maxLoad)), answer, s');
    case _ =>
  }

  lemma ResizesKeepsSized<V>(maxBuckets: nat, s: State<V>, target: nat, answer: Answer, s': State<V>)
    requires Sized(maxBuckets, |s.held|)
    ensures Resizes(maxBuckets, s, target, answer, s') ==> Sized(maxBuckets, |s'.held|)
  {
    if Resizes(maxBuckets, s, target, answer, s') && target > 0 && answer == Done {
      RoundedFits(|s'.held|, target, maxBuckets);
    }
  }

  lemma {:induction false} RunKeepsSized<K, V>(keyOf: V -> K, maxBuckets: nat, ops: seq<Op<K, V>>,
                                               answers: seq<Answer>, states: seq<State<V>>, i: nat)
    requires Run(keyOf, maxBuckets, ops, answers, states) && i <= |ops| && Sized(maxBuckets, |states[0].held|)
    ensures Sized(maxBuckets, |states[i].held|)
  {
    if i > 0 {
      RunKeepsSized(keyOf, maxBuckets, ops, answers, states, i - 1);
      StepKeepsSized(keyOf, maxBuckets, states[i - 1], ops[i - 1], answers[i - 1], states[i]);
    }
  }

  /** At any point of a run a value is refused if and only if its key is new and either the indexes
      are used up, or growth is due and twice the buckets cannot be allocated. */
  lemma RunRefusesExactly<K, V>(keyOf: V -> K, maxBuckets: nat, ops: seq<Op<K, V>>,
                                answers: seq<Answer>, states: seq<State<V>>, i: nat)
    requires Run(keyOf, maxBuckets, ops, answers, states) && Sized(maxBuckets, |states[0].held|)
    requires i < |ops| && ops[i].Insert?
    ensures var s := states[i];
      answers[i].Refused? <==>
        && IndexOf(keyOf, s.vals, keyOf(ops[i].value)) == |s.vals|
        && (|s.vals| >= MAX_SIZE || (s.NeedsGrowth() && Max(1, |s.held| * 2) > maxBuckets))
  {
    var s := states[i];
    RunKeepsSized(keyOf, maxBuckets, ops, answers, states, i);
    GrownCount(|s.held|);
    RoundsToItself(maxBuckets, Max(1, |s.held| * 2));
    assert Step(keyOf, maxBuckets, s, ops[i], answers[i], states[i + 1]);
  }

  lemma StepKeepsFit<K, V>(keyOf: V -> K, maxBuckets: nat, s: State<V>, op: Op<K, V>, answer: Answer, s': State<V>)
    requires Step(keyOf, maxBuckets, s, op, answer, s') && |s.vals| <= |s.held|
    ensures |s'.vals| <= |s'.held|
  {
  }

  lemma {:induction false} RunKeepsFit<K, V>(keyOf: V -> K, maxBuckets: nat, ops: seq<Op<K, V>>,
                                             answers: seq<Answer>, states: seq<State<V>>, i: nat)
    requires Run(keyOf, maxBuckets, ops, answers, states) && i <= |ops| && |states[0].vals| <= |states[0].held|
    ensures |states[i].vals| <= |states[i].held|
  {
    if i > 0 {
      RunKeepsFit(keyOf, maxBuckets, ops, answers, states, i - 1);
      StepKeepsFit(keyOf, maxBuckets, states[i - 1], ops[i - 1], answers[i - 1], states[i]);
    }
  }

  /** What rehash_impl asserts of a growing table, in a debug build. */
  predicate GrowthCovers(s: State) {
    Covers(Max(1, |s.held| * 2), |s.vals|, s.maxLoad)
  }

  /** In no run does that assertion fail while the maximal load is at least one half. */
  lemma RunGrowthCovers<K, V>(keyOf: V -> K, maxBuckets: nat, ops: seq<Op<K, V>>,
                              answers: seq<Answer>, states: seq<State<V>>, i: nat)
    requires Run(keyOf, maxBuckets, ops, answers, states) && |states[0].vals| <= |states[0].held|
    requires i <= |ops| && states[i].maxLoad >= 0.5
    ensures GrowthCovers(states[i])
  {
    RunKeepsFit(keyOf, maxBuckets, ops, answers, states, i);
    DoublingCovers(|states[i].vals|, |states[i].held|, states[i].maxLoad);
  }

  /** With the least maximal load it fails at the second insertion into a table without buckets. */
  lemma SecondInsertionFails<V>(maxBuckets: nat, v: V, b: Bucket)
    requires maxBuckets > 0
    ensures var s0: State<V>, s1: State<V> := State([], [], 0.1, false), State([v], [b], 0.1, false);
      Appends(maxBuckets, s0, v, Inserted(0, true), s1) && s1.NeedsGrowth() && !GrowthCovers(s1)
  {
    assert 1 <= Pow2(0) <= maxBuckets;
    assert CeilDiv(1, 0.1) == 10;
  }

  predicate Stopped(answer: Answer) {
    answer.Refused? || answer.Unsafe?
  }

  /** Unless it is stopped, an operation's answer and next values follow from it and the values. */
  lemma StepDetermines<K, V>(keyOf: V -> K, op: Op<K, V>,
                             maxBuckets: nat, s: State<V>, a: Answer, after: State<V>,
                             maxBuckets': nat, s': State<V>, a': Answer, after': State<V>)
    requires Step(keyOf, maxBuckets, s, op, a, after) && Step(keyOf, maxBuckets', s', op, a', after')
    requires s.vals == s'.vals && !Stopped(a) && !Stopped(a')
    ensures a == a' && after.vals == after'.vals
  {
  }

  /** Nothing but a refusal or an unsafe range can show the hash function, the buckets, the load factor
      or what can be allocated: up to the first of these, two runs of the same operations from the same
      values give the same answers and values. */
  lemma {:induction false} RunsAgree<K, V>(keyOf: V -> K, ops: seq<Op<K, V>>, i: nat,
                                           maxBuckets: nat, answers: seq<Answer>, states: seq<State<V>>,
                                           maxBuckets': nat, answers': seq<Answer>, states': seq<State<V>>)
    requires Run(keyOf, maxBuckets, ops, answers, states) && Run(keyOf, maxBuckets', ops, answers', states')
    requires states[0].vals == states'[0].vals
    requires i <= |ops| && forall k | 0 <= k < i :: !Stopped(answers[k]) && !Stopped(answers'[k])
    ensures answers[..i] == answers'[..i] && states[i].vals == states'[i].vals
  {
    if i > 0 {
      assert answers[..i] == answers[..i - 1] + [answers[i - 1]];
      assert answers'[..i] == answers'[..i - 1] + [answers'[i - 1]];
      RunsAgree(keyOf, ops, i - 1, maxBuckets, answers, states, maxBuckets', answers', states');
      StepDetermines(keyOf, ops[i - 1], maxBuckets, states[i - 1], answers[i - 1], states[i],
                     maxBuckets', states'[i - 1], answers'[i - 1], states'[i]);
    }
  }
}
