/** What the ordered hash table promises, on the plain sequence of values in insertion order. */
module OrderedSpec {

  ghost predicate Distinct<K, V>(keyOf: V -> K, vals: seq<V>) {
    forall i: nat, j: nat | i < j < |vals| :: keyOf(vals[i]) != keyOf(vals[j])
  }

  /** The position of the first value with this key, or |vals| when there is none. */
  function IndexOf<K(==), V>(keyOf: V -> K, vals: seq<V>, key: K): (r: nat)
    ensures r <= |vals|
    ensures r < |vals| ==> keyOf(vals[r]) == key
    ensures forall i: nat | i < r :: keyOf(vals[i]) != key
  {
    if vals == [] then 0
    else if keyOf(vals[0]) == key then 0
    else 1 + IndexOf(keyOf, vals[1..], key)
  }

  lemma IndexOfStored<K, V>(keyOf: V -> K, vals: seq<V>, x: nat)
    requires Distinct(keyOf, vals) && x < |vals|
    ensures IndexOf(keyOf, vals, keyOf(vals[x])) == x
  {
  }

  lemma DistinctAppend<K, V>(keyOf: V -> K, vals: seq<V>, value: V)
    requires Distinct(keyOf, vals) && IndexOf(keyOf, vals, keyOf(value)) == |vals|
    ensures Distinct(keyOf, vals + [value])
  {
  }

  function Without<T>(s: seq<T>, x: nat): (r: seq<T>)
    requires x < |s|
    ensures |r| == |s| - 1
  {
    s[..x] + s[x + 1..]
  }

  /** The sequence after the last value has moved into position x. */
  function FillHole<T>(s: seq<T>, x: nat): (r: seq<T>)
    requires x < |s|
    ensures |r| == |s| - 1
  {
    s[x := s[|s| - 1]][..|s| - 1]
  }

  function Swapped<T>(s: seq<T>, i: nat, j: nat): (r: seq<T>)
    requires i < |s| && j < |s|
    ensures |r| == |s|
  {
    s[i := s[j]][j := s[i]]
  }

  lemma SwapThenDrop<T>(s: seq<T>, x: nat)
    requires x < |s|
    ensures Without(Swapped(s, x, |s| - 1), |s| - 1) == FillHole(s, x)
    ensures Without(s, |s| - 1) == FillHole(s, |s| - 1)
  {
  }

  lemma DistinctWithout<K, V>(keyOf: V -> K, vals: seq<V>, x: nat)
    requires Distinct(keyOf, vals) && x < |vals|
    ensures Distinct(keyOf, Without(vals, x))
  {
  }

  lemma DistinctSwapped<K, V>(keyOf: V -> K, vals: seq<V>, x: nat, y: nat)
    requires Distinct(keyOf, vals) && x < |vals| && y < |vals|
    ensures Distinct(keyOf, Swapped(vals, x, y))
  {
  }

  function WithoutRange<T>(s: seq<T>, start: nat, end: nat): (r: seq<T>)
    requires start <= end <= |s|
    ensures |r| == |s| - (end - start)
  {
    s[..start] + s[end..]
  }

  lemma DistinctWithoutRange<K, V>(keyOf: V -> K, vals: seq<V>, start: nat, end: nat)
    requires Distinct(keyOf, vals) && start <= end <= |vals|
    ensures Distinct(keyOf, WithoutRange(vals, start, end))
  {
  }
}
