/** Python's sorted() on the integer keys of a dict. */
module Sorting {

  function InsertKey(k: int, s: seq<int>): (r: seq<int>)
    ensures |r| == |s| + 1
  {
    if s == [] || k <= s[0] then [k] + s else [s[0]] + InsertKey(k, s[1..])
  }

  function Sorted(s: seq<int>): (r: seq<int>)
    ensures |r| == |s|
  {
    if s == [] then [] else InsertKey(s[0], Sorted(s[1..]))
  }

  ghost predicate Ascending(s: seq<int>) {
    forall i, j | 0 <= i < j < |s| :: s[i] < s[j]
  }

  ghost predicate NoRepeats(s: seq<int>) {
    forall i, j | 0 <= i < j < |s| :: s[i] != s[j]
  }

  lemma {:induction false} InsertKeySorts(k: int, s: seq<int>)
    requires Ascending(s) && k !in s
    ensures Ascending(InsertKey(k, s)) && forall x :: x in InsertKey(k, s) <==> x == k || x in s
  {
    if s != [] && k > s[0] {
      InsertKeySorts(k, s[1..]);
      var t := InsertKey(k, s[1..]);
      forall j | 0 <= j < |t|
        ensures s[0] < t[j]
      {
        assert t[j] == k || t[j] in s[1..];
      }
    }
  }

  /** The keys of a dict, without repeats, come out in strictly ascending order. */
  lemma {:induction false} SortedSorts(s: seq<int>)
    requires NoRepeats(s)
    ensures Ascending(Sorted(s)) && forall x :: x in Sorted(s) <==> x in s
  {
    if s != [] {
      SortedSorts(s[1..]);
      assert s[0] !in s[1..];
      InsertKeySorts(s[0], Sorted(s[1..]));
    }
  }
}
