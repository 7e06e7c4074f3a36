/**
 * The three `Vec<u16>` methods `parse_ports` applies once it has collected
 * every port: `sort`, `dedup` and `retain(|&p| p != 0)`. They are library
 * code, modelled here on values: each takes the vector's contents and gives
 * the contents afterwards.
 */
module VecOps {

  predicate NonDecreasing(s: seq<int>) {
    forall i, j :: 0 <= i < j < |s| ==> s[i] <= s[j]
  }

  predicate StrictlyIncreasing(s: seq<int>) {
    forall i, j :: 0 <= i < j < |s| ==> s[i] < s[j]
  }

  /** A strictly increasing sequence holds no value twice. */
  lemma StrictlyIncreasingIsDistinct(s: seq<int>)
    requires StrictlyIncreasing(s)
    ensures forall i, j :: 0 <= i < |s| && 0 <= j < |s| && s[i] == s[j] ==> i == j
  {
  }

  function Insert(x: int, s: seq<int>): (r: seq<int>)
    requires NonDecreasing(s)
    ensures NonDecreasing(r)
    ensures multiset(r) == multiset(s) + multiset{x}
  {
    if s == [] || x <= s[0] then
      BoundedBelow(x, s);
      ConsSorted(x, s);
      [x] + s
    else
      var rest := Insert(x, s[1..]);
      assert s == [s[0]] + s[1..];
      BoundedBelow(s[0], s[1..]);
      MultisetBound(s[0], rest, s[1..], x);
      ConsSorted(s[0], rest);
      [s[0]] + rest
  }

  /** A sorted sequence is bounded below by anything at most its head. */
  lemma BoundedBelow(b: int, s: seq<int>)
    requires NonDecreasing(s)
    requires s == [] || b <= s[0]
    ensures forall k :: 0 <= k < |s| ==> b <= s[k]
  {
  }

  /** A lower bound carries over to a rearrangement that adds one larger element. */
  lemma MultisetBound(b: int, r: seq<int>, s: seq<int>, x: int)
    requires forall k :: 0 <= k < |s| ==> b <= s[k]
    requires b <= x
    requires multiset(r) == multiset(s) + multiset{x}
    ensures forall k :: 0 <= k < |r| ==> b <= r[k]
  {
    forall k | 0 <= k < |r| ensures b <= r[k] {
      assert r[k] in multiset(r);
      assert r[k] == x || r[k] in s;
    }
  }

  /** Putting a lower bound in front of a sorted sequence keeps it sorted. */
  lemma ConsSorted(h: int, t: seq<int>)
    requires NonDecreasing(t)
    requires forall k :: 0 <= k < |t| ==> h <= t[k]
    ensures NonDecreasing([h] + t)
  {
    var s := [h] + t;
    forall i, j | 0 <= i < j < |s| ensures s[i] <= s[j] {
      assert s[j] == t[j - 1];
      if i > 0 {
        assert s[i] == t[i - 1];
      }
    }
  }

  /** `slice::sort` on integers: an ascending permutation of the input. */
  function Sort(s: seq<int>): (r: seq<int>)
    ensures NonDecreasing(r)
    ensures multiset(r) == multiset(s)
  {
    if s == [] then []
    else
      assert s == [s[0]] + s[1..];
      Insert(s[0], Sort(s[1..]))
  }

  /** `Vec::dedup`: removes each element equal to the one before it. */
  function Dedup(s: seq<int>): (r: seq<int>)
    ensures forall x :: x in r <==> x in s
    ensures |r| <= |s|
    ensures s != [] ==> r != [] && r[0] == s[0]
    ensures NonDecreasing(s) ==> StrictlyIncreasing(r)
  {
    if |s| <= 1 then s
    else
      var rest := Dedup(s[1..]);
      assert forall x :: x in s <==> x == s[0] || x in s[1..];
      if s[0] == s[1] then rest else [s[0]] + rest
  }

  /** `Vec::retain(|&p| p != 0)`: keeps the non-zero elements, in order. */
  function RetainNonZero(s: seq<int>): (r: seq<int>)
    ensures forall x :: x in r <==> x in s && x != 0
    ensures |r| <= |s|
    ensures StrictlyIncreasing(s) ==> StrictlyIncreasing(r)
  {
    if s == [] then []
    else
      var rest := RetainNonZero(s[1..]);
      assert forall x :: x in s <==> x == s[0] || x in s[1..];
      assert forall k :: 0 <= k < |rest| ==> rest[k] in s[1..];
      if s[0] == 0 then rest else [s[0]] + rest
  }
}
