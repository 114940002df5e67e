/** Shared result types: the Python exceptions the trait extractor can raise
    become the error half of a Result, and Python's None becomes Option.
    Also the sorted-distinct-values view of a label sequence, which both
    np.unique(labels) and sorted(Counter(labels).items()) compute. */
module Common {

  datatype Option<T> = None | Some(value: T)

  /** The exception classes that the modelled code can raise. */
  datatype Error =
    | IndexError          // list or array index out of range (index_bkg[0], ordered_colors[i], ...)
    | ZeroDivisionError   // float division by a zero hull area
    | UnboundLocalError   // a local variable read before any assignment

  datatype Result<T> = Ok(value: T) | Err(error: Error)

  /** Number of occurrences of x in s, like numpy's sum(s == x). */
  function Occurrences<T(==)>(s: seq<T>, x: T): nat
  {
    multiset(s)[x]
  }

  /** The sequence s without its element at position i (Python's del s[i]). */
  function RemoveAt<T>(s: seq<T>, i: nat): (r: seq<T>)
    requires i < |s|
    ensures |r| == |s| - 1
    ensures forall j :: 0 <= j < i ==> r[j] == s[j]
    ensures forall j :: i <= j < |r| ==> r[j] == s[j + 1]
  {
    s[..i] + s[i + 1..]
  }

  /** Position of the first occurrence of x in s (Python's list.index, or None). */
  function FirstIndex<T(==)>(s: seq<T>, x: T): (r: Option<nat>)
    ensures r.None? <==> x !in s
    ensures r.Some? ==> r.value < |s| && s[r.value] == x
    ensures r.Some? ==> forall j :: 0 <= j < r.value ==> s[j] != x
  {
    if s == [] then None
    else if s[0] == x then Some(0)
    else match FirstIndex(s[1..], x)
      case None => None
      case Some(i) => Some(i + 1)
  }

  predicate StrictlyIncreasing(s: seq<nat>)
  {
    forall i, j :: 0 <= i < j < |s| ==> s[i] < s[j]
  }

  /** The values below bound that occur in labels, in ascending order. */
  function PresentBelow(labels: seq<nat>, bound: nat): (keys: seq<nat>)
    ensures StrictlyIncreasing(keys)
    ensures forall x :: x in keys <==> x in labels && x < bound
  {
    if bound == 0 then []
    else
      var prefix := PresentBelow(labels, bound - 1);
      assert forall j :: 0 <= j < |prefix| ==> prefix[j] in prefix;
      assert forall j :: 0 <= j < |prefix| ==> prefix[j] < bound - 1;
      prefix + (if bound - 1 in labels then [bound - 1] else [])
  }

  /** A strict upper bound of every label. */
  function UpperBound(labels: seq<nat>): (b: nat)
    ensures forall x :: x in labels ==> x < b
  {
    if labels == [] then 0
    else
      var b := UpperBound(labels[1..]);
      assert forall x :: x in labels ==> x == labels[0] || x in labels[1..];
      if labels[0] >= b then labels[0] + 1 else b
  }

  /** The distinct labels in ascending order: np.unique(labels), and the keys
      of dict(sorted(Counter(labels).items())). */
  function SortedDistinct(labels: seq<nat>): (keys: seq<nat>)
    ensures StrictlyIncreasing(keys)
    ensures forall x :: x in keys <==> x in labels
  {
    PresentBelow(labels, UpperBound(labels))
  }

  /** In a strictly increasing sequence of naturals each element is at least
      its position, and elements grow at least as fast as positions. */
  lemma {:induction false} IncreasingAtLeastIndex(keys: seq<nat>, i: nat, j: nat)
    requires StrictlyIncreasing(keys)
    requires i <= j < |keys|
    ensures keys[j] >= j
    ensures keys[j] - keys[i] >= j - i
  {
    if j > i {
      IncreasingAtLeastIndex(keys, i, j - 1);
    } else if j > 0 {
      IncreasingAtLeastIndex(keys, j - 1, j - 1);
    }
  }

  /** Position j of a strictly increasing sequence holding exactly the values
      0..k-1 holds j. */
  lemma {:induction false} IncreasingRangeAt(keys: seq<nat>, k: nat, j: nat)
    requires StrictlyIncreasing(keys)
    requires forall x: nat :: x in keys <==> x < k
    requires j < |keys|
    ensures keys[j] == j
  {
    IncreasingAtLeastIndex(keys, 0, j);
    assert keys[j] in keys;
    assert j in keys;
    var i :| 0 <= i < |keys| && keys[i] == j;
    if i < j {
      IncreasingRangeAt(keys, k, j - 1);
      assert false;
    }
  }

  /** A strictly increasing sequence holding exactly the values 0..k-1 is
      the sequence [0, 1, ..., k-1]. */
  lemma {:induction false} IncreasingRange(keys: seq<nat>, k: nat)
    requires StrictlyIncreasing(keys)
    requires forall x: nat :: x in keys <==> x < k
    ensures |keys| == k
    ensures forall j :: 0 <= j < |keys| ==> keys[j] == j
  {
    forall j | 0 <= j < |keys|
      ensures keys[j] == j
    {
      IncreasingRangeAt(keys, k, j);
    }
    if |keys| > 0 {
      assert keys[|keys| - 1] in keys;
    }
    if k > 0 {
      assert k - 1 in keys;
      var i :| 0 <= i < |keys| && keys[i] == k - 1;
      assert i == k - 1;
    }
  }

  /** An element above a missing value x is beyond its own position. */
  lemma {:induction false} GapAbove(keys: seq<nat>, x: nat, i: nat)
    requires StrictlyIncreasing(keys)
    requires x !in keys && i < |keys| && x < keys[i]
    ensures keys[i] >= i + 1
  {
    if i > 0 {
      if x < keys[i - 1] {
        GapAbove(keys, x, i - 1);
      } else {
        assert keys[i - 1] != x;
        IncreasingAtLeastIndex(keys, 0, i - 1);
      }
    }
  }

  /** If some value x is missing from a strictly increasing sequence while a
      larger value is present, the last element is at least the length. */
  lemma {:induction false} GapPushesLast(keys: seq<nat>, x: nat, y: nat)
    requires StrictlyIncreasing(keys)
    requires x !in keys && y in keys && x < y
    ensures |keys| > 0 && keys[|keys| - 1] >= |keys|
  {
    var n := |keys|;
    var i :| 0 <= i < n && keys[i] == y;
    GapAbove(keys, x, i);
    IncreasingAtLeastIndex(keys, i, n - 1);
  }

  /** A strictly increasing sequence of naturals all below its own length is
      [0, 1, ..., n-1]. */
  lemma KeysContiguous(keys: seq<nat>)
    requires StrictlyIncreasing(keys)
    requires forall j :: 0 <= j < |keys| ==> keys[j] < |keys|
    ensures forall j :: 0 <= j < |keys| ==> keys[j] == j
  {
    var n := |keys|;
    forall j | 0 <= j < n ensures keys[j] == j {
      IncreasingAtLeastIndex(keys, 0, j);
      IncreasingAtLeastIndex(keys, j, n - 1);
    }
  }
}
