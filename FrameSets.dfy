/** Frame numbers as the annotation readers hand them out: a set turned
    into an ascending array, as `Distinct().OrderBy(l => l).ToArray()`
    and `SortedSet<ulong>.ToArray()` both do. */
module FrameSets {

  predicate Ascending(s: seq<nat>)
  {
    forall i, j | 0 <= i < j < |s| :: s[i] < s[j]
  }

  /** The least element of a non-empty set. */
  function Least(s: set<nat>): (m: nat)
    requires s != {}
    ensures m in s && forall k | k in s :: m <= k
  {
    var x :| x in s;
    LeastBelow(s, x)
  }

  /** The least element of `s` that is at most `x`, found by walking down. */
  function LeastBelow(s: set<nat>, x: nat): (m: nat)
    requires x in s
    ensures m in s && m <= x && forall k | k in s :: m <= k
    decreases x
  {
    if forall k | k in s :: x <= k then x
    else
      var y :| y in s && y < x;
      LeastBelow(s, y)
  }

  /** The elements of `s` in ascending order. */
  function SortedSeq(s: set<nat>): (r: seq<nat>)
    ensures Ascending(r) && |r| == |s|
    ensures forall k :: k in r <==> k in s
    decreases |s|
  {
    if s == {} then []
    else
      var m := Least(s);
      var rest := SortedSeq(s - {m});
      [m] + rest
  }

  /** An ascending sequence is determined by its elements. */
  lemma {:induction false} AscendingUnique(a: seq<nat>, b: seq<nat>)
    requires Ascending(a) && Ascending(b) && forall k :: k in a <==> k in b
    ensures a == b
    decreases |a|
  {
    if |a| > 0 {
      assert a[0] in b;
    }
    if |b| > 0 {
      assert b[0] in a;
    }
    if |a| > 0 && |b| > 0 {
      forall k
        ensures k in a[1..] <==> k in b[1..]
      {
        if k in a[1..] {
          var i :| 1 <= i < |a| && a[i] == k;
          assert k in b && k != b[0];
        }
        if k in b[1..] {
          var i :| 1 <= i < |b| && b[i] == k;
          assert k in a && k != a[0];
        }
      }
      AscendingUnique(a[1..], b[1..]);
      assert a == [a[0]] + a[1..] && b == [b[0]] + b[1..];
    }
  }

  /** The distinct values of `s`. */
  function Elements(s: seq<nat>): set<nat>
  {
    set k | k in s
  }
}
