/** Strings in lexicographic (ordinal) order, as the missed anomaly ids
    are listed, and `string.Join` with a string separator. */
module StringOrder {

  /** `a` comes before `b` or equals it. */
  predicate Before(a: string, b: string)
    decreases |a|
  {
    |a| == 0 || (|b| > 0 && (a[0] < b[0] || (a[0] == b[0] && Before(a[1..], b[1..]))))
  }

  lemma {:induction false} BeforeTotal(a: string, b: string)
    ensures Before(a, b) || Before(b, a)
    decreases |a|
  {
    if |a| > 0 && |b| > 0 && a[0] == b[0] {
      BeforeTotal(a[1..], b[1..]);
    }
  }

  lemma {:induction false} BeforeTransitive(a: string, b: string, c: string)
    requires Before(a, b) && Before(b, c)
    ensures Before(a, c)
    decreases |a|
  {
    if |a| > 0 && a[0] == b[0] && b[0] == c[0] {
      BeforeTransitive(a[1..], b[1..], c[1..]);
    }
  }

  lemma {:induction false} BeforeAntisymmetric(a: string, b: string)
    requires Before(a, b) && Before(b, a)
    ensures a == b
    decreases |a|
  {
    if |a| > 0 {
      BeforeAntisymmetric(a[1..], b[1..]);
      assert a == [a[0]] + a[1..] && b == [b[0]] + b[1..];
    }
  }

  lemma {:induction false} BeforeReflexive(a: string)
    ensures Before(a, a)
    decreases |a|
  {
    if |a| > 0 {
      BeforeReflexive(a[1..]);
    }
  }

  /** The first string of a non-empty set. */
  ghost function First(s: set<string>): (m: string)
    requires s != {}
    ensures m in s && forall k | k in s :: Before(m, k)
    decreases |s|
  {
    var x :| x in s;
    BeforeReflexive(x);
    if s == {x} then x
    else
      var m := First(s - {x});
      BeforeTotal(x, m);
      if Before(x, m) then
        assert forall k | k in s - {x} :: Before(x, k) by {
          forall k | k in s - {x} ensures Before(x, k) {
            BeforeTransitive(x, m, k);
          }
        }
        x
      else
        m
  }

  predicate Ascending(r: seq<string>)
  {
    forall i, j | 0 <= i < j < |r| :: Before(r[i], r[j]) && r[i] != r[j]
  }

  /** `OrderBy(k => k)` on a set of distinct strings. */
  ghost function Sorted(s: set<string>): (r: seq<string>)
    ensures Ascending(r) && |r| == |s|
    ensures forall k :: k in r <==> k in s
    decreases |s|
  {
    if s == {} then []
    else
      var m := First(s);
      var rest := Sorted(s - {m});
      assert forall j | 0 <= j < |rest| :: Before(m, rest[j]) && m != rest[j] by {
        forall j | 0 <= j < |rest| ensures Before(m, rest[j]) && m != rest[j] {
          assert rest[j] in s - {m};
        }
      }
      [m] + rest
  }

  /** An ascending sequence is determined by its elements. */
  lemma {:induction false} AscendingUnique(a: seq<string>, b: seq<string>)
    requires Ascending(a) && Ascending(b) && forall k :: k in a <==> k in b
    ensures a == b
    decreases |a|
  {
    if |a| > 0 {
      assert a[0] in b;
    }
    if |b| > 0 {
      assert b[0] in a;
    }
    if |a| > 0 && |b| > 0 {
      var i :| 0 <= i < |b| && b[i] == a[0];
      var j :| 0 <= j < |a| && a[j] == b[0];
      if i > 0 && j > 0 {
        BeforeAntisymmetric(a[0], b[0]);
      }
      forall k
        ensures k in a[1..] <==> k in b[1..]
      {
        if k in a[1..] {
          var p :| 1 <= p < |a| && a[p] == k;
          assert k in b && k != b[0];
        }
        if k in b[1..] {
          var p :| 1 <= p < |b| && b[p] == k;
          assert k in a && k != a[0];
        }
      }
      AscendingUnique(a[1..], b[1..]);
      assert a == [a[0]] + a[1..] && b == [b[0]] + b[1..];
    }
  }

  /** Inserts a new string into an ascending sequence. */
  function Insert(x: string, r: seq<string>): (t: seq<string>)
    requires Ascending(r) && x !in r
    ensures Ascending(t) && forall k :: k in t <==> k == x || k in r
  {
    if |r| == 0 then [x]
    else if Before(x, r[0]) then
      assert forall j | 0 <= j < |r| :: Before(x, r[j]) && x != r[j] by {
        forall j | 0 <= j < |r| ensures Before(x, r[j]) && x != r[j] {
          if j > 0 {
            BeforeTransitive(x, r[0], r[j]);
          }
        }
      }
      [x] + r
    else
      BeforeTotal(x, r[0]);
      var t := Insert(x, r[1..]);
      assert forall j | 0 <= j < |t| :: Before(r[0], t[j]) && r[0] != t[j] by {
        forall j | 0 <= j < |t| ensures Before(r[0], t[j]) && r[0] != t[j] {
          assert t[j] in t;
        }
      }
      [r[0]] + t
  }

  /** `string.Join(sep, parts)`: empty for no parts. */
  function JoinWith(parts: seq<string>, sep: string): string
  {
    if |parts| == 0 then ""
    else if |parts| == 1 then parts[0]
    else parts[0] + sep + JoinWith(parts[1..], sep)
  }
}
