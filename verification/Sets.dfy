/** Counting facts about finite sets and duplicate-free sequences. */
module Sets {
  ghost function Range(n: nat): (r: set<int>)
    ensures forall i :: i in r <==> 0 <= i < n
    ensures |r| == n
  {
    if n == 0 then {} else Range(n - 1) + {n - 1}
  }

  /** The numbers from lo up to lo + n. */
  ghost function Span(lo: nat, n: nat): (r: set<nat>)
    ensures |r| == n && forall b :: b in r <==> lo <= b < lo + n
  {
    if n == 0 then {} else Span(lo, n - 1) + {lo + n - 1}
  }

  lemma {:induction false} SubsetSize<T>(a: set<T>, b: set<T>)
    requires a <= b
    ensures |a| <= |b|
  {
    if a != {} {
      var x :| x in a;
      SubsetSize(a - {x}, b - {x});
    }
  }

  lemma UnionSize<T>(a: set<T>, b: set<T>)
    ensures |a + b| <= |a| + |b|
  {
    assert a + b == a + (b - a);
    SubsetSize(b - a, b);
  }

  ghost predicate NoDup<T>(s: seq<T>) {
    forall i, j :: 0 <= i < j < |s| ==> s[i] != s[j]
  }

  ghost function ToSet<T>(s: seq<T>): set<T> {
    set i | 0 <= i < |s| :: s[i]
  }

  lemma ToSetSnoc<T>(s: seq<T>, x: T)
    ensures ToSet(s + [x]) == ToSet(s) + {x}
  {
    var s' := s + [x];
    forall y | y in ToSet(s) + {x} ensures y in ToSet(s') {
      if y == x {
        assert s'[|s|] == y;
      } else {
        var i :| 0 <= i < |s| && s[i] == y;
        assert s'[i] == y;
      }
    }
  }

  lemma {:induction false} ToSetSize<T>(s: seq<T>)
    requires NoDup(s)
    ensures |ToSet(s)| == |s|
    decreases |s|
  {
    if |s| > 0 {
      var n := |s| - 1;
      ToSetSize(s[..n]);
      assert ToSet(s) == ToSet(s[..n]) + {s[n]};
    }
  }

  /** An injective image is as large as its domain. */
  lemma {:induction false} ImageSize<S(!new), T(!new)>(s: set<S>, f: S -> T, image: set<T>)
    requires forall i, j :: i in s && j in s && i != j ==> f(i) != f(j)
    requires forall y :: y in image <==> exists i :: i in s && f(i) == y
    ensures |image| == |s|
    decreases |s|
  {
    if x :| x in s {
      ImageSize(s - {x}, f, image - {f(x)});
      assert f(x) in image;
    } else {
      assert s == {} && image == {};
    }
  }
}
