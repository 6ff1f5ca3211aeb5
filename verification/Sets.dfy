/** Finite sets of integers: least and greatest elements, sizes, and the greatest members of a set. */
module Sets {
  lemma Element<T>(s: set<T>) returns (x: T)
    requires s != {}
    ensures x in s
  {
    x :| x in s;
  }

  lemma {:induction false} LeastExists(s: set<int>) returns (k: int)
    requires s != {}
    ensures k in s && forall j :: j in s ==> k <= j
  {
    var x := Element(s);
    if s == {x} {
      return x;
    }
    var m := LeastExists(s - {x});
    assert forall j :: j in s ==> j == x || j in s - {x};
    k := if x < m then x else m;
  }

  function Least(s: set<int>): (k: int)
    requires s != {}
    ensures k in s && forall j :: j in s ==> k <= j
  {
    assert exists k :: k in s && forall j :: j in s ==> k <= j by { var k := LeastExists(s); }
    var k :| k in s && forall j :: j in s ==> k <= j;
    k
  }

  lemma {:induction false} GreatestExists(s: set<int>) returns (k: int)
    requires s != {}
    ensures k in s && forall j :: j in s ==> j <= k
  {
    var x := Element(s);
    if s == {x} {
      return x;
    }
    var m := GreatestExists(s - {x});
    assert forall j :: j in s ==> j == x || j in s - {x};
    k := if x < m then m else x;
  }

  function Greatest(s: set<int>): (k: int)
    requires s != {}
    ensures k in s && forall j :: j in s ==> j <= k
  {
    assert exists k :: k in s && forall j :: j in s ==> j <= k by { var k := GreatestExists(s); }
    var k :| k in s && forall j :: j in s ==> j <= k;
    k
  }

  lemma SubsetSize(a: set<int>, b: set<int>)
    requires a <= b
    ensures |a| <= |b|
    ensures |a| == |b| ==> a == b
  {
    assert b == a + (b - a);
    assert |b| == |a| + |b - a|;
  }

  lemma ExtraSize<T>(s: set<T>, x: set<T>, y: set<T>)
    requires y <= s && (s == y || |s * x| <= |y|)
    ensures |s - y| <= |s - x|
  {
    assert s == s * x + (s - x);
    assert s == y + (s - y);
  }

  lemma LeastOf(s: set<int>, m: int)
    requires m in s && forall x :: x in s ==> m <= x
    ensures Least(s) == m
  {
  }

  /** The `k` greatest members of `s`, or all of them. */
  function Newest(s: set<int>, k: nat): (r: set<int>)
    decreases |s|
  {
    if |s| <= k then s else Newest(s - {Least(s)}, k)
  }

  /** `r` is what remains of `s` when only its `k` greatest members are kept. */
  ghost predicate Keeps(s: set<int>, k: nat, r: set<int>) {
    && r <= s && |r| == (if |s| <= k then |s| else k)
    && forall x, y :: x in r && y in s && y !in r ==> y < x
  }

  lemma {:induction false} NewestKeeps(s: set<int>, k: nat)
    ensures Keeps(s, k, Newest(s, k))
    decreases |s|
  {
    if |s| > k {
      NewestKeeps(s - {Least(s)}, k);
    }
  }

  /** Dropping the least of more than `k` members of `s` never touches the `k` greatest of `s`. */
  lemma LeastIsOld(s: set<int>, h: set<int>, k: nat)
    requires h <= s && |h| > k
    ensures Least(h) !in Newest(s, k)
  {
    NewestKeeps(s, k);
    var m, r := Least(h), Newest(s, k);
    SubsetSize(h, s);
    if m in r {
      assert h <= r;
      SubsetSize(h, r);
    }
  }

  /** New members can push out old ones, but bring no other member back. */
  lemma NewestAdds(s: set<int>, x: set<int>, k: nat)
    ensures Newest(s + x, k) <= Newest(s, k) + x
  {
    NewestKeeps(s, k);
    NewestKeeps(s + x, k);
    var a, b := Newest(s, k), Newest(s + x, k);
    if !(b <= a + x) {
      var y :| y in b && y !in a && y !in x;
      assert forall z :: z in a ==> z in b;
      SubsetSize(a + {y}, b);
      SubsetSize(s - {y}, s);
    }
  }

  /** A set between the `k` greatest members of `s` and `s`, and no larger than `k`, is the `k` greatest members. */
  lemma Squeezed(s: set<int>, h: set<int>, k: nat)
    requires Newest(s, k) <= h <= s && |h| <= k
    ensures h == Newest(s, k)
  {
    NewestKeeps(s, k);
    SubsetSize(Newest(s, k), h);
    SubsetSize(h, s);
  }

  /** The newest stay stored in a step that only adds or only removes exactly when it removes none of them. */
  lemma KeptStep(stored: set<int>, ever: set<int>, stored': set<int>, k: nat)
    requires Newest(ever, k) <= stored <= ever && (stored' <= stored || stored <= stored')
    ensures Newest(ever + stored', k) <= stored' <==> Newest(ever, k) <= stored'
  {
    hide Newest;
    NewestAdds(ever, stored', k);
    if stored' <= stored {
      assert ever + stored' == ever;
    }
  }
}
