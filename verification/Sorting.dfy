/** Python's `sorted`: a stable sort under a key order. */
module Sorting {

  type Order<!T> = (T, T) -> bool

  /** `leq` compares keys: total and transitive; elements with equal keys may differ. */
  ghost predicate IsKeyOrder<T(!new)>(leq: Order<T>) {
    && (forall a, b :: leq(a, b) || leq(b, a))
    && (forall a, b, c :: leq(a, b) && leq(b, c) ==> leq(a, c))
  }

  ghost predicate SortedBy<T>(s: seq<T>, leq: Order<T>) {
    forall i, j :: 0 <= i < j < |s| ==> leq(s[i], s[j])
  }

  /** Puts `x` before the first element that is not smaller, so earlier equals stay earlier. */
  function Insert<T>(x: T, s: seq<T>, leq: Order<T>): (r: seq<T>)
    ensures multiset(r) == multiset(s) + multiset{x}
  {
    if s == [] then [x]
    else if leq(x, s[0]) then
      [x] + s
    else
      assert s == [s[0]] + s[1..];
      [s[0]] + Insert(x, s[1..], leq)
  }

  function Sorted<T>(s: seq<T>, leq: Order<T>): (r: seq<T>)
    ensures multiset(r) == multiset(s)
  {
    if s == [] then []
    else
      assert s == [s[0]] + s[1..];
      Insert(s[0], Sorted(s[1..], leq), leq)
  }

  lemma SameElements<T>(a: seq<T>, b: seq<T>)
    requires multiset(a) == multiset(b)
    ensures |a| == |b| && forall x :: x in a <==> x in b
  {
    assert |multiset(a)| == |a| && |multiset(b)| == |b|;
    forall x ensures x in a <==> x in b {
      assert x in a <==> x in multiset(a);
      assert x in b <==> x in multiset(b);
    }
  }

  lemma {:induction false} InsertSorted<T(!new)>(x: T, s: seq<T>, leq: Order<T>)
    requires IsKeyOrder(leq) && SortedBy(s, leq)
    ensures SortedBy(Insert(x, s, leq), leq)
  {
    if s != [] && !leq(x, s[0]) {
      InsertSorted(x, s[1..], leq);
      var r := Insert(x, s[1..], leq);
      forall j | 0 <= j < |r| ensures leq(s[0], r[j]) {
        assert r[j] in multiset(r);
        assert r[j] == x || r[j] in s[1..];
      }
    }
  }

  lemma {:induction false} SortedIsSorted<T(!new)>(s: seq<T>, leq: Order<T>)
    requires IsKeyOrder(leq)
    ensures SortedBy(Sorted(s, leq), leq)
  {
    if s != [] {
      SortedIsSorted(s[1..], leq);
      InsertSorted(s[0], Sorted(s[1..], leq), leq);
    }
  }

  lemma {:induction false} SortedFixed<T(!new)>(s: seq<T>, leq: Order<T>)
    requires SortedBy(s, leq)
    ensures Sorted(s, leq) == s
  {
    if s != [] {
      SortedFixed(s[1..], leq);
      assert s == [s[0]] + s[1..];
      assert |s| > 1 ==> leq(s[0], s[1..][0]);
    }
  }

  lemma HeadIsElement<T>(s: seq<T>)
    ensures s == [] || s[0] in s
  {
  }

  /** A strictly ordered sequence is determined by its elements. */
  lemma {:induction false} StrictlySortedUnique<T(!new)>(a: seq<T>, b: seq<T>, less: Order<T>)
    requires forall x, y :: less(x, y) ==> !less(y, x)
    requires SortedBy(a, less) && SortedBy(b, less)
    requires forall x :: x in a <==> x in b
    ensures a == b
  {
    if a == [] {
      HeadIsElement(b);
    } else {
      assert a[0] in b;
      assert b[0] in a;
      assert a[0] == b[0];
      forall x ensures x in a[1..] <==> x in b[1..] {
        assert x in a <==> x == a[0] || x in a[1..];
        assert x in b <==> x == b[0] || x in b[1..];
        assert a[0] !in a[1..] && b[0] !in b[1..];
      }
      StrictlySortedUnique(a[1..], b[1..], less);
    }
  }

  // ---- sets picked greedily along an order ----

  ghost predicate IsStrictOrder<T(!new)>(less: Order<T>) {
    && (forall a, b :: a != b ==> less(a, b) || less(b, a))
    && (forall a, b :: less(a, b) ==> !less(b, a))
    && (forall a, b, c :: less(a, b) && less(b, c) ==> less(a, c))
  }

  ghost predicate Picked<T(!new)>(k: T, accepted: set<T>, less: Order<T>, clash: Order<T>) {
    forall a :: a in accepted && less(a, k) ==> !clash(a, k)
  }

  /** `accepted` holds exactly the offered elements that clash with no earlier accepted one. */
  ghost predicate GreedySet<T(!new)>(accepted: set<T>, offered: set<T>, less: Order<T>, clash: Order<T>) {
    && accepted <= offered
    && forall k :: k in offered ==> (k in accepted <==> Picked(k, accepted, less, clash))
  }

  lemma {:induction false} Earliest<T(!new)>(s: set<T>, less: Order<T>) returns (m: T)
    requires IsStrictOrder(less) && s != {}
    ensures m in s && forall k :: k in s && k != m ==> less(m, k)
    decreases s
  {
    m :| m in s;
    if s != {m} {
      var first := Earliest(s - {m}, less);
      if less(first, m) {
        m := first;
      }
    }
  }

  /** The greedy rule has one solution. */
  lemma GreedySetUnique<T(!new)>(a: set<T>, b: set<T>, offered: set<T>, less: Order<T>, clash: Order<T>)
    requires IsStrictOrder(less)
    requires GreedySet(a, offered, less, clash) && GreedySet(b, offered, less, clash)
    ensures a == b
  {
    var d := (a - b) + (b - a);
    if d != {} {
      var m := Earliest(d, less);
      GreedySetsAgree(a, b, offered, less, clash, m);
    }
  }

  lemma GreedySetsAgree<T(!new)>(a: set<T>, b: set<T>, offered: set<T>, less: Order<T>, clash: Order<T>, m: T)
    requires IsStrictOrder(less) && m in offered
    requires GreedySet(a, offered, less, clash) && GreedySet(b, offered, less, clash)
    requires forall k :: k in (a - b) + (b - a) && k != m ==> less(m, k)
    ensures m in a <==> m in b
  {
    forall k | less(k, m) ensures k in a <==> k in b {
      assert k !in (a - b) + (b - a);
    }
    assert Picked(m, a, less, clash) <==> Picked(m, b, less, clash);
  }
}
