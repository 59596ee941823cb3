/** Sorting, ranks and the median, independent of any contract. */
module OrderStatistics {
  import opened Host

  predicate Sorted(s: seq<int>) {
    forall i, j :: 0 <= i <= j < |s| ==> s[i] <= s[j]
  }

  // ---- the reference order ----

  function Insert(s: seq<int>, x: int): (r: seq<int>)
    requires Sorted(s)
    ensures Sorted(r) && |r| == |s| + 1
    ensures r[|s|] == x || (s != [] && r[|s|] == s[|s| - 1])
  {
    if s == [] || s[|s| - 1] <= x then s + [x] else Insert(s[..|s| - 1], x) + [s[|s| - 1]]
  }

  /** The elements of p in ascending order. */
  function Ordered(p: seq<int>): (r: seq<int>)
    ensures Sorted(r) && |r| == |p|
  {
    if p == [] then [] else Insert(Ordered(p[..|p| - 1]), p[|p| - 1])
  }

  lemma {:induction false} InsertElements(s: seq<int>, x: int)
    requires Sorted(s)
    ensures multiset(Insert(s, x)) == multiset(s) + multiset{x}
  {
    if s != [] && s[|s| - 1] > x {
      assert s == s[..|s| - 1] + [s[|s| - 1]];
      InsertElements(s[..|s| - 1], x);
    }
  }

  /** Ordering is a rearrangement. */
  lemma {:induction false} OrderedElements(p: seq<int>)
    ensures multiset(Ordered(p)) == multiset(p)
  {
    if p != [] {
      assert p == p[..|p| - 1] + [p[|p| - 1]];
      OrderedElements(p[..|p| - 1]);
      InsertElements(Ordered(p[..|p| - 1]), p[|p| - 1]);
    }
  }

  /** There is only one ascending arrangement, so any sort that returns one is right. */
  lemma {:induction false} SortedUnique(a: seq<int>, b: seq<int>)
    requires Sorted(a) && Sorted(b) && multiset(a) == multiset(b)
    ensures a == b
  {
    assert |a| == |multiset(a)| && |b| == |multiset(b)|;
    if a != [] {
      SameTop(a, b);
      SortedUnique(a[..|a| - 1], b[..|b| - 1]);
    }
  }

  lemma SameTop(a: seq<int>, b: seq<int>)
    requires Sorted(a) && Sorted(b) && multiset(a) == multiset(b) && a != [] && b != []
    ensures a[|a| - 1] == b[|b| - 1] && multiset(a[..|a| - 1]) == multiset(b[..|b| - 1])
  {
    TopIsGreatest(a, b[|b| - 1]);
    TopIsGreatest(b, a[|a| - 1]);
    WithoutTop(a);
    WithoutTop(b);
  }

  lemma TopIsGreatest(a: seq<int>, x: int)
    requires Sorted(a) && a != []
    ensures a[|a| - 1] in multiset(a)
    ensures x in multiset(a) ==> x <= a[|a| - 1]
  {
  }

  lemma WithoutTop(a: seq<int>)
    requires a != []
    ensures a[|a| - 1] in multiset(a) && multiset(a[..|a| - 1]) == multiset(a) - multiset{a[|a| - 1]}
  {
    assert a == a[..|a| - 1] + [a[|a| - 1]];
  }

  // ---- ranks ----

  function CountLe(s: seq<int>, x: int): (n: nat)
    ensures n <= |s|
  {
    if s == [] then 0 else CountLe(s[..|s| - 1], x) + (if s[|s| - 1] <= x then 1 else 0)
  }

  /** In an ascending sequence the element at rank k is at most x exactly when more than k
      elements are. */
  lemma {:induction false} RankByCounting(s: seq<int>, k: nat, x: int)
    requires Sorted(s) && k < |s|
    ensures s[k] <= x <==> CountLe(s, x) > k
  {
    var init := s[..|s| - 1];
    if k < |s| - 1 {
      RankByCounting(init, k, x);
      if s[|s| - 1] <= x {
        assert s[k] <= s[|s| - 1];
      }
    } else if 0 < k && s[k] <= x {
      RankByCounting(init, k - 1, x);
    }
  }

  lemma {:induction false} InsertCounts(s: seq<int>, y: int, x: int)
    requires Sorted(s)
    ensures CountLe(Insert(s, y), x) == CountLe(s, x) + (if y <= x then 1 else 0)
  {
    if s == [] || s[|s| - 1] <= y {
      assert (s + [y])[..|s|] == s;
    } else {
      var r := Insert(s[..|s| - 1], y);
      InsertCounts(s[..|s| - 1], y, x);
      assert (r + [s[|s| - 1]])[..|r|] == r;
    }
  }

  /** Counting does not care about the order. */
  lemma {:induction false} OrderedCounts(p: seq<int>, x: int)
    ensures CountLe(Ordered(p), x) == CountLe(p, x)
  {
    if p != [] {
      OrderedCounts(p[..|p| - 1], x);
      InsertCounts(Ordered(p[..|p| - 1]), p[|p| - 1], x);
    }
  }

  lemma {:induction false} RaisingLowersCounts(p: seq<int>, q: seq<int>, x: int)
    requires |p| == |q| && forall i :: 0 <= i < |p| ==> p[i] <= q[i]
    ensures CountLe(q, x) <= CountLe(p, x)
  {
    if p != [] {
      RaisingLowersCounts(p[..|p| - 1], q[..|q| - 1], x);
    }
  }

  /** Raising any of the values raises, or leaves, every rank. */
  lemma RanksMonotone(p: seq<int>, q: seq<int>, k: nat)
    requires |p| == |q| && k < |p| && forall i :: 0 <= i < |p| ==> p[i] <= q[i]
    ensures Ordered(p)[k] <= Ordered(q)[k]
  {
    var x := Ordered(q)[k];
    RankByCounting(Ordered(q), k, x);
    OrderedCounts(q, x);
    RaisingLowersCounts(p, q, x);
    OrderedCounts(p, x);
    RankByCounting(Ordered(p), k, x);
  }

  // ---- the median ----

  /** The two middle elements: the same element twice when the length is odd. */
  function Middle(s: seq<int>): (int, int)
    requires s != []
  {
    (s[(|s| - 1) / 2], s[|s| / 2])
  }

  /** The average of the middle elements, truncated as the contract's division truncates. */
  function MedianOf(s: seq<int>): int
    requires s != []
  {
    if |s| % 2 == 0 then Quot(Middle(s).0 + Middle(s).1, 2) else s[|s| / 2]
  }

  function Trimmed(s: seq<int>): seq<int> {
    if |s| >= 5 then s[1..|s| - 1] else s
  }

  /** Dropping the least and the greatest of five or more values leaves the middle alone: the
      outlier removal never changes the median. */
  lemma TrimmingChangesNothing(s: seq<int>)
    requires s != []
    ensures Trimmed(s) != [] && Middle(Trimmed(s)) == Middle(s) && MedianOf(Trimmed(s)) == MedianOf(s)
  {
  }

  lemma HalfMonotone(a: int, b: int)
    requires a <= b
    ensures Quot(a, 2) <= Quot(b, 2)
  {
  }

  lemma MedianBetween(s: seq<int>, lo: int, hi: int)
    requires s != [] && lo <= Middle(s).0 <= hi && lo <= Middle(s).1 <= hi
    ensures lo <= MedianOf(s) <= hi
  {
    if |s| % 2 == 0 {
      HalfMonotone(2 * lo, Middle(s).0 + Middle(s).1);
      HalfMonotone(Middle(s).0 + Middle(s).1, 2 * hi);
    }
  }

  /** Raising any of the values never lowers the median. */
  lemma MedianMonotone(p: seq<int>, q: seq<int>)
    requires p != [] && |p| == |q| && forall i :: 0 <= i < |p| ==> p[i] <= q[i]
    ensures MedianOf(Ordered(p)) <= MedianOf(Ordered(q))
  {
    RanksMonotone(p, q, (|p| - 1) / 2);
    RanksMonotone(p, q, |p| / 2);
    MiddleMonotone(Ordered(p), Ordered(q));
  }

  lemma MiddleMonotone(s: seq<int>, t: seq<int>)
    requires s != [] && |s| == |t| && Middle(s).0 <= Middle(t).0 && Middle(s).1 <= Middle(t).1
    ensures MedianOf(s) <= MedianOf(t)
  {
    HalfMonotone(Middle(s).0 + Middle(s).1, Middle(t).0 + Middle(t).1);
  }

  function CountWithin(p: seq<int>, lo: int, hi: int): nat {
    if p == [] then 0 else CountWithin(p[..|p| - 1], lo, hi) + (if lo <= p[|p| - 1] <= hi then 1 else 0)
  }

  lemma {:induction false} WithinAndLe(p: seq<int>, lo: int, hi: int)
    ensures CountWithin(p, lo, hi) <= CountLe(p, hi)
    ensures CountWithin(p, lo, hi) + CountLe(p, lo - 1) <= |p|
  {
    if p != [] {
      WithinAndLe(p[..|p| - 1], lo, hi);
    }
  }

  /** If more than half of the values lie in [lo, hi], so does the median, whatever the others are. */
  lemma HonestMajorityBounds(p: seq<int>, lo: int, hi: int)
    requires 2 * CountWithin(p, lo, hi) > |p|
    ensures p != [] && lo <= MedianOf(Ordered(p)) <= hi
  {
    WithinAndLe(p, lo, hi);
    RankWithin(p, (|p| - 1) / 2, lo, hi);
    RankWithin(p, |p| / 2, lo, hi);
    MedianBetween(Ordered(p), lo, hi);
  }

  lemma RankWithin(p: seq<int>, k: nat, lo: int, hi: int)
    requires k < |p| && CountLe(p, lo - 1) <= k < CountLe(p, hi)
    ensures lo <= Ordered(p)[k] <= hi
  {
    OrderedCounts(p, hi);
    OrderedCounts(p, lo - 1);
    RankByCounting(Ordered(p), k, hi);
    RankByCounting(Ordered(p), k, lo - 1);
  }

  // ---- the contract's sort ----

  /** One comparison of the inner loop. */
  function Bubbled(s: seq<int>, j: nat): seq<int>
    requires j + 1 < |s|
  {
    if s[j] > s[j + 1] then s[j := s[j + 1]][j + 1 := s[j]] else s
  }

  /** Everything from position n on is in place: ascending, and nothing before it is greater. */
  predicate TailPlaced(s: seq<int>, n: int) {
    forall i, j :: 0 <= i <= j < |s| && n <= j ==> s[i] <= s[j]
  }

  predicate GreatestSoFar(s: seq<int>, j: nat)
    requires j < |s|
  {
    forall i :: 0 <= i <= j ==> s[i] <= s[j]
  }

  lemma BubbledElements(s: seq<int>, j: nat)
    requires j + 1 < |s|
    ensures multiset(Bubbled(s, j)) == multiset(s)
  {
  }

  lemma BubbledPlaces(s: seq<int>, j: nat, n: int)
    requires j + 1 < n <= |s| && TailPlaced(s, n) && GreatestSoFar(s, j)
    ensures TailPlaced(Bubbled(s, j), n) && GreatestSoFar(Bubbled(s, j), j + 1)
  {
  }

  lemma PassPlacesOne(s: seq<int>, n: nat)
    requires 0 < n <= |s| && TailPlaced(s, n) && GreatestSoFar(s, n - 1)
    ensures TailPlaced(s, n - 1)
  {
  }

  lemma AllPlaced(s: seq<int>, original: seq<int>)
    requires TailPlaced(s, 0) && multiset(s) == multiset(original)
    ensures s == Ordered(original)
  {
    OrderedElements(original);
    SortedUnique(s, Ordered(original));
  }

  /** `sort_prices`: bubble sort in place. */
  method BubbleSort(a: array<int>)
    modifies a
    ensures a[..] == Ordered(old(a[..]))
  {
    var len := a.Length;
    for i := 0 to len
      invariant multiset(a[..]) == multiset(old(a[..]))
      invariant TailPlaced(a[..], len - i)
    {
      for j := 0 to len - i - 1
        invariant multiset(a[..]) == multiset(old(a[..]))
        invariant TailPlaced(a[..], len - i) && GreatestSoFar(a[..], j)
      {
        ghost var before := a[..];
        BubbledElements(before, j);
        BubbledPlaces(before, j, len - i);
        if a[j] > a[j + 1] {
          var temp := a[j];
          a[j] := a[j + 1];
          a[j + 1] := temp;
        }
        assert a[..] == Bubbled(before, j);
      }
      PassPlacesOne(a[..], len - i);
    }
    AllPlaced(a[..], old(a[..]));
  }
}
