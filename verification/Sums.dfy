/** Finite sums: over the values of a map, and over a sequence. */
module Sums {
  import opened Arith

  /** The sum of a map's values, taken in any order. */
  ghost function Sum<K>(m: map<K, int>): int {
    if m == map[] then 0 else
    var k :| k in m;
    m[k] + Sum(m - {k})
  }

  lemma {:induction false} SumWithout<K>(m: map<K, int>, k: K)
    requires k in m
    ensures Sum(m) == m[k] + Sum(m - {k})
    decreases |m|
  {
    var j :| j in m && Sum(m) == m[j] + Sum(m - {j});
    if j != k {
      SumWithout(m - {j}, k);
      SumWithout(m - {k}, j);
      assert m - {j} - {k} == m - {k} - {j};
    }
  }

  /** Storing one value moves the sum by exactly the change at that key. */
  lemma SumStore<K>(m: map<K, int>, k: K, v: int)
    ensures Sum(m[k := v]) == Sum(m) + v - (if k in m then m[k] else 0)
  {
    SumWithout(m[k := v], k);
    if k in m {
      SumWithout(m, k);
      assert m[k := v] - {k} == m - {k};
    } else {
      assert m[k := v] - {k} == m;
    }
  }

  /** A pointwise inequality on a smaller domain carries over when the rest is not negative. */
  lemma {:induction false} SumLe<K>(a: map<K, int>, b: map<K, int>)
    requires forall k :: k in a ==> k in b && a[k] <= b[k]
    requires forall k :: k in b && k !in a ==> 0 <= b[k]
    ensures Sum(a) <= Sum(b)
    decreases |b|
  {
    if b != map[] {
      var k :| k in b;
      SumWithout(b, k);
      if k in a {
        SumWithout(a, k);
        SumLe(a - {k}, b - {k});
      } else {
        SumLe(a, b - {k});
      }
    }
  }

  lemma SumNonNegative<K>(m: map<K, int>)
    requires forall k :: k in m ==> 0 <= m[k]
    ensures 0 <= Sum(m)
  {
    SumLe(map[], m);
  }

  lemma ValueAtMostSum<K>(m: map<K, int>, k: K)
    requires k in m && forall j :: j in m ==> 0 <= m[j]
    ensures m[k] <= Sum(m)
  {
    SumWithout(m, k);
    SumNonNegative(m - {k});
  }

  /** Values that are zero do not count. */
  lemma SumSameSupport<K>(a: map<K, int>, b: map<K, int>)
    requires a.Keys <= b.Keys
    requires forall k :: k in b ==> b[k] == if k in a then a[k] else 0
    ensures Sum(a) == Sum(b)
  {
    SumLe(a, b);
    SumGe(a, b);
  }

  lemma {:induction false} SumGe<K>(a: map<K, int>, b: map<K, int>)
    requires forall k :: k in a ==> k in b && b[k] <= a[k]
    requires forall k :: k in b && k !in a ==> b[k] <= 0
    ensures Sum(b) <= Sum(a)
    decreases |b|
  {
    if b != map[] {
      var k :| k in b;
      SumWithout(b, k);
      if k in a {
        SumWithout(a, k);
        SumGe(a - {k}, b - {k});
      } else {
        SumGe(a, b - {k});
      }
    }
  }

  // ---- adding up by groups ----

  /** The entries of m whose key falls in group g. */
  ghost function Group<K(!new), G>(m: map<K, int>, key: K -> G, g: G): map<K, int> {
    map k | k in m && key(k) == g :: m[k]
  }

  ghost function GroupSums<K(!new), G(!new)>(m: map<K, int>, key: K -> G, groups: set<G>): map<G, int> {
    map g | g in groups :: Sum(Group(m, key, g))
  }

  /** Adding up group by group gives the whole, as long as every entry is in some group. */
  lemma {:induction false} GroupSumsAddUp<K(!new), G(!new)>(m: map<K, int>, key: K -> G, groups: set<G>)
    requires forall k :: k in m ==> key(k) in groups
    ensures Sum(GroupSums(m, key, groups)) == Sum(m)
    decreases |m|
  {
    if m == map[] {
      forall g | g in groups ensures GroupSums(m, key, groups)[g] == 0 { assert Group(m, key, g) == map[]; }
      SumSameSupport(map[], GroupSums(m, key, groups));
    } else {
      var k :| k in m;
      var rest := m - {k};
      GroupSumsAddUp(rest, key, groups);
      SumWithout(m, k);
      var g := key(k);
      GroupWithout(m, key, k);
      assert GroupSums(m, key, groups) == GroupSums(rest, key, groups)[g := Sum(Group(m, key, g))] by {
        forall h | h in groups && h != g ensures Group(m, key, h) == Group(rest, key, h) {}
      }
      SumStore(GroupSums(rest, key, groups), g, Sum(Group(m, key, g)));
    }
  }

  lemma GroupWithout<K(!new), G(!new)>(m: map<K, int>, key: K -> G, k: K)
    requires k in m
    ensures Sum(Group(m, key, key(k))) == m[k] + Sum(Group(m - {k}, key, key(k)))
  {
    SumWithout(Group(m, key, key(k)), k);
    assert Group(m, key, key(k)) - {k} == Group(m - {k}, key, key(k));
  }

  function SeqSum(s: seq<int>): int {
    if s == [] then 0 else SeqSum(s[..|s| - 1]) + s[|s| - 1]
  }

  /** Flooring the parts of a whole loses less than one unit per part beyond the first:
      q_i = floor(c * d_i / den) sum to at most floor(c * sum d_i / den), and to at least
      that minus (number of parts - 1). */
  function FloorParts(c: int, den: int, d: seq<int>): int
    requires 0 < den
  {
    if d == [] then 0 else FloorParts(c, den, d[..|d| - 1]) + c * d[|d| - 1] / den
  }

  lemma {:induction false} FloorPartsBounds(c: int, den: int, d: seq<int>)
    requires 0 < den && d != []
    ensures FloorParts(c, den, d) <= c * SeqSum(d) / den <= FloorParts(c, den, d) + |d| - 1
  {
    var init, last := d[..|d| - 1], d[|d| - 1];
    assert c * SeqSum(d) == c * SeqSum(init) + c * last;
    FloorOfSum(c * SeqSum(init), c * last, den);
    if init == [] {
      assert c * SeqSum(init) == 0;
    } else {
      FloorPartsBounds(c, den, init);
    }
  }

  lemma FloorOfSum(a: int, b: int, den: int)
    requires 0 < den
    ensures a / den + b / den <= (a + b) / den <= a / den + b / den + 1
    ensures a == 0 ==> (a + b) / den == a / den + b / den && a / den == 0
  {
    var q, r := a / den, b / den;
    FloorDiv(a, den);
    FloorDiv(b, den);
    assert (q + r) * den == q * den + r * den;
    assert (q + r + 2) * den == q * den + r * den + 2 * den;
    FloorAtLeast(q + r, a + b, den);
    FloorAtLeast(q + r + 2, a + b, den);
  }
}
