/** Query building blocks over table rows: where, order by, take, paginate. */
module Seqs {

  import opened Base

  /** WHERE p: the rows satisfying p, in their original order. */
  function Filter<T(!new)>(s: seq<T>, p: T -> bool): (r: seq<T>)
    ensures |r| <= |s|
    ensures forall x :: x in r <==> x in s && p(x)
    ensures forall i | 0 <= i < |r| :: p(r[i])

    ensures |r| == |s| <==> forall i | 0 <= i < |s| :: p(s[i])
  {
    if s == [] then []
    else
      assert s == [s[0]] + s[1..];
      if p(s[0]) then [s[0]] + Filter(s[1..], p) else Filter(s[1..], p)
  }

  /** No row occurs twice. */
  ghost predicate Distinct<T>(s: seq<T>) {
    forall i, j | 0 <= i < j < |s| :: s[i] != s[j]
  }

  /** WHERE on a table without duplicate rows returns none. */
  lemma {:induction false} FilterDistinct<T(!new)>(s: seq<T>, p: T -> bool)
    requires Distinct(s)
    ensures Distinct(Filter(s, p))
  {
    if s != [] {
      var rest := s[1..];
      assert Distinct(rest) by {
        forall i, j | 0 <= i < j < |rest| ensures rest[i] != rest[j] {
          assert rest[i] == s[i + 1] && rest[j] == s[j + 1];
        }
      }
      forall k | 0 <= k < |rest| ensures rest[k] != s[0] {
        assert rest[k] == s[k + 1];
      }
      FilterDistinct(rest, p);
      var f := Filter(rest, p);
      if p(s[0]) {
        var r := [s[0]] + f;
        forall i, j | 0 <= i < j < |r| ensures r[i] != r[j] {
          assert r[j] == f[j - 1] && f[j - 1] in rest;
          if i > 0 {
            assert r[i] == f[i - 1];
          }
        }
      }
    }
  }

  /** A sequence without duplicates has as many distinct elements as rows. */
  lemma {:induction false} DistinctCard<T>(s: seq<T>)
    requires Distinct(s)
    ensures |set x | x in s| == |s|
  {
    if s != [] {
      var rest := s[1..];
      assert Distinct(rest) by {
        forall i, j | 0 <= i < j < |rest| ensures rest[i] != rest[j] {
          assert rest[i] == s[i + 1] && rest[j] == s[j + 1];
        }
      }
      DistinctCard(rest);
      assert s[0] !in rest by {
        forall k | 0 <= k < |rest| ensures rest[k] != s[0] {
          assert rest[k] == s[k + 1];
        }
      }
      assert (set x | x in s) == {s[0]} + (set x | x in rest) by {
        assert s == [s[0]] + rest;
      }
    }
  }

  /** Two disjoint WHERE clauses select at most as many rows as the table holds. */
  lemma {:induction false} DisjointFiltersBound<T(!new)>(s: seq<T>, p: T -> bool, q: T -> bool)
    requires forall i | 0 <= i < |s| :: !(p(s[i]) && q(s[i]))
    ensures |Filter(s, p)| + |Filter(s, q)| <= |s|
  {
    if s != [] {
      DisjointFiltersBound(s[1..], p, q);
    }
  }

  /** A WHERE clause implied by another selects no more rows. */
  lemma {:induction false} FilterMonotone<T(!new)>(s: seq<T>, p: T -> bool, q: T -> bool)
    requires forall i | 0 <= i < |s| :: p(s[i]) ==> q(s[i])
    ensures |Filter(s, p)| <= |Filter(s, q)|
  {
    if s != [] {
      FilterMonotone(s[1..], p, q);
    }
  }

  /** Two WHERE clauses that agree on every row select the same rows. */
  lemma {:induction false} FilterExt<T(!new)>(s: seq<T>, p: T -> bool, q: T -> bool)
    requires forall x | x in s :: p(x) == q(x)
    ensures Filter(s, p) == Filter(s, q)
  {
    if s != [] {
      assert s[0] in s;
      assert forall x | x in s[1..] :: x in s;
      FilterExt(s[1..], p, q);
    }
  }

  /** A WHERE clause applied to the result of another is their conjunction. */
  lemma {:induction false} FilterFilter<T(!new)>(s: seq<T>, p: T -> bool, q: T -> bool, pq: T -> bool)
    requires forall x :: pq(x) == (p(x) && q(x))
    ensures Filter(Filter(s, p), q) == Filter(s, pq)
  {
    if s != [] {
      FilterFilter(s[1..], p, q, pq);
    }
  }

  /** Filtering keeps the relative order of the rows it keeps. */
  lemma {:induction false} FilterSorted<T(!new)>(s: seq<T>, p: T -> bool, le: (T, T) -> bool)
    requires SortedBy(s, le)
    ensures SortedBy(Filter(s, p), le)
  {
    if s != [] {
      var rest := Filter(s[1..], p);
      SortedSlice(s, 1, |s|, le);
      FilterSorted(s[1..], p, le);
      if p(s[0]) {
        forall k | 0 <= k < |rest| ensures le(s[0], rest[k]) {
          var m :| 0 <= m < |s[1..]| && s[1..][m] == rest[k];
          assert s[1 + m] == rest[k];
        }
        assert Filter(s, p) == [s[0]] + rest;
      }
    }
  }

  /** SELECT key FROM s, as a set. */
  function Keys<T, K(==)>(s: seq<T>, key: T -> K): (r: set<K>)
    ensures forall x | x in s :: key(x) in r
  {
    if s == [] then {}
    else
      assert s == [s[0]] + s[1..];
      {key(s[0])} + Keys(s[1..], key)
  }

  /** Every key in the set is the key of some row. */
  lemma {:induction false} KeysWitness<T, K>(s: seq<T>, key: T -> K, k: K)
    requires k in Keys(s, key)
    ensures exists x | x in s :: key(x) == k
  {
    if k != key(s[0]) {
      KeysWitness(s[1..], key, k);
    }
  }

  ghost predicate TotalPreorder<T(!new)>(le: (T, T) -> bool) {
    && (forall a, b :: le(a, b) || le(b, a))
    && (forall a, b, c :: le(a, b) && le(b, c) ==> le(a, c))
  }

  ghost predicate SortedBy<T>(s: seq<T>, le: (T, T) -> bool) {
    forall i, j | 0 <= i < j < |s| :: le(s[i], s[j])
  }

  /** Places x before the first element it may precede. */
  function Insert<T>(x: T, s: seq<T>, le: (T, T) -> bool): (r: seq<T>)
    ensures multiset(r) == multiset(s) + multiset{x}
    ensures |r| == |s| + 1
  {
    if s == [] then [x]
    else if le(x, s[0]) then [x] + s
    else
      assert s == [s[0]] + s[1..];
      [s[0]] + Insert(x, s[1..], le)
  }

  /** ORDER BY: a permutation of s ordered by le (insertion sort). */
  function SortBy<T(!new)>(s: seq<T>, le: (T, T) -> bool): (r: seq<T>)
    ensures multiset(r) == multiset(s)
    ensures |r| == |s|
    ensures forall x :: x in r <==> x in s
  {
    if s == [] then []
    else
      assert s == [s[0]] + s[1..];
      var r := Insert(s[0], SortBy(s[1..], le), le);
      assert forall x :: x in r <==> x in multiset(r);
      r
  }

  lemma {:induction false} InsertSorted<T(!new)>(x: T, s: seq<T>, le: (T, T) -> bool)
    requires TotalPreorder(le)
    requires SortedBy(s, le)
    ensures SortedBy(Insert(x, s, le), le)
  {
    if s != [] && !le(x, s[0]) {
      var t := Insert(x, s[1..], le);
      InsertSorted(x, s[1..], le);
      assert multiset(t) == multiset(s[1..]) + multiset{x};
      forall k | 0 <= k < |t| ensures le(s[0], t[k]) {
        assert t[k] in multiset(t);
        if t[k] != x {
          assert t[k] in multiset(s[1..]);
          assert t[k] in s[1..];
        }
      }
    }
  }

  /** The result of SortBy is ordered whenever le is a total preorder. */
  lemma {:induction false} SortBySorted<T(!new)>(s: seq<T>, le: (T, T) -> bool)
    requires TotalPreorder(le)
    ensures SortedBy(SortBy(s, le), le)
  {
    if s != [] {
      SortBySorted(s[1..], le);
      InsertSorted(s[0], SortBy(s[1..], le), le);
    }
  }

  /** take(n) / limit n. */
  function Take<T>(s: seq<T>, n: nat): (r: seq<T>)
    ensures |r| <= n && |r| <= |s|
    ensures |s| >= n ==> |r| == n
    ensures |s| < n ==> r == s
    ensures r == s[..|r|]
    ensures forall x | x in r :: x in s
    ensures multiset(r) <= multiset(s)
    ensures Distinct(s) ==> Distinct(r)
  {
    var k := if |s| <= n then |s| else n;
    assert s == s[..k] + s[k..];
    s[..k]
  }

  /** Rows left out by a limit on an ordered sequence are ordered after every
      row kept: the limit keeps a top-n. */
  lemma TakeKeepsTop<T>(s: seq<T>, n: nat, le: (T, T) -> bool, x: T)
    requires SortedBy(s, le)
    requires x in s && x !in Take(s, n)
    ensures |Take(s, n)| == n
    ensures forall y | y in Take(s, n) :: le(y, x)
  {
    var j :| 0 <= j < |s| && s[j] == x;
    var t := Take(s, n);
    assert j >= |t|;
    forall y | y in t ensures le(y, x) {
      var i :| 0 <= i < |t| && t[i] == y;
      assert s[i] == y;
    }
  }

  /** A sorted sequence stays sorted when a prefix or a slice is taken. */
  lemma SortedSlice<T>(s: seq<T>, lo: nat, hi: nat, le: (T, T) -> bool)
    requires SortedBy(s, le)
    requires lo <= hi <= |s|
    ensures SortedBy(s[lo..hi], le)
  {
    forall i, j | 0 <= i < j < hi - lo ensures le(s[lo..hi][i], s[lo..hi][j]) {
      assert s[lo..hi][i] == s[lo + i] && s[lo..hi][j] == s[lo + j];
    }
  }

  /** Offset pagination: page `page` (1-based) of `perPage` rows. */
  function PageOf<T>(s: seq<T>, perPage: nat, page: nat): (r: seq<T>)
    requires perPage > 0 && page >= 1
    ensures |r| <= perPage
    ensures (page - 1) * perPage >= |s| ==> r == []
    ensures (page - 1) * perPage < |s| ==>
      r == s[(page - 1) * perPage .. if page * perPage <= |s| then page * perPage else |s|]
    ensures forall x | x in r :: x in s
  {
    var start := (page - 1) * perPage;
    assert page * perPage == start + perPage;
    if start >= |s| then []
    else s[start .. if start + perPage <= |s| then start + perPage else |s|]
  }

  /** Laravel's LengthAwarePaginator::lastPage. */
  function LastPage(total: nat, perPage: nat): (r: nat)
    requires perPage > 0
    ensures r >= 1
    ensures total <= r * perPage
    ensures r == 1 || (r - 1) * perPage < total
  {
    CeilAtLeastOne(total, perPage)
  }

  /** The block of size d that position k falls in. */
  lemma DivBlock(k: nat, d: nat)
    requires d > 0
    ensures (k / d) * d <= k < (k / d) * d + d
    ensures (k / d + 1) * d == (k / d) * d + d
  {
    assert k == (k / d) * d + k % d;
  }

  lemma {:induction false} MulMonotone(a: nat, b: nat, d: nat)
    requires a <= b
    ensures a * d <= b * d
    decreases b - a
  {
    if a < b {
      MulMonotone(a, b - 1, d);
      assert b * d == (b - 1) * d + d;
    }
  }

  /** Every row of s lies on the page its position falls in, and that page
      is within the last page. */
  lemma PageOfCovers<T>(s: seq<T>, perPage: nat, k: nat)
    requires perPage > 0 && k < |s|
    ensures k / perPage + 1 <= LastPage(|s|, perPage)
    ensures s[k] in PageOf(s, perPage, k / perPage + 1)
  {
    var q := k / perPage;
    DivBlock(k, perPage);
    var last := LastPage(|s|, perPage);
    if last < q + 1 {
      MulMonotone(last, q, perPage);
    }
    var start := q * perPage;
    var end := if (q + 1) * perPage <= |s| then (q + 1) * perPage else |s|;
    var page := PageOf(s, perPage, q + 1);
    assert page == s[start..end];
    assert page[k - start] == s[k];
  }

  /** One page of a result set, with the figures the paginator reports. */
  datatype Page<T> = Page(items: seq<T>, total: nat, currentPage: nat, lastPage: nat)

  /** The paginator's current page: the `page` query value when it is an
      integer of at least 1, otherwise 1. */
  function CurrentPage(requested: Field<int>): (n: nat)
    ensures n >= 1
    ensures requested.Given? && requested.value >= 1 ==> n == requested.value
    ensures !(requested.Given? && requested.value >= 1) ==> n == 1
  {
    if requested.Given? && requested.value >= 1 then requested.value else 1
  }

  /** paginate(perPage) over an ordered result set. */
  function Paginate<T>(s: seq<T>, perPage: nat, requested: Field<int>): (r: Page<T>)
    requires perPage > 0
    ensures |r.items| <= perPage && r.total == |s|
    ensures r.currentPage == CurrentPage(requested) && r.lastPage == LastPage(|s|, perPage)
    ensures r.items == PageOf(s, perPage, r.currentPage)
  {
    var n := CurrentPage(requested);
    Page(PageOf(s, perPage, n), |s|, n, LastPage(|s|, perPage))
  }

  /** Paginating loses nothing: every row is on some page from 1 to the last. */
  lemma PaginateCovers<T>(s: seq<T>, perPage: nat, x: T)
    requires perPage > 0 && x in s
    ensures exists n: nat | 1 <= n <= LastPage(|s|, perPage) :: x in Paginate(s, perPage, Given(n)).items
  {
    var k :| 0 <= k < |s| && s[k] == x;
    PageOfCovers(s, perPage, k);
    var n: nat := k / perPage + 1;
    assert x in Paginate(s, perPage, Given(n)).items;
  }
}
