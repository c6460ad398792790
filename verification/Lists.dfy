/** Lists: filtering, removing one element, and stable sorting. */
module Lists {

  predicate Unique<T(==)>(s: seq<T>) {
    forall i, j :: 0 <= i < j < |s| ==> s[i] != s[j]
  }

  function Filter<T>(s: seq<T>, keep: T -> bool): (r: seq<T>) {
    if s == [] then []
    else Filter(s[..|s| - 1], keep) + (if keep(s[|s| - 1]) then [s[|s| - 1]] else [])
  }

  lemma {:induction false} FilterSame<T>(s: seq<T>, f: T -> bool, g: T -> bool)
    requires forall x :: x in s ==> f(x) == g(x)
    ensures Filter(s, f) == Filter(s, g)
  {
    if s != [] {
      FilterSame(s[..|s| - 1], f, g);
    }
  }

  lemma {:induction false} FilterHas<T>(s: seq<T>, keep: T -> bool, x: T)
    ensures x in Filter(s, keep) <==> x in s && keep(x)
  {
    if s != [] {
      var n := |s| - 1;
      FilterHas(s[..n], keep, x);
      assert s == s[..n] + [s[n]];
    }
  }

  lemma {:induction false} FilterUnique<T>(s: seq<T>, keep: T -> bool)
    requires Unique(s)
    ensures Unique(Filter(s, keep))
  {
    if s != [] {
      var n := |s| - 1;
      FilterUnique(s[..n], keep);
      FilterHas(s[..n], keep, s[n]);
    }
  }

  lemma FilterAppend<T>(s: seq<T>, x: T, keep: T -> bool)
    ensures Filter(s + [x], keep) == Filter(s, keep) + (if keep(x) then [x] else [])
  {
    assert (s + [x])[..|s|] == s;
  }

  lemma {:induction false} FilterTwice<T>(s: seq<T>, f: T -> bool, g: T -> bool, h: T -> bool)
    requires forall x :: x in s ==> h(x) == (f(x) && g(x))
    ensures Filter(Filter(s, f), g) == Filter(s, h)
  {
    if s != [] {
      var n := |s| - 1;
      assert s[n] in s;
      FilterTwice(s[..n], f, g, h);
      FilterAppend(Filter(s[..n], f), s[n], g);
      assert Filter(s[..n], f) + [] == Filter(s[..n], f);
    }
  }

  lemma {:induction false} FilterConcat<T>(a: seq<T>, b: seq<T>, keep: T -> bool)
    ensures Filter(a + b, keep) == Filter(a, keep) + Filter(b, keep)
  {
    if b == [] {
      assert a + b == a;
    } else {
      var n := |b| - 1;
      FilterConcat(a, b[..n], keep);
      assert a + b == (a + b[..n]) + [b[n]];
      FilterAppend(a + b[..n], b[n], keep);
    }
  }

  lemma {:induction false} FilterAll<T>(s: seq<T>, keep: T -> bool)
    requires forall x :: x in s ==> keep(x)
    ensures Filter(s, keep) == s
  {
    if s != [] {
      var n := |s| - 1;
      FilterAll(s[..n], keep);
      assert s == s[..n] + [s[n]];
    }
  }

  lemma {:induction false} FilterNone<T>(s: seq<T>, keep: T -> bool)
    requires forall x :: x in s ==> !keep(x)
    ensures Filter(s, keep) == []
  {
    if s != [] {
      FilterNone(s[..|s| - 1], keep);
    }
  }

  /** A list split in two by a condition keeps every element with its multiplicity. */
  lemma {:induction false} FilterSplit<T>(s: seq<T>, f: T -> bool, g: T -> bool, both: T -> bool)
    requires forall x :: x in s ==> both(x) == (f(x) || g(x)) && !(f(x) && g(x))
    ensures multiset(Filter(s, both)) == multiset(Filter(s, f)) + multiset(Filter(s, g))
  {
    if s != [] {
      FilterSplit(s[..|s| - 1], f, g, both);
    }
  }

  // ----- removing one element -----

  function RemoveFirst<T(==)>(s: seq<T>, x: T): seq<T> {
    if s == [] then []
    else if s[0] == x then s[1..]
    else [s[0]] + RemoveFirst(s[1..], x)
  }

  lemma {:induction false} FilterPrepend<T>(s: seq<T>, keep: T -> bool)
    requires s != []
    ensures Filter(s, keep) == (if keep(s[0]) then [s[0]] else []) + Filter(s[1..], keep)
  {
    var n := |s| - 1;
    if n > 0 {
      FilterPrepend(s[..n], keep);
      var tail := s[1..];
      assert s[..n][1..] == tail[..n - 1] && tail[n - 1] == s[n];
      assert Filter(tail, keep) == Filter(tail[..n - 1], keep) + (if keep(s[n]) then [s[n]] else []);
    }
  }

  lemma {:induction false} RemoveFirstFilters<T>(s: seq<T>, x: T, keep: T -> bool)
    requires Unique(s)
    requires forall y :: y in s ==> (keep(y) <==> y != x)
    ensures RemoveFirst(s, x) == Filter(s, keep)
  {
    if s != [] {
      FilterPrepend(s, keep);
      if s[0] == x {
        FilterAll(s[1..], keep);
      } else {
        RemoveFirstFilters(s[1..], x, keep);
      }
    }
  }

  lemma {:induction false} RemoveFirstAt<T>(s: seq<T>, i: nat, x: T)
    requires i < |s| && s[i] == x && x !in s[..i]
    ensures RemoveFirst(s, x) == s[..i] + s[i + 1..]
  {
    if i > 0 {
      assert s[0] == s[..i][0];
      assert s[1..][..i - 1] == s[..i][1..];
      RemoveFirstAt(s[1..], i - 1, x);
    }
  }

  lemma {:induction false} RemoveFirstAbsent<T>(s: seq<T>, x: T)
    requires x !in s
    ensures RemoveFirst(s, x) == s
  {
    if s != [] {
      RemoveFirstAbsent(s[1..], x);
    }
  }

  // ----- stable sorting -----

  function Insert<T>(s: seq<T>, x: T, rank: T -> nat): seq<T> {
    if s == [] || rank(s[|s| - 1]) <= rank(x) then s + [x]
    else Insert(s[..|s| - 1], x, rank) + [s[|s| - 1]]
  }

  /** Sorts by rank, keeping elements of equal rank in their order. */
  function SortStable<T>(s: seq<T>, rank: T -> nat): seq<T> {
    if s == [] then [] else Insert(SortStable(s[..|s| - 1], rank), s[|s| - 1], rank)
  }

  predicate Sorted<T>(s: seq<T>, rank: T -> nat) {
    forall i, j :: 0 <= i < j < |s| ==> rank(s[i]) <= rank(s[j])
  }

  predicate Ascending<T>(s: seq<T>, rank: T -> nat) {
    forall i, j :: 0 <= i < j < |s| ==> rank(s[i]) < rank(s[j])
  }

  lemma {:induction false} InsertKeeps<T>(s: seq<T>, x: T, rank: T -> nat)
    ensures multiset(Insert(s, x, rank)) == multiset(s) + multiset{x}
  {
    if s != [] && rank(s[|s| - 1]) > rank(x) {
      var n := |s| - 1;
      InsertKeeps(s[..n], x, rank);
      assert s == s[..n] + [s[n]];
    }
  }

  lemma {:induction false} InsertSorts<T>(s: seq<T>, x: T, rank: T -> nat)
    requires Sorted(s, rank)
    ensures Sorted(Insert(s, x, rank), rank)
  {
    if s != [] && rank(s[|s| - 1]) > rank(x) {
      var n := |s| - 1;
      InsertSorts(s[..n], x, rank);
      InsertKeeps(s[..n], x, rank);
      var r := Insert(s[..n], x, rank);
      forall i | 0 <= i < |r|
        ensures rank(r[i]) <= rank(s[n])
      {
        assert r[i] in multiset(s[..n]) + multiset{x};
        if r[i] != x {
          assert r[i] in s[..n];
        }
      }
    }
  }

  lemma {:induction false} SortStableSorts<T>(s: seq<T>, rank: T -> nat)
    ensures Sorted(SortStable(s, rank), rank)
    ensures multiset(SortStable(s, rank)) == multiset(s)
  {
    hide Insert, Sorted;
    if s != [] {
      var n := |s| - 1;
      SortStableSorts(s[..n], rank);
      InsertSorts(SortStable(s[..n], rank), s[n], rank);
      InsertKeeps(SortStable(s[..n], rank), s[n], rank);
      MultisetInit(s);
    } else {
      EmptySorted(s, rank);
    }
  }

  function HasRank<T>(rank: T -> nat, k: nat): T -> bool {
    (x: T) => rank(x) == k
  }

  lemma {:induction false} InsertStable<T>(s: seq<T>, x: T, rank: T -> nat, k: nat)
    ensures Filter(Insert(s, x, rank), HasRank(rank, k)) == Filter(s + [x], HasRank(rank, k))
  {
    hide Filter;
    FilterAppend(s, x, HasRank(rank, k));
    if s != [] && rank(s[|s| - 1]) > rank(x) {
      var n := |s| - 1;
      InsertStable(s[..n], x, rank, k);
      FilterAppend(s[..n], x, HasRank(rank, k));
      FilterAppend(Insert(s[..n], x, rank), s[n], HasRank(rank, k));
      FilterAppend(s[..n], s[n], HasRank(rank, k));
      assert s == s[..n] + [s[n]];
    }
  }

  /** The sort is stable: the elements of one rank stay in their order. */
  lemma {:induction false} SortIsStable<T>(s: seq<T>, rank: T -> nat, k: nat)
    ensures Filter(SortStable(s, rank), HasRank(rank, k)) == Filter(s, HasRank(rank, k))
  {
    hide Insert, Filter;
    if s != [] {
      var n := |s| - 1;
      var r := SortStable(s[..n], rank);
      SortIsStable(s[..n], rank, k);
      InsertStable(r, s[n], rank, k);
      FilterAppend(r, s[n], HasRank(rank, k));
      FilterAppend(s[..n], s[n], HasRank(rank, k));
      assert s == s[..n] + [s[n]];
    }
  }

  lemma EmptySorted<T>(s: seq<T>, rank: T -> nat)
    requires s == []
    ensures Sorted(s, rank)
  {
  }

  /** Elements of distinct rank have one sorted order. */
  lemma {:induction false} SortedTwins<T>(a: seq<T>, b: seq<T>, rank: T -> nat)
    requires multiset(a) == multiset(b)
    requires Sorted(a, rank)
    requires Ascending(b, rank)
    ensures a == b
  {
    hide Sorted, Ascending;
    assert |a| == |multiset(a)| == |multiset(b)| == |b|;
    if a != [] {
      SameLast(a, b, rank);
      SortedInit(a, b, rank);
      MultisetInit(a);
      MultisetInit(b);
      SortedTwins(a[..|a| - 1], b[..|b| - 1], rank);
      SameList(a, b);
    }
  }

  lemma SameList<T>(a: seq<T>, b: seq<T>)
    requires a != [] && b != [] && a[..|a| - 1] == b[..|b| - 1] && a[|a| - 1] == b[|b| - 1]
    ensures a == b
  {
    assert a == a[..|a| - 1] + [a[|a| - 1]] && b == b[..|b| - 1] + [b[|b| - 1]];
  }

  lemma SortedInit<T>(a: seq<T>, b: seq<T>, rank: T -> nat)
    requires a != [] && b != [] && Sorted(a, rank) && Ascending(b, rank)
    ensures Sorted(a[..|a| - 1], rank) && Ascending(b[..|b| - 1], rank)
  {
  }

  lemma MultisetInit<T>(s: seq<T>)
    requires s != []
    ensures multiset(s[..|s| - 1]) == multiset(s) - multiset{s[|s| - 1]}
  {
    assert s == s[..|s| - 1] + [s[|s| - 1]];
  }

  lemma SameLast<T>(a: seq<T>, b: seq<T>, rank: T -> nat)
    requires a != [] && |a| == |b| && multiset(a) == multiset(b)
    requires Sorted(a, rank)
    requires Ascending(b, rank)
    ensures a[|a| - 1] == b[|b| - 1]
  {
    var n := |a| - 1;
    assert a[n] in multiset(b) && b[n] in multiset(a);
    var i :| 0 <= i <= n && b[i] == a[n];
    var j :| 0 <= j <= n && a[j] == b[n];
    if i < n {
      assert rank(b[i]) < rank(b[n]);
    }
  }

  /** Sorting any shuffle of a list whose ranks increase gives the list back. */
  lemma SortRestores<T>(shuffled: seq<T>, s: seq<T>, rank: T -> nat)
    requires multiset(shuffled) == multiset(s)
    requires Ascending(s, rank)
    ensures SortStable(shuffled, rank) == s
  {
    SortStableSorts(shuffled, rank);
    SortedTwins(SortStable(shuffled, rank), s, rank);
  }

  /** A filtered list keeps the order of its source. */
  lemma {:induction false} FilterOrdered<T>(s: seq<T>, keep: T -> bool, rank: T -> nat)
    requires Ascending(s, rank)
    ensures Ascending(Filter(s, keep), rank)
  {
    if s != [] {
      var n := |s| - 1;
      FilterOrdered(s[..n], keep, rank);
      var r := Filter(s[..n], keep);
      forall i | 0 <= i < |r|
        ensures rank(r[i]) < rank(s[n])
      {
        FilterHas(s[..n], keep, r[i]);
      }
    }
  }
}
