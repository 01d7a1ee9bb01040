/** The ordering that `Array.prototype.sort` gives when its comparator
    subtracts keys: a stable sort by rank. ES2019 requires the built-in
    sort to be stable, and both pipelines rely on that for ties. Modelled
    as an insertion sort whose result is proved sorted, a permutation of
    its input, and order-preserving on every class of equal ranks. */
module StableSort {
  import opened Common

  predicate SortedBy<T>(s: seq<T>, key: T -> Rank)
  {
    forall i, j :: 0 <= i < j < |s| ==> LexLe(key(s[i]), key(s[j]))
  }

  /** The elements of `s` whose rank is `k`, in their order in `s`. */
  function Select<T>(s: seq<T>, key: T -> Rank, k: Rank): seq<T>
  {
    if s == [] then []
    else (if key(s[0]) == k then [s[0]] else []) + Select(s[1..], key, k)
  }

  /** Inserts `x` before the first element that does not rank below it. */
  function Insert<T>(x: T, s: seq<T>, key: T -> Rank): (r: seq<T>)
    ensures multiset(r) == multiset(s) + multiset{x}
  {
    if s == [] then [x]
    else if LexLe(key(x), key(s[0])) then [x] + s
    else
      assert s == [s[0]] + s[1..];
      [s[0]] + Insert(x, s[1..], key)
  }

  lemma InsertMember<T>(x: T, s: seq<T>, key: T -> Rank, y: T)
    requires y in Insert(x, s, key)
    ensures y == x || y in s
  {
    assert y in multiset(Insert(x, s, key));
  }

  lemma {:induction false} InsertSorted<T>(x: T, s: seq<T>, key: T -> Rank)
    requires SortedBy(s, key)
    ensures SortedBy(Insert(x, s, key), key)
  {
    if s == [] {
    } else if LexLe(key(x), key(s[0])) {
      var r := [x] + s;
      forall i, j | 0 <= i < j < |r| ensures LexLe(key(r[i]), key(r[j])) {
        if i == 0 && j > 1 {
          LexLeTransitive(key(x), key(s[0]), key(s[j - 1]));
        }
      }
    } else {
      LexLeTotal(key(x), key(s[0]));
      var rest := Insert(x, s[1..], key);
      InsertSorted(x, s[1..], key);
      var r := [s[0]] + rest;
      forall i, j | 0 <= i < j < |r| ensures LexLe(key(r[i]), key(r[j])) {
        if i == 0 {
          var y := rest[j - 1];
          InsertMember(x, s[1..], key, y);
          if y != x {
            var q :| 0 <= q < |s[1..]| && s[1..][q] == y;
            assert s[q + 1] == y;
          }
        } else {
          assert r[i] == rest[i - 1] && r[j] == rest[j - 1];
        }
      }
    }
  }

  /** Stable insertion sort: each element goes in front of the elements
      that follow it in the input and rank the same. */
  function SortBy<T>(s: seq<T>, key: T -> Rank): (r: seq<T>)
    ensures |r| == |s|
    ensures multiset(r) == multiset(s)
    ensures SortedBy(r, key)
  {
    if s == [] then []
    else
      assert s == [s[0]] + s[1..];
      var rest := SortBy(s[1..], key);
      InsertSorted(s[0], rest, key);
      assert |multiset(Insert(s[0], rest, key))| == |s|;
      Insert(s[0], rest, key)
  }

  lemma {:induction false} SelectInsert<T>(x: T, s: seq<T>, key: T -> Rank, k: Rank)
    ensures Select(Insert(x, s, key), key, k) == (if key(x) == k then [x] else []) + Select(s, key, k)
  {
    var sx := if key(x) == k then [x] else [];
    if s == [] {
      assert Insert(x, s, key) == [x];
      assert Select([x], key, k) == sx + Select([x][1..], key, k);
    } else if LexLe(key(x), key(s[0])) {
      var r := [x] + s;
      assert Insert(x, s, key) == r;
      assert r[0] == x && r[1..] == s;
      assert Select(r, key, k) == sx + Select(s, key, k);
    } else {
      var s0 := if key(s[0]) == k then [s[0]] else [];
      LexLeReflexive(key(x));
      assert key(x) != key(s[0]);
      var rest := Insert(x, s[1..], key);
      var r := [s[0]] + rest;
      assert Insert(x, s, key) == r;
      SelectInsert(x, s[1..], key, k);
      assert r[0] == s[0] && r[1..] == rest;
      assert Select(r, key, k) == s0 + Select(rest, key, k);
      assert Select(s, key, k) == s0 + Select(s[1..], key, k);
      if key(s[0]) == k {
        assert sx == [];
        assert Select(rest, key, k) == Select(s[1..], key, k);
      } else {
        assert s0 == [];
        assert Select(r, key, k) == Select(rest, key, k);
      }
    }
  }

  /** Stability: for every rank, the elements of that rank come out in the
      order they went in. */
  lemma {:induction false} SortByStable<T>(s: seq<T>, key: T -> Rank, k: Rank)
    ensures Select(SortBy(s, key), key, k) == Select(s, key, k)
  {
    if s != [] {
      SortByStable(s[1..], key, k);
      SelectInsert(s[0], SortBy(s[1..], key), key, k);
    }
  }

  /** Elements that all rank the same come out as they went in. */
  lemma {:induction false} SortByConstantRank<T>(s: seq<T>, key: T -> Rank, k: Rank)
    requires forall i :: 0 <= i < |s| ==> key(s[i]) == k
    ensures SortBy(s, key) == s
  {
    var r := SortBy(s, key);
    forall i | 0 <= i < |r| ensures key(r[i]) == k {
      assert r[i] in multiset(s);
    }
    SelectAll(s, key, k);
    SelectAll(r, key, k);
    SortByStable(s, key, k);
  }

  lemma {:induction false} SelectAll<T>(s: seq<T>, key: T -> Rank, k: Rank)
    requires forall i :: 0 <= i < |s| ==> key(s[i]) == k
    ensures Select(s, key, k) == s
  {
    if s != [] {
      SelectAll(s[1..], key, k);
    }
  }

  /** An element whose `f` value is new keeps an insertion free of repeats. */
  lemma {:induction false} InsertKeepsDistinct<T, K>(x: T, s: seq<T>, key: T -> Rank, f: T -> K)
    requires DistinctBy(s, f)
    requires forall i :: 0 <= i < |s| ==> f(s[i]) != f(x)
    ensures DistinctBy(Insert(x, s, key), f)
  {
    if s != [] && !LexLe(key(x), key(s[0])) {
      var tail := s[1..];
      assert DistinctBy(tail, f) by {
        forall i, j | 0 <= i < j < |tail| ensures f(tail[i]) != f(tail[j]) {
          assert tail[i] == s[i + 1] && tail[j] == s[j + 1];
        }
      }
      InsertKeepsDistinct(x, tail, key, f);
      var rest := Insert(x, tail, key);
      var r := [s[0]] + rest;
      forall j | 0 <= j < |rest| ensures f(s[0]) != f(rest[j]) {
        assert rest[j] in multiset(rest);
        if rest[j] != x {
          assert rest[j] in multiset(tail);
          var q :| 0 <= q < |tail| && tail[q] == rest[j];
          assert s[q + 1] == rest[j];
        }
      }
      forall i, j | 0 <= i < j < |r| ensures f(r[i]) != f(r[j]) {
        if i == 0 {
          assert r[j] == rest[j - 1];
        } else {
          assert r[i] == rest[i - 1] && r[j] == rest[j - 1];
        }
      }
    }
  }

  /** Sorting keeps distinct `f` values distinct. */
  lemma {:induction false} SortByKeepsDistinct<T, K>(s: seq<T>, key: T -> Rank, f: T -> K)
    requires DistinctBy(s, f)
    ensures DistinctBy(SortBy(s, key), f)
  {
    if s != [] {
      var tail := s[1..];
      assert DistinctBy(tail, f) by {
        forall i, j | 0 <= i < j < |tail| ensures f(tail[i]) != f(tail[j]) {
          assert tail[i] == s[i + 1] && tail[j] == s[j + 1];
        }
      }
      SortByKeepsDistinct(tail, key, f);
      var rest := SortBy(tail, key);
      forall j | 0 <= j < |rest| ensures f(rest[j]) != f(s[0]) {
        assert rest[j] in multiset(tail);
        var q :| 0 <= q < |tail| && tail[q] == rest[j];
        assert s[q + 1] == rest[j];
      }
      InsertKeepsDistinct(s[0], rest, key, f);
    }
  }
}
