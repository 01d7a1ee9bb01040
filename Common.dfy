/** Vocabulary shared by both message pipelines: JavaScript's absent values,
    the three states of a periodically fetched snapshot, thrown TypeErrors,
    the extended integers the comparators compute with, and the plain
    object that the pipelines fill as a dictionary. */
module Common {

  /** A value that may be `undefined` or `null`. */
  datatype Option<+T> = None | Some(value: T)

  /** A fetched snapshot: `undefined` until the first fetch settles,
      `null` after a failed one, the decoded value otherwise. */
  datatype Res<+T> = Pending | Failed | Ready(value: T)

  /** What the JavaScript runtime complains about when a pipeline throws. */
  datatype TypeErrorReason =
    | InformedEntityUndefined   // `.every` called on an absent informedEntity
    | HeaderTextUndefined       // `.translation` read from an absent headerText
    | DescriptionTextUndefined  // `.translation` read from an absent descriptionText
    | TranslationEmpty          // `.text` read from `translation[0]` of an empty list
    | FilterNull                // `.includes` called on a null whitelist
    | RouteUndefined            // a property read from an unresolved (undefined) route

  /** An ECMAScript completion: the operation returns a value or throws. */
  datatype Completion<+T> = Normal(value: T) | Throw(reason: TypeErrorReason)

  /** JavaScript truthiness of an optional string: present and not empty. */
  predicate Truthy(s: Option<string>)
  {
    s.Some? && s.value != ""
  }

  /** `x || null` for an optional string: the falsy values collapse to null. */
  function OrNull(s: Option<string>): (r: Option<string>)
    ensures r.Some? <==> Truthy(s)
    ensures r.Some? ==> r == s
  {
    if Truthy(s) then s else None
  }

  /** A route as the presentation layer receives it. */
  datatype RouteObject = RouteObject(id: string, abbreviation: string, color: Option<string>, textColor: Option<string>)

  /** `a` is `b` with some elements left out, the rest in their order. */
  predicate Subsequence<T(==)>(a: seq<T>, b: seq<T>)
  {
    a == [] || (b != [] && ((a[0] == b[0] && Subsequence(a[1..], b[1..])) || Subsequence(a, b[1..])))
  }

  lemma ConcatAssoc<T>(a: seq<T>, b: seq<T>, c: seq<T>)
    ensures a + (b + c) == (a + b) + c
  {
  }

  /** `a` holds every element of `b` that `keep` accepts, as often as `b` does, and nothing else. */
  ghost predicate KeptCounts<T(!new)>(a: seq<T>, b: seq<T>, keep: T -> bool)
  {
    forall x :: multiset(a)[x] == if keep(x) then multiset(b)[x] else 0
  }

  /** Counts are kept one element at a time. */
  lemma KeptCountsCons<T(!new)>(x: T, s: seq<T>, r: seq<T>, keep: T -> bool)
    requires KeptCounts(r, s, keep)
    ensures KeptCounts(if keep(x) then [x] + r else r, [x] + s, keep)
  {
    assert multiset([x] + s) == multiset{x} + multiset(s);
    assert multiset([x] + r) == multiset{x} + multiset(r);
  }

  /** One step of keeping the elements `keep` accepts: what holds of the
      kept tail holds of the kept whole. */
  lemma KeepCons<T(!new)>(x: T, s: seq<T>, r: seq<T>, keep: T -> bool)
    requires forall i :: 0 <= i < |r| ==> keep(r[i]) && r[i] in s
    requires forall i :: 0 <= i < |s| && keep(s[i]) ==> s[i] in r
    requires Subsequence(r, s)
    requires KeptCounts(r, s, keep)
    ensures var r' := if keep(x) then [x] + r else r;
      && (forall i :: 0 <= i < |r'| ==> keep(r'[i]) && r'[i] in [x] + s)
      && (forall i :: 0 <= i < |[x] + s| && keep(([x] + s)[i]) ==> ([x] + s)[i] in r')
      && Subsequence(r', [x] + s)
      && KeptCounts(r', [x] + s, keep)
  {
    KeptCountsCons(x, s, r, keep);
    assert ([x] + s)[1..] == s;
    if keep(x) {
      assert ([x] + r)[1..] == r;
    }
    assert forall i :: 0 < i < |[x] + s| ==> ([x] + s)[i] == s[i - 1];
  }

  lemma {:induction false} SubsequenceMembers<T>(a: seq<T>, b: seq<T>, k: nat)
    requires Subsequence(a, b) && k < |a|
    ensures a[k] in b
  {
    if a[0] == b[0] && Subsequence(a[1..], b[1..]) {
      if k > 0 {
        SubsequenceMembers(a[1..], b[1..], k - 1);
      }
    } else {
      SubsequenceMembers(a, b[1..], k);
    }
  }

  /** No two elements share a value of `f`. */
  predicate DistinctBy<T, K(==)>(s: seq<T>, f: T -> K)
  {
    forall i, j :: 0 <= i < j < |s| ==> f(s[i]) != f(s[j])
  }

  /** Leaving elements out keeps distinct `f` values distinct. */
  lemma {:induction false} SubsequenceKeepsDistinct<T, K>(a: seq<T>, b: seq<T>, f: T -> K)
    requires Subsequence(a, b) && DistinctBy(b, f)
    ensures DistinctBy(a, f)
  {
    if a != [] {
      assert DistinctBy(b[1..], f) by {
        forall i, j | 0 <= i < j < |b[1..]| ensures f(b[1..][i]) != f(b[1..][j]) {
          assert b[1..][i] == b[i + 1] && b[1..][j] == b[j + 1];
        }
      }
      if a[0] == b[0] && Subsequence(a[1..], b[1..]) {
        SubsequenceKeepsDistinct(a[1..], b[1..], f);
        forall i, j | 0 <= i < j < |a| ensures f(a[i]) != f(a[j]) {
          if i == 0 {
            SubsequenceMembers(a[1..], b[1..], j - 1);
            var q :| 0 <= q < |b[1..]| && b[1..][q] == a[j];
            assert b[q + 1] == a[j];
          } else {
            assert a[i] == a[1..][i - 1] && a[j] == a[1..][j - 1];
          }
        }
      } else {
        SubsequenceKeepsDistinct(a, b[1..], f);
      }
    }
  }

  /** Integers extended with the two infinities the comparators use. */
  datatype ExtInt = NegInf | Fin(n: int) | PosInf

  predicate ExtLe(a: ExtInt, b: ExtInt)
  {
    a.NegInf? || b.PosInf? || (a.Fin? && b.Fin? && a.n <= b.n)
  }

  predicate ExtLt(a: ExtInt, b: ExtInt)
  {
    ExtLe(a, b) && a != b
  }

  /** The least element of a non-empty list of keys (`Math.min(...keys)`). */
  function MinOf(ks: seq<ExtInt>): (m: ExtInt)
    requires |ks| > 0
    ensures m in ks
    ensures forall i :: 0 <= i < |ks| ==> ExtLe(m, ks[i])
  {
    if |ks| == 1 then ks[0]
    else
      var rest := MinOf(ks[1..]);
      if ExtLe(ks[0], rest) then ks[0] else rest
  }

  /** A sort key: the keys a comparator consults, in the order it consults them. */
  type Rank = seq<ExtInt>

  /** Lexicographic comparison of ranks: the first differing key decides. */
  predicate LexLe(a: Rank, b: Rank)
  {
    a == [] || (b != [] && (ExtLt(a[0], b[0]) || (a[0] == b[0] && LexLe(a[1..], b[1..]))))
  }

  lemma {:induction false} LexLeReflexive(a: Rank)
    ensures LexLe(a, a)
  {
    if a != [] {
      LexLeReflexive(a[1..]);
    }
  }

  lemma {:induction false} LexLeTotal(a: Rank, b: Rank)
    ensures LexLe(a, b) || LexLe(b, a)
  {
    if a != [] && b != [] && a[0] == b[0] {
      LexLeTotal(a[1..], b[1..]);
    }
  }

  lemma {:induction false} LexLeTransitive(a: Rank, b: Rank, c: Rank)
    requires LexLe(a, b) && LexLe(b, c)
    ensures LexLe(a, c)
  {
    if a != [] && a[0] == b[0] && b[0] == c[0] {
      LexLeTransitive(a[1..], b[1..], c[1..]);
    }
  }

  /** Ranks of one key compare as the keys do. */
  lemma LexLeSingle(a: ExtInt, b: ExtInt)
    ensures LexLe([a], [b]) <==> ExtLe(a, b)
  {
    assert [a][1..] == [] && [b][1..] == [];
  }

  /** Ranks of two keys: the first key decides unless it ties. */
  lemma LexLePair(a1: ExtInt, a2: ExtInt, b1: ExtInt, b2: ExtInt)
    ensures LexLe([a1, a2], [b1, b2]) <==> ExtLt(a1, b1) || (a1 == b1 && ExtLe(a2, b2))
  {
    assert [a1, a2][1..] == [a2] && [b1, b2][1..] == [b2];
    LexLeSingle(a2, b2);
  }

  /** The object `{}` after `xs.forEach((x) => { index[key(x)] = x })`:
      each key maps to the last element that carries it. */
  function IndexBy<V>(xs: seq<V>, key: V -> string): (m: map<string, V>)
    ensures forall i :: 0 <= i < |xs| ==> key(xs[i]) in m
    ensures forall k :: k in m ==> key(m[k]) == k && m[k] in xs
  {
    if xs == [] then map[]
    else
      var prefix := IndexBy(xs[..|xs| - 1], key);
      assert forall i :: 0 <= i < |xs| - 1 ==> xs[..|xs| - 1][i] == xs[i];
      prefix[key(xs[|xs| - 1]) := xs[|xs| - 1]]
  }

  /** A key holds the last element that carries it: later assignments
      overwrite earlier ones. */
  lemma {:induction false} IndexByLastWins<V>(xs: seq<V>, key: V -> string, i: nat)
    requires i < |xs|
    requires forall j :: i < j < |xs| ==> key(xs[j]) != key(xs[i])
    ensures key(xs[i]) in IndexBy(xs, key) && IndexBy(xs, key)[key(xs[i])] == xs[i]
  {
    if i < |xs| - 1 {
      var prefix := xs[..|xs| - 1];
      forall j | i < j < |prefix| ensures key(prefix[j]) != key(prefix[i]) {
        assert prefix[j] == xs[j];
      }
      IndexByLastWins(prefix, key, i);
    }
  }

  /** The same object built the way the source builds it, one assignment
      per element. */
  method BuildIndex<V>(xs: seq<V>, key: V -> string) returns (m: map<string, V>)
    ensures m == IndexBy(xs, key)
  {
    m := map[];
    for i := 0 to |xs|
      invariant m == IndexBy(xs[..i], key)
    {
      assert xs[..i + 1][..i] == xs[..i];
      m := m[key(xs[i]) := xs[i]];
    }
    assert xs[..|xs|] == xs;
  }
}
