/** Orderings of table rows and allocation of fresh keys.

    A database `ORDER BY key` leaves the order of equal keys unspecified; the
    model fixes it by breaking ties on the row id, so every ordering below is
    a strict total order and every selection is uniquely determined. */
module Ordering {

  type Id = int

  /** Row `a` sorts strictly before row `b` under `key`, ties broken by id. */
  predicate Before(key: map<Id, int>, a: Id, b: Id)
    requires a in key && b in key
  {
    key[a] < key[b] || (key[a] == key[b] && a < b)
  }

  /** `m` is the first element of `s` under `key`. */
  predicate IsFirst(key: map<Id, int>, s: set<Id>, m: Id)
    requires s <= key.Keys
  {
    m in s && forall k :: k in s && k != m ==> Before(key, m, k)
  }

  /** `r` lists rows in strictly increasing `key` order. */
  predicate SortedBy(key: map<Id, int>, r: seq<Id>) {
    forall i, j :: 0 <= i < j < |r| ==> r[i] in key && r[j] in key && Before(key, r[i], r[j])
  }

  lemma NonEmpty(s: set<Id>)
    requires s != {}
    ensures exists x :: x in s
  {
    if forall x :: x !in s {
      assert false;
    }
  }

  lemma FirstExists(key: map<Id, int>, s: set<Id>)
    requires s <= key.Keys && s != {}
    ensures exists m :: IsFirst(key, s, m)
    decreases |s|
  {
    NonEmpty(s);
    var x :| x in s;
    if s == {x} {
      assert IsFirst(key, s, x);
    } else {
      FirstExists(key, s - {x});
      var m :| IsFirst(key, s - {x}, m);
      if Before(key, x, m) {
        forall k | k in s && k != x
          ensures Before(key, x, k)
        {
          if k != m {
            assert Before(key, m, k);
          }
        }
        assert IsFirst(key, s, x);
      } else {
        assert IsFirst(key, s, m);
      }
    }
  }

  /** A set has only one first element. */
  lemma FirstUnique(key: map<Id, int>, s: set<Id>, a: Id, b: Id)
    requires s <= key.Keys && IsFirst(key, s, a) && IsFirst(key, s, b)
    ensures a == b
  {
    if a != b {
      BeforeAsymmetric(key, a, b);
    }
  }

  /** Adding one element to a set moves its first element only if the new
      element sorts before the old first. */
  lemma FirstOfInsert(key: map<Id, int>, s: set<Id>, m: Id, x: Id)
    requires s <= key.Keys && x in key && x !in s && IsFirst(key, s, m)
    ensures Before(key, x, m) ==> IsFirst(key, s + {x}, x)
    ensures !Before(key, x, m) ==> IsFirst(key, s + {x}, m)
  {
    if Before(key, x, m) {
      forall k | k in s && k != m
        ensures Before(key, x, k)
      {
        assert Before(key, m, k);
      }
    } else {
      BeforeTotal(key, x, m);
    }
  }

  /** Two distinct rows are always ordered one way or the other. */
  lemma BeforeTotal(key: map<Id, int>, a: Id, b: Id)
    requires a in key && b in key && a != b
    ensures Before(key, a, b) || Before(key, b, a)
  {
  }

  /** The first row of a non-empty set under `key`. */
  function First(key: map<Id, int>, s: set<Id>): (m: Id)
    requires s <= key.Keys && s != {}
    ensures IsFirst(key, s, m)
  {
    FirstExists(key, s);
    var m :| IsFirst(key, s, m);
    m
  }

  /** The rows of `s` in `key` order: `ORDER BY key` on the set. */
  function OrderBy(key: map<Id, int>, s: set<Id>): (r: seq<Id>)
    requires s <= key.Keys
    ensures |r| == |s|
    ensures forall i :: 0 <= i < |r| ==> r[i] in s
    ensures forall k :: k in s ==> k in r
    ensures SortedBy(key, r)
    decreases |s|
  {
    if s == {} then []
    else
      var m := First(key, s);
      var rest := OrderBy(key, s - {m});
      ConsSorted(key, s, m, rest);
      [m] + rest
  }

  /** Putting the first element of `s` before a sorted listing of the rest
      gives a sorted listing of `s`. */
  lemma ConsSorted(key: map<Id, int>, s: set<Id>, m: Id, rest: seq<Id>)
    requires s <= key.Keys && IsFirst(key, s, m)
    requires SortedBy(key, rest) && forall i :: 0 <= i < |rest| ==> rest[i] in s - {m}
    ensures SortedBy(key, [m] + rest)
  {
    var r := [m] + rest;
    forall i, j | 0 <= i < j < |r|
      ensures r[i] in key && r[j] in key && Before(key, r[i], r[j])
    {
      if i == 0 {
        assert r[j] == rest[j - 1];
      } else {
        assert r[i] == rest[i - 1] && r[j] == rest[j - 1];
      }
    }
  }

  /** No id occurs twice in `s`. */
  predicate Distinct(s: seq<Id>) {
    forall i, j :: 0 <= i < j < |s| ==> s[i] != s[j]
  }

  /** The ids at the first `n` positions of `s`. */
  function Prefix(s: seq<Id>, n: nat): (p: set<Id>)
    requires n <= |s|
    ensures forall x :: x in p <==> exists k :: 0 <= k < n && s[k] == x
  {
    set k | 0 <= k < n :: s[k]
  }

  /** Growing a prefix of a list without repetitions by one position adds
      one new id. */
  lemma PrefixGrows(s: seq<Id>, n: nat)
    requires n < |s| && Distinct(s)
    ensures s[n] !in Prefix(s, n)
    ensures Prefix(s, n + 1) == Prefix(s, n) + {s[n]}
  {
  }

  /** A sorted listing has no repetitions. */
  lemma SortedIsDistinct(key: map<Id, int>, r: seq<Id>)
    requires SortedBy(key, r)
    ensures Distinct(r)
  {
    forall i, j | 0 <= i < j < |r|
      ensures r[i] != r[j]
    {
      BeforeAsymmetric(key, r[i], r[j]);
    }
  }

  /** `Before` is a strict order: it never holds both ways. */
  lemma BeforeAsymmetric(key: map<Id, int>, a: Id, b: Id)
    requires a in key && b in key && Before(key, a, b)
    ensures !Before(key, b, a) && a != b
  {
  }

  /** A sorted listing of `s` starts with the first element of `s`. */
  lemma SortedListingHead(key: map<Id, int>, s: set<Id>, r: seq<Id>)
    requires s <= key.Keys && s != {}
    requires SortedBy(key, r)
    requires forall i :: 0 <= i < |r| ==> r[i] in s
    requires forall k :: k in s ==> k in r
    ensures |r| > 0 && r[0] == First(key, s)
  {
    var m := First(key, s);
    var j :| 0 <= j < |r| && r[j] == m;
    if j > 0 {
      BeforeAsymmetric(key, r[0], r[j]);
    }
  }

  /** Every sorted listing of `s` is the `OrderBy` listing: the order is unique. */
  lemma {:induction false} SortedListingUnique(key: map<Id, int>, s: set<Id>, r: seq<Id>)
    requires s <= key.Keys
    requires SortedBy(key, r)
    requires forall i :: 0 <= i < |r| ==> r[i] in s
    requires forall k :: k in s ==> k in r
    ensures r == OrderBy(key, s)
    decreases |s|
  {
    if s == {} {
      ListingOfEmpty(r, s);
    } else {
      SortedListingHead(key, s, r);
      SortedListingTail(key, s, r);
      SortedListingUnique(key, s - {r[0]}, r[1..]);
      SortedListingCons(key, s, r);
    }
  }

  /** A sorted listing of `s` whose tail is the `OrderBy` listing of the
      rest is the `OrderBy` listing of `s`. */
  lemma SortedListingCons(key: map<Id, int>, s: set<Id>, r: seq<Id>)
    requires s <= key.Keys && s != {} && |r| > 0
    requires SortedBy(key, r)
    requires forall i :: 0 <= i < |r| ==> r[i] in s
    requires forall k :: k in s ==> k in r
    requires r[1..] == OrderBy(key, s - {r[0]})
    ensures r == OrderBy(key, s)
  {
    SortedListingHead(key, s, r);
    var m := r[0];
    assert OrderBy(key, s) == [m] + OrderBy(key, s - {m});
    assert r == [m] + r[1..];
  }

  /** A listing drawn from the empty set is empty. */
  lemma ListingOfEmpty(r: seq<Id>, s: set<Id>)
    requires forall i :: 0 <= i < |r| ==> r[i] in s
    ensures s == {} ==> r == []
  {
    if |r| > 0 {
      assert r[0] in s;
    }
  }

  /** Dropping the head of a sorted listing of `s` lists `s` without it. */
  lemma SortedListingTail(key: map<Id, int>, s: set<Id>, r: seq<Id>)
    requires s <= key.Keys && |r| > 0
    requires SortedBy(key, r)
    requires forall i :: 0 <= i < |r| ==> r[i] in s
    requires forall k :: k in s ==> k in r
    ensures SortedBy(key, r[1..])
    ensures forall i :: 0 <= i < |r[1..]| ==> r[1..][i] in s - {r[0]}
    ensures forall k :: k in s - {r[0]} ==> k in r[1..]
  {
    var m := r[0];
    var tail := r[1..];
    forall i | 0 <= i < |tail|
      ensures tail[i] in s - {m}
    {
      BeforeAsymmetric(key, r[0], r[i + 1]);
    }
    forall k | k in s - {m}
      ensures k in tail
    {
      var i :| 0 <= i < |r| && r[i] == k;
      assert tail[i - 1] == k;
    }
  }

  /** The ids of `s` that `keep` accepts, in their order in `s`: a `Where`
      over a listing. */
  function Filter(s: seq<Id>, keep: Id -> bool): (r: seq<Id>)
    ensures forall x :: x in r <==> x in s && keep(x)
    decreases |s|
  {
    if |s| == 0 then []
    else if keep(s[0]) then [s[0]] + Filter(s[1..], keep)
    else Filter(s[1..], keep)
  }

  /** Filtering a sorted listing leaves it sorted. */
  lemma {:induction false} FilterSorted(key: map<Id, int>, s: seq<Id>, keep: Id -> bool)
    requires SortedBy(key, s)
    ensures SortedBy(key, Filter(s, keep))
    decreases |s|
  {
    if |s| > 0 {
      var tail := s[1..];
      assert SortedBy(key, tail) by {
        forall i, j | 0 <= i < j < |tail|
          ensures tail[i] in key && tail[j] in key && Before(key, tail[i], tail[j])
        {
          assert tail[i] == s[i + 1] && tail[j] == s[j + 1];
        }
      }
      FilterSorted(key, tail, keep);
      var rest := Filter(tail, keep);
      forall j | 0 <= j < |rest|
        ensures rest[j] in key && Before(key, s[0], rest[j])
      {
        assert rest[j] in rest;
        var k :| 0 <= k < |tail| && tail[k] == rest[j];
        assert Before(key, s[0], s[k + 1]);
      }
      var r := Filter(s, keep);
      if r != rest {
        forall i, j | 0 <= i < j < |r|
          ensures r[i] in key && r[j] in key && Before(key, r[i], r[j])
        {
          assert r[j] == rest[j - 1];
          if i > 0 {
            assert r[i] == rest[i - 1];
          }
        }
      }
    }
  }

  /** The least id of a non-empty set. */
  function Least(s: set<Id>): (m: Id)
    requires s != {}
    ensures m in s && forall k :: k in s ==> m <= k
  {
    First(map k | k in s :: 0, s)
  }

  /** The greatest id of a non-empty set. */
  function Greatest(s: set<Id>): (m: Id)
    requires s != {}
    ensures m in s && forall k :: k in s ==> k <= m
  {
    First(map k | k in s :: -k, s)
  }

  /** A key not yet used in a table: the database's next identity value. */
  function FreshId(keys: set<Id>): (k: Id)
    ensures k !in keys
    ensures forall j :: j in keys ==> j < k
  {
    if keys == {} then 1 else Greatest(keys) + 1
  }
}
