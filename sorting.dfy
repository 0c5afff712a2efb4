/**
 * Stable sorting of individuals by the comparators of the library.
 *
 * `Collections.sort` is a stable merge sort.  For a comparator that is a total
 * preorder, a stable sort has exactly one possible result, so any stable sort
 * describes it.  The model uses insertion sort: an element is inserted after
 * every element whose key is not greater than its own.
 */
module Sorting {
  import opened Individuals

  /** The comparators the library sorts individuals with. */
  datatype SortKey =
    | ByObjective(k: nat)       // `FitnessComparator(k)`: ascending fitness value `k`
    | ByCrowdingDescending      // `CrowdingComparator`: descending crowding distance

  /** The real a comparator orders by, ascending. */
  function Key(key: SortKey, x: Individual): real
  {
    match key
    case ByObjective(k) => Objective(x, k)
    case ByCrowdingDescending => -CrowdKey(x.crowding)
  }

  /** `s` is non-decreasing in `key`. */
  ghost predicate SortedBy(s: seq<Individual>, key: SortKey)
  {
    forall i, j :: 0 <= i < j < |s| ==> Key(key, s[i]) <= Key(key, s[j])
  }

  /** Inserts `x` before the first element whose key is strictly greater. */
  function InsertBy(s: seq<Individual>, x: Individual, key: SortKey): (r: seq<Individual>)
    ensures |r| == |s| + 1
    ensures multiset(r) == multiset(s) + multiset{x}
  {
    if s == [] then [x]
    else if Key(key, x) < Key(key, s[0]) then [x] + s
    else
      assert s == [s[0]] + s[1..];
      [s[0]] + InsertBy(s[1..], x, key)
  }

  /** The stable ascending sort of `s` by `key`. */
  function SortBy(s: seq<Individual>, key: SortKey): (r: seq<Individual>)
    ensures |r| == |s|
    ensures multiset(r) == multiset(s)
  {
    if s == [] then []
    else
      assert s == s[..|s| - 1] + [s[|s| - 1]];
      InsertBy(SortBy(s[..|s| - 1], key), s[|s| - 1], key)
  }

  lemma InsertByElement(s: seq<Individual>, x: Individual, key: SortKey, y: Individual)
    requires y in InsertBy(s, x, key)
    ensures y == x || y in s
  {
    assert y in multiset(InsertBy(s, x, key));
  }

  /** The rest of a sorted sequence is sorted. */
  lemma SortedTail(s: seq<Individual>, key: SortKey)
    requires |s| >= 1 && SortedBy(s, key)
    ensures SortedBy(s[1..], key)
  {
    forall i, j | 0 <= i < j < |s[1..]|
      ensures Key(key, s[1..][i]) <= Key(key, s[1..][j])
    {
      assert s[1..][i] == s[i + 1] && s[1..][j] == s[j + 1];
    }
  }

  /** The first element of a sorted sequence has the least key. */
  lemma SortedFirstLeast(s: seq<Individual>, key: SortKey, z: Individual)
    requires |s| >= 1 && SortedBy(s, key) && z in s
    ensures Key(key, s[0]) <= Key(key, z)
  {
    var q :| 0 <= q < |s| && s[q] == z;
    if q > 0 {
      assert Key(key, s[0]) <= Key(key, s[q]);
    }
  }

  /** An element with a key no greater than any of a sorted sequence's can go first. */
  lemma SortedCons(y: Individual, t: seq<Individual>, key: SortKey)
    requires SortedBy(t, key) && forall z :: z in t ==> Key(key, y) <= Key(key, z)
    ensures SortedBy([y] + t, key)
  {
    var r := [y] + t;
    forall i, j | 0 <= i < j < |r|
      ensures Key(key, r[i]) <= Key(key, r[j])
    {
      assert r[j] == t[j - 1];
      if i > 0 {
        assert r[i] == t[i - 1];
      } else {
        assert t[j - 1] in t;
      }
    }
  }

  lemma {:induction false} InsertBySorted(s: seq<Individual>, x: Individual, key: SortKey)
    requires SortedBy(s, key)
    ensures SortedBy(InsertBy(s, x, key), key)
  {
    if s == [] {
    } else if Key(key, x) < Key(key, s[0]) {
      forall z | z in s
        ensures Key(key, x) <= Key(key, z)
      {
        SortedFirstLeast(s, key, z);
      }
      SortedCons(x, s, key);
    } else {
      var t := InsertBy(s[1..], x, key);
      SortedTail(s, key);
      InsertBySorted(s[1..], x, key);
      forall z | z in t
        ensures Key(key, s[0]) <= Key(key, z)
      {
        InsertByElement(s[1..], x, key, z);
        if z != x {
          SortedFirstLeast(s, key, z);
        }
      }
      SortedCons(s[0], t, key);
    }
  }

  /** The sort yields a sequence ordered by `key`. */
  lemma {:induction false} SortBySorted(s: seq<Individual>, key: SortKey)
    ensures SortedBy(SortBy(s, key), key)
  {
    if s != [] {
      SortBySorted(s[..|s| - 1], key);
      InsertBySorted(SortBy(s[..|s| - 1], key), s[|s| - 1], key);
    }
  }

  /** The members of `s` whose key is `v`, in order. */
  function WithKey(s: seq<Individual>, key: SortKey, v: real): seq<Individual>
  {
    if s == [] then []
    else (if Key(key, s[0]) == v then [s[0]] else []) + WithKey(s[1..], key, v)
  }

  lemma {:induction false} WithKeyConcat(a: seq<Individual>, b: seq<Individual>, key: SortKey, v: real)
    ensures WithKey(a + b, key, v) == WithKey(a, key, v) + WithKey(b, key, v)
  {
    if a == [] {
      assert a + b == b;
    } else {
      assert (a + b)[0] == a[0] && (a + b)[1..] == a[1..] + b;
      WithKeyConcat(a[1..], b, key, v);
    }
  }

  /** No member of `s` has key `v` when all keys are above it. */
  lemma {:induction false} WithKeyAbove(s: seq<Individual>, key: SortKey, v: real)
    requires forall z :: z in s ==> v < Key(key, z)
    ensures WithKey(s, key, v) == []
  {
    if s != [] {
      assert s[0] in s;
      assert forall z :: z in s[1..] ==> z in s;
      WithKeyAbove(s[1..], key, v);
    }
  }

  lemma WithKeyCons(y: Individual, t: seq<Individual>, key: SortKey, v: real)
    ensures WithKey([y] + t, key, v) == (if Key(key, y) == v then [y] else []) + WithKey(t, key, v)
  {
    assert ([y] + t)[0] == y && ([y] + t)[1..] == t;
  }

  /** Putting `y` in front of two sequences keeps what they have with key `v` apart by the same `extra`. */
  lemma ConsWithKey(y: Individual, t: seq<Individual>, u: seq<Individual>, key: SortKey, v: real, extra: seq<Individual>)
    requires WithKey(t, key, v) == WithKey(u, key, v) + extra
    ensures WithKey([y] + t, key, v) == WithKey([y] + u, key, v) + extra
  {
    WithKeyCons(y, t, key, v);
    WithKeyCons(y, u, key, v);
  }

  /** `x` goes in front of a sorted sequence whose keys are all above its own. */
  lemma InsertFrontWithKey(s: seq<Individual>, x: Individual, key: SortKey, v: real)
    requires SortedBy(s, key) && |s| >= 1 && Key(key, x) < Key(key, s[0])
    ensures WithKey([x] + s, key, v) == WithKey(s, key, v) + (if Key(key, x) == v then [x] else [])
  {
    WithKeyCons(x, s, key, v);
    if Key(key, x) == v {
      forall z | z in s
        ensures v < Key(key, z)
      {
        SortedFirstLeast(s, key, z);
      }
      WithKeyAbove(s, key, v);
    }
  }

  /**
   * Inserting into a sorted sequence puts `x` after every member with the
   * same key: the members with any one key keep their order, and `x` comes
   * last among those with its own.
   */
  lemma {:induction false} InsertByWithKey(s: seq<Individual>, x: Individual, key: SortKey, v: real)
    requires SortedBy(s, key)
    ensures WithKey(InsertBy(s, x, key), key, v) == WithKey(s, key, v) + (if Key(key, x) == v then [x] else [])
  {
    if s == [] {
    } else if Key(key, x) < Key(key, s[0]) {
      InsertFrontWithKey(s, x, key, v);
    } else {
      SortedTail(s, key);
      InsertByWithKey(s[1..], x, key, v);
      InsertBehindWithKey(s, x, key, v);
    }
  }

  /** Inserting behind the first member keeps that member in front of what the tail's insertion gives. */
  lemma InsertBehindWithKey(s: seq<Individual>, x: Individual, key: SortKey, v: real)
    requires |s| >= 1 && Key(key, s[0]) <= Key(key, x)
    requires WithKey(InsertBy(s[1..], x, key), key, v) == WithKey(s[1..], key, v) + (if Key(key, x) == v then [x] else [])
    ensures WithKey(InsertBy(s, x, key), key, v) == WithKey(s, key, v) + (if Key(key, x) == v then [x] else [])
  {
    var t := InsertBy(s[1..], x, key);
    InsertBehind(s, x, key);
    HeadWithKey(s, key, v);
    ConsWithKey(s[0], t, s[1..], key, v, if Key(key, x) == v then [x] else []);
  }

  /** Behind the first member, `x` is inserted into the tail. */
  lemma InsertBehind(s: seq<Individual>, x: Individual, key: SortKey)
    requires |s| >= 1 && Key(key, s[0]) <= Key(key, x)
    ensures InsertBy(s, x, key) == [s[0]] + InsertBy(s[1..], x, key)
  {
  }

  lemma HeadWithKey(s: seq<Individual>, key: SortKey, v: real)
    requires |s| >= 1
    ensures WithKey([s[0]] + s[1..], key, v) == WithKey(s, key, v)
  {
    assert [s[0]] + s[1..] == s;
  }

  /**
   * The sort is stable: for every key, the members with that key come out
   * in the order they went in.
   */
  lemma {:induction false} SortByStable(s: seq<Individual>, key: SortKey, v: real)
    ensures WithKey(SortBy(s, key), key, v) == WithKey(s, key, v)
  {
    if s != [] {
      var init, last := s[..|s| - 1], s[|s| - 1];
      assert SortBy(s, key) == InsertBy(SortBy(init, key), last, key);
      SortByStable(init, key, v);
      SortBySorted(init, key);
      InsertByWithKey(SortBy(init, key), last, key, v);
      LastWithKey(s, key, v);
    }
  }

  /** The last member of `s` comes last among the members with its key. */
  lemma LastWithKey(s: seq<Individual>, key: SortKey, v: real)
    requires |s| >= 1
    ensures WithKey(s, key, v) == WithKey(s[..|s| - 1], key, v) + (if Key(key, s[|s| - 1]) == v then [s[|s| - 1]] else [])
  {
    var init, last := s[..|s| - 1], s[|s| - 1];
    assert s == init + [last];
    WithKeyConcat(init, [last], key, v);
    assert [last][1..] == [];
  }
}
