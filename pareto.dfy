/**
 * Deb's NSGA-II sort of a multi-objective population: repeatedly peel off a
 * front of mutually incomparable individuals, give it the next Pareto rank,
 * compute its crowding distances, order it by crowding (high to low), and
 * append it to the result.
 *
 * The front is found by one scan over the unranked individuals: each joins
 * the front in turn, removes every member it dominates, and leaves again as
 * soon as a member dominates it.  `FrontMask` records who is left.
 */
module Pareto {
  import opened Individuals
  import opened Sorting

  /** Every individual has the same number of objectives, and at least one. */
  predicate SameObjectives(s: seq<Individual>)
  {
    forall x, y :: x in s && y in s ==> 1 <= |x.fitness| == |y.fitness|
  }

  // ---------------------------------------------------------------------------
  // Finding a front

  /**
   * Individual `i` has just joined the front `mask`; it is compared, in
   * order, with the members `j.. i-1` still in the front.  A member it
   * dominates leaves the front; the first member that dominates it sends
   * it back out and ends the comparison.
   */
  function Inner(rem: seq<Individual>, mask: seq<bool>, i: nat, j: nat): (r: seq<bool>)
    requires SameObjectives(rem) && |mask| == |rem| && j <= i < |rem|
    ensures |r| == |rem|
    decreases i - j
  {
    if j == i then mask
    else if !mask[j] then Inner(rem, mask, i, j + 1)
    else match ConstrainedDominance(rem[i], rem[j])
      case Dominating => Inner(rem, mask[j := false], i, j + 1)
      case Dominated => mask[i := false]
      case Incomparable => Inner(rem, mask, i, j + 1)
  }

  /** The front after the first `n` individuals have been tried. */
  function Scan(rem: seq<Individual>, n: nat): (mask: seq<bool>)
    requires SameObjectives(rem) && n <= |rem|
    ensures |mask| == |rem|
  {
    if n == 0 then seq(|rem|, _ => false)
    else Inner(rem, Scan(rem, n - 1)[n - 1 := true], n - 1, 0)
  }

  /** The front of `rem`: the individuals left after all have been tried. */
  function FrontMask(rem: seq<Individual>): (mask: seq<bool>)
    requires SameObjectives(rem)
    ensures |mask| == |rem|
  {
    Scan(rem, |rem|)
  }

  /** The members of `s` the mask selects, in order. */
  function Pick<T>(s: seq<T>, mask: seq<bool>): seq<T>
    requires |mask| == |s|
  {
    if s == [] then []
    else Pick(s[..|s| - 1], mask[..|s| - 1]) + (if mask[|s| - 1] then [s[|s| - 1]] else [])
  }

  /** The members of `s` the mask leaves out, in order. */
  function Drop<T>(s: seq<T>, mask: seq<bool>): seq<T>
    requires |mask| == |s|
  {
    if s == [] then []
    else Drop(s[..|s| - 1], mask[..|s| - 1]) + (if mask[|s| - 1] then [] else [s[|s| - 1]])
  }

  /** `x` was kept out of (or sent out of) the front by some other individual. */
  predicate Beaten(rem: seq<Individual>, t: nat)
    requires SameObjectives(rem) && t < |rem|
  {
    exists k :: 0 <= k < |rem| && k != t &&
      (ConstrainedDominance(rem[t], rem[k]) == Dominated || ConstrainedDominance(rem[k], rem[t]) == Dominating)
  }

  // ---------------------------------------------------------------------------
  // Crowding distance

  /** Each member of a new front: the front's rank, and crowding reset to zero. */
  function Reset(front: seq<Individual>, r: int): (out: seq<Individual>)
    ensures |out| == |front|
  {
    seq(|front|, i requires 0 <= i < |front| => front[i].(paretoRank := r, crowding := Gap(0.0)))
  }

  /**
   * The crowding of member `m` after one pass over objective `k` of the
   * sorted front `s`: `MAX_VALUE` is added to the first and to the last
   * member, and each interior member gets the gap between its neighbours.
   */
  function PassCrowding(s: seq<Individual>, k: nat, m: nat): Crowding
    requires m < |s|
  {
    var c := s[m].crowding;
    var c1 := if m == 0 then AddCrowding(c, AtMax) else c;
    var c2 := if m == |s| - 1 then AddCrowding(c1, AtMax) else c1;
    if 0 < m < |s| - 1 then AddCrowding(c2, Gap(Objective(s[m + 1], k) - Objective(s[m - 1], k))) else c2
  }

  /** One crowding pass over objective `k`, on a front already sorted by it. */
  function CrowdPass(s: seq<Individual>, k: nat): (r: seq<Individual>)
    ensures |r| == |s|
  {
    seq(|s|, m requires 0 <= m < |s| => s[m].(crowding := PassCrowding(s, k, m)))
  }

  /** The passes over objectives `k.. n-1`: sort by the objective, then add its crowding. */
  function CrowdPasses(s: seq<Individual>, k: nat, n: nat): (r: seq<Individual>)
    ensures |r| == |s|
    decreases n - k
  {
    if k >= n then s
    else CrowdPasses(CrowdPass(SortBy(s, ByObjective(k)), k), k + 1, n)
  }

  /** A complete front: ranked, crowded over every objective, and sorted by crowding. */
  function Crowded(front: seq<Individual>, r: int): (out: seq<Individual>)
    requires |front| >= 1
    ensures |out| == |front|
  {
    SortBy(CrowdPasses(Reset(front, r), 0, |front[0].fitness|), ByCrowdingDescending)
  }

  // ---------------------------------------------------------------------------
  // Ranking

  /** The fronts of `rem`, ranked from `r` on, each crowded and concatenated. */
  function RankFrom(rem: seq<Individual>, r: int): (out: seq<Individual>)
    requires SameObjectives(rem)
    ensures |out| == |rem|
    decreases |rem|
  {
    if rem == [] then []
    else
      var mask := FrontMask(rem);
      FrontFacts(rem);
      PickDrop(rem, mask);
      Crowded(Pick(rem, mask), r) + RankFrom(Drop(rem, mask), r + 1)
  }

  /** Every member with its rank reset to -1, "not yet ranked". */
  function Unranked(s: seq<Individual>): (r: seq<Individual>)
    ensures |r| == |s|
  {
    seq(|s|, i requires 0 <= i < |s| => s[i].(paretoRank := -1))
  }

  lemma UnrankedObjectives(s: seq<Individual>)
    requires SameObjectives(s)
    ensures SameObjectives(Unranked(s))
  {
    forall x, y | x in Unranked(s) && y in Unranked(s)
      ensures 1 <= |x.fitness| == |y.fitness|
    {
      var i :| 0 <= i < |s| && Unranked(s)[i] == x;
      var j :| 0 <= j < |s| && Unranked(s)[j] == y;
      assert s[i] in s && s[j] in s;
    }
  }

  /** `sortParetoRank()`: every rank reset, then the fronts ranked from 0 and concatenated. */
  function ParetoSorted(s: seq<Individual>): (r: seq<Individual>)
    requires SameObjectives(s)
    ensures |r| == |s|
  {
    UnrankedObjectives(s);
    RankFrom(Unranked(s), 0)
  }

  /** The individual without the attributes the sort assigns. */
  function Strip(x: Individual): Individual
  {
    x.(paretoRank := -1, crowding := Gap(0.0))
  }

  /** Every member stripped. */
  function Stripped(s: seq<Individual>): (r: seq<Individual>)
    ensures |r| == |s|
    ensures forall i :: 0 <= i < |s| ==> r[i] == Strip(s[i])
  {
    seq(|s|, i requires 0 <= i < |s| => Strip(s[i]))
  }

  lemma StrippedConcat(a: seq<Individual>, b: seq<Individual>)
    ensures Stripped(a + b) == Stripped(a) + Stripped(b)
  {
  }

  /** A value in the multiset of `b` sits at some index of `b`. */
  lemma IndexOf<T>(b: seq<T>, x: T) returns (k: nat)
    requires x in multiset(b)
    ensures k < |b| && b[k] == x
  {
    assert x in b;
    k :| k < |b| && b[k] == x;
  }

  /** Taking the matching member out of two permutations leaves two permutations. */
  lemma RemoveMatched<T>(a: seq<T>, b: seq<T>, k: nat)
    requires |a| >= 1 && k < |b| && b[k] == a[0] && multiset(a) == multiset(b)
    ensures multiset(a[1..]) == multiset(b[..k] + b[k + 1..])
  {
    var rest := b[..k] + b[k + 1..];
    assert a == [a[0]] + a[1..];
    assert multiset(a[1..]) == multiset(a) - multiset{a[0]};
    assert b == b[..k] + [b[k]] + b[k + 1..];
    assert multiset(b) == multiset(b[..k]) + multiset{b[k]} + multiset(b[k + 1..]);
    assert multiset(rest) == multiset(b[..k]) + multiset(b[k + 1..]);
    assert multiset(rest) == multiset(b) - multiset{b[k]};
  }

  /** Stripping, then taking member `k` out, is taking it out, then stripping. */
  lemma StrippedRemoveAt(b: seq<Individual>, k: nat)
    requires k < |b|
    ensures multiset(Stripped(b)) == multiset{Strip(b[k])} + multiset(Stripped(b[..k] + b[k + 1..]))
  {
    var sb := Stripped(b);
    assert sb == sb[..k] + [sb[k]] + sb[k + 1..];
    assert Stripped(b[..k] + b[k + 1..]) == sb[..k] + sb[k + 1..];
  }

  /** If the rests strip to permutations, so do the whole sequences, the matched member included. */
  lemma StrippedMatched(a: seq<Individual>, b: seq<Individual>, k: nat)
    requires |a| >= 1 && k < |b| && b[k] == a[0]
    requires multiset(Stripped(a[1..])) == multiset(Stripped(b[..k] + b[k + 1..]))
    ensures multiset(Stripped(a)) == multiset(Stripped(b))
  {
    StrippedRemoveAt(b, k);
    StrippedCons(a);
  }

  /** Stripping keeps the first member first. */
  lemma StrippedCons(a: seq<Individual>)
    requires |a| >= 1
    ensures multiset(Stripped(a)) == multiset{Strip(a[0])} + multiset(Stripped(a[1..]))
  {
    assert Stripped(a) == [Strip(a[0])] + Stripped(a[1..]);
  }

  /** Stripping two permutations of each other gives permutations. */
  lemma {:induction false} StrippedPermutation(a: seq<Individual>, b: seq<Individual>)
    requires multiset(a) == multiset(b)
    ensures multiset(Stripped(a)) == multiset(Stripped(b))
    decreases |a|
  {
    if a == [] {
      assert |b| == |multiset(b)| == 0;
    } else {
      var k := IndexOf(b, a[0]);
      RemoveMatched(a, b, k);
      StrippedPermutation(a[1..], b[..k] + b[k + 1..]);
      StrippedMatched(a, b, k);
    }
  }

  // ---------------------------------------------------------------------------
  // Facts about fronts

  /** Picking and dropping split `s` into two parts that together are `s`. */
  lemma {:induction false} PickDrop<T>(s: seq<T>, mask: seq<bool>)
    requires |mask| == |s|
    ensures |Pick(s, mask)| + |Drop(s, mask)| == |s|
    ensures multiset(Pick(s, mask)) + multiset(Drop(s, mask)) == multiset(s)
    ensures (exists t :: 0 <= t < |s| && mask[t]) ==> |Drop(s, mask)| < |s|
    ensures forall x :: x in Pick(s, mask) ==> x in s
    ensures forall x :: x in Drop(s, mask) ==> x in s
  {
    PickDropLength(s, mask);
    PickDropMultiset(s, mask);
    if exists t :: 0 <= t < |s| && mask[t] {
      var t :| 0 <= t < |s| && mask[t];
      PickNonEmpty(s, mask, t);
    }
    forall x | x in Pick(s, mask) ensures x in s {
      assert multiset(Pick(s, mask))[x] <= multiset(s)[x];
    }
    forall x | x in Drop(s, mask) ensures x in s {
      assert multiset(Drop(s, mask))[x] <= multiset(s)[x];
    }
  }

  lemma {:induction false} PickDropMultiset<T>(s: seq<T>, mask: seq<bool>)
    requires |mask| == |s|
    ensures multiset(Pick(s, mask)) + multiset(Drop(s, mask)) == multiset(s)
  {
    if s != [] {
      var n := |s| - 1;
      PickDropMultiset(s[..n], mask[..n]);
      assert s[..n + 1] == s;
      if mask[n] {
        PickDropStep(Pick(s[..n], mask[..n]), Drop(s[..n], mask[..n]), s, n);
      } else {
        PickDropStep(Drop(s[..n], mask[..n]), Pick(s[..n], mask[..n]), s, n);
      }
    }
  }

  lemma PickDropStep<T>(grow: seq<T>, keep: seq<T>, s: seq<T>, n: nat)
    requires n < |s| && multiset(grow) + multiset(keep) == multiset(s[..n])
    ensures multiset(grow + [s[n]]) + multiset(keep) == multiset(s[..n + 1])
  {
    assert s[..n + 1] == s[..n] + [s[n]];
  }

  lemma {:induction false} PickDropLength<T>(s: seq<T>, mask: seq<bool>)
    requires |mask| == |s|
    ensures |Pick(s, mask)| + |Drop(s, mask)| == |s|
  {
    if s != [] {
      PickDropLength(s[..|s| - 1], mask[..|s| - 1]);
    }
  }

  lemma {:induction false} PickNonEmpty<T>(s: seq<T>, mask: seq<bool>, t: nat)
    requires |mask| == |s| && t < |s| && mask[t]
    ensures |Pick(s, mask)| >= 1
  {
    var n := |s| - 1;
    if t < n {
      PickNonEmpty(s[..n], mask[..n], t);
    }
  }

  /** The members of a front share the number of objectives of the population. */
  lemma SameObjectivesOfPart(s: seq<Individual>, t: seq<Individual>)
    requires SameObjectives(s) && forall x :: x in t ==> x in s
    ensures SameObjectives(t)
  {
  }

  /**
   * What one comparison round does: it only removes members, leaves the
   * individuals after `i` alone, keeps someone in the front among `j.. i`,
   * keeps only members incomparable to the newcomer, and removes no one
   * without cause.
   */
  lemma {:induction false} InnerFacts(rem: seq<Individual>, mask: seq<bool>, i: nat, j: nat)
    requires SameObjectives(rem) && |mask| == |rem| && j <= i < |rem| && mask[i]
    ensures forall t :: 0 <= t < |rem| && Inner(rem, mask, i, j)[t] ==> mask[t]
    ensures forall t :: i < t < |rem| ==> Inner(rem, mask, i, j)[t] == mask[t]
    ensures forall t :: 0 <= t < j ==> Inner(rem, mask, i, j)[t] == mask[t]
    ensures Inner(rem, mask, i, j)[i] || exists t :: j <= t < i && Inner(rem, mask, i, j)[t]
    ensures Inner(rem, mask, i, j)[i] ==>
      forall t :: j <= t < i && Inner(rem, mask, i, j)[t] ==> ConstrainedDominance(rem[i], rem[t]) == Incomparable
    ensures forall t :: j <= t <= i && mask[t] && !Inner(rem, mask, i, j)[t] ==> Beaten(rem, t)
    decreases i - j
  {
    if j < i {
      if !mask[j] {
        InnerFacts(rem, mask, i, j + 1);
      } else {
        match ConstrainedDominance(rem[i], rem[j])
        case Dominating =>
          InnerFacts(rem, mask[j := false], i, j + 1);
          assert Beaten(rem, j) by {
            assert i != j && ConstrainedDominance(rem[i], rem[j]) == Dominating;
          }
        case Dominated =>
          assert Inner(rem, mask, i, j) == mask[i := false];
          assert mask[i := false][j];
          assert Beaten(rem, i) by {
            assert j != i && ConstrainedDominance(rem[i], rem[j]) == Dominated;
          }
        case Incomparable =>
          InnerFacts(rem, mask, i, j + 1);
      }
    }
  }

  /**
   * The front after `n` individuals: nobody after them, someone among them
   * (when there is one), members mutually incomparable as seen by the later
   * one, and every individual outside it beaten by someone.
   */
  lemma ScanFacts(rem: seq<Individual>, n: nat)
    requires SameObjectives(rem) && n <= |rem|
    ensures forall t :: n <= t < |rem| ==> !Scan(rem, n)[t]
    ensures n >= 1 ==> exists t :: 0 <= t < n && Scan(rem, n)[t]
    ensures forall t, u :: 0 <= t < u < n && Scan(rem, n)[t] && Scan(rem, n)[u] ==>
      ConstrainedDominance(rem[u], rem[t]) == Incomparable
    ensures forall t :: 0 <= t < n && !Scan(rem, n)[t] ==> Beaten(rem, t)
  {
    ScanShape(rem, n);
    ScanIncomparable(rem, n);
    ScanBeaten(rem, n);
  }

  /** The scan of `n` individuals marks no one after them, and someone among them. */
  lemma {:induction false} ScanShape(rem: seq<Individual>, n: nat)
    requires SameObjectives(rem) && n <= |rem|
    ensures forall t :: n <= t < |rem| ==> !Scan(rem, n)[t]
    ensures n >= 1 ==> exists t :: 0 <= t < n && Scan(rem, n)[t]
  {
    if n >= 1 {
      ScanShape(rem, n - 1);
      var start := Scan(rem, n - 1)[n - 1 := true];
      InnerFacts(rem, start, n - 1, 0);
      assert Scan(rem, n) == Inner(rem, start, n - 1, 0);
    }
  }

  /** Members left in the scan of `n` individuals are incomparable, as seen by the later one. */
  lemma {:induction false} ScanIncomparable(rem: seq<Individual>, n: nat)
    requires SameObjectives(rem) && n <= |rem|
    ensures forall t, u :: 0 <= t < u < n && Scan(rem, n)[t] && Scan(rem, n)[u] ==>
      ConstrainedDominance(rem[u], rem[t]) == Incomparable
  {
    if n >= 1 {
      ScanIncomparable(rem, n - 1);
      var before := Scan(rem, n - 1);
      var start := before[n - 1 := true];
      InnerFacts(rem, start, n - 1, 0);
      var after := Scan(rem, n);
      assert after == Inner(rem, start, n - 1, 0);
      forall t, u | 0 <= t < u < n && after[t] && after[u]
        ensures ConstrainedDominance(rem[u], rem[t]) == Incomparable
      {
        assert start[t] && start[u];
        if u < n - 1 {
          assert before[t] && before[u];
        }
      }
    }
  }

  /** Every one of the first `n` individuals outside their scan is beaten by someone. */
  lemma {:induction false} ScanBeaten(rem: seq<Individual>, n: nat)
    requires SameObjectives(rem) && n <= |rem|
    ensures forall t :: 0 <= t < n && !Scan(rem, n)[t] ==> Beaten(rem, t)
  {
    if n >= 1 {
      ScanBeaten(rem, n - 1);
      var before := Scan(rem, n - 1);
      var start := before[n - 1 := true];
      InnerFacts(rem, start, n - 1, 0);
      var after := Scan(rem, n);
      assert after == Inner(rem, start, n - 1, 0);
      forall t | 0 <= t < n && !after[t]
        ensures Beaten(rem, t)
      {
        if t < n - 1 && !before[t] {
        } else {
          assert start[t];
        }
      }
    }
  }

  /** The front of a non-empty population is non-empty, so each round ranks someone. */
  lemma FrontFacts(rem: seq<Individual>)
    requires SameObjectives(rem) && |rem| >= 1
    ensures exists t :: 0 <= t < |rem| && FrontMask(rem)[t]
  {
    ScanFacts(rem, |rem|);
    assert FrontMask(rem) == Scan(rem, |rem|);
  }

  // ---------------------------------------------------------------------------
  // Facts about crowding

  /** Member `i` has the lowest value of objective `k`. */
  predicate IsLowest(s: seq<Individual>, i: nat, k: nat)
    requires i < |s|
  {
    forall j :: 0 <= j < |s| ==> Objective(s[i], k) <= Objective(s[j], k)
  }

  /** Member `i` has the highest value of objective `k`. */
  predicate IsHighest(s: seq<Individual>, i: nat, k: nat)
    requires i < |s|
  {
    forall j :: 0 <= j < |s| ==> Objective(s[j], k) <= Objective(s[i], k)
  }

  /** A member lowest in objective `k`, and one highest in it, have crowding at least `MAX_VALUE`. */
  predicate ExtremesAtMax(s: seq<Individual>, k: nat)
  {
    (exists i :: 0 <= i < |s| && IsLowest(s, i, k) && AtLeastMax(s[i].crowding)) &&
    (exists i :: 0 <= i < |s| && IsHighest(s, i, k) && AtLeastMax(s[i].crowding))
  }

  /** Reordering keeps extreme members extreme. */
  lemma ExtremesPermute(a: seq<Individual>, b: seq<Individual>, k: nat)
    requires multiset(a) == multiset(b) && ExtremesAtMax(a, k)
    ensures ExtremesAtMax(b, k)
  {
    var lo :| 0 <= lo < |a| && IsLowest(a, lo, k) && AtLeastMax(a[lo].crowding);
    var hi :| 0 <= hi < |a| && IsHighest(a, hi, k) && AtLeastMax(a[hi].crowding);
    assert a[lo] in multiset(b) && a[hi] in multiset(b);
    var lo' :| 0 <= lo' < |b| && b[lo'] == a[lo];
    var hi' :| 0 <= hi' < |b| && b[hi'] == a[hi];
    forall j | 0 <= j < |b|
      ensures Objective(b[lo'], k) <= Objective(b[j], k) <= Objective(b[hi'], k)
    {
      assert b[j] in multiset(a);
      var j' :| 0 <= j' < |a| && a[j'] == b[j];
    }
    assert IsLowest(b, lo', k) && IsHighest(b, hi', k);
  }

  /** A crowding pass changes crowding only, and never lowers it below `MAX_VALUE`. */
  lemma CrowdPassKeeps(s: seq<Individual>, k: nat)
    ensures forall m :: 0 <= m < |s| ==> CrowdPass(s, k)[m] == s[m].(crowding := CrowdPass(s, k)[m].crowding)
    ensures forall m :: 0 <= m < |s| && AtLeastMax(s[m].crowding) ==> AtLeastMax(CrowdPass(s, k)[m].crowding)
  {
  }

  /** A crowding pass gives the first and the last member `MAX_VALUE` or more. */
  lemma CrowdPassEnds(s: seq<Individual>, k: nat)
    requires |s| >= 1
    ensures AtLeastMax(CrowdPass(s, k)[0].crowding) && AtLeastMax(CrowdPass(s, k)[|s| - 1].crowding)
  {
  }

  lemma CrowdPassStrip(s: seq<Individual>, k: nat)
    ensures Stripped(CrowdPass(s, k)) == Stripped(s)
  {
    CrowdPassKeeps(s, k);
  }

  /** A crowding pass keeps every member's fitness. */
  lemma CrowdPassFitness(s: seq<Individual>, k: nat)
    ensures forall j :: 0 <= j < |s| ==> CrowdPass(s, k)[j].fitness == s[j].fitness
  {
  }

  /** A crowding pass never takes a member's crowding below `MAX_VALUE` once there. */
  lemma CrowdPassKeepsMax(s: seq<Individual>, k: nat, m: nat)
    requires m < |s| && AtLeastMax(s[m].crowding)
    ensures AtLeastMax(CrowdPass(s, k)[m].crowding)
  {
    assert CrowdPass(s, k)[m].crowding == PassCrowding(s, k, m);
  }

  /** A crowding pass keeps a lowest member lowest and a highest member highest. */
  lemma CrowdPassOrder(s: seq<Individual>, k: nat, k': nat, lo: nat, hi: nat)
    requires lo < |s| && hi < |s| && IsLowest(s, lo, k') && IsHighest(s, hi, k')
    ensures IsLowest(CrowdPass(s, k), lo, k') && IsHighest(CrowdPass(s, k), hi, k')
  {
    var r := CrowdPass(s, k);
    CrowdPassFitness(s, k);
    forall j | 0 <= j < |r|
      ensures Objective(r[lo], k') <= Objective(r[j], k') <= Objective(r[hi], k')
    {
      assert Objective(s[lo], k') <= Objective(s[j], k') <= Objective(s[hi], k');
    }
  }

  /** A crowding pass keeps the extremes of every objective. */
  lemma CrowdPassExtremes(s: seq<Individual>, k: nat, k': nat)
    requires ExtremesAtMax(s, k')
    ensures ExtremesAtMax(CrowdPass(s, k), k')
  {
    var lo :| 0 <= lo < |s| && IsLowest(s, lo, k') && AtLeastMax(s[lo].crowding);
    var hi :| 0 <= hi < |s| && IsHighest(s, hi, k') && AtLeastMax(s[hi].crowding);
    CrowdPassOrder(s, k, k', lo, hi);
    CrowdPassKeepsMax(s, k, lo);
    CrowdPassKeepsMax(s, k, hi);
  }

  /** A front sorted by objective `k` has a lowest member first and a highest last. */
  lemma SortedEnds(t: seq<Individual>, k: nat)
    requires |t| >= 1 && SortedBy(t, ByObjective(k))
    ensures IsLowest(t, 0, k) && IsHighest(t, |t| - 1, k)
  {
  }

  /** On a front sorted by objective `k`, the pass gives its extremes `MAX_VALUE`. */
  lemma PassOnSortedMakesExtremes(t: seq<Individual>, k: nat)
    requires |t| >= 1 && IsLowest(t, 0, k) && IsHighest(t, |t| - 1, k)
    ensures ExtremesAtMax(CrowdPass(t, k), k)
  {
    CrowdPassKeeps(t, k);
    CrowdPassEnds(t, k);
    var r := CrowdPass(t, k);
    assert forall j :: 0 <= j < |t| ==> Objective(r[j], k) == Objective(t[j], k);
    assert IsLowest(r, 0, k) && AtLeastMax(r[0].crowding);
    assert IsHighest(r, |r| - 1, k) && AtLeastMax(r[|r| - 1].crowding);
  }

  /** The pass over objective `k` gives its first and last members, its extremes, `MAX_VALUE`. */
  lemma PassMakesExtremes(s: seq<Individual>, k: nat)
    requires |s| >= 1
    ensures ExtremesAtMax(CrowdPass(SortBy(s, ByObjective(k)), k), k)
  {
    SortBySorted(s, ByObjective(k));
    SortedEnds(SortBy(s, ByObjective(k)), k);
    PassOnSortedMakesExtremes(SortBy(s, ByObjective(k)), k);
  }

  /** The passes from `k`: the pass over objective `k`, then the passes from `k + 1`. */
  lemma CrowdPassesStep(s: seq<Individual>, k: nat, n: nat)
    requires k < n
    ensures CrowdPasses(s, k, n) == CrowdPasses(CrowdPass(SortBy(s, ByObjective(k)), k), k + 1, n)
  {
  }

  /** The passes keep the extremes already there. */
  lemma {:induction false} CrowdPassesKeepExtremes(s: seq<Individual>, k: nat, n: nat, k': nat)
    requires ExtremesAtMax(s, k')
    ensures ExtremesAtMax(CrowdPasses(s, k, n), k')
    decreases n - k
  {
    if k < n {
      var t := SortBy(s, ByObjective(k));
      var u := CrowdPass(t, k);
      assert CrowdPasses(s, k, n) == CrowdPasses(u, k + 1, n);
      ExtremesPermute(s, t, k');
      CrowdPassExtremes(t, k, k');
      CrowdPassesKeepExtremes(u, k + 1, n, k');
    }
  }

  /** The passes make extremes for each objective they pass over. */
  lemma {:induction false} CrowdPassesMakeExtremes(s: seq<Individual>, k: nat, n: nat, k': nat)
    requires |s| >= 1 && k <= k' < n
    ensures ExtremesAtMax(CrowdPasses(s, k, n), k')
    decreases n - k, 1
  {
    if k' == k {
      FirstPassExtremes(s, k, n);
    } else {
      LaterPassExtremes(s, k, n, k');
    }
  }

  lemma {:induction false} LaterPassExtremes(s: seq<Individual>, k: nat, n: nat, k': nat)
    requires |s| >= 1 && k < k' < n
    ensures ExtremesAtMax(CrowdPasses(s, k, n), k')
    decreases n - k, 0
  {
    var u := CrowdPass(SortBy(s, ByObjective(k)), k);
    CrowdPassesMakeExtremes(u, k + 1, n, k');
    ExtremesAfterStep(s, u, k, n, k');
  }

  /** Extremes that the later passes leave stand after all the passes from `k`. */
  lemma ExtremesAfterStep(s: seq<Individual>, u: seq<Individual>, k: nat, n: nat, k': nat)
    requires k < n && u == CrowdPass(SortBy(s, ByObjective(k)), k)
    requires ExtremesAtMax(CrowdPasses(u, k + 1, n), k')
    ensures ExtremesAtMax(CrowdPasses(s, k, n), k')
  {
    CrowdPassesStep(s, k, n);
  }

  lemma FirstPassExtremes(s: seq<Individual>, k: nat, n: nat)
    requires |s| >= 1 && k < n
    ensures ExtremesAtMax(CrowdPasses(s, k, n), k)
  {
    var u := CrowdPass(SortBy(s, ByObjective(k)), k);
    assert CrowdPasses(s, k, n) == CrowdPasses(u, k + 1, n);
    PassMakesExtremes(s, k);
    CrowdPassesKeepExtremes(u, k + 1, n, k);
  }

  /** The passes reorder the individuals and change only their crowding. */
  lemma {:induction false} CrowdPassesStrip(s: seq<Individual>, k: nat, n: nat)
    ensures multiset(Stripped(CrowdPasses(s, k, n))) == multiset(Stripped(s))
    decreases n - k
  {
    if k < n {
      var t := SortBy(s, ByObjective(k));
      var u := CrowdPass(t, k);
      assert CrowdPasses(s, k, n) == CrowdPasses(u, k + 1, n);
      CrowdPassesStrip(u, k + 1, n);
      CrowdPassStrip(t, k);
      StrippedPermutation(s, t);
    }
  }

  /** Every member of rank `r` in, every member of rank `r` out. */
  lemma {:induction false} CrowdPassesRank(s: seq<Individual>, k: nat, n: nat, r: int)
    requires forall i :: 0 <= i < |s| ==> s[i].paretoRank == r
    ensures forall i :: 0 <= i < |s| ==> CrowdPasses(s, k, n)[i].paretoRank == r
    decreases n - k
  {
    if k < n {
      var t := SortBy(s, ByObjective(k));
      var u := CrowdPass(t, k);
      assert CrowdPasses(s, k, n) == CrowdPasses(u, k + 1, n);
      CrowdPassKeeps(t, k);
      forall i | 0 <= i < |u|
        ensures u[i].paretoRank == r
      {
        assert t[i] in multiset(s);
      }
      CrowdPassesRank(u, k + 1, n, r);
    }
  }

  /** A crowded front is a reordering of the front, up to rank and crowding. */
  lemma CrowdedStrip(front: seq<Individual>, r: int)
    requires |front| >= 1
    ensures multiset(Stripped(Crowded(front, r))) == multiset(Stripped(front))
  {
    var start := Reset(front, r);
    var passed := CrowdPasses(start, 0, |front[0].fitness|);
    assert Stripped(start) == Stripped(front);
    CrowdPassesStrip(start, 0, |front[0].fitness|);
    StrippedPermutation(passed, Crowded(front, r));
  }

  /** Every member of a crowded front has the front's rank. */
  lemma CrowdedRank(front: seq<Individual>, r: int)
    requires |front| >= 1
    ensures forall i :: 0 <= i < |front| ==> Crowded(front, r)[i].paretoRank == r
  {
    var start := Reset(front, r);
    var passed := CrowdPasses(start, 0, |front[0].fitness|);
    CrowdPassesRank(start, 0, |front[0].fitness|, r);
    var out := Crowded(front, r);
    forall i | 0 <= i < |out|
      ensures out[i].paretoRank == r
    {
      assert out[i] in multiset(passed);
    }
  }

  /** Along a crowded front the crowding distance never increases. */
  lemma CrowdedOrder(front: seq<Individual>, r: int)
    requires |front| >= 1
    ensures forall i, j :: 0 <= i < j < |front| ==>
      !CrowdingGreater(Crowded(front, r)[j].crowding, Crowded(front, r)[i].crowding)
  {
    var out := Crowded(front, r);
    SortBySorted(CrowdPasses(Reset(front, r), 0, |front[0].fitness|), ByCrowdingDescending);
    forall i, j | 0 <= i < j < |out|
      ensures !CrowdingGreater(out[j].crowding, out[i].crowding)
    {
      CrowdKeyOrder(out[j].crowding, out[i].crowding);
      assert Key(ByCrowdingDescending, out[i]) <= Key(ByCrowdingDescending, out[j]);
    }
  }

  /** For every objective, a lowest and a highest member of a crowded front have crowding `MAX_VALUE` or more. */
  lemma CrowdedExtremes(front: seq<Individual>, r: int, k: nat)
    requires |front| >= 1 && k < |front[0].fitness|
    ensures ExtremesAtMax(Crowded(front, r), k)
  {
    var passed := CrowdPasses(Reset(front, r), 0, |front[0].fitness|);
    CrowdPassesMakeExtremes(Reset(front, r), 0, |front[0].fitness|, k);
    ExtremesPermute(passed, Crowded(front, r), k);
  }

  // ---------------------------------------------------------------------------
  // Facts about the whole sort

  /** Ranks start at `r`, never decrease, and go up one step at a time. */
  ghost predicate RankedFrom(s: seq<Individual>, r: int)
  {
    (|s| > 0 ==> s[0].paretoRank == r) &&
    (forall i :: 0 <= i < |s| ==> s[i].paretoRank >= r) &&
    (forall i, j :: 0 <= i < j < |s| ==> s[i].paretoRank <= s[j].paretoRank) &&
    (forall i :: 0 < i < |s| ==> s[i].paretoRank <= s[i - 1].paretoRank + 1)
  }

  /** Within one rank the crowding distance never increases. */
  ghost predicate CrowdingWithinRank(s: seq<Individual>)
  {
    forall i, j :: 0 <= i < j < |s| && s[i].paretoRank == s[j].paretoRank ==>
      !CrowdingGreater(s[j].crowding, s[i].crowding)
  }

  /** The first front and the rest of a round. */
  lemma RoundParts(rem: seq<Individual>)
    requires SameObjectives(rem) && |rem| >= 1
    ensures |Pick(rem, FrontMask(rem))| >= 1
    ensures |Drop(rem, FrontMask(rem))| < |rem|
    ensures SameObjectives(Drop(rem, FrontMask(rem)))
    ensures multiset(Pick(rem, FrontMask(rem))) + multiset(Drop(rem, FrontMask(rem))) == multiset(rem)
  {
    FrontFacts(rem);
    PickDrop(rem, FrontMask(rem));
  }

  /** One round of the ranking: the first front, crowded, then the rest ranked one higher. */
  lemma RankFromRound(rem: seq<Individual>, r: int)
    requires SameObjectives(rem) && |rem| >= 1
    ensures |Pick(rem, FrontMask(rem))| >= 1 && SameObjectives(Drop(rem, FrontMask(rem)))
    ensures RankFrom(rem, r) == Crowded(Pick(rem, FrontMask(rem)), r) + RankFrom(Drop(rem, FrontMask(rem)), r + 1)
  {
    RoundParts(rem);
  }

  /** The sort keeps every individual, changing only its rank and crowding. */
  lemma {:induction false} RankFromStrip(rem: seq<Individual>, r: int)
    requires SameObjectives(rem)
    ensures multiset(Stripped(RankFrom(rem, r))) == multiset(Stripped(rem))
    decreases |rem|
  {
    if rem != [] {
      var mask := FrontMask(rem);
      RoundParts(rem);
      var front, rest := Pick(rem, mask), Drop(rem, mask);
      RankFromStrip(rest, r + 1);
      CrowdedStrip(front, r);
      StrippedJoin(Crowded(front, r), RankFrom(rest, r + 1), front, rest, rem);
    }
  }

  /** Joining two parts, each a reordering of a part of `whole` up to rank and crowding. */
  lemma StrippedJoin(a: seq<Individual>, b: seq<Individual>, c: seq<Individual>, d: seq<Individual>, whole: seq<Individual>)
    requires multiset(Stripped(a)) == multiset(Stripped(c)) && multiset(Stripped(b)) == multiset(Stripped(d))
    requires multiset(c) + multiset(d) == multiset(whole)
    ensures multiset(Stripped(a + b)) == multiset(Stripped(whole))
  {
    StrippedConcat(a, b);
    StrippedConcat(c, d);
    assert multiset(c + d) == multiset(whole);
    StrippedPermutation(c + d, whole);
  }

  /** Ranks in the sorted population start at `r` and rise one at a time. */
  lemma {:induction false} RankFromRanks(rem: seq<Individual>, r: int)
    requires SameObjectives(rem)
    ensures RankedFrom(RankFrom(rem, r), r)
    decreases |rem|
  {
    if rem != [] {
      var mask := FrontMask(rem);
      RoundParts(rem);
      var front, rest := Pick(rem, mask), Drop(rem, mask);
      RankFromRanks(rest, r + 1);
      RankFromStrip(rest, r + 1);
      CrowdedRank(front, r);
      RankedConcat(Crowded(front, r), RankFrom(rest, r + 1), r);
    }
  }

  lemma RankedConcat(f: seq<Individual>, t: seq<Individual>, r: int)
    requires |f| >= 1 && forall i :: 0 <= i < |f| ==> f[i].paretoRank == r
    requires RankedFrom(t, r + 1)
    ensures RankedFrom(f + t, r)
  {
    var s := f + t;
    forall i, j | 0 <= i < j < |s|
      ensures s[i].paretoRank <= s[j].paretoRank
    {
      if j >= |f| && i >= |f| {
        assert s[i] == t[i - |f|] && s[j] == t[j - |f|];
      }
    }
    forall i | 0 < i < |s|
      ensures s[i].paretoRank <= s[i - 1].paretoRank + 1
    {
      if i > |f| {
        assert s[i] == t[i - |f|] && s[i - 1] == t[i - 1 - |f|];
      }
    }
  }

  /** Within each rank of the sorted population, crowding never increases. */
  lemma {:induction false} RankFromCrowding(rem: seq<Individual>, r: int)
    requires SameObjectives(rem)
    ensures CrowdingWithinRank(RankFrom(rem, r))
    decreases |rem|
  {
    if rem != [] {
      var mask := FrontMask(rem);
      RoundParts(rem);
      var front, rest := Pick(rem, mask), Drop(rem, mask);
      RankFromCrowding(rest, r + 1);
      RankFromRanks(rest, r + 1);
      CrowdedRank(front, r);
      CrowdedOrder(front, r);
      CrowdingConcat(Crowded(front, r), RankFrom(rest, r + 1), r);
    }
  }

  lemma CrowdingConcat(f: seq<Individual>, t: seq<Individual>, r: int)
    requires forall i :: 0 <= i < |f| ==> f[i].paretoRank == r
    requires forall i, j :: 0 <= i < j < |f| ==> !CrowdingGreater(f[j].crowding, f[i].crowding)
    requires forall i :: 0 <= i < |t| ==> t[i].paretoRank >= r + 1
    requires CrowdingWithinRank(t)
    ensures CrowdingWithinRank(f + t)
  {
    var s := f + t;
    forall i, j | 0 <= i < j < |s| && s[i].paretoRank == s[j].paretoRank
      ensures !CrowdingGreater(s[j].crowding, s[i].crowding)
    {
      if i >= |f| {
        assert s[i] == t[i - |f|] && s[j] == t[j - |f|];
      }
    }
  }

  /**
   * The sorted population: the same individuals with rank and crowding
   * assigned, ranks from 0 rising one at a time, and crowding
   * non-increasing within each rank.
   */
  lemma ParetoSortedFacts(s: seq<Individual>)
    requires SameObjectives(s)
    ensures |ParetoSorted(s)| == |s|
    ensures multiset(Stripped(ParetoSorted(s))) == multiset(Stripped(s))
    ensures RankedFrom(ParetoSorted(s), 0)
    ensures CrowdingWithinRank(ParetoSorted(s))
  {
    UnrankedObjectives(s);
    assert Stripped(Unranked(s)) == Stripped(s);
    RankFromStrip(Unranked(s), 0);
    RankFromRanks(Unranked(s), 0);
    RankFromCrowding(Unranked(s), 0);
  }

  // ---------------------------------------------------------------------------
  // What the ranks mean

  /** `x` beats `y`: they have the same objectives, and compared either way round, the outcome goes against `y`. */
  predicate Beats(x: Individual, y: Individual)
  {
    1 <= |x.fitness| == |y.fitness| &&
    (ConstrainedDominance(y, x) == Dominated || ConstrainedDominance(x, y) == Dominating)
  }

  /** `x` and `y` have the same objectives, and `x` is not dominated by `y`. */
  predicate Undominated(x: Individual, y: Individual)
  {
    1 <= |x.fitness| == |y.fitness| && ConstrainedDominance(x, y) != Dominated
  }

  /** No member is dominated by another member of the same rank. */
  ghost predicate UndominatedWithinRank(s: seq<Individual>)
  {
    forall i, j :: 0 <= i < |s| && 0 <= j < |s| && i != j && s[i].paretoRank == s[j].paretoRank ==>
      Undominated(s[i], s[j])
  }

  /** Every member ranked above `r` is beaten by another member at most one rank below it. */
  ghost predicate BeatenFromBelow(s: seq<Individual>, r: int)
  {
    forall i :: 0 <= i < |s| && s[i].paretoRank > r ==>
      exists j :: 0 <= j < |s| && j != i && s[j].paretoRank >= s[i].paretoRank - 1 && Beats(s[j], s[i])
  }

  /** The comparison reads only the fitness and the constraint error, which stripping keeps. */
  lemma StripKeepsDominance(a: Individual, b: Individual, c: Individual, d: Individual)
    requires Strip(a) == Strip(c) && Strip(b) == Strip(d) && 1 <= |a.fitness| == |b.fitness|
    ensures ConstrainedDominance(a, b) == ConstrainedDominance(c, d)
  {
    assert a.fitness == Strip(a).fitness == c.fitness && b.fitness == Strip(b).fitness == d.fitness;
    assert a.constraintError == Strip(a).constraintError == c.constraintError;
    assert b.constraintError == Strip(b).constraintError == d.constraintError;
  }

  /** Whether one individual beats another does not depend on ranks or crowding. */
  lemma StripKeepsBeats(x: Individual, y: Individual)
    ensures Beats(x, y) == Beats(Strip(x), Strip(y))
  {
    if 1 <= |x.fitness| == |y.fitness| {
      StripKeepsDominance(x, y, Strip(x), Strip(y));
      StripKeepsDominance(y, x, Strip(y), Strip(x));
    }
  }

  /** When `b` finds `a` incomparable, `a` is not dominated by `b` either. */
  lemma IncomparableNotDominated(a: Individual, b: Individual)
    requires 1 <= |a.fitness| == |b.fitness| && ConstrainedDominance(b, a) == Incomparable
    ensures ConstrainedDominance(a, b) != Dominated
  {
    if |a.fitness| > 1 && ConstrainedDominance(a, b) == Dominated {
      DominatedMirrors(a.fitness, b.fitness);
    }
  }

  /** Taking out position `k` takes one copy of its value out of the multiset. */
  lemma RemoveAt<T>(s: seq<T>, k: nat)
    requires k < |s|
    ensures multiset(s[..k] + s[k + 1..]) == multiset(s) - multiset{s[k]}
  {
    assert s == s[..k] + [s[k]] + s[k + 1..];
  }

  /** Two different positions of `a` hold values found at two different positions of a permutation `b`. */
  lemma TwoPositions<T>(a: seq<T>, b: seq<T>, i: nat, j: nat) returns (p: nat, q: nat)
    requires multiset(a) == multiset(b) && i < |a| && j < |a| && i != j
    ensures p < |b| && q < |b| && p != q && b[p] == a[i] && b[q] == a[j]
  {
    p := IndexOf(b, a[i]);
    var ra, rb := a[..i] + a[i + 1..], b[..p] + b[p + 1..];
    RemoveAt(a, i);
    RemoveAt(b, p);
    var j' := if j < i then j else j - 1;
    RemovedIndex(a, i, j');
    assert a[j] in multiset(rb);
    var q' := IndexOf(rb, a[j]);
    RemovedIndex(b, p, q');
    q := if q' < p then q' else q' + 1;
  }

  /** Position `m` of `s` without position `k` is position `m` or `m + 1` of `s`. */
  lemma RemovedIndex<T>(s: seq<T>, k: nat, m: nat)
    requires k < |s| && m < |s| - 1
    ensures (s[..k] + s[k + 1..])[m] == s[if m < k then m else m + 1]
  {
  }

  /** Given position `i` of `b` holding `a[t]`, some other position of `b` holds `a[k]`. */
  lemma OtherPosition<T>(a: seq<T>, b: seq<T>, t: nat, k: nat, i: nat) returns (j: nat)
    requires multiset(a) == multiset(b) && t < |a| && k < |a| && t != k && i < |b| && b[i] == a[t]
    ensures j < |b| && j != i && b[j] == a[k]
  {
    var p, q := TwoPositions(a, b, t, k);
    j := if q != i then q else p;
  }

  /** Each picked member sits at a marked position. */
  lemma {:induction false} PickOne<T>(s: seq<T>, mask: seq<bool>, p: nat) returns (t: nat)
    requires |mask| == |s| && p < |Pick(s, mask)|
    ensures t < |s| && mask[t] && s[t] == Pick(s, mask)[p]
  {
    var n := |s| - 1;
    var front := Pick(s[..n], mask[..n]);
    if p < |front| {
      t := PickOne(s[..n], mask[..n], p);
    } else {
      t := n;
    }
  }

  /** Two picked members sit at marked positions in the same order. */
  lemma {:induction false} PickTwo<T>(s: seq<T>, mask: seq<bool>, p: nat, q: nat) returns (t: nat, u: nat)
    requires |mask| == |s| && p < q < |Pick(s, mask)|
    ensures t < u < |s| && mask[t] && mask[u] && s[t] == Pick(s, mask)[p] && s[u] == Pick(s, mask)[q]
  {
    var n := |s| - 1;
    var front := Pick(s[..n], mask[..n]);
    if q < |front| {
      t, u := PickTwo(s[..n], mask[..n], p, q);
    } else {
      t := PickOne(s[..n], mask[..n], p);
      u := n;
    }
  }

  /** Each dropped member sits at an unmarked position. */
  lemma {:induction false} DropOne<T>(s: seq<T>, mask: seq<bool>, p: nat) returns (t: nat)
    requires |mask| == |s| && p < |Drop(s, mask)|
    ensures t < |s| && !mask[t] && s[t] == Drop(s, mask)[p]
  {
    var n := |s| - 1;
    var rest := Drop(s[..n], mask[..n]);
    if p < |rest| {
      t := DropOne(s[..n], mask[..n], p);
    } else {
      t := n;
    }
  }

  /** A member of the sorted population is, up to rank and crowding, a member of the input. */
  lemma RankFromSource(rem: seq<Individual>, r: int, i: nat) returns (t: nat)
    requires SameObjectives(rem) && i < |RankFrom(rem, r)|
    ensures t < |rem| && Strip(RankFrom(rem, r)[i]) == Strip(rem[t])
  {
    RankFromStrip(rem, r);
    assert Stripped(RankFrom(rem, r))[i] in multiset(Stripped(rem));
    t := IndexOf(Stripped(rem), Stripped(RankFrom(rem, r))[i]);
  }

  /** The sorted population keeps the number of objectives. */
  lemma RankFromObjectives(rem: seq<Individual>, r: int)
    requires SameObjectives(rem)
    ensures SameObjectives(RankFrom(rem, r))
  {
    var out := RankFrom(rem, r);
    forall x, y | x in out && y in out
      ensures 1 <= |x.fitness| == |y.fitness|
    {
      var i :| 0 <= i < |out| && out[i] == x;
      var j :| 0 <= j < |out| && out[j] == y;
      var t := RankFromSource(rem, r, i);
      var u := RankFromSource(rem, r, j);
      assert x.fitness == Strip(x).fitness == rem[t].fitness;
      assert y.fitness == Strip(y).fitness == rem[u].fitness;
      assert rem[t] in rem && rem[u] in rem;
    }
  }

  /** Two different members of one front: the later one found the earlier incomparable, so neither is dominated. */
  lemma FrontPairUndominated(rem: seq<Individual>, front: seq<Individual>, r: int, i: nat, j: nat)
    requires SameObjectives(rem) && front == Pick(rem, FrontMask(rem)) && |front| >= 1
    requires i < |front| && j < |front| && i != j
    ensures Undominated(Crowded(front, r)[i], Crowded(front, r)[j])
  {
    var mask := FrontMask(rem);
    var f := Crowded(front, r);
    CrowdedStrip(front, r);
    var p, q := TwoPositions(Stripped(f), Stripped(front), i, j);
    var t, u;
    if p < q {
      t, u := PickTwo(rem, mask, p, q);
    } else {
      u, t := PickTwo(rem, mask, q, p);
    }
    assert rem[t] in rem && rem[u] in rem;
    ScanFacts(rem, |rem|);
    assert mask == Scan(rem, |rem|);
    if t < u {
      IncomparableNotDominated(rem[t], rem[u]);
    }
    StripKeepsDominance(f[i], f[j], rem[t], rem[u]);
  }

  /** Within each rank of the sorted fronts, no member is dominated by another. */
  lemma {:induction false} RankFromUndominated(rem: seq<Individual>, r: int)
    requires SameObjectives(rem)
    ensures SameObjectives(RankFrom(rem, r))
    ensures UndominatedWithinRank(RankFrom(rem, r))
    decreases |rem|
  {
    RankFromObjectives(rem, r);
    if rem != [] {
      var mask := FrontMask(rem);
      RankFromRound(rem, r);
      var front, rest := Pick(rem, mask), Drop(rem, mask);
      var f := Crowded(front, r);
      RankFromUndominated(rest, r + 1);
      RankFromRanks(rest, r + 1);
      CrowdedRank(front, r);
      forall i, j | 0 <= i < |f| && 0 <= j < |f| && i != j
        ensures Undominated(f[i], f[j])
      {
        FrontPairUndominated(rem, front, r, i, j);
      }
      UndominatedConcat(f, RankFrom(rest, r + 1), r);
    }
  }

  /** A front of rank `r` with no member dominated by another, followed by higher ranks with the same property. */
  lemma UndominatedConcat(f: seq<Individual>, t: seq<Individual>, r: int)
    requires forall i :: 0 <= i < |f| ==> f[i].paretoRank == r
    requires forall i :: 0 <= i < |t| ==> t[i].paretoRank >= r + 1
    requires UndominatedWithinRank(t)
    requires forall i, j :: 0 <= i < |f| && 0 <= j < |f| && i != j ==> Undominated(f[i], f[j])
    ensures UndominatedWithinRank(f + t)
  {
    var out := f + t;
    forall i | 0 <= i < |out|
      ensures i < |f| ==> out[i] == f[i]
      ensures i >= |f| ==> out[i] == t[i - |f|] && out[i].paretoRank >= r + 1
    {
    }
  }

  /** Every member of the sorted fronts above rank `r` is beaten by another at most one rank below it. */
  lemma {:induction false} RankFromBeaten(rem: seq<Individual>, r: int)
    requires SameObjectives(rem)
    ensures SameObjectives(RankFrom(rem, r))
    ensures BeatenFromBelow(RankFrom(rem, r), r)
    decreases |rem|
  {
    RankFromObjectives(rem, r);
    if rem != [] {
      var mask := FrontMask(rem);
      RankFromRound(rem, r);
      var front, rest := Pick(rem, mask), Drop(rem, mask);
      var f, t := Crowded(front, r), RankFrom(rest, r + 1);
      RankFromBeaten(rest, r + 1);
      RankFromRanks(rem, r);
      CrowdedRank(front, r);
      RankFromStrip(rem, r);
      RankFromStrip(rest, r + 1);
      NextRankBeaten(rem, rest, f, t, r);
    }
  }

  /**
   * One round of the sort: the members after the first front were left out of it, so other
   * members beat them, and the later ranks are beaten from below already.
   */
  lemma {:induction false} NextRankBeaten(rem: seq<Individual>, rest: seq<Individual>, f: seq<Individual>, t: seq<Individual>, r: int)
    requires SameObjectives(rem) && rest == Drop(rem, FrontMask(rem))
    requires multiset(Stripped(f + t)) == multiset(Stripped(rem)) && multiset(Stripped(t)) == multiset(Stripped(rest))
    requires forall i :: 0 <= i < |f| ==> f[i].paretoRank == r
    requires RankedFrom(f + t, r) && BeatenFromBelow(t, r + 1)
    ensures BeatenFromBelow(f + t, r)
  {
    var out := f + t;
    assert out[|f|..] == t;
    BeatenAfter(rem, out, |f|, t);
    BeatenConcat(f, t, r);
  }

  /** Members of `out` from `lo` on reorder the individuals left out of the front, so other members beat them. */
  lemma {:induction false} BeatenAfter(rem: seq<Individual>, out: seq<Individual>, lo: nat, t: seq<Individual>)
    requires SameObjectives(rem) && multiset(Stripped(out)) == multiset(Stripped(rem))
    requires lo <= |out| && out[lo..] == t
    requires multiset(Stripped(t)) == multiset(Stripped(Drop(rem, FrontMask(rem))))
    ensures forall i :: lo <= i < |out| ==> exists j :: 0 <= j < |out| && j != i && Beats(out[j], out[i])
  {
    var rest := Drop(rem, FrontMask(rem));
    forall i | lo <= i < |out|
      ensures exists j :: 0 <= j < |out| && j != i && Beats(out[j], out[i])
    {
      assert Stripped(t)[i - lo] == Strip(out[i]);
      var m := IndexOf(Stripped(rest), Stripped(t)[i - lo]);
      var j := OutsideFrontBeaten(rem, out, i, m);
    }
  }

  /** A member left out of the front is beaten by another member of any reordering of the population. */
  lemma OutsideFrontBeaten(rem: seq<Individual>, out: seq<Individual>, i: nat, m: nat) returns (j: nat)
    requires SameObjectives(rem) && multiset(Stripped(out)) == multiset(Stripped(rem))
    requires i < |out| && m < |Drop(rem, FrontMask(rem))| && Strip(out[i]) == Strip(Drop(rem, FrontMask(rem))[m])
    ensures j < |out| && j != i && Beats(out[j], out[i])
  {
    var mask := FrontMask(rem);
    var u := DropOne(rem, mask, m);
    ScanBeaten(rem, |rem|);
    assert mask == Scan(rem, |rem|);
    assert Beaten(rem, u);
    var k :| 0 <= k < |rem| && k != u &&
      (ConstrainedDominance(rem[u], rem[k]) == Dominated || ConstrainedDominance(rem[k], rem[u]) == Dominating);
    j := OtherPosition(Stripped(rem), Stripped(out), u, k, i);
    assert rem[k] in rem && rem[u] in rem;
    assert out[j].fitness == Strip(out[j]).fitness == rem[k].fitness;
    assert out[i].fitness == Strip(out[i]).fitness == rem[u].fitness;
    StripKeepsDominance(out[j], out[i], rem[k], rem[u]);
    StripKeepsDominance(out[i], out[j], rem[u], rem[k]);
  }

  /** Rank `r` in front, then higher ranks each beaten from at most one rank below, and every later member beaten by someone. */
  lemma BeatenConcat(f: seq<Individual>, t: seq<Individual>, r: int)
    requires forall i :: 0 <= i < |f| ==> f[i].paretoRank == r
    requires forall i :: 0 <= i < |f + t| ==> (f + t)[i].paretoRank >= r
    requires BeatenFromBelow(t, r + 1)
    requires forall i :: |f| <= i < |f + t| ==> exists j :: 0 <= j < |f + t| && j != i && Beats((f + t)[j], (f + t)[i])
    ensures BeatenFromBelow(f + t, r)
  {
    var out := f + t;
    forall i | 0 <= i < |f|
      ensures out[i].paretoRank == r
    {
      assert out[i] == f[i];
    }
    forall i | |f| <= i < |out| && out[i].paretoRank > r
      ensures exists j :: 0 <= j < |out| && j != i && out[j].paretoRank >= out[i].paretoRank - 1 && Beats(out[j], out[i])
    {
      var i' := i - |f|;
      assert out[i] == t[i'];
      if t[i'].paretoRank > r + 1 {
        var j' :| 0 <= j' < |t| && j' != i' && t[j'].paretoRank >= t[i'].paretoRank - 1 && Beats(t[j'], t[i']);
        assert out[j' + |f|] == t[j'];
      } else {
        var j :| 0 <= j < |out| && j != i && Beats(out[j], out[i]);
        assert out[j].paretoRank >= r;
      }
    }
  }

  /**
   * What the ranks of `sortParetoRank` mean: no member is dominated by
   * another member of its rank, and every member above rank 0 is beaten by
   * another member at most one rank below it.
   */
  lemma ParetoRanksMeaning(s: seq<Individual>)
    requires SameObjectives(s)
    ensures SameObjectives(ParetoSorted(s))
    ensures UndominatedWithinRank(ParetoSorted(s))
    ensures BeatenFromBelow(ParetoSorted(s), 0)
  {
    UnrankedObjectives(s);
    RankFromUndominated(Unranked(s), 0);
    RankFromBeaten(Unranked(s), 0);
  }

  /** Within `s`, beating is a strict order: no member beats itself, and beating is transitive. */
  ghost predicate StrictlyOrdered(s: seq<Individual>)
  {
    (forall x :: x in s ==> !Beats(x, x)) &&
    (forall x, y, z :: x in s && y in s && z in s && Beats(x, y) && Beats(y, z) ==> Beats(x, z))
  }

  /** Every member ranked above `r` is beaten by a member exactly one rank below it. */
  ghost predicate BeatenFromPreviousRank(s: seq<Individual>, r: int)
  {
    forall i :: 0 <= i < |s| && s[i].paretoRank > r ==>
      exists j :: 0 <= j < |s| && s[j].paretoRank == s[i].paretoRank - 1 && Beats(s[j], s[i])
  }

  /** A strict order stays one on any part of the population. */
  lemma StrictlyOrderedPart(s: seq<Individual>, t: seq<Individual>)
    requires StrictlyOrdered(s) && forall x :: x in t ==> x in s
    ensures StrictlyOrdered(t)
  {
  }

  /** Resetting the ranks changes no comparison. */
  lemma UnrankedBeats(s: seq<Individual>, i: nat, j: nat)
    requires i < |s| && j < |s|
    ensures Beats(Unranked(s)[i], Unranked(s)[j]) == Beats(s[i], s[j])
  {
    var u := Unranked(s);
    assert Strip(u[i]) == Strip(s[i]) && Strip(u[j]) == Strip(s[j]);
    StripKeepsBeats(u[i], u[j]);
    StripKeepsBeats(s[i], s[j]);
  }

  /** Resetting the ranks keeps a strict order. */
  lemma {:induction false} UnrankedStrictlyOrdered(s: seq<Individual>)
    requires StrictlyOrdered(s)
    ensures StrictlyOrdered(Unranked(s))
  {
    var u := Unranked(s);
    forall x | x in u
      ensures !Beats(x, x)
    {
      var i :| 0 <= i < |u| && u[i] == x;
      UnrankedBeats(s, i, i);
      assert s[i] in s;
    }
    forall x, y, z | x in u && y in u && z in u && Beats(x, y) && Beats(y, z)
      ensures Beats(x, z)
    {
      var i :| 0 <= i < |u| && u[i] == x;
      var j :| 0 <= j < |u| && u[j] == y;
      var k :| 0 <= k < |u| && u[k] == z;
      UnrankedBeats(s, i, j);
      UnrankedBeats(s, j, k);
      UnrankedBeats(s, i, k);
      BeatsTransitive(s, s[i], s[j], s[k]);
    }
  }

  /** The transitive step of a strict order. */
  lemma BeatsTransitive(s: seq<Individual>, x: Individual, y: Individual, z: Individual)
    requires StrictlyOrdered(s) && x in s && y in s && z in s
    ensures Beats(x, y) && Beats(y, z) ==> Beats(x, z)
  {
  }

  /** The positions of the members of `rem` that beat member `t`. */
  ghost function Beaters(rem: seq<Individual>, t: nat): set<nat>
    requires t < |rem|
  {
    set k: nat | k < |rem| && Beats(rem[k], rem[t])
  }

  /** Under a strict order, whoever beats `j` also beats every member `j` beats, and `j` is not among its own beaters. */
  lemma {:induction false} BeatersShrink(rem: seq<Individual>, j: nat, t: nat)
    requires StrictlyOrdered(rem) && j < |rem| && t < |rem| && Beats(rem[j], rem[t])
    ensures |Beaters(rem, j)| < |Beaters(rem, t)|
  {
    var a, b := Beaters(rem, j), Beaters(rem, t);
    forall k | k in a
      ensures k in b
    {
      BeatsTransitive(rem, rem[k], rem[j], rem[t]);
    }
    assert rem[j] in rem;
    assert j in b - a;
    assert b == a + (b - a);
  }

  /** Each marked member is picked. */
  lemma {:induction false} PickMarked<T>(s: seq<T>, mask: seq<bool>, t: nat)
    requires |mask| == |s| && t < |s| && mask[t]
    ensures s[t] in Pick(s, mask)
  {
    var n := |s| - 1;
    assert s[..n][..] == s[..n];
    if t < n {
      PickMarked(s[..n], mask[..n], t);
    }
  }

  /** Under a strict order, a member left out of the front is beaten by a member of the front. */
  lemma {:induction false} FrontBeater(rem: seq<Individual>, t: nat) returns (k: nat)
    requires SameObjectives(rem) && StrictlyOrdered(rem) && t < |rem| && !FrontMask(rem)[t]
    ensures k < |rem| && FrontMask(rem)[k] && Beats(rem[k], rem[t])
    decreases |Beaters(rem, t)|
  {
    ScanBeaten(rem, |rem|);
    assert FrontMask(rem) == Scan(rem, |rem|);
    assert Beaten(rem, t);
    var j :| 0 <= j < |rem| && j != t &&
      (ConstrainedDominance(rem[t], rem[j]) == Dominated || ConstrainedDominance(rem[j], rem[t]) == Dominating);
    assert rem[j] in rem && rem[t] in rem;
    if FrontMask(rem)[j] {
      k := j;
    } else {
      BeatersShrink(rem, j, t);
      k := FrontBeater(rem, j);
      BeatsTransitive(rem, rem[k], rem[j], rem[t]);
    }
  }

  /** Every member left out of the front of `rem` is beaten by a member of the front. */
  ghost predicate BeatenByFront(rem: seq<Individual>)
    requires SameObjectives(rem)
  {
    forall u :: 0 <= u < |rem| && !FrontMask(rem)[u] ==>
      exists k :: 0 <= k < |rem| && FrontMask(rem)[k] && Beats(rem[k], rem[u])
  }

  /** Under a strict order, the front beats everyone it leaves out. */
  lemma {:induction false} StrictlyOrderedBeatenByFront(rem: seq<Individual>)
    requires SameObjectives(rem) && StrictlyOrdered(rem)
    ensures BeatenByFront(rem)
  {
    forall u | 0 <= u < |rem| && !FrontMask(rem)[u]
      ensures exists k :: 0 <= k < |rem| && FrontMask(rem)[k] && Beats(rem[k], rem[u])
    {
      var k := FrontBeater(rem, u);
    }
  }

  /** A member of `out` that reorders one left out of the front is beaten by a member of the reordered front `f`. */
  lemma {:induction false} OutsideFrontBeatenByFront(rem: seq<Individual>, out: seq<Individual>, f: seq<Individual>, i: nat, m: nat) returns (j: nat)
    requires SameObjectives(rem) && BeatenByFront(rem)
    requires multiset(Stripped(f)) == multiset(Stripped(Pick(rem, FrontMask(rem))))
    requires |f| <= |out| && out[..|f|] == f
    requires i < |out| && m < |Drop(rem, FrontMask(rem))| && Strip(out[i]) == Strip(Drop(rem, FrontMask(rem))[m])
    ensures j < |f| && Beats(out[j], out[i])
  {
    var mask := FrontMask(rem);
    var front := Pick(rem, mask);
    var u := DropOne(rem, mask, m);
    var k :| 0 <= k < |rem| && mask[k] && Beats(rem[k], rem[u]);
    PickMarked(rem, mask, k);
    var p := IndexOf(front, rem[k]);
    assert Stripped(front)[p] == Strip(rem[k]);
    j := IndexOf(Stripped(f), Strip(rem[k]));
    assert out[j] == f[j];
    StripKeepsBeats(out[j], out[i]);
    StripKeepsBeats(rem[k], rem[u]);
  }

  /** One round of the sort: the members after the reordered front `f` are each beaten by a member of it. */
  lemma {:induction false} NextRankBeatenFromPrevious(rem: seq<Individual>, f: seq<Individual>, t: seq<Individual>, r: int)
    requires SameObjectives(rem) && BeatenByFront(rem)
    requires multiset(Stripped(f)) == multiset(Stripped(Pick(rem, FrontMask(rem))))
    requires multiset(Stripped(t)) == multiset(Stripped(Drop(rem, FrontMask(rem))))
    requires forall i :: 0 <= i < |f| ==> f[i].paretoRank == r
    requires forall i :: 0 <= i < |t| ==> t[i].paretoRank >= r + 1
    requires BeatenFromPreviousRank(t, r + 1)
    ensures BeatenFromPreviousRank(f + t, r)
  {
    FrontBeatsAfter(rem, f, t);
    PreviousRankConcat(f, t, r);
  }

  /** Every member of `s` from position `n` on is beaten by one of the first `n`. */
  ghost predicate BeatenByPrefix(s: seq<Individual>, n: nat)
  {
    forall i :: n <= i < |s| ==> exists j :: 0 <= j < n && j < |s| && Beats(s[j], s[i])
  }

  /** Every member of `f + t` after `f` is beaten by a member of `f`. */
  lemma {:induction false} FrontBeatsAfter(rem: seq<Individual>, f: seq<Individual>, t: seq<Individual>)
    requires SameObjectives(rem) && BeatenByFront(rem)
    requires multiset(Stripped(f)) == multiset(Stripped(Pick(rem, FrontMask(rem))))
    requires multiset(Stripped(t)) == multiset(Stripped(Drop(rem, FrontMask(rem))))
    ensures BeatenByPrefix(f + t, |f|)
  {
    var out := f + t;
    var rest := Drop(rem, FrontMask(rem));
    assert out[..|f|] == f;
    forall i | |f| <= i < |out|
      ensures exists j :: 0 <= j < |f| && Beats(out[j], out[i])
    {
      assert Stripped(t)[i - |f|] == Strip(out[i]);
      var m := IndexOf(Stripped(rest), Strip(out[i]));
      var j := OutsideFrontBeatenByFront(rem, out, f, i, m);
    }
  }

  /** Rank `r` in front, each later member beaten by a member of the front, and the later ranks each beaten from the rank before. */
  lemma {:induction false} PreviousRankConcat(f: seq<Individual>, t: seq<Individual>, r: int)
    requires forall i :: 0 <= i < |f| ==> f[i].paretoRank == r
    requires forall i :: 0 <= i < |t| ==> t[i].paretoRank >= r + 1
    requires BeatenFromPreviousRank(t, r + 1)
    requires BeatenByPrefix(f + t, |f|)
    ensures BeatenFromPreviousRank(f + t, r)
  {
    var out := f + t;
    forall i | 0 <= i < |f|
      ensures out[i].paretoRank == r
    {
      assert out[i] == f[i];
    }
    forall i | |f| <= i < |out| && out[i].paretoRank > r
      ensures exists j :: 0 <= j < |out| && out[j].paretoRank == out[i].paretoRank - 1 && Beats(out[j], out[i])
    {
      var j := PreviousRankMember(f, t, r, i);
    }
  }

  /** One member after `f`: beaten from its previous rank within `t`, or by a member of `f` when that rank is `r`. */
  lemma PreviousRankMember(f: seq<Individual>, t: seq<Individual>, r: int, i: nat) returns (j: nat)
    requires forall i :: 0 <= i < |f| ==> f[i].paretoRank == r
    requires BeatenFromPreviousRank(t, r + 1)
    requires BeatenByPrefix(f + t, |f|)
    requires |f| <= i < |f + t| && (f + t)[i].paretoRank > r
    ensures j < |f + t| && (f + t)[j].paretoRank == (f + t)[i].paretoRank - 1 && Beats((f + t)[j], (f + t)[i])
  {
    var i' := i - |f|;
    ConcatIndex(f, t, i);
    if t[i'].paretoRank > r + 1 {
      var j' := PreviousRankWitness(t, r + 1, i');
      j := j' + |f|;
      ConcatIndex(f, t, j);
    } else {
      j := PrefixWitness(f + t, |f|, i);
      ConcatIndex(f, t, j);
    }
  }

  /** Position `k` of `a + b`. */
  lemma ConcatIndex<T>(a: seq<T>, b: seq<T>, k: nat)
    requires k < |a + b|
    ensures (a + b)[k] == if k < |a| then a[k] else b[k - |a|]
  {
  }

  /** The member one rank below that beats member `i`. */
  lemma PreviousRankWitness(s: seq<Individual>, r: int, i: nat) returns (j: nat)
    requires BeatenFromPreviousRank(s, r) && i < |s| && s[i].paretoRank > r
    ensures j < |s| && s[j].paretoRank == s[i].paretoRank - 1 && Beats(s[j], s[i])
  {
    j :| 0 <= j < |s| && s[j].paretoRank == s[i].paretoRank - 1 && Beats(s[j], s[i]);
  }

  /** The member among the first `n` that beats member `i`. */
  lemma PrefixWitness(s: seq<Individual>, n: nat, i: nat) returns (j: nat)
    requires BeatenByPrefix(s, n) && n <= i < |s|
    ensures j < n && j < |s| && Beats(s[j], s[i])
  {
    var y := s[i];
    j :| 0 <= j < n && j < |s| && Beats(s[j], y);
  }

  /** Under a strict order, every member of the sorted fronts above rank `r` is beaten by a member one rank below it. */
  lemma {:induction false} RankFromBeatenFromPreviousRank(rem: seq<Individual>, r: int)
    requires SameObjectives(rem) && StrictlyOrdered(rem)
    ensures BeatenFromPreviousRank(RankFrom(rem, r), r)
    decreases |rem|
  {
    if rem != [] {
      var mask := FrontMask(rem);
      RankFromRound(rem, r);
      var front, rest := Pick(rem, mask), Drop(rem, mask);
      var f, t := Crowded(front, r), RankFrom(rest, r + 1);
      PickDrop(rem, mask);
      StrictlyOrderedPart(rem, rest);
      RankFromBeatenFromPreviousRank(rest, r + 1);
      RankFromRanks(rest, r + 1);
      CrowdedRank(front, r);
      CrowdedStrip(front, r);
      RankFromStrip(rest, r + 1);
      StrictlyOrderedBeatenByFront(rem);
      NextRankBeatenFromPrevious(rem, f, t, r);
    }
  }

  /**
   * The ranks of NSGA-II's non-dominated sort, which `sortParetoRank`'s
   * Javadoc names: wherever beating is a strict order on the population,
   * every member above rank 0 is beaten by a member exactly one rank below
   * it.
   */
  lemma ParetoRanksFromPreviousRank(s: seq<Individual>)
    requires SameObjectives(s) && StrictlyOrdered(s)
    ensures BeatenFromPreviousRank(ParetoSorted(s), 0)
  {
    UnrankedObjectives(s);
    UnrankedStrictlyOrdered(s);
    RankFromBeatenFromPreviousRank(Unranked(s), 0);
  }

  /** No two members have an objective exactly one tolerance apart. */
  ghost predicate ClearOfBoundary(s: seq<Individual>)
  {
    forall x, y :: x in s && y in s && |x.fitness| == |y.fitness| ==> OffBoundary(x.fitness, y.fitness)
  }

  /** Resetting the ranks keeps every objective, so it keeps the population clear of the boundary. */
  lemma UnrankedClearOfBoundary(s: seq<Individual>)
    requires ClearOfBoundary(s)
    ensures ClearOfBoundary(Unranked(s))
  {
    forall x, y | x in Unranked(s) && y in Unranked(s) && |x.fitness| == |y.fitness|
      ensures OffBoundary(x.fitness, y.fitness)
    {
      var i :| 0 <= i < |s| && Unranked(s)[i] == x;
      var j :| 0 <= j < |s| && Unranked(s)[j] == y;
      assert s[i] in s && s[j] in s;
    }
  }

  /** Off the tolerance boundary, incomparability reads the same from both sides: neither individual beats the other. */
  lemma IncomparableUnbeaten(a: Individual, b: Individual)
    requires 1 <= |a.fitness| == |b.fitness| && OffBoundary(a.fitness, b.fitness)
    requires ConstrainedDominance(b, a) == Incomparable
    ensures !Beats(a, b) && !Beats(b, a)
  {
    IncomparableNotDominated(a, b);
    if Feasible(a) && Feasible(b) && |a.fitness| > 1 && ConstrainedDominance(a, b) == Dominating {
      DominatingMirrors(a.fitness, b.fitness);
    }
  }

  /** Off the boundary and under a strict order, no member of the front beats a member of the front. */
  lemma FrontPairUnbeaten(rem: seq<Individual>, t: nat, u: nat)
    requires SameObjectives(rem) && StrictlyOrdered(rem) && ClearOfBoundary(rem)
    requires t < |rem| && u < |rem| && FrontMask(rem)[t] && FrontMask(rem)[u]
    ensures !Beats(rem[t], rem[u])
  {
    assert rem[t] in rem && rem[u] in rem;
    if t != u {
      ScanIncomparable(rem, |rem|);
      assert FrontMask(rem) == Scan(rem, |rem|);
      if t < u {
        IncomparableUnbeaten(rem[t], rem[u]);
      } else {
        IncomparableUnbeaten(rem[u], rem[t]);
      }
    }
  }

  /**
   * Off the boundary and under a strict order, no member beats a member of
   * the front: whoever is left out of the front is beaten by a member of it,
   * and would pass its win on to that member.
   */
  lemma FrontUnbeaten(rem: seq<Individual>, t: nat, u: nat)
    requires SameObjectives(rem) && StrictlyOrdered(rem) && ClearOfBoundary(rem)
    requires t < |rem| && u < |rem| && FrontMask(rem)[u]
    ensures !Beats(rem[t], rem[u])
  {
    if FrontMask(rem)[t] {
      FrontPairUnbeaten(rem, t, u);
    } else {
      var k := FrontBeater(rem, t);
      FrontPairUnbeaten(rem, k, u);
      assert rem[k] in rem && rem[t] in rem && rem[u] in rem;
      BeatsTransitive(rem, rem[k], rem[t], rem[u]);
    }
  }

  /** No member beats a member of rank 0. */
  ghost predicate RankZeroUnbeaten(s: seq<Individual>)
  {
    forall i, j :: 0 <= i < |s| && 0 <= j < |s| && s[i].paretoRank == 0 ==> !Beats(s[j], s[i])
  }

  /** Off the boundary and under a strict order, no member of the sorted fronts beats one of the first, rank `r`. */
  lemma {:induction false} FirstRankUnbeaten(rem: seq<Individual>, r: int, i: nat, j: nat)
    requires SameObjectives(rem) && StrictlyOrdered(rem) && ClearOfBoundary(rem) && |rem| >= 1
    requires i < |RankFrom(rem, r)| && j < |RankFrom(rem, r)| && RankFrom(rem, r)[i].paretoRank == r
    ensures !Beats(RankFrom(rem, r)[j], RankFrom(rem, r)[i])
  {
    var out := RankFrom(rem, r);
    var mask := FrontMask(rem);
    FirstRankFromFront(rem, r, i);
    var p := IndexOf(Stripped(Pick(rem, mask)), Strip(out[i]));
    var u := PickOne(rem, mask, p);
    RankFromStrip(rem, r);
    assert Stripped(out)[j] == Strip(out[j]);
    var t := IndexOf(Stripped(rem), Strip(out[j]));
    FrontUnbeaten(rem, t, u);
    StripKeepsBeats(out[j], out[i]);
    StripKeepsBeats(rem[t], rem[u]);
  }

  /**
   * Rank 0 is the set NSGA-II calls non-dominated: off the tolerance
   * boundary and wherever beating is a strict order, no member beats a
   * member of rank 0.
   */
  lemma ParetoRankZeroUnbeaten(s: seq<Individual>)
    requires SameObjectives(s) && StrictlyOrdered(s) && ClearOfBoundary(s)
    ensures RankZeroUnbeaten(ParetoSorted(s))
  {
    var out := ParetoSorted(s);
    UnrankedObjectives(s);
    UnrankedStrictlyOrdered(s);
    UnrankedClearOfBoundary(s);
    forall i, j | 0 <= i < |out| && 0 <= j < |out| && out[i].paretoRank == 0
      ensures !Beats(out[j], out[i])
    {
      FirstRankUnbeaten(Unranked(s), 0, i, j);
    }
  }
  /** A feasible, unranked individual with the two objectives `a` and `b`. */
  function TwoObjectives(id: nat, a: real, b: real): (x: Individual)
    ensures Feasible(x) && Strip(x) == x && x.fitness == [a, b]
  {
    Individual(id, [a, b], 0.0, -1, Gap(0.0), false, true, 0.0, 0.0, NoPopulation, 0, [], 0)
  }

  /**
   * Five individuals whose objectives are a few multiples of the tolerance
   * apart.  Dominance within the tolerance is not transitive: `f` sends `b`
   * out of the first front, `b` sends `z` out, and nothing else ranked
   * before `z` beats it.
   */
  function TolerancePopulation(): (s: seq<Individual>)
    ensures |s| == 5 && SameObjectives(s) && Unranked(s) == s
  {
    var c := TwoObjectives(0, -5.0e-10, 7.0e-11);
    var g := TwoObjectives(1, -1.0e-9, 1.6e-10);
    var b := TwoObjectives(2, 0.0, 0.0);
    var z := TwoObjectives(3, 1.0e-9, -6.0e-11);
    var f := TwoObjectives(4, -2.0e-10, 4.5e-11);
    var s := [c, g, b, z, f];
    UnrankedTwoObjectives(s);
    s
  }

  /** Unranked individuals with two objectives each. */
  lemma UnrankedTwoObjectives(s: seq<Individual>)
    requires forall i :: 0 <= i < |s| ==> |s[i].fitness| == 2 && s[i].paretoRank == -1
    ensures SameObjectives(s) && Unranked(s) == s
  {
    assert forall x :: x in s ==> |x.fitness| == 2;
  }

  /** The two tests of the dominance check, written out for two objectives. */
  lemma TwoObjectiveTests(f: seq<real>, g: seq<real>)
    requires |f| == |g| == 2
    ensures NoWorse(f, g, 2) <==> f[0] <= g[0] + Tolerance && f[1] <= g[1] + Tolerance
    ensures WithinTolerance(f, g, 2) <==> g[0] < f[0] + Tolerance && g[1] < f[1] + Tolerance
  {
    if f[0] <= g[0] + Tolerance && f[1] <= g[1] + Tolerance {
      forall m | 0 <= m < 2 ensures f[m] <= g[m] + Tolerance {
        if m == 1 { }
      }
    }
    if g[0] < f[0] + Tolerance && g[1] < f[1] + Tolerance {
      forall m | 0 <= m < 2 ensures g[m] < f[m] + Tolerance {
        if m == 1 { }
      }
    }
  }

  /** How two feasible individuals with two objectives compare, as arithmetic on their objectives. */
  lemma TwoObjectiveDominance(x: Individual, y: Individual)
    requires Feasible(x) && Feasible(y) && |x.fitness| == |y.fitness| == 2
    ensures var f, g := x.fitness, y.fitness;
      ConstrainedDominance(x, y) ==
        if f[0] <= g[0] + Tolerance && f[1] <= g[1] + Tolerance then
          if g[0] < f[0] + Tolerance && g[1] < f[1] + Tolerance then Incomparable else Dominating
        else if g[0] <= f[0] + Tolerance && g[1] <= f[1] + Tolerance then
          if f[0] < g[0] + Tolerance && f[1] < g[1] + Tolerance then Incomparable else Dominated
        else Incomparable
  {
    TwoObjectiveTests(x.fitness, y.fitness);
    TwoObjectiveTests(y.fitness, x.fitness);
  }

  /** The comparisons between members of `TolerancePopulation` that the sort makes or that matter for `z`. */
  lemma ToleranceComparisons(s: seq<Individual>)
    requires s == TolerancePopulation()
    ensures ConstrainedDominance(s[1], s[0]) == Dominating && ConstrainedDominance(s[2], s[0]) == Dominated
    ensures ConstrainedDominance(s[2], s[1]) == Incomparable && ConstrainedDominance(s[3], s[0]) == Incomparable
    ensures ConstrainedDominance(s[3], s[1]) == Incomparable && ConstrainedDominance(s[1], s[3]) == Incomparable
    ensures ConstrainedDominance(s[3], s[2]) == Dominated
    ensures ConstrainedDominance(s[4], s[1]) == Incomparable && ConstrainedDominance(s[4], s[2]) == Dominating
    ensures ConstrainedDominance(s[3], s[4]) == Incomparable && ConstrainedDominance(s[4], s[3]) == Incomparable
    ensures !Beats(s[1], s[3]) && !Beats(s[4], s[3]) && Beats(s[2], s[3])
  {
    TwoObjectiveDominance(s[1], s[0]);
    TwoObjectiveDominance(s[2], s[0]);
    TwoObjectiveDominance(s[2], s[1]);
    TwoObjectiveDominance(s[3], s[0]);
    TwoObjectiveDominance(s[3], s[1]);
    TwoObjectiveDominance(s[1], s[3]);
    TwoObjectiveDominance(s[3], s[2]);
    TwoObjectiveDominance(s[4], s[1]);
    TwoObjectiveDominance(s[4], s[2]);
    TwoObjectiveDominance(s[3], s[4]);
    TwoObjectiveDominance(s[4], s[3]);
  }

  /** One more member and one more mask bit: the member is picked by its bit. */
  lemma PickPrefix<T>(s: seq<T>, mask: seq<bool>, k: nat)
    requires |mask| == |s| && k < |s|
    ensures Pick(s[..k + 1], mask[..k + 1]) == Pick(s[..k], mask[..k]) + (if mask[k] then [s[k]] else [])
  {
    assert s[..k + 1][..k] == s[..k] && mask[..k + 1][..k] == mask[..k];
  }

  /** One more member and one more mask bit: the member is dropped unless its bit is set. */
  lemma DropPrefix<T>(s: seq<T>, mask: seq<bool>, k: nat)
    requires |mask| == |s| && k < |s|
    ensures Drop(s[..k + 1], mask[..k + 1]) == Drop(s[..k], mask[..k]) + (if mask[k] then [] else [s[k]])
  {
    assert s[..k + 1][..k] == s[..k] && mask[..k + 1][..k] == mask[..k];
  }

  /** The members a mask keeping the second and the fifth of five picks. */
  lemma PickFive<T>(s: seq<T>)
    requires |s| == 5
    ensures Pick(s, [false, true, false, false, true]) == [s[1], s[4]]
  {
    var m := [false, true, false, false, true];
    PickPrefix(s, m, 0);
    PickPrefix(s, m, 1);
    PickPrefix(s, m, 2);
    PickPrefix(s, m, 3);
    PickPrefix(s, m, 4);
    assert s[..5] == s && m[..5] == m;
  }

  /** The members a mask keeping the second and the fifth of five drops. */
  lemma DropFive<T>(s: seq<T>)
    requires |s| == 5
    ensures Drop(s, [false, true, false, false, true]) == [s[0], s[2], s[3]]
  {
    var m := [false, true, false, false, true];
    DropPrefix(s, m, 0);
    DropPrefix(s, m, 1);
    DropPrefix(s, m, 2);
    DropPrefix(s, m, 3);
    DropPrefix(s, m, 4);
    assert s[..5] == s && m[..5] == m;
  }

  /** The members a mask keeping the first and the third of three picks. */
  lemma PickThree<T>(s: seq<T>)
    requires |s| == 3
    ensures Pick(s, [true, false, true]) == [s[0], s[2]]
  {
    var m := [true, false, true];
    PickPrefix(s, m, 0);
    PickPrefix(s, m, 1);
    PickPrefix(s, m, 2);
    assert s[..3] == s && m[..3] == m;
  }

  /** The member a mask keeping the first and the third of three drops. */
  lemma DropThree<T>(s: seq<T>)
    requires |s| == 3
    ensures Drop(s, [true, false, true]) == [s[1]]
  {
    var m := [true, false, true];
    DropPrefix(s, m, 0);
    DropPrefix(s, m, 1);
    DropPrefix(s, m, 2);
    assert s[..3] == s && m[..3] == m;
  }

  /** The scan over five individuals related as in `TolerancePopulation` keeps the second and the last. */
  lemma FiveFront(s: seq<Individual>)
    requires |s| == 5 && SameObjectives(s)
    requires ConstrainedDominance(s[1], s[0]) == Dominating && ConstrainedDominance(s[2], s[1]) == Incomparable
    requires ConstrainedDominance(s[3], s[1]) == Incomparable && ConstrainedDominance(s[3], s[2]) == Dominated
    requires ConstrainedDominance(s[4], s[1]) == Incomparable && ConstrainedDominance(s[4], s[2]) == Dominating
    ensures FrontMask(s) == [false, true, false, false, true]
  {
    assert Scan(s, 1) == [true, false, false, false, false];
    assert Scan(s, 2) == [false, true, false, false, false];
    assert Scan(s, 3) == [false, true, true, false, false];
    assert Scan(s, 4) == [false, true, true, false, false];
  }

  /** The scan over three individuals, the second dominated by the first and the third incomparable with it, keeps the first and the third. */
  lemma ThreeFront(s: seq<Individual>)
    requires |s| == 3 && SameObjectives(s)
    requires ConstrainedDominance(s[1], s[0]) == Dominated && ConstrainedDominance(s[2], s[0]) == Incomparable
    ensures FrontMask(s) == [true, false, true]
  {
    assert Scan(s, 1) == [true, false, false];
    assert Scan(s, 2) == [true, false, false];
  }

  /** The first front of `TolerancePopulation` is `g` and `f`; the second, of `c`, `b` and `z`, is `c` and `z`. */
  lemma ToleranceFronts(s: seq<Individual>)
    requires s == TolerancePopulation()
    ensures FrontMask(s) == [false, true, false, false, true]
    ensures Drop(s, FrontMask(s)) == [s[0], s[2], s[3]] && Pick(s, FrontMask(s)) == [s[1], s[4]]
    ensures SameObjectives([s[0], s[2], s[3]]) && FrontMask([s[0], s[2], s[3]]) == [true, false, true]
    ensures Drop([s[0], s[2], s[3]], [true, false, true]) == [s[2]]
    ensures Pick([s[0], s[2], s[3]], [true, false, true]) == [s[0], s[3]]
  {
    ToleranceComparisons(s);
    FiveFront(s);
    PickFive(s);
    DropFive(s);
    var rest := [s[0], s[2], s[3]];
    SameObjectivesOfPart(s, rest);
    ThreeFront(rest);
    PickThree(rest);
    DropThree(rest);
  }

  /** The members the sort gives rank `r` are the members of the first front. */
  lemma FirstRankFromFront(rem: seq<Individual>, r: int, j: nat)
    requires SameObjectives(rem) && |rem| >= 1
    requires j < |RankFrom(rem, r)| && RankFrom(rem, r)[j].paretoRank == r
    ensures Strip(RankFrom(rem, r)[j]) in Stripped(Pick(rem, FrontMask(rem)))
  {
    var out := RankFrom(rem, r);
    RankFromRound(rem, r);
    var front, rest := Pick(rem, FrontMask(rem)), Drop(rem, FrontMask(rem));
    var f := Crowded(front, r);
    RankFromRanks(rest, r + 1);
    assert j < |f|;
    CrowdedStrip(front, r);
    assert out[j] == f[j] && Stripped(f)[j] == Strip(out[j]);
    assert Strip(out[j]) in multiset(Stripped(front));
  }

  /** Every member of the first front comes out of the sort with rank `r`. */
  lemma FrontMemberRank(rem: seq<Individual>, r: int, x: Individual) returns (i: nat)
    requires SameObjectives(rem) && |rem| >= 1 && x in Pick(rem, FrontMask(rem))
    ensures i < |RankFrom(rem, r)| && RankFrom(rem, r)[i].paretoRank == r
    ensures Strip(RankFrom(rem, r)[i]) == Strip(x)
  {
    RankFromRound(rem, r);
    var front := Pick(rem, FrontMask(rem));
    var f := Crowded(front, r);
    CrowdedStrip(front, r);
    CrowdedRank(front, r);
    var p := IndexOf(front, x);
    assert Stripped(front)[p] == Strip(x);
    i := IndexOf(Stripped(f), Strip(x));
    assert RankFrom(rem, r)[i] == f[i];
  }

  /** Every member of the second front comes out of the sort with rank `r + 1`. */
  lemma SecondFrontRank(rem: seq<Individual>, r: int, x: Individual) returns (i: nat)
    requires SameObjectives(rem) && |rem| >= 1
    requires SameObjectives(Drop(rem, FrontMask(rem))) && |Drop(rem, FrontMask(rem))| >= 1
    requires x in Pick(Drop(rem, FrontMask(rem)), FrontMask(Drop(rem, FrontMask(rem))))
    ensures i < |RankFrom(rem, r)| && RankFrom(rem, r)[i].paretoRank == r + 1
    ensures Strip(RankFrom(rem, r)[i]) == Strip(x)
  {
    RankFromRound(rem, r);
    var front, rest := Pick(rem, FrontMask(rem)), Drop(rem, FrontMask(rem));
    var k := FrontMemberRank(rest, r + 1, x);
    i := |Crowded(front, r)| + k;
  }

  /**
   * A member of the second front that no member of the first front beats
   * comes out of the sort with rank `r + 1`, beaten by no member of rank `r`.
   */
  lemma SecondFrontUnbeaten(rem: seq<Individual>, r: int, x: Individual) returns (i: nat)
    requires SameObjectives(rem) && |rem| >= 1
    requires SameObjectives(Drop(rem, FrontMask(rem))) && |Drop(rem, FrontMask(rem))| >= 1
    requires x in Pick(Drop(rem, FrontMask(rem)), FrontMask(Drop(rem, FrontMask(rem))))
    requires forall y :: y in Pick(rem, FrontMask(rem)) ==> !Beats(y, x)
    ensures i < |RankFrom(rem, r)| && RankFrom(rem, r)[i].paretoRank == r + 1
    ensures forall j :: 0 <= j < |RankFrom(rem, r)| && RankFrom(rem, r)[j].paretoRank == r ==>
      !Beats(RankFrom(rem, r)[j], RankFrom(rem, r)[i])
  {
    var out := RankFrom(rem, r);
    var front := Pick(rem, FrontMask(rem));
    i := SecondFrontRank(rem, r, x);
    forall j | 0 <= j < |out| && out[j].paretoRank == r
      ensures !Beats(out[j], out[i])
    {
      FirstRankFromFront(rem, r, j);
      var p :| 0 <= p < |front| && Stripped(front)[p] == Strip(out[j]);
      StripKeepsBeats(out[j], out[i]);
      StripKeepsBeats(front[p], x);
    }
  }

  /** Some member of rank 1 is beaten by no member of rank 0. */
  ghost predicate RankOneMemberUnbeaten(out: seq<Individual>)
  {
    exists i :: 0 <= i < |out| && out[i].paretoRank == 1 &&
      forall j :: 0 <= j < |out| && out[j].paretoRank == 0 ==> !Beats(out[j], out[i])
  }

  /**
   * A member of the second front that no member of the first front beats
   * leaves the sort with rank 1, beaten by no member of rank 0.
   */
  lemma SortedSecondFrontUnbeaten(s: seq<Individual>, x: Individual)
    requires SameObjectives(s) && |s| >= 1 && Unranked(s) == s
    requires SameObjectives(Drop(s, FrontMask(s))) && |Drop(s, FrontMask(s))| >= 1
    requires x in Pick(Drop(s, FrontMask(s)), FrontMask(Drop(s, FrontMask(s))))
    requires forall y :: y in Pick(s, FrontMask(s)) ==> !Beats(y, x)
    ensures RankOneMemberUnbeaten(ParetoSorted(s))
  {
    SortedUnranked(s);
    var i := SecondFrontUnbeaten(s, 0, x);
    assert ParetoSorted(s)[i].paretoRank == 1;
  }

  /**
   * With the tolerance, a member of rank 1 need not be beaten by any member
   * of rank 0: in `TolerancePopulation`, only the member of rank 2 beats `z`.
   */
  lemma RankNotBeatenFromPreviousRank()
    ensures RankOneMemberUnbeaten(ParetoSorted(TolerancePopulation()))
  {
    var s := TolerancePopulation();
    ToleranceComparisons(s);
    ToleranceFronts(s);
    SortedSecondFrontUnbeaten(s, s[3]);
  }

  /** A member of rank 1 that no member of rank 0 beats breaks the ranks of NSGA-II's non-dominated sort. */
  lemma UnbeatenBreaksPreviousRank(out: seq<Individual>)
    requires RankOneMemberUnbeaten(out)
    ensures !BeatenFromPreviousRank(out, 0)
  {
    var i :| 0 <= i < |out| && out[i].paretoRank == 1 &&
      forall j :: 0 <= j < |out| && out[j].paretoRank == 0 ==> !Beats(out[j], out[i]);
    assert out[i].paretoRank > 0;
  }

  /** The sorted ranks of `TolerancePopulation` are not each beaten from the rank before, so beating is no strict order on it. */
  lemma ToleranceBreaksPreviousRank()
    ensures !BeatenFromPreviousRank(ParetoSorted(TolerancePopulation()), 0)
  {
    RankNotBeatenFromPreviousRank();
    UnbeatenBreaksPreviousRank(ParetoSorted(TolerancePopulation()));
  }

  /**
   * Three individuals, no two of them an exact tolerance apart, on which
   * beating is not transitive: `w` beats `y` and `y` beats `x`, but `w` does
   * not beat `x`.  So `w` sends `y` out of the first front, `x` stays in it
   * beside `w`, and `y`, left for the second front, beats `x`.
   */
  function IntransitivePopulation(): (s: seq<Individual>)
    ensures |s| == 3 && SameObjectives(s) && Unranked(s) == s
  {
    var y := TwoObjectives(0, 0.0, 0.9e-10);
    var w := TwoObjectives(1, -1.5e-10, 1.8e-10);
    var x := TwoObjectives(2, 1.5e-10, 0.0);
    var s := [y, w, x];
    UnrankedTwoObjectives(s);
    s
  }

  /** The comparisons the sort makes on `IntransitivePopulation`, and the one that matters for `x`. */
  lemma IntransitiveComparisons(s: seq<Individual>)
    requires s == IntransitivePopulation()
    ensures ConstrainedDominance(s[1], s[0]) == Dominating && ConstrainedDominance(s[2], s[1]) == Incomparable
    ensures Beats(s[0], s[2])
  {
    TwoObjectiveDominance(s[1], s[0]);
    TwoObjectiveDominance(s[2], s[1]);
    TwoObjectiveDominance(s[0], s[2]);
  }

  /**
   * `IntransitivePopulation` stays clear of the tolerance boundary, yet
   * beating is no strict order on it: `w` beats `y`, `y` beats `x`, and `w`
   * does not beat `x`.
   */
  lemma IntransitiveOffBoundary(s: seq<Individual>)
    requires s == IntransitivePopulation()
    ensures ClearOfBoundary(s)
    ensures Beats(s[1], s[0]) && Beats(s[0], s[2]) && !Beats(s[1], s[2])
    ensures !StrictlyOrdered(s)
  {
    TwoObjectiveDominance(s[1], s[0]);
    TwoObjectiveDominance(s[0], s[2]);
    TwoObjectiveDominance(s[2], s[1]);
    TwoObjectiveDominance(s[1], s[2]);
    forall a, b | a in s && b in s && |a.fitness| == |b.fitness|
      ensures OffBoundary(a.fitness, b.fitness)
    {
      assert a == s[0] || a == s[1] || a == s[2];
      assert b == s[0] || b == s[1] || b == s[2];
    }
  }

  /** The scan over three individuals, the second dominating the first and the third incomparable with the second, keeps the last two. */
  lemma EvictedFirstFront(s: seq<Individual>)
    requires |s| == 3 && SameObjectives(s)
    requires ConstrainedDominance(s[1], s[0]) == Dominating && ConstrainedDominance(s[2], s[1]) == Incomparable
    ensures FrontMask(s) == [false, true, true]
  {
    assert Scan(s, 1) == [true, false, false];
    assert Scan(s, 2) == [false, true, false];
  }

  /** A mask keeping the last two of three picks them and drops the first. */
  lemma PickLastTwo<T>(s: seq<T>)
    requires |s| == 3
    ensures Pick(s, [false, true, true]) == [s[1], s[2]] && Drop(s, [false, true, true]) == [s[0]]
  {
    var m := [false, true, true];
    PickPrefix(s, m, 0);
    PickPrefix(s, m, 1);
    PickPrefix(s, m, 2);
    DropPrefix(s, m, 0);
    DropPrefix(s, m, 1);
    DropPrefix(s, m, 2);
    assert s[..3] == s && m[..3] == m;
  }

  /** A lone individual is a front of its own. */
  lemma LoneFront(s: seq<Individual>)
    requires |s| == 1 && SameObjectives(s)
    ensures FrontMask(s) == [true] && Pick(s, [true]) == s
  {
    assert Scan(s, 1) == [true];
    PickPrefix(s, [true], 0);
    assert s[..1] == s && [true][..1] == [true];
  }

  /** Some member of rank 1 beats a member of rank 0. */
  ghost predicate RankZeroMemberBeaten(out: seq<Individual>)
  {
    exists i, j :: 0 <= i < |out| && 0 <= j < |out| && out[i].paretoRank == 0 && out[j].paretoRank == 1 &&
      Beats(out[j], out[i])
  }

  /** The first front of `IntransitivePopulation` is `w` and `x`; the second is `y`. */
  lemma IntransitiveFronts(s: seq<Individual>)
    requires s == IntransitivePopulation()
    ensures FrontMask(s) == [false, true, true]
    ensures Pick(s, FrontMask(s)) == [s[1], s[2]] && Drop(s, FrontMask(s)) == [s[0]]
    ensures SameObjectives([s[0]]) && FrontMask([s[0]]) == [true] && Pick([s[0]], [true]) == [s[0]]
  {
    IntransitiveComparisons(s);
    EvictedFirstFront(s);
    PickLastTwo(s);
    LoneFront([s[0]]);
  }

  /**
   * A member of the second front that beats a member of the first leaves
   * the sort with rank 1, beating a member of rank 0.
   */
  lemma SortedSecondFrontBeats(s: seq<Individual>, x: Individual, y: Individual)
    requires SameObjectives(s) && |s| >= 1 && Unranked(s) == s
    requires SameObjectives(Drop(s, FrontMask(s))) && |Drop(s, FrontMask(s))| >= 1
    requires x in Pick(s, FrontMask(s)) && y in Pick(Drop(s, FrontMask(s)), FrontMask(Drop(s, FrontMask(s))))
    requires Beats(y, x)
    ensures RankZeroMemberBeaten(ParetoSorted(s))
  {
    var i := FrontMemberRank(s, 0, x);
    var j := SecondFrontRank(s, 0, y);
    StrippedBeats(RankFrom(s, 0)[j], RankFrom(s, 0)[i], y, x);
    SortedUnranked(s);
    RankOneBeatsRankZero(ParetoSorted(s), i, j);
  }

  /** Sorting a population whose ranks are already reset starts from it as it is. */
  lemma SortedUnranked(s: seq<Individual>)
    requires SameObjectives(s) && Unranked(s) == s
    ensures ParetoSorted(s) == RankFrom(s, 0)
  {
  }

  /** Two individuals that strip to two others compare as those do. */
  lemma StrippedBeats(a: Individual, b: Individual, c: Individual, d: Individual)
    requires Strip(a) == Strip(c) && Strip(b) == Strip(d) && Beats(c, d)
    ensures Beats(a, b)
  {
    StripKeepsBeats(a, b);
    StripKeepsBeats(c, d);
  }

  /** Witnesses for `RankZeroMemberBeaten`. */
  lemma RankOneBeatsRankZero(out: seq<Individual>, i: nat, j: nat)
    requires i < |out| && j < |out| && out[i].paretoRank == 0 && out[j].paretoRank == 1 && Beats(out[j], out[i])
    ensures RankZeroMemberBeaten(out)
  {
  }

  /**
   * With the tolerance, rank 0 is not the set of members nobody beats: in
   * `IntransitivePopulation`, where beating is not transitive, `x` gets
   * rank 0 and `y`, of rank 1, beats it.
   */
  lemma IntransitiveBeatsRankZero()
    ensures RankZeroMemberBeaten(ParetoSorted(IntransitivePopulation()))
  {
    var s := IntransitivePopulation();
    IntransitiveComparisons(s);
    IntransitiveFronts(s);
    SortedSecondFrontBeats(s, s[2], s[0]);
  }

  /** A member of rank 1 that beats one of rank 0 leaves rank 0 beaten. */
  lemma BeatenRankZero(out: seq<Individual>)
    requires RankZeroMemberBeaten(out)
    ensures !RankZeroUnbeaten(out)
  {
    var i, j :| 0 <= i < |out| && 0 <= j < |out| && out[i].paretoRank == 0 && out[j].paretoRank == 1 &&
      Beats(out[j], out[i]);
  }

  /**
   * Two individuals on which beating is a strict order, the second exactly
   * one tolerance behind the first in its first objective: the second finds
   * the first incomparable, so both stay in the first front, yet the first
   * beats the second.
   */
  function BoundaryPair(): (s: seq<Individual>)
    ensures |s| == 2 && SameObjectives(s) && Unranked(s) == s
  {
    var t := TwoObjectives(0, 0.0, 0.0);
    var u := TwoObjectives(1, 1.0e-10, -5.0e-11);
    var s := [t, u];
    UnrankedTwoObjectives(s);
    s
  }

  /** Only the first member of `BoundaryPair` beats anyone, and only the second. */
  lemma BoundaryPairComparisons(s: seq<Individual>)
    requires s == BoundaryPair()
    ensures ConstrainedDominance(s[1], s[0]) == Incomparable
    ensures Beats(s[0], s[1]) && !Beats(s[1], s[0]) && !Beats(s[0], s[0]) && !Beats(s[1], s[1])
    ensures StrictlyOrdered(s) && !ClearOfBoundary(s)
  {
    TwoObjectiveDominance(s[0], s[1]);
    TwoObjectiveDominance(s[1], s[0]);
    TwoObjectiveDominance(s[0], s[0]);
    TwoObjectiveDominance(s[1], s[1]);
    assert forall x :: x in s ==> x == s[0] || x == s[1];
    assert !OffBoundary(s[1].fitness, s[0].fitness);
  }

  /** Both members of `BoundaryPair` make up its first front. */
  lemma BoundaryPairFront(s: seq<Individual>)
    requires |s| == 2 && SameObjectives(s) && ConstrainedDominance(s[1], s[0]) == Incomparable
    ensures FrontMask(s) == [true, true] && Pick(s, FrontMask(s)) == s
  {
    assert Scan(s, 1) == [true, false];
    assert Scan(s, 2) == [true, true];
    PickBoth(s);
  }

  /** A mask keeping both of two picks both. */
  lemma PickBoth<T>(s: seq<T>)
    requires |s| == 2
    ensures Pick(s, [true, true]) == s
  {
    var m := [true, true];
    PickPrefix(s, m, 0);
    PickPrefix(s, m, 1);
    assert s[..2] == s && m[..2] == m;
  }

  /** A member of the first front that beats another leaves rank 0 beaten. */
  lemma SortedFrontBeats(s: seq<Individual>, x: Individual, y: Individual)
    requires SameObjectives(s) && |s| >= 1 && Unranked(s) == s
    requires x in Pick(s, FrontMask(s)) && y in Pick(s, FrontMask(s)) && Beats(y, x)
    ensures !RankZeroUnbeaten(ParetoSorted(s))
  {
    var i := FrontMemberRank(s, 0, x);
    var j := FrontMemberRank(s, 0, y);
    StrippedBeats(RankFrom(s, 0)[j], RankFrom(s, 0)[i], y, x);
    SortedUnranked(s);
    RankZeroBeaten(ParetoSorted(s), i, j);
  }

  /** A witness against `RankZeroUnbeaten`. */
  lemma RankZeroBeaten(out: seq<Individual>, i: nat, j: nat)
    requires i < |out| && j < |out| && out[i].paretoRank == 0 && Beats(out[j], out[i])
    ensures !RankZeroUnbeaten(out)
  {
  }

  /**
   * A strict order alone does not make rank 0 unbeaten: on `BoundaryPair`
   * both members get rank 0 and the first beats the second.
   */
  lemma StrictOrderOnBoundary()
    ensures StrictlyOrdered(BoundaryPair()) && !RankZeroUnbeaten(ParetoSorted(BoundaryPair()))
  {
    var s := BoundaryPair();
    BoundaryPairComparisons(s);
    BoundaryPairFront(s);
    SortedFrontBeats(s, s[1], s[0]);
  }

  // ---------------------------------------------------------------------------
  // The steps of `sortParetoRank`, as loops

  /**
   * The scan for one front (lines 129-177): each unranked individual joins
   * the front, then is compared with the members before it; `mask` marks
   * the members of `list_front`, which keeps the population's order.
   */
  method FindFront(rem: seq<Individual>) returns (mask: seq<bool>)
    requires SameObjectives(rem)
    ensures mask == FrontMask(rem)
  {
    mask := seq(|rem|, _ => false);
    var i := 0;
    while i < |rem|
      invariant 0 <= i <= |rem| && |mask| == |rem|
      invariant mask == Scan(rem, i)
    {
      mask := mask[i := true];
      ghost var target := Inner(rem, mask, i, 0);
      var j := 0;
      while j < i
        invariant 0 <= j <= i && |mask| == |rem|
        invariant Inner(rem, mask, i, j) == target
      {
        if mask[j] {
          match ConstrainedDominance(rem[i], rem[j]) {
            case Dominating =>
              mask := mask[j := false];
            case Dominated =>
              mask := mask[i := false];
              break;
            case Incomparable =>
          }
        }
        j := j + 1;
      }
      i := i + 1;
    }
  }

  /**
   * The crowding of one front (lines 184-206): ranks and zero crowding,
   * then for each objective a sort and a pass, then the sort by crowding.
   */
  method CrowdFront(front: seq<Individual>, r: int) returns (out: seq<Individual>)
    requires |front| >= 1
    ensures out == Crowded(front, r)
  {
    out := front;
    var i := 0;
    while i < |out|
      invariant 0 <= i <= |out| == |front|
      invariant out[..i] == Reset(front, r)[..i] && out[i..] == front[i..]
    {
      out := out[i := out[i].(paretoRank := r, crowding := Gap(0.0))];
      i := i + 1;
    }
    assert out == Reset(front, r);
    var n := |front[0].fitness|;
    var k := 0;
    while k < n
      invariant 0 <= k <= n && |out| == |front|
      invariant CrowdPasses(out, k, n) == CrowdPasses(Reset(front, r), 0, n)
      decreases n - k
    {
      out := SortBy(out, ByObjective(k));
      out := Pass(out, k);
      k := k + 1;
    }
    out := SortBy(out, ByCrowdingDescending);
  }

  /**
   * One pass (lines 195-202): `MAX_VALUE` added to the first member and to
   * the last, then each interior member's neighbour gap.
   */
  method Pass(sorted: seq<Individual>, k: nat) returns (out: seq<Individual>)
    requires |sorted| >= 1
    ensures out == CrowdPass(sorted, k)
  {
    out := sorted;
    var last := |out| - 1;
    out := out[0 := out[0].(crowding := AddCrowding(out[0].crowding, AtMax))];
    out := out[last := out[last].(crowding := AddCrowding(out[last].crowding, AtMax))];
    var m := 1;
    while m < last
      invariant 1 <= m && (last >= 1 ==> m <= last) && |out| == |sorted|
      invariant forall t :: 0 <= t < |out| && (t < m || t == last) ==>
        out[t] == sorted[t].(crowding := PassCrowding(sorted, k, t))
      invariant forall t :: m <= t < last ==> out[t] == sorted[t]
    {
      var gap := Objective(out[m + 1], k) - Objective(out[m - 1], k);
      out := out[m := out[m].(crowding := AddCrowding(out[m].crowding, Gap(gap)))];
      m := m + 1;
    }
  }

  /** Removing the front from the population (lines 212-218), keeping the order of the rest. */
  method RemoveFront(rem: seq<Individual>, mask: seq<bool>) returns (rest: seq<Individual>)
    requires |mask| == |rem|
    ensures rest == Drop(rem, mask)
  {
    rest := [];
    var p := 0;
    while p < |rem|
      invariant 0 <= p <= |rem|
      invariant rest == Drop(rem[..p], mask[..p])
    {
      assert rem[..p + 1][..p] == rem[..p] && mask[..p + 1][..p] == mask[..p];
      if !mask[p] {
        rest := rest + [rem[p]];
      }
      p := p + 1;
    }
    assert rem[..p] == rem && mask[..p] == mask;
  }
}
