/**
 * The breeders: how each replacement policy fills population slots with
 * children.  The selector, the recombinator and the mutator are parameters.
 * A selection is a unit draw scaled to the size of the breeding pool, and
 * one call of the recombinator followed by the mutator (on each child) is
 * one application of `Operators.pair` or `Operators.single`, whose first
 * argument numbers the call so that each call may use its own random draws.
 */
module Breeders {
  import opened Individuals
  import opened Recombination
  import opened Sorting
  import opened Pareto
  import opened Populations

  /**
   * `recombine(mom, dad, boy, girl)` followed by `mutate(boy)` and
   * `mutate(girl)`: the bred children, given the call number, the parents
   * and the individuals they are bred into.  `single` is the same with
   * `girl == null`.
   */
  datatype Operators = Operators(
    pair: (nat, Individual, Individual, Individual, Individual) -> (Individual, Individual),
    single: (nat, Individual, Individual, Individual) -> Individual)

  /** How a pair loop finds its parents. */
  datatype Mating =
    | Selected    // both parents chosen by the selector from the pool
    | Adjacent    // parents `i` and `i + 1` of the pool, for child slots `i` and `i + 1`

  // ---------------------------------------------------------------------------
  // The pair loop and the odd slot

  /** The number of passes of `for (i = lo; i < hi - 1; i += 2)`. */
  function Pairs(lo: int, hi: int): (p: nat)
    ensures p == 0 || lo + 2 * (p - 1) < hi - 1
    ensures !(lo + 2 * p < hi - 1)
    ensures p == 0 || 2 * p <= hi - lo
  {
    if lo < hi - 1 then (hi - lo) / 2 else 0
  }

  /** `selector.select(pool)`: the member of the pool that draw `k` picks. */
  function Parent(pool: seq<Individual>, draws: seq<real>, k: nat): (x: Individual)
    requires |pool| >= 1 && k < |draws| && UnitDraws(draws)
    ensures x in pool
  {
    ScaleRange(draws[k], |pool|);
    pool[Scale(draws[k], |pool|)]
  }

  /** Slots written, in order: two per pass of the pair loop, then the odd slot if bred. */
  function Writes(lo: int, hi: int, single: bool, last: int): (w: seq<int>)
    ensures |w| == 2 * Pairs(lo, hi) + (if single then 1 else 0)
  {
    seq(2 * Pairs(lo, hi), k => lo + k) + (if single then [last] else [])
  }

  /** What the breeding of slots `lo .. hi - 1` (and of slot `last` if `single`) needs. */
  predicate Feasible(mating: Mating, pool: seq<Individual>, slots: seq<Individual>,
                     lo: int, hi: int, single: bool, last: int, draws: seq<real>)
  {
    0 <= lo && hi <= |slots| && (single ==> 0 <= last < |slots|) &&
    (|pool| >= 1 || (Pairs(lo, hi) == 0 && !single)) &&
    UnitDraws(draws) && |draws| >= 2 * Pairs(lo, hi) + 2 &&
    (mating.Adjacent? ==> hi <= |pool| && (single ==> last < |pool|))
  }

  /** The parents of pass `t` of the pair loop, taken from the pool. */
  function PairParents(mating: Mating, pool: seq<Individual>, slots: seq<Individual>, lo: int, hi: int,
                       single: bool, last: int, draws: seq<real>, t: nat): (r: (Individual, Individual))
    requires Feasible(mating, pool, slots, lo, hi, single, last, draws) && t < Pairs(lo, hi)
    ensures r.0 in pool && r.1 in pool
  {
    match mating
    case Selected => (Parent(pool, draws, 2 * t), Parent(pool, draws, 2 * t + 1))
    case Adjacent => (pool[lo + 2 * t], pool[lo + 2 * t + 1])
  }

  /** The child bred into slot `lo + 2t` (or, if `second`, `lo + 2t + 1`), owned by population `tag`. */
  function PairChild(ops: Operators, mating: Mating, pool: seq<Individual>, slots: seq<Individual>,
                     lo: int, hi: int, single: bool, last: int, draws: seq<real>, t: nat, second: bool, tag: nat): (x: Individual)
    requires Feasible(mating, pool, slots, lo, hi, single, last, draws) && t < Pairs(lo, hi)
    ensures x.owner == InPopulation(tag)
  {
    var parents := PairParents(mating, pool, slots, lo, hi, single, last, draws, t);
    var children := ops.pair(t, parents.0, parents.1, slots[lo + 2 * t], slots[lo + 2 * t + 1]);
    (if second then children.1 else children.0).(owner := InPopulation(tag))
  }

  /** The slots after `n` passes of the pair loop: pass `t` has written slots `lo + 2t` and `lo + 2t + 1`. */
  function PartlyBred(ops: Operators, mating: Mating, pool: seq<Individual>, slots: seq<Individual>,
                      lo: int, hi: int, single: bool, last: int, draws: seq<real>, tag: nat, n: nat): (r: seq<Individual>)
    requires Feasible(mating, pool, slots, lo, hi, single, last, draws) && n <= Pairs(lo, hi)
    ensures |r| == |slots|
  {
    seq(|slots|, j requires 0 <= j < |slots| =>
      if lo <= j < lo + 2 * n
      then PairChild(ops, mating, pool, slots, lo, hi, single, last, draws, (j - lo) / 2, (j - lo) % 2 == 1, tag)
      else slots[j])
  }

  /** One more pass writes its two children and nothing else. */
  lemma PartlyBredStep(ops: Operators, mating: Mating, pool: seq<Individual>, slots: seq<Individual>,
                       lo: int, hi: int, single: bool, last: int, draws: seq<real>, tag: nat, n: nat)
    requires Feasible(mating, pool, slots, lo, hi, single, last, draws) && n < Pairs(lo, hi)
    ensures PartlyBred(ops, mating, pool, slots, lo, hi, single, last, draws, tag, n + 1) ==
      PartlyBred(ops, mating, pool, slots, lo, hi, single, last, draws, tag, n)
        [lo + 2 * n := PairChild(ops, mating, pool, slots, lo, hi, single, last, draws, n, false, tag)]
        [lo + 2 * n + 1 := PairChild(ops, mating, pool, slots, lo, hi, single, last, draws, n, true, tag)]
  {
    var before := PartlyBred(ops, mating, pool, slots, lo, hi, single, last, draws, tag, n);
    var after := PartlyBred(ops, mating, pool, slots, lo, hi, single, last, draws, tag, n + 1);
    forall j | 0 <= j < |slots|
      ensures after[j] == before
        [lo + 2 * n := PairChild(ops, mating, pool, slots, lo, hi, single, last, draws, n, false, tag)]
        [lo + 2 * n + 1 := PairChild(ops, mating, pool, slots, lo, hi, single, last, draws, n, true, tag)][j]
    {
      PassOfSlot(lo, n, j);
    }
  }

  /** Slots `lo + 2n` and `lo + 2n + 1` are the first and second slot of pass `n`. */
  lemma PassOfSlot(lo: int, n: nat, j: int)
    ensures j == lo + 2 * n ==> (j - lo) / 2 == n && (j - lo) % 2 == 0
    ensures j == lo + 2 * n + 1 ==> (j - lo) / 2 == n && (j - lo) % 2 == 1
  {
  }

  /** The slot indices `Writes` lists: the pair range, and `last` if `single`. */
  lemma WritesMembers(lo: int, hi: int, single: bool, last: int)
    ensures forall j :: j in Writes(lo, hi, single, last) <==> (lo <= j < lo + 2 * Pairs(lo, hi) || (single && j == last))
  {
    var w := Writes(lo, hi, single, last);
    forall j | lo <= j < lo + 2 * Pairs(lo, hi)
      ensures j in w
    {
      assert w[j - lo] == j;
    }
  }

  /**
   * The child bred into slot `last` with no second child: its mother is
   * selected (or is member `last` of the pool), its father is selected.
   */
  function OddChild(ops: Operators, mating: Mating, pool: seq<Individual>, slots: seq<Individual>,
                    lo: int, hi: int, single: bool, last: int, draws: seq<real>, into: Individual, tag: nat): (x: Individual)
    requires Feasible(mating, pool, slots, lo, hi, single, last, draws) && single
    ensures x.owner == InPopulation(tag)
  {
    var p := Pairs(lo, hi);
    var mom := if mating.Selected? then Parent(pool, draws, 2 * p) else pool[last];
    var dad := Parent(pool, draws, 2 * p + 1);
    ops.single(p, mom, dad, into).(owner := InPopulation(tag))
  }

  /**
   * The slots after breeding: the pair loop, then, if `single`, slot `last`
   * bred again from whatever it holds by then.  Every slot the breeding
   * writes now belongs to population `tag`; every other slot is unchanged.
   */
  function Bred(ops: Operators, mating: Mating, pool: seq<Individual>, slots: seq<Individual>,
                lo: int, hi: int, single: bool, last: int, draws: seq<real>, tag: nat): (r: seq<Individual>)
    requires Feasible(mating, pool, slots, lo, hi, single, last, draws)
    ensures |r| == |slots|
  {
    var mid := PartlyBred(ops, mating, pool, slots, lo, hi, single, last, draws, tag, Pairs(lo, hi));
    if single then mid[last := OddChild(ops, mating, pool, slots, lo, hi, single, last, draws, mid[last], tag)] else mid
  }

  /** Breeding writes exactly the slots `Writes` lists, each now owned by population `tag`. */
  lemma BredSlots(ops: Operators, mating: Mating, pool: seq<Individual>, slots: seq<Individual>,
                  lo: int, hi: int, single: bool, last: int, draws: seq<real>, tag: nat)
    requires Feasible(mating, pool, slots, lo, hi, single, last, draws)
    ensures var r := Bred(ops, mating, pool, slots, lo, hi, single, last, draws, tag);
      forall j :: 0 <= j < |slots| ==>
        (j in Writes(lo, hi, single, last) ==> r[j].owner == InPopulation(tag)) &&
        (j !in Writes(lo, hi, single, last) ==> r[j] == slots[j])
  {
    WritesMembers(lo, hi, single, last);
    var p := Pairs(lo, hi);
    var mid := PartlyBred(ops, mating, pool, slots, lo, hi, single, last, draws, tag, p);
    forall j | 0 <= j < |slots| && lo <= j < lo + 2 * p
      ensures mid[j].owner == InPopulation(tag)
    {
      assert (j - lo) / 2 < p;
      assert mid[j] == PairChild(ops, mating, pool, slots, lo, hi, single, last, draws, (j - lo) / 2, (j - lo) % 2 == 1, tag);
    }
  }

  /**
   * The loops the breeders share: `for (i = lo; i < hi - 1; i += 2)`
   * breeds two children into slots `i` and `i + 1`; then, if `single`,
   * one child is bred into slot `last`.
   */
  method BreedSlots(ops: Operators, mating: Mating, pool: seq<Individual>, slots: seq<Individual>,
                    lo: int, hi: int, single: bool, last: int, draws: seq<real>, tag: nat)
    returns (out: seq<Individual>)
    requires Feasible(mating, pool, slots, lo, hi, single, last, draws)
    ensures out == Bred(ops, mating, pool, slots, lo, hi, single, last, draws, tag)
  {
    out := slots;
    var i, t := lo, 0;
    assert out == PartlyBred(ops, mating, pool, slots, lo, hi, single, last, draws, tag, 0);
    while i < hi - 1
      invariant i == lo + 2 * t && t <= Pairs(lo, hi)
      invariant out == PartlyBred(ops, mating, pool, slots, lo, hi, single, last, draws, tag, t)
      decreases hi - i
    {
      out := BreedPassInto(ops, mating, pool, slots, lo, hi, single, last, draws, tag, t, out);
      i, t := i + 2, t + 1;
    }
    if single {
      var mom := if mating.Selected? then Parent(pool, draws, 2 * t) else pool[last];
      var dad := Parent(pool, draws, 2 * t + 1);
      var boy := ops.single(t, mom, dad, out[last]);
      out := out[last := boy.(owner := InPopulation(tag))];
    }
  }

  /** One pass of the pair loop: breed the two children of pass `t` into slots `lo + 2t` and `lo + 2t + 1`. */
  method BreedPassInto(ops: Operators, mating: Mating, pool: seq<Individual>, slots: seq<Individual>,
                       lo: int, hi: int, single: bool, last: int, draws: seq<real>, tag: nat, t: nat, out: seq<Individual>)
    returns (out': seq<Individual>)
    requires Feasible(mating, pool, slots, lo, hi, single, last, draws) && t < Pairs(lo, hi)
    requires out == PartlyBred(ops, mating, pool, slots, lo, hi, single, last, draws, tag, t)
    ensures out' == PartlyBred(ops, mating, pool, slots, lo, hi, single, last, draws, tag, t + 1)
  {
    var i := lo + 2 * t;
    var mom, dad;
    if mating.Selected? {
      mom, dad := Parent(pool, draws, 2 * t), Parent(pool, draws, 2 * t + 1);
    } else {
      mom, dad := pool[i], pool[i + 1];
    }
    assert out[i] == slots[i] && out[i + 1] == slots[i + 1];
    var (boy, girl) := ops.pair(t, mom, dad, out[i], out[i + 1]);
    PartlyBredStep(ops, mating, pool, slots, lo, hi, single, last, draws, tag, t);
    out' := out[i := boy.(owner := InPopulation(tag))][i + 1 := girl.(owner := InPopulation(tag))];
  }

  // ---------------------------------------------------------------------------
  // Which slots each policy writes

  /** With `single` exactly when the range has odd length, the range `lo .. hi - 1` is written once each, in order. */
  lemma {:induction false} RangeWrittenOnce(lo: int, hi: int)
    requires lo <= hi
    ensures Writes(lo, hi, (hi - lo) % 2 == 1, hi - 1) == seq(hi - lo, k => lo + k)
  {
    var w := Writes(lo, hi, (hi - lo) % 2 == 1, hi - 1);
    assert |w| == hi - lo;
    forall k | 0 <= k < hi - lo
      ensures w[k] == lo + k
    {
    }
  }

  /**
   * The generational and the crowding breeders: the pair loop over slots
   * `0 .. n - 1`, then the last slot alone when `n` is odd, write every slot
   * of a population of `n` exactly once, in order.
   */
  lemma GenerationalWritesEachSlotOnce(n: nat)
    ensures Writes(0, n, n % 2 != 0, n - 1) == seq(n, k => k)
  {
    RangeWrittenOnce(0, n);
    assert (n % 2 != 0) == ((n - 0) % 2 == 1);
    assert seq(n - 0, k => 0 + k) == seq(n, k => k);
  }

  /**
   * The steady-state breeder on a population of `n` at its maximum size,
   * retaining `kept` and replacing an even number `n - kept`, writes only
   * the replaced slots exactly when some are replaced or `n` is even: with an
   * odd `n` and nothing to replace it overwrites retained slot `n - 1`.  It
   * writes every replaced slot.
   */
  lemma SteadyStateWrites(n: nat, kept: nat, odd: bool, last: int)
    requires kept <= n && (n - kept) % 2 == 0 && odd == (n % 2 != 0) && last == n - 1
    ensures (forall j :: j in Writes(kept, n, odd, last) ==> kept <= j < n) <==> (kept < n || !odd)
    ensures forall j :: kept <= j < n ==> j in Writes(kept, n, odd, last)
  {
    WritesMembers(kept, n, odd, last);
    var p := Pairs(kept, n);
    assert 2 * p == n - kept;
    if kept == n && odd {
      assert last in Writes(kept, n, odd, last);
    }
  }

  /**
   * The Dynamic NSGA breeder on a population at its maximum size `m`
   * (`half == m / 2`) writes only slots `half .. m - 1`, and all of them
   * unless `m % 4 == 2`, when the last slot keeps its old individual.
   */
  lemma DynamicNSGAWrites(m: nat, half: nat, odd: bool, last: int)
    requires half == m / 2 && odd == (m % 2 != 0) && last == m - 1
    ensures forall j :: j in Writes(half, m, odd, last) ==> half <= j < m
    ensures (forall j :: half <= j < m ==> j in Writes(half, m, odd, last)) <==> m % 4 != 2
  {
    WritesMembers(half, m, odd, last);
    var p := Pairs(half, m);
    if m % 4 == 2 {
      assert 2 * p == m - half - 1;
      assert last !in Writes(half, m, odd, last);
    } else if m % 4 == 0 {
      assert 2 * p == m - half;
    } else {
      assert 2 * p >= m - half - 1;
    }
  }

  // ---------------------------------------------------------------------------
  // Breeding pools

  /** The individuals of `pop.clone()`: fresh ids after the cloned prototype's, owned by the clone. */
  function Cloned(s: seq<Individual>, base: nat, tag: nat): (r: seq<Individual>)
    ensures |r| == |s|
  {
    seq(|s|, i requires 0 <= i < |s| => s[i].(id := base + 2 + i, owner := InPopulation(tag)))
  }

  /**
   * `for (i = size - 1; i >= from; i--) p.removeIndividual(i)`: the members
   * before index `from` are kept.
   */
  method RemoveTail(p: Population, from: int)
    modifies p
    ensures p.individuals == old(p.individuals)[..Clip(from, |old(p.individuals)|)]
    ensures p.elites == old(p.elites) && p.Settings() == old(p.Settings())
    ensures p.numEvaluated == old(p.numEvaluated) && p.done == old(p.done)
  {
    ghost var s := p.individuals;
    var i := |p.individuals| - 1;
    while i >= from
      invariant i <= |s| - 1 && (i == |s| - 1 || i >= from - 1)
      invariant p.individuals == s[..Clip(i + 1, |s|)]
      invariant p.elites == old(p.elites) && p.Settings() == old(p.Settings())
      invariant p.numEvaluated == old(p.numEvaluated) && p.done == old(p.done)
      decreases i - from
    {
      p.RemoveIndividualAt(i);
      i := i - 1;
    }
  }

  // ---------------------------------------------------------------------------
  // The steady-state and Dynamic NSGA breeders: the worst slots bred in place

  /**
   * The odd-slot rule.  As written, both breeders breed the last member of
   * a population of odd size `n` once more, alone.  The `exact` rule breeds
   * the last slot of the range `lo .. max - 1` alone exactly when the pair
   * loop leaves it over.
   */
  function OddSlot(exact: bool, lo: int, max: int, n: int): (r: (bool, int))
  {
    if exact then (lo < max && (max - lo) % 2 == 1, max - 1) else (n % 2 != 0, n - 1)
  }

  /**
   * A population `s`, already sorted, after the worst slots from `keep` on
   * are bred in place from clones of the best `keep`: whether breeding went
   * through (the selector throws on an empty pool), and the new individuals.
   */
  function WorstReplaced(ops: Operators, s: seq<Individual>, base: nat, poolTag: nat, keep: int, max: int,
                         exact: bool, draws: seq<real>, tag: nat): (r: (bool, seq<Individual>))
    requires 0 <= max <= |s| && UnitDraws(draws) && |draws| >= |s| + 2
    ensures |r.1| == |s|
    ensures !r.0 ==> r.1 == s
  {
    var pool := Cloned(s, base, poolTag)[..Clip(keep, |s|)];
    var odd := OddSlot(exact, |pool|, max, |s|);
    if |pool| >= 1 || (Pairs(|pool|, max) == 0 && !odd.0)
    then (true, Bred(ops, Selected, pool, s, |pool|, max, odd.0, odd.1, draws, tag))
    else (false, s)
  }

  /**
   * With the exact odd-slot rule the best `keep` members stay as they are,
   * every slot from `keep` up to `max` is bred, and its parents are clones
   * of the best `keep`.
   */
  lemma WorstReplacedExact(ops: Operators, s: seq<Individual>, base: nat, poolTag: nat, keep: nat, max: int,
                           draws: seq<real>, tag: nat)
    requires keep <= max <= |s| && UnitDraws(draws) && |draws| >= |s| + 2
    ensures var r := WorstReplaced(ops, s, base, poolTag, keep, max, true, draws, tag);
      r.0 ==>
        (forall j :: 0 <= j < keep ==> r.1[j] == s[j]) &&
        (forall j :: keep <= j < max ==> r.1[j].owner == InPopulation(tag)) &&
        (forall j :: max <= j < |s| ==> r.1[j] == s[j])
  {
    var pool := Cloned(s, base, poolTag)[..Clip(keep, |s|)];
    var odd := OddSlot(true, keep, max, |s|);
    if |pool| >= 1 || (Pairs(keep, max) == 0 && !odd.0) {
      RangeWrittenOnce(keep, max);
      WritesMembers(keep, max, odd.0, odd.1);
      BredSlots(ops, Selected, pool, s, keep, max, odd.0, odd.1, draws, tag);
    }
  }

  /** `(int) (percent / 2 / 100. * size) * 2`: the number of slots the steady-state breeder replaces. */
  function NumReplaced(percent: real, size: nat): int
  {
    Truncate(percent / 2.0 / 100.0 * size as real) * 2
  }

  /** For a percentage in `[0, 100]` the count is even and at most the size. */
  lemma NumReplacedRange(percent: real, size: nat)
    requires 0.0 <= percent <= 100.0
    ensures 0 <= NumReplaced(percent, size) <= size && NumReplaced(percent, size) % 2 == 0
  {
    var f := percent / 2.0 / 100.0;
    assert 0.0 <= f <= 0.5;
    var x := f * size as real;
    assert 0.0 <= x <= size as real / 2.0 by {
      assert f * size as real <= 0.5 * size as real;
    }
    var t := Truncate(x);
    assert t as real <= x;
  }

  /** Clones the already sorted `pop` into a pool of its best `keep` and breeds its worst slots in place. */
  method ReplaceWorst(ops: Operators, pop: Population, ids: IdSource, poolTag: nat, keep: int,
                      exact: bool, draws: seq<real>) returns (ok: bool)
    requires 0 <= pop.maxPopSize <= |pop.individuals|
    requires UnitDraws(draws) && |draws| >= |pop.individuals| + 2
    modifies pop, ids
    ensures (ok, pop.individuals) == WorstReplaced(ops, old(pop.individuals), old(ids.lastId), poolTag, keep,
                                                   old(pop.maxPopSize), exact, draws, pop.tag)
    ensures ids.lastId == old(ids.lastId) + 1 + |old(pop.individuals)|
    ensures pop.elites == old(pop.elites) && pop.Settings() == old(pop.Settings())
    ensures pop.numEvaluated == old(pop.numEvaluated) && pop.done == old(pop.done)
  {
    var best := pop.Clone(ids, poolTag);
    assert best.individuals == Cloned(old(pop.individuals), old(ids.lastId), poolTag);
    RemoveTail(best, keep);
    var pool := best.individuals;
    var n := |pop.individuals|;
    var odd := OddSlot(exact, |pool|, pop.maxPopSize, n);
    if |pool| == 0 && (Pairs(|pool|, pop.maxPopSize) > 0 || odd.0) {
      // the selector cannot choose from an empty pool: the source throws here
      ok := false;
      return;
    }
    var out := BreedSlots(ops, Selected, pool, pop.individuals, |pool|, pop.maxPopSize, odd.0, odd.1, draws, pop.tag);
    pop.individuals := out;
    ok := true;
  }

  /**
   * `SteadyStateBreeder.breedNextGeneration(parent_pop, _)`: sorts by
   * fitness, keeps clones of the best `size - num_replaced` as the breeding
   * pool, and breeds from them into slots `pool size .. max size - 1` and,
   * for an odd size, into the last slot once more.
   */
  method BreedSteadyState(ops: Operators, pop: Population, ids: IdSource, poolTag: nat, percent: real, draws: seq<real>)
    returns (ok: bool)
    requires 0 <= pop.maxPopSize <= |pop.individuals|
    requires UnitDraws(draws) && |draws| >= |pop.individuals| + 2
    modifies pop, ids
    ensures var n := |old(pop.individuals)|;
      (ok, pop.individuals) == WorstReplaced(ops, SortBy(old(pop.individuals), ByObjective(0)), old(ids.lastId), poolTag,
                                             n - NumReplaced(percent, n), old(pop.maxPopSize), false, draws, pop.tag)
    ensures ids.lastId == old(ids.lastId) + 1 + |old(pop.individuals)|
    ensures pop.elites == old(pop.elites) && pop.Settings() == old(pop.Settings())
    ensures pop.numEvaluated == old(pop.numEvaluated) && pop.done == old(pop.done)
  {
    pop.SortFitness();
    var n := |pop.individuals|;
    ok := ReplaceWorst(ops, pop, ids, poolTag, n - NumReplaced(percent, n), false, draws);
  }

  /**
   * The steady-state breeder with the exact odd-slot rule: the best
   * `size - num_replaced` are never overwritten.
   */
  method BreedSteadyStateExact(ops: Operators, pop: Population, ids: IdSource, poolTag: nat, percent: real, draws: seq<real>)
    returns (ok: bool)
    requires 0 <= pop.maxPopSize <= |pop.individuals|
    requires UnitDraws(draws) && |draws| >= |pop.individuals| + 2
    modifies pop, ids
    ensures var n := |old(pop.individuals)|;
      (ok, pop.individuals) == WorstReplaced(ops, SortBy(old(pop.individuals), ByObjective(0)), old(ids.lastId), poolTag,
                                             n - NumReplaced(percent, n), old(pop.maxPopSize), true, draws, pop.tag)
    ensures ids.lastId == old(ids.lastId) + 1 + |old(pop.individuals)|
    ensures pop.elites == old(pop.elites) && pop.Settings() == old(pop.Settings())
    ensures pop.numEvaluated == old(pop.numEvaluated) && pop.done == old(pop.done)
  {
    pop.SortFitness();
    var n := |pop.individuals|;
    ok := ReplaceWorst(ops, pop, ids, poolTag, n - NumReplaced(percent, n), true, draws);
  }

  /**
   * `DynamicNSGABreeder.breedNextGeneration(parent_pop, _)`: Pareto-sorts,
   * keeps clones of the best `max / 2` as the breeding pool, and breeds
   * from them into slots `max / 2 .. max - 1` and, for an odd size, into
   * the last slot once more.
   */
  method BreedDynamicNSGA(ops: Operators, pop: Population, ids: IdSource, poolTag: nat, draws: seq<real>)
    returns (ok: bool)
    requires SameObjectives(pop.individuals)
    requires 0 <= pop.maxPopSize <= |pop.individuals|
    requires UnitDraws(draws) && |draws| >= |pop.individuals| + 2
    modifies pop, ids
    ensures (ok, pop.individuals) == WorstReplaced(ops, ParetoSorted(old(pop.individuals)), old(ids.lastId), poolTag,
                                                   old(pop.maxPopSize) / 2, old(pop.maxPopSize), false, draws, pop.tag)
    ensures ids.lastId == old(ids.lastId) + 1 + |old(pop.individuals)|
    ensures pop.elites == old(pop.elites) && pop.Settings() == old(pop.Settings())
    ensures pop.numEvaluated == old(pop.numEvaluated) && pop.done == old(pop.done)
  {
    pop.SortParetoRank();
    ok := ReplaceWorst(ops, pop, ids, poolTag, pop.maxPopSize / 2, false, draws);
  }

  /** The Dynamic NSGA breeder with the exact odd-slot rule: every slot of the worst half is bred. */
  method BreedDynamicNSGAExact(ops: Operators, pop: Population, ids: IdSource, poolTag: nat, draws: seq<real>)
    returns (ok: bool)
    requires SameObjectives(pop.individuals)
    requires 0 <= pop.maxPopSize <= |pop.individuals|
    requires UnitDraws(draws) && |draws| >= |pop.individuals| + 2
    modifies pop, ids
    ensures (ok, pop.individuals) == WorstReplaced(ops, ParetoSorted(old(pop.individuals)), old(ids.lastId), poolTag,
                                                   old(pop.maxPopSize) / 2, old(pop.maxPopSize), true, draws, pop.tag)
    ensures ids.lastId == old(ids.lastId) + 1 + |old(pop.individuals)|
    ensures pop.elites == old(pop.elites) && pop.Settings() == old(pop.Settings())
    ensures pop.numEvaluated == old(pop.numEvaluated) && pop.done == old(pop.done)
  {
    pop.SortParetoRank();
    ok := ReplaceWorst(ops, pop, ids, poolTag, pop.maxPopSize / 2, true, draws);
  }

  /**
   * As written, the steady-state breeder rebreeds a retained member: with
   * 3 individuals and 10 percent replacement nothing is to be replaced, yet
   * slot 2, the third best, is among the slots written, and what it holds
   * afterwards is the odd child bred from it.
   */
  lemma SteadyStateRebreedsRetained(ops: Operators, s: seq<Individual>, base: nat, poolTag: nat,
                                    draws: seq<real>, tag: nat)
    requires |s| == 3 && UnitDraws(draws) && |draws| >= 5
    ensures NumReplaced(10.0, 3) == 0
    ensures 2 in Writes(3, 3, true, 2)
    ensures var pool := Cloned(s, base, poolTag)[..3];
      var r := WorstReplaced(ops, s, base, poolTag, 3 - NumReplaced(10.0, 3), 3, false, draws, tag);
      r.0 && Feasible(Selected, pool, s, 3, 3, true, 2, draws) &&
      r.1[2] == OddChild(ops, Selected, pool, s, 3, 3, true, 2, draws, s[2], tag) &&
      r.1[2].owner == InPopulation(tag)
  {
    assert Truncate(10.0 / 2.0 / 100.0 * 3 as real) == 0;
    var pool := Cloned(s, base, poolTag)[..3];
    WritesMembers(3, 3, true, 2);
    assert PartlyBred(ops, Selected, pool, s, 3, 3, true, 2, draws, tag, 0) == s;
  }

  /**
   * As written, the Dynamic NSGA breeder leaves the worst member in place:
   * with a maximum size of 6 it breeds slots 3 and 4, and slot 5 keeps its
   * old individual.
   */
  lemma DynamicNSGAKeepsWorst(ops: Operators, s: seq<Individual>, base: nat, poolTag: nat,
                              draws: seq<real>, tag: nat)
    requires |s| == 6 && UnitDraws(draws) && |draws| >= 8
    ensures var r := WorstReplaced(ops, s, base, poolTag, 6 / 2, 6, false, draws, tag);
      r.0 && r.1[5] == s[5]
  {
    var pool := Cloned(s, base, poolTag)[..3];
    WritesMembers(3, 6, false, 5);
    BredSlots(ops, Selected, pool, s, 3, 6, false, 5, draws, tag);
  }

  // ---------------------------------------------------------------------------
  // The generational and deterministic-crowding breeders: every child slot bred

  /**
   * `SimpleGenerationalBreeder.breedNextGeneration(parent_pop, child_pop)`:
   * two selected parents per pair of child slots `i`, `i + 1`, and for an
   * odd size one more pair of parents for the last slot alone.
   */
  method BreedGenerational(ops: Operators, parentPop: Population, childPop: Population, draws: seq<real>)
    requires parentPop != childPop
    requires |parentPop.individuals| <= |childPop.individuals|
    requires UnitDraws(draws) && |draws| >= |parentPop.individuals| + 2
    modifies childPop
    ensures var n := |parentPop.individuals|;
      childPop.individuals == Bred(ops, Selected, parentPop.individuals, old(childPop.individuals), 0, n, n % 2 != 0, n - 1, draws, childPop.tag)
    ensures childPop.elites == old(childPop.elites) && childPop.Settings() == old(childPop.Settings())
    ensures childPop.numEvaluated == old(childPop.numEvaluated) && childPop.done == old(childPop.done)
  {
    var n := |parentPop.individuals|;
    var out := BreedSlots(ops, Selected, parentPop.individuals, childPop.individuals, 0, n, n % 2 != 0, n - 1, draws, childPop.tag);
    childPop.individuals := out;
  }

  /** `s` with members `a` and `b` exchanged (`Collections.swap`). */
  function Swap(s: seq<Individual>, a: nat, b: nat): (r: seq<Individual>)
    requires a < |s| && b < |s|
    ensures |r| == |s| && multiset(r) == multiset(s)
  {
    var t := s[a := s[b]];
    assert multiset(t) == multiset(s) - multiset{s[a]} + multiset{s[b]};
    assert multiset(t[b := s[a]]) == multiset(t) - multiset{t[b]} + multiset{s[a]};
    t[b := s[a]]
  }

  /**
   * `Collections.shuffle(list)` from the pass with `i` members still to
   * place: `for (i = size; i > 1; i--) swap(list, i - 1, nextInt(i))`,
   * where pass `size - i` uses `draws[size - i]`.
   */
  function Shuffled(s: seq<Individual>, draws: seq<real>, i: nat): (r: seq<Individual>)
    requires i <= |s| <= |draws| && UnitDraws(draws)
    ensures |r| == |s|
    decreases i
  {
    if i <= 1 then s
    else
      ScaleRange(draws[|s| - i], i);
      Shuffled(Swap(s, i - 1, Scale(draws[|s| - i], i)), draws, i - 1)
  }

  /** A shuffle is a permutation: it keeps every member, as often as it occurs. */
  lemma {:induction false} ShuffledPermutation(s: seq<Individual>, draws: seq<real>, i: nat)
    requires i <= |s| <= |draws| && UnitDraws(draws)
    ensures multiset(Shuffled(s, draws, i)) == multiset(s)
    decreases i
  {
    if i > 1 {
      ScaleRange(draws[|s| - i], i);
      ShuffledPermutation(Swap(s, i - 1, Scale(draws[|s| - i], i)), draws, i - 1);
    }
  }

  /** One pass of the shuffle: `swap(list, i - 1, nextInt(i))`. */
  method ShufflePass(r: seq<Individual>, draws: seq<real>, i: nat) returns (r': seq<Individual>)
    requires 1 < i <= |r| <= |draws| && UnitDraws(draws)
    ensures |r'| == |r| && Shuffled(r', draws, i - 1) == Shuffled(r, draws, i)
  {
    ScaleRange(draws[|r| - i], i);
    r' := Swap(r, i - 1, Scale(draws[|r| - i], i));
  }

  /** `Collections.shuffle(list)` in place. */
  method Shuffle(s: seq<Individual>, draws: seq<real>) returns (r: seq<Individual>)
    requires |s| <= |draws| && UnitDraws(draws)
    ensures r == Shuffled(s, draws, |s|)
  {
    r := s;
    var i := |s|;
    while i > 1
      invariant 0 <= i <= |s| == |r|
      invariant Shuffled(r, draws, i) == Shuffled(s, draws, |s|)
      decreases i
    {
      r := ShufflePass(r, draws, i);
      i := i - 1;
    }
  }

  /**
   * `DeterministicCrowdingBreeder.breedNextGeneration(parent_pop, child_pop)`:
   * shuffles the parents in place, breeds parents `i`, `i + 1` into child
   * slots `i`, `i + 1`, and for an odd size breeds the last parent with a
   * selected one into the last child slot.
   */
  method BreedCrowding(ops: Operators, parentPop: Population, childPop: Population,
                       shuffleDraws: seq<real>, draws: seq<real>)
    requires parentPop != childPop
    requires |parentPop.individuals| <= |childPop.individuals|
    requires UnitDraws(shuffleDraws) && |shuffleDraws| >= |parentPop.individuals|
    requires UnitDraws(draws) && |draws| >= |parentPop.individuals| + 2
    modifies parentPop, childPop
    ensures parentPop.individuals == Shuffled(old(parentPop.individuals), shuffleDraws, |old(parentPop.individuals)|)
    ensures var n := |parentPop.individuals|;
      childPop.individuals == Bred(ops, Adjacent, parentPop.individuals, old(childPop.individuals), 0, n, n % 2 != 0, n - 1, draws, childPop.tag)
    ensures parentPop.elites == old(parentPop.elites) && parentPop.Settings() == old(parentPop.Settings())
    ensures parentPop.numEvaluated == old(parentPop.numEvaluated) && parentPop.done == old(parentPop.done)
    ensures childPop.elites == old(childPop.elites) && childPop.Settings() == old(childPop.Settings())
    ensures childPop.numEvaluated == old(childPop.numEvaluated) && childPop.done == old(childPop.done)
  {
    var shuffled := Shuffle(parentPop.individuals, shuffleDraws);
    parentPop.individuals := shuffled;
    var n := |shuffled|;
    var out := BreedSlots(ops, Adjacent, shuffled, childPop.individuals, 0, n, n % 2 != 0, n - 1, draws, childPop.tag);
    childPop.individuals := out;
  }

  // ---------------------------------------------------------------------------
  // The NT-NSGA breeder: truncate, then append

  /**
   * An appended NT-NSGA child: owned by population `tag`, every fitness
   * value 0 and its evaluation count reset.
   */
  function Reset(x: Individual, tag: nat): (r: Individual)
    ensures r.owner == InPopulation(tag) && r.evaluations == 0 && |r.fitness| == |x.fitness|
    ensures forall j :: 0 <= j < |r.fitness| ==> r.fitness[j] == 0.0
    ensures r.genotype == x.genotype && r.id == x.id
  {
    x.(owner := InPopulation(tag), evaluations := 0, fitness := seq(|x.fitness|, j => 0.0))
  }

  /**
   * Child `second ? girl : boy` of pass `t`: `mom` and `dad` selected from
   * the pool, `boy = dad.clone()` and `girl = mom.clone()` (ids issued after
   * `base`), then `recombine(dad, mom, boy, girl)`.
   */
  function NTChild(ops: Operators, pool: seq<Individual>, draws: seq<real>, base: nat, t: nat, second: bool, tag: nat): (x: Individual)
    requires |pool| >= 1 && 2 * t + 1 < |draws| && UnitDraws(draws)
    ensures x.owner == InPopulation(tag) && x.evaluations == 0
  {
    var mom := Parent(pool, draws, 2 * t);
    var dad := Parent(pool, draws, 2 * t + 1);
    var children := ops.pair(t, dad, mom, dad.(id := base + 2 * t + 1), mom.(id := base + 2 * t + 2));
    Reset(if second then children.1 else children.0, tag)
  }

  /** The child bred alone after `t` passes: `boy = dad.clone()`, `recombine(dad, mom, boy, null)`. */
  function NTOddChild(ops: Operators, pool: seq<Individual>, draws: seq<real>, base: nat, t: nat, tag: nat): (x: Individual)
    requires |pool| >= 1 && 2 * t + 1 < |draws| && UnitDraws(draws)
    ensures x.owner == InPopulation(tag) && x.evaluations == 0
  {
    var mom := Parent(pool, draws, 2 * t);
    var dad := Parent(pool, draws, 2 * t + 1);
    Reset(ops.single(t, dad, mom, dad.(id := base + 2 * t + 1)), tag)
  }

  /** The children appended by `passes` passes, and one bred alone if `single`. */
  function NTChildren(ops: Operators, pool: seq<Individual>, draws: seq<real>, base: nat, passes: nat, single: bool, tag: nat)
    : (r: seq<Individual>)
    requires |pool| >= 1 || (passes == 0 && !single)
    requires UnitDraws(draws) && |draws| >= 2 * passes + 2
    ensures |r| == 2 * passes + (if single then 1 else 0)
  {
    seq(2 * passes + (if single then 1 else 0), k requires 0 <= k < 2 * passes + (if single then 1 else 0) =>
      if k < 2 * passes then NTChild(ops, pool, draws, base, k / 2, k % 2 == 1, tag)
      else NTOddChild(ops, pool, draws, base, passes, tag))
  }

  /** One more pass appends its two children; a child bred alone comes last. */
  lemma NTChildrenStep(ops: Operators, pool: seq<Individual>, draws: seq<real>, base: nat, passes: nat, tag: nat)
    requires |pool| >= 1 && UnitDraws(draws) && |draws| >= 2 * passes + 4
    ensures NTChildren(ops, pool, draws, base, passes + 1, false, tag) ==
      NTChildren(ops, pool, draws, base, passes, false, tag) +
      [NTChild(ops, pool, draws, base, passes, false, tag), NTChild(ops, pool, draws, base, passes, true, tag)]
  {
    var a := NTChildren(ops, pool, draws, base, passes + 1, false, tag);
    var b := NTChildren(ops, pool, draws, base, passes, false, tag) +
      [NTChild(ops, pool, draws, base, passes, false, tag), NTChild(ops, pool, draws, base, passes, true, tag)];
    forall k | 0 <= k < |a|
      ensures a[k] == b[k]
    {
      if k == 2 * passes {
        assert k / 2 == passes && k % 2 == 0;
      } else if k == 2 * passes + 1 {
        assert k / 2 == passes && k % 2 == 1;
      }
    }
  }

  /** Appending the two children of pass `t` to the children of `t` passes gives those of `t + 1`. */
  lemma NTChildrenAppend(ops: Operators, pool: seq<Individual>, draws: seq<real>, base: nat, t: nat, tag: nat,
                         kids: seq<Individual>, boy: Individual, girl: Individual)
    requires |pool| >= 1 && UnitDraws(draws) && |draws| >= 2 * t + 4
    requires kids == NTChildren(ops, pool, draws, base, t, false, tag)
    requires boy == NTChild(ops, pool, draws, base, t, false, tag) && girl == NTChild(ops, pool, draws, base, t, true, tag)
    ensures kids + [boy, girl] == NTChildren(ops, pool, draws, base, t + 1, false, tag)
  {
    NTChildrenStep(ops, pool, draws, base, t, tag);
  }

  lemma NTChildrenOdd(ops: Operators, pool: seq<Individual>, draws: seq<real>, base: nat, passes: nat, tag: nat)
    requires |pool| >= 1 && UnitDraws(draws) && |draws| >= 2 * passes + 2
    ensures NTChildren(ops, pool, draws, base, passes, true, tag) ==
      NTChildren(ops, pool, draws, base, passes, false, tag) + [NTOddChild(ops, pool, draws, base, passes, tag)]
  {
  }

  /** Every appended child is owned by the population, with its evaluation count reset. */
  lemma NTChildrenReset(ops: Operators, pool: seq<Individual>, draws: seq<real>, base: nat, passes: nat, single: bool, tag: nat)
    requires |pool| >= 1 || (passes == 0 && !single)
    requires UnitDraws(draws) && |draws| >= 2 * passes + 2
    ensures var r := NTChildren(ops, pool, draws, base, passes, single, tag);
      forall k :: 0 <= k < |r| ==> r[k].owner == InPopulation(tag) && r[k].evaluations == 0 && r[k].fitness == seq(|r[k].fitness|, j => 0.0)
  {
    var r := NTChildren(ops, pool, draws, base, passes, single, tag);
    forall k | 0 <= k < |r|
      ensures r[k].owner == InPopulation(tag) && r[k].evaluations == 0 && r[k].fitness == seq(|r[k].fitness|, j => 0.0)
    {
    }
  }

  /**
   * The loop `for (i = lo; i < hi - 1; i += 2)` of the NT-NSGA breeder,
   * returning the children it appends, and the child bred alone if `single`.
   */
  method AppendChildren(ops: Operators, pool: seq<Individual>, lo: int, hi: int, single: bool,
                        draws: seq<real>, ids: IdSource, tag: nat) returns (kids: seq<Individual>)
    requires |pool| >= 1 || (Pairs(lo, hi) == 0 && !single)
    requires UnitDraws(draws) && |draws| >= 2 * Pairs(lo, hi) + 2
    modifies ids
    ensures kids == NTChildren(ops, pool, draws, old(ids.lastId), Pairs(lo, hi), single, tag)
    ensures ids.lastId == old(ids.lastId) + 2 * Pairs(lo, hi) + (if single then 1 else 0)
  {
    ghost var base := ids.lastId;
    kids := [];
    var i, t := lo, 0;
    while i < hi - 1
      invariant i == lo + 2 * t && t <= Pairs(lo, hi)
      invariant ids.lastId == base + 2 * t
      invariant kids == NTChildren(ops, pool, draws, base, t, false, tag)
      decreases hi - i
    {
      var boy, girl := BreedPass(ops, pool, draws, t, ids, tag, base);
      NTChildrenAppend(ops, pool, draws, base, t, tag, kids, boy, girl);
      kids := kids + [boy, girl];
      i, t := i + 2, t + 1;
    }
    assert t == Pairs(lo, hi);
    if single {
      var boy := BreedAlone(ops, pool, draws, t, ids, tag, base);
      NTChildrenOdd(ops, pool, draws, base, t, tag);
      kids := kids + [boy];
    }
  }

  /** One pass of the NT-NSGA loop: select, clone both parents, recombine, reset. */
  method BreedPass(ops: Operators, pool: seq<Individual>, draws: seq<real>, t: nat, ids: IdSource, tag: nat, ghost base: nat)
    returns (boy: Individual, girl: Individual)
    requires |pool| >= 1 && 2 * t + 1 < |draws| && UnitDraws(draws)
    requires ids.lastId == base + 2 * t
    modifies ids
    ensures boy == NTChild(ops, pool, draws, base, t, false, tag)
    ensures girl == NTChild(ops, pool, draws, base, t, true, tag)
    ensures ids.lastId == base + 2 * t + 2
  {
    var mom := Parent(pool, draws, 2 * t);
    var dad := Parent(pool, draws, 2 * t + 1);
    var b := Clone(ids, dad);
    var g := Clone(ids, mom);
    var children := ops.pair(t, dad, mom, b, g);
    boy, girl := Reset(children.0, tag), Reset(children.1, tag);
  }

  /** The closing block of the NT-NSGA breeder: one child bred alone. */
  method BreedAlone(ops: Operators, pool: seq<Individual>, draws: seq<real>, t: nat, ids: IdSource, tag: nat, ghost base: nat)
    returns (boy: Individual)
    requires |pool| >= 1 && 2 * t + 1 < |draws| && UnitDraws(draws)
    requires ids.lastId == base + 2 * t
    modifies ids
    ensures boy == NTOddChild(ops, pool, draws, base, t, tag)
    ensures ids.lastId == base + 2 * t + 1
  {
    var mom := Parent(pool, draws, 2 * t);
    var dad := Parent(pool, draws, 2 * t + 1);
    var b := Clone(ids, dad);
    boy := Reset(ops.single(t, dad, mom, b), tag);
  }

  /**
   * The NT-NSGA breeder on a sorted population `s` of maximum size `m`:
   * the first `h = min(m / 2, |s|)` kept, then the children bred from
   * clones of them (the pool, ids issued after `base`) appended.  As
   * written (`exact` false) the loop runs from `m - h`; with `exact` it
   * runs from `h` and a last child is bred alone when the gap is odd.
   */
  function Appended(ops: Operators, s: seq<Individual>, base: nat, poolTag: nat, m: nat, exact: bool,
                    draws: seq<real>, tag: nat): seq<Individual>
    requires exact ==> m == 0 || (m >= 2 && |s| >= 1)
    requires UnitDraws(draws) && |draws| >= m + 2
  {
    s[..Clip(m / 2, |s|)] +
    NTChildren(ops, Pool(s, base, poolTag, m), draws, base + 1 + |s|,
               Pairs(LoopStart(exact, Clip(m / 2, |s|), m), m), BreedsAlone(exact, Clip(m / 2, |s|), m), tag)
  }

  /** `Appended` is the kept members followed by the children bred from the pool. */
  lemma AppendedOf(ops: Operators, s: seq<Individual>, base: nat, poolTag: nat, m: nat, exact: bool,
                   draws: seq<real>, tag: nat, kids: seq<Individual>)
    requires exact ==> m == 0 || (m >= 2 && |s| >= 1)
    requires UnitDraws(draws) && |draws| >= m + 2
    requires kids == NTChildren(ops, Pool(s, base, poolTag, m), draws, base + 1 + |s|,
      Pairs(LoopStart(exact, Clip(m / 2, |s|), m), m), BreedsAlone(exact, Clip(m / 2, |s|), m), tag)
    ensures Appended(ops, s, base, poolTag, m, exact, draws, tag) == s[..Clip(m / 2, |s|)] + kids
  {
  }

  /** The pool of the NT-NSGA breeder: clones of the first `min(m / 2, |s|)` members, ids issued after `base`. */
  function Pool(s: seq<Individual>, base: nat, poolTag: nat, m: nat): (pool: seq<Individual>)
    ensures |pool| == Clip(m / 2, |s|)
  {
    Cloned(s, base, poolTag)[..Clip(m / 2, |s|)]
  }

  /** Where the NT-NSGA loop starts: at `max - h` as written, at the kept size `h` when exact. */
  function LoopStart(exact: bool, h: int, m: int): int
  {
    if exact then h else m - h
  }

  /** Whether a last child is bred alone: never as written, for an odd gap when exact. */
  predicate BreedsAlone(exact: bool, h: int, m: int)
  {
    exact && (m - h) % 2 == 1
  }

  /** Both loops of the NT-NSGA breeder need a non-empty pool only when they breed, and no more draws than the maximum size. */
  lemma PassesFit(m: nat, n: nat, exact: bool)
    requires exact ==> m == 0 || (m >= 2 && n >= 1)
    ensures var h := Clip(m / 2, n); var p := Pairs(LoopStart(exact, h, m), m);
      (h >= 1 || (p == 0 && !BreedsAlone(exact, h, m))) && 2 * p <= m
  {
  }

  /** Appending pairs keeps the parity of the size; one more child flips it. */
  lemma SameParity(h: nat, size: nat, p: nat, single: bool)
    requires size == h + 2 * p + (if single then 1 else 0)
    ensures size % 2 == h % 2 <==> !single
  {
  }

  /**
   * The first half of the NT-NSGA breeder after its sort: the pool is a
   * clone of the population, and both are cut back to the first `max / 2`.
   */
  method CutBack(pop: Population, ids: IdSource, poolTag: nat) returns (pool: seq<Individual>)
    requires 0 <= pop.maxPopSize
    modifies pop, ids
    ensures pop.maxPopSize == old(pop.maxPopSize)
    ensures var s := old(pop.individuals); var h := Clip(pop.maxPopSize / 2, |s|);
      pool == Cloned(s, old(ids.lastId), poolTag)[..h] && pop.individuals == s[..h]
    ensures ids.lastId == old(ids.lastId) + 1 + |old(pop.individuals)|
    ensures pop.elites == old(pop.elites) && pop.Settings() == old(pop.Settings())
    ensures pop.numEvaluated == old(pop.numEvaluated) && pop.done == old(pop.done)
  {
    var best := pop.Clone(ids, poolTag);
    assert best.individuals == Cloned(old(pop.individuals), old(ids.lastId), poolTag);
    RemoveTail(best, pop.maxPopSize / 2);
    RemoveTail(pop, pop.maxPopSize / 2);
    pool := best.individuals;
  }

  /**
   * The NT-NSGA breeder after its sort: both the population and a clone of
   * it (the pool) cut back to the first `max / 2`, then the children
   * appended.
   */
  method TruncateAndAppend(ops: Operators, pop: Population, ids: IdSource, poolTag: nat, exact: bool, draws: seq<real>)
    requires 0 <= pop.maxPopSize
    requires exact ==> pop.maxPopSize == 0 || (pop.maxPopSize >= 2 && |pop.individuals| >= 1)
    requires UnitDraws(draws) && |draws| >= pop.maxPopSize + 2
    modifies pop, ids
    ensures pop.individuals == Appended(ops, old(pop.individuals), old(ids.lastId), poolTag, old(pop.maxPopSize), exact, draws, pop.tag)
    ensures ids.lastId >= old(ids.lastId)
    ensures pop.elites == old(pop.elites) && pop.Settings() == old(pop.Settings())
    ensures pop.numEvaluated == old(pop.numEvaluated) && pop.done == old(pop.done)
  {
    ghost var s := pop.individuals;
    ghost var base := ids.lastId;
    var pool := CutBack(pop, ids, poolTag);
    var kids := PoolChildren(ops, s, base, poolTag, pool, pop.maxPopSize, exact, draws, ids, pop.tag);
    pop.individuals := pop.individuals + kids;
  }

  /** The children the NT-NSGA breeder appends after cutting back, bred from the pool. */
  method PoolChildren(ops: Operators, ghost s: seq<Individual>, ghost base: nat, poolTag: nat, pool: seq<Individual>,
                      m: nat, exact: bool, draws: seq<real>, ids: IdSource, tag: nat) returns (kids: seq<Individual>)
    requires exact ==> m == 0 || (m >= 2 && |s| >= 1)
    requires UnitDraws(draws) && |draws| >= m + 2
    requires pool == Pool(s, base, poolTag, m) && ids.lastId == base + 1 + |s|
    modifies ids
    ensures s[..Clip(m / 2, |s|)] + kids == Appended(ops, s, base, poolTag, m, exact, draws, tag)
    ensures ids.lastId >= old(ids.lastId)
  {
    PassesFit(m, |s|, exact);
    kids := NTNSGAChildren(ops, pool, m, exact, draws, ids, tag);
    AppendedOf(ops, s, base, poolTag, m, exact, draws, tag, kids);
  }

  /**
   * The appending loop of the NT-NSGA breeder from the pool of the kept
   * size, then its closing block: that block breeds one more child when
   * the population and the pool differ in parity, which as written never
   * happens.
   */
  method NTNSGAChildren(ops: Operators, pool: seq<Individual>, m: int, exact: bool, draws: seq<real>, ids: IdSource, tag: nat)
    returns (kids: seq<Individual>)
    requires var p := Pairs(LoopStart(exact, |pool|, m), m);
      (|pool| >= 1 || (p == 0 && !BreedsAlone(exact, |pool|, m))) && UnitDraws(draws) && |draws| >= 2 * p + 2
    modifies ids
    ensures kids == NTChildren(ops, pool, draws, old(ids.lastId), Pairs(LoopStart(exact, |pool|, m), m),
                               BreedsAlone(exact, |pool|, m), tag)
    ensures ids.lastId == old(ids.lastId) + |kids|
  {
    var half := |pool|;
    var lo := LoopStart(exact, half, m);
    var single := BreedsAlone(exact, half, m);
    kids := AppendChildren(ops, pool, lo, m, single, draws, ids, tag);
    var size := half + |kids|;
    SameParity(half, size, Pairs(lo, m), single);
    if !exact && ((size % 2 != 0 && half % 2 == 0) || (size % 2 == 0 && half % 2 != 0)) {
      assert false;
    }
  }

  /**
   * `NTNSGABreeder.breedNextGeneration(parent_pop, _)`: Pareto-sorts, cuts
   * both the population and a clone of it (the pool) back to the first
   * `max / 2`, then appends the children of `(max - pool size) / 2`
   * passes, each pass starting from clones of two selected parents.  Its
   * closing block, which would breed one more child when the population
   * and the pool differ in parity, never runs: the loop appends an even
   * number.
   */
  method BreedNTNSGA(ops: Operators, pop: Population, ids: IdSource, poolTag: nat, draws: seq<real>)
    requires SameObjectives(pop.individuals) && 0 <= pop.maxPopSize
    requires UnitDraws(draws) && |draws| >= pop.maxPopSize + 2
    modifies pop, ids
    ensures pop.individuals == Appended(ops, ParetoSorted(old(pop.individuals)), old(ids.lastId), poolTag,
                                        old(pop.maxPopSize), false, draws, pop.tag)
    ensures pop.elites == old(pop.elites) && pop.Settings() == old(pop.Settings())
    ensures pop.numEvaluated == old(pop.numEvaluated) && pop.done == old(pop.done)
  {
    pop.SortParetoRank();
    TruncateAndAppend(ops, pop, ids, poolTag, false, draws);
  }

  /**
   * The size the NT-NSGA breeder leaves: `h + 2 * (h / 2)` for the kept
   * `h = min(max / 2, size)`, which is the maximum size exactly when that
   * is a multiple of 4 and the population held at least half of it.
   */
  lemma {:induction false} NTNSGASize(ops: Operators, s: seq<Individual>, base: nat, poolTag: nat, m: nat, draws: seq<real>, tag: nat)
    requires UnitDraws(draws) && |draws| >= m + 2
    ensures var h := Clip(m / 2, |s|); |Appended(ops, s, base, poolTag, m, false, draws, tag)| == h + 2 * (h / 2)
    ensures |Appended(ops, s, base, poolTag, m, false, draws, tag)| == m <==> (m % 4 == 0 && |s| >= m / 2)
  {
    var h := Clip(m / 2, |s|);
    assert |Appended(ops, s, base, poolTag, m, false, draws, tag)| == h + 2 * Pairs(m - h, m);
    WrittenSizeArithmetic(m, |s|);
  }

  /** The arithmetic of the size as written: `h` kept and `h / 2` pairs bred. */
  lemma WrittenSizeArithmetic(m: nat, n: nat)
    ensures var h := Clip(m / 2, n); Pairs(m - h, m) == h / 2
    ensures var h := Clip(m / 2, n); h + 2 * (h / 2) == m <==> (m % 4 == 0 && n >= m / 2)
  {
    var h := Clip(m / 2, n);
    var p := Pairs(m - h, m);
    assert p == h / 2;
  }

  /** The corrected breeder always refills the population to its maximum size. */
  lemma {:induction false} NTNSGAFilledSize(ops: Operators, s: seq<Individual>, base: nat, poolTag: nat, m: nat, draws: seq<real>, tag: nat)
    requires m == 0 || (m >= 2 && |s| >= 1)
    requires UnitDraws(draws) && |draws| >= m + 2
    ensures |Appended(ops, s, base, poolTag, m, true, draws, tag)| == m
  {
    var h := Clip(m / 2, |s|);
    assert 2 * Pairs(h, m) + (if (m - h) % 2 == 1 then 1 else 0) == m - h;
  }

  /**
   * The NT-NSGA breeder refilling the population to its maximum size: the
   * loop starts at the kept size, and a last child is bred alone when the
   * gap is odd.
   */
  method BreedNTNSGAFilled(ops: Operators, pop: Population, ids: IdSource, poolTag: nat, draws: seq<real>)
    requires SameObjectives(pop.individuals)
    requires pop.maxPopSize == 0 || (pop.maxPopSize >= 2 && |pop.individuals| >= 1)
    requires UnitDraws(draws) && |draws| >= pop.maxPopSize + 2
    modifies pop, ids
    ensures pop.individuals == Appended(ops, ParetoSorted(old(pop.individuals)), old(ids.lastId), poolTag,
                                        old(pop.maxPopSize), true, draws, pop.tag)
    ensures |pop.individuals| == old(pop.maxPopSize)
    ensures pop.elites == old(pop.elites) && pop.Settings() == old(pop.Settings())
    ensures pop.numEvaluated == old(pop.numEvaluated) && pop.done == old(pop.done)
  {
    ghost var m := pop.maxPopSize;
    ghost var base := ids.lastId;
    pop.SortParetoRank();
    ghost var sorted := pop.individuals;
    TruncateAndAppend(ops, pop, ids, poolTag, true, draws);
    NTNSGAFilledSize(ops, sorted, base, poolTag, m, draws, pop.tag);
  }
}
