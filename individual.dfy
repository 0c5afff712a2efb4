/**
 * The individual of JEvolve: fitness vector, constraint error, Pareto rank,
 * crowding distance, flags, and (for genetic-algorithm individuals) the
 * genotype.  Individuals are values here; an object's identity is its `id`.
 */
module Individuals {

  /** One genotype value.  The library is generic in it; integers stand for any type with equality. */
  type Gene = int

  /** The tolerance `1.e-10` used by the Pareto comparison. */
  const Tolerance: real := 1.0e-10

  /** `Double.MAX_VALUE`. */
  const MaxDouble: real := 1.7976931348623157e308

  datatype Dominance = Dominating | Dominated | Incomparable

  /**
   * A crowding distance as Java's `double` arithmetic produces it when every
   * fitness gap is far below `Double.MAX_VALUE`: adding a gap to
   * `MAX_VALUE` leaves `MAX_VALUE`, and adding `MAX_VALUE` twice overflows to
   * positive infinity.
   */
  datatype Crowding = Gap(amount: real) | AtMax | Infinite

  /** `c + d` in `double` arithmetic, under the assumption above. */
  function AddCrowding(c: Crowding, d: Crowding): (r: Crowding)
    ensures c.Gap? && d.Gap? ==> r == Gap(c.amount + d.amount)
    ensures AtLeastMax(c) || AtLeastMax(d) ==> AtLeastMax(r)
  {
    match (c, d)
    case (Gap(x), Gap(y)) => Gap(x + y)
    case (Infinite, _) => Infinite
    case (_, Infinite) => Infinite
    case (AtMax, AtMax) => Infinite
    case (AtMax, Gap(_)) => AtMax
    case (Gap(_), AtMax) => AtMax
  }

  /** Crowding addition commutes, as `double` addition does. */
  lemma AddCrowdingCommutes(c: Crowding, d: Crowding)
    ensures AddCrowding(c, d) == AddCrowding(d, c)
  {
  }

  /** The crowding distance is at least `Double.MAX_VALUE`. */
  predicate AtLeastMax(c: Crowding)
  {
    !c.Gap?
  }

  /** The tier of a crowding distance: finite, `MAX_VALUE`, infinite. */
  function Tier(c: Crowding): nat
  {
    match c
    case Gap(_) => 0
    case AtMax => 1
    case Infinite => 2
  }

  /** `c > d` as `double` comparison. */
  predicate CrowdingGreater(c: Crowding, d: Crowding)
  {
    Tier(c) > Tier(d) || (c.Gap? && d.Gap? && c.amount > d.amount)
  }

  /**
   * A real key that orders crowding distances as `double` comparison does:
   * finite distances map increasingly into (-1, 1), `MAX_VALUE` to 1 and
   * infinity to 2.
   */
  function CrowdKey(c: Crowding): real
  {
    match c
    case Gap(a) => a / (1.0 + Abs(a))
    case AtMax => 1.0
    case Infinite => 2.0
  }

  lemma GapKeyBounds(a: real)
    ensures -1.0 < a / (1.0 + Abs(a)) < 1.0
  {
  }

  lemma GapKeyMonotone(a: real, b: real)
    requires a > b
    ensures a / (1.0 + Abs(a)) > b / (1.0 + Abs(b))
  {
    var p, q := 1.0 + Abs(a), 1.0 + Abs(b);
    // with p and q positive, the keys compare as a * q and b * p do
    assert a / p - b / q == (a * q - b * p) / (p * q);
    assert a * q > b * p by {
      if a >= 0.0 && b >= 0.0 {
        assert a * q == a + a * b && b * p == b + a * b;
      } else if a < 0.0 && b < 0.0 {
        assert a * q == a - a * b && b * p == b - a * b;
      }
    }
  }

  /** The crowding key orders crowding distances exactly as the comparator does. */
  lemma CrowdKeyOrder(c: Crowding, d: Crowding)
    ensures CrowdingGreater(c, d) <==> CrowdKey(c) > CrowdKey(d)
  {
    if c.Gap? {
      GapKeyBounds(c.amount);
    }
    if d.Gap? {
      GapKeyBounds(d.amount);
    }
    if c.Gap? && d.Gap? {
      if c.amount > d.amount {
        GapKeyMonotone(c.amount, d.amount);
      } else if d.amount > c.amount {
        GapKeyMonotone(d.amount, c.amount);
      }
    }
  }

  /** The population an individual belongs to, identified by the population's tag. */
  datatype Owner = NoPopulation | InPopulation(tag: nat)

  datatype Individual = Individual(
    id: nat,
    fitness: seq<real>,
    constraintError: real,
    paretoRank: int,
    crowding: Crowding,
    success: bool,
    evaluated: bool,
    probRecombination: real,
    probMutation: real,
    owner: Owner,
    /** the number of genes in the genome, one random value each */
    genomeSize: nat,
    genotype: seq<Gene>,
    /** the evaluation count of an evaluation-counting individual */
    evaluations: nat)

  /** Fitness value `k`, as used by the sorting comparators; a missing objective reads as 0. */
  function Objective(x: Individual, k: nat): real
  {
    if k < |x.fitness| then x.fitness[k] else 0.0
  }

  predicate Feasible(x: Individual)
  {
    x.constraintError <= 0.0
  }

  // ---------------------------------------------------------------------------
  // Pareto dominance

  /** `f[m] <= g[m] + 1e-10` for every objective `m < n`. */
  predicate NoWorse(f: seq<real>, g: seq<real>, n: nat)
    requires n <= |f| && n <= |g|
  {
    forall m :: 0 <= m < n ==> f[m] <= g[m] + Tolerance
  }

  /** `g[m] < f[m] + 1e-10` for every objective `m < n`: `g` is not clearly worse than `f` anywhere. */
  predicate WithinTolerance(f: seq<real>, g: seq<real>, n: nat)
    requires n <= |f| && n <= |g|
  {
    forall m :: 0 <= m < n ==> g[m] < f[m] + Tolerance
  }

  /**
   * The outcome of comparing fitness `f` with fitness `g` (minimisation):
   * `f` dominates when it is no worse in every objective and `g` is not
   * within tolerance of `f` in every objective; `f` is dominated in the
   * mirrored case; otherwise the two are incomparable.
   */
  function DominanceOf(f: seq<real>, g: seq<real>): Dominance
    requires |f| <= |g|
  {
    var n := |f|;
    if NoWorse(f, g, n) then
      if WithinTolerance(f, g, n) then Incomparable else Dominating
    else if NoWorse(g, f, n) then
      if WithinTolerance(g, f, n) then Incomparable else Dominated
    else Incomparable
  }

  /**
   * `a.checkDominance(b)`: two scans over the objectives with counters `m`
   * and `n`, each stopping at the first objective that breaks the "no
   * worse" test.
   */
  method CheckDominance(a: Individual, b: Individual) returns (d: Dominance)
    requires |a.fitness| <= |b.fitness|
    ensures d == DominanceOf(a.fitness, b.fitness)
  {
    var f, g := a.fitness, b.fitness;
    var nfunc := |f|;
    var m, n := 0, 0;
    while m < nfunc && f[m] <= g[m] + Tolerance
      invariant 0 <= n <= m <= nfunc
      invariant NoWorse(f, g, m)
      invariant n == m <==> WithinTolerance(f, g, m)
    {
      if g[m] < f[m] + Tolerance {
        n := n + 1;
      }
      m := m + 1;
    }
    if m == nfunc {
      if n == nfunc {
        return Incomparable;
      } else {
        return Dominating;
      }
    }
    assert !NoWorse(f, g, nfunc);
    m, n := 0, 0;
    while m < nfunc && g[m] <= f[m] + Tolerance
      invariant 0 <= n <= m <= nfunc
      invariant NoWorse(g, f, m)
      invariant n == m <==> WithinTolerance(g, f, m)
    {
      if f[m] < g[m] + Tolerance {
        n := n + 1;
      }
      m := m + 1;
    }
    if m == nfunc {
      if n != nfunc {
        return Dominated;
      } else {
        return Incomparable;
      }
    }
    assert !NoWorse(g, f, nfunc);
    return Incomparable;
  }

  /** Comparing a fitness vector with itself yields INCOMPARABLE. */
  lemma SelfIncomparable(f: seq<real>)
    ensures DominanceOf(f, f) == Incomparable
  {
    assert NoWorse(f, f, |f|);
    assert WithinTolerance(f, f, |f|);
  }

  /** A dominated outcome always reads as dominating from the other side. */
  lemma DominatedMirrors(f: seq<real>, g: seq<real>)
    requires |f| == |g|
    requires DominanceOf(f, g) == Dominated
    ensures DominanceOf(g, f) == Dominating
  {
    var n := |f|;
    assert NoWorse(g, f, n);
    assert !WithinTolerance(g, f, n);
  }

  /** No objective sits exactly on the tolerance boundary. */
  predicate OffBoundary(f: seq<real>, g: seq<real>)
    requires |f| == |g|
  {
    forall m :: 0 <= m < |f| ==> f[m] != g[m] + Tolerance && g[m] != f[m] + Tolerance
  }

  /** Away from the exact tolerance boundary, a dominating outcome reads as dominated from the other side. */
  lemma DominatingMirrors(f: seq<real>, g: seq<real>)
    requires |f| == |g| && OffBoundary(f, g)
    requires DominanceOf(f, g) == Dominating
    ensures DominanceOf(g, f) == Dominated
  {
    var n := |f|;
    assert NoWorse(f, g, n);
    var m :| 0 <= m < n && !(g[m] < f[m] + Tolerance);
    assert g[m] > f[m] + Tolerance;
    assert !NoWorse(g, f, n);
  }

  /**
   * On the boundary the comparison is not antisymmetric: fitness (0, 1e-10)
   * and (1e-10, 0) each dominate the other.
   */
  lemma MutualDominationOnBoundary()
    ensures DominanceOf([0.0, Tolerance], [Tolerance, 0.0]) == Dominating
    ensures DominanceOf([Tolerance, 0.0], [0.0, Tolerance]) == Dominating
  {
    var f, g := [0.0, Tolerance], [Tolerance, 0.0];
    assert NoWorse(f, g, 2);
    assert !(g[0] < f[0] + Tolerance);
    assert NoWorse(g, f, 2);
    assert !(f[1] < g[1] + Tolerance);
  }

  /**
   * `a.checkConstrainedDominance(b)`: feasibility first, then the Pareto
   * comparison (several objectives) or a strict comparison of the single
   * fitness; two infeasible individuals compare by constraint error.
   */
  function ConstrainedDominance(a: Individual, b: Individual): (r: Dominance)
    requires Feasible(a) && Feasible(b) ==> 1 <= |a.fitness| <= |b.fitness|
    ensures Feasible(a) && !Feasible(b) ==> r == Dominating
    ensures !Feasible(a) && Feasible(b) ==> r == Dominated
    ensures !Feasible(a) && !Feasible(b) ==> r != Incomparable
    ensures !Feasible(a) && !Feasible(b) ==> (r == Dominating <==> a.constraintError < b.constraintError)
    ensures Feasible(a) && Feasible(b) && |a.fitness| == 1 ==>
      (r == Dominating <==> a.fitness[0] < b.fitness[0]) &&
      (r == Dominated <==> b.fitness[0] < a.fitness[0])
  {
    if Feasible(a) && !Feasible(b) then Dominating
    else if Feasible(b) && !Feasible(a) then Dominated
    else if Feasible(a) && Feasible(b) then
      if |a.fitness| > 1 then DominanceOf(a.fitness, b.fitness)
      else if a.fitness[0] < b.fitness[0] then Dominating
      else if b.fitness[0] < a.fitness[0] then Dominated
      else Incomparable
    else if a.constraintError < b.constraintError then Dominating
    else Dominated
  }

  /**
   * Swapping the arguments of the constrained comparison: feasibility
   * decisions mirror exactly; between infeasible individuals a strict
   * difference in error mirrors, while equal errors are DOMINATED both ways.
   */
  lemma ConstrainedDominanceSwap(a: Individual, b: Individual)
    requires !Feasible(a) || !Feasible(b)
    ensures ConstrainedDominance(a, b) == Dominating <==>
      (ConstrainedDominance(b, a) == Dominated && a.constraintError != b.constraintError)
    ensures a.constraintError == b.constraintError ==>
      ConstrainedDominance(a, b) == Dominated && ConstrainedDominance(b, a) == Dominated
  {
  }

  /** An individual compared with itself is DOMINATED when infeasible and INCOMPARABLE otherwise. */
  lemma ConstrainedSelf(a: Individual)
    requires Feasible(a) ==> 1 <= |a.fitness|
    ensures ConstrainedDominance(a, a) == (if Feasible(a) then Incomparable else Dominated)
  {
    if Feasible(a) && |a.fitness| > 1 {
      SelfIncomparable(a.fitness);
    }
  }

  // ---------------------------------------------------------------------------
  // Fitness distance

  function Abs(x: real): real
  {
    if x < 0.0 then -x else x
  }

  /** The sum of `|g[i] - f[i]|` over the first `n` objectives. */
  function FitnessDistance(f: seq<real>, g: seq<real>, n: nat): real
    requires n <= |f| && n <= |g|
  {
    if n == 0 then 0.0 else FitnessDistance(f, g, n - 1) + Abs(g[n - 1] - f[n - 1])
  }

  /** `a.fitnessDistance(b)`: accumulates the distance over `a`'s objectives. */
  method MeasureFitnessDistance(a: Individual, b: Individual) returns (distance: real)
    requires |a.fitness| <= |b.fitness|
    ensures distance == FitnessDistance(a.fitness, b.fitness, |a.fitness|)
    ensures distance >= 0.0
  {
    distance := 0.0;
    var i := 0;
    while i < |a.fitness|
      invariant 0 <= i <= |a.fitness|
      invariant distance == FitnessDistance(a.fitness, b.fitness, i)
    {
      distance := distance + Abs(b.fitness[i] - a.fitness[i]);
      i := i + 1;
      FitnessDistanceNonNegative(a.fitness, b.fitness, i);
    }
    FitnessDistanceNonNegative(a.fitness, b.fitness, i);
  }

  lemma {:induction false} FitnessDistanceNonNegative(f: seq<real>, g: seq<real>, n: nat)
    requires n <= |f| && n <= |g|
    ensures FitnessDistance(f, g, n) >= 0.0
  {
    if n > 0 {
      FitnessDistanceNonNegative(f, g, n - 1);
    }
  }

  lemma {:induction false} FitnessDistanceSymmetric(f: seq<real>, g: seq<real>, n: nat)
    requires n <= |f| && n <= |g|
    ensures FitnessDistance(f, g, n) == FitnessDistance(g, f, n)
  {
    if n > 0 {
      FitnessDistanceSymmetric(f, g, n - 1);
    }
  }

  /** The distance is zero exactly when the first `n` objectives agree. */
  lemma {:induction false} FitnessDistanceZero(f: seq<real>, g: seq<real>, n: nat)
    requires n <= |f| && n <= |g|
    ensures FitnessDistance(f, g, n) == 0.0 <==> f[..n] == g[..n]
  {
    if n > 0 {
      FitnessDistanceZero(f, g, n - 1);
      FitnessDistanceNonNegative(f, g, n - 1);
      assert f[..n] == f[..n - 1] + [f[n - 1]];
      assert g[..n] == g[..n - 1] + [g[n - 1]];
      if f[..n] == g[..n] {
        assert f[..n - 1] == f[..n][..n - 1];
        assert g[..n - 1] == g[..n][..n - 1];
        assert f[n - 1] == f[..n][n - 1];
      }
    }
  }

  // ---------------------------------------------------------------------------
  // Identities

  /** The static counter `Individual.last_id`. */
  class IdSource {
    var lastId: nat

    constructor ()
      ensures lastId == 0
    {
      lastId := 0;
    }

    /** `++last_id`. */
    method Next() returns (id: nat)
      modifies this
      ensures id == old(lastId) + 1 && lastId == id
    {
      lastId := lastId + 1;
      id := lastId;
    }
  }

  /** Every id in `s` was issued by the time the counter read `n`. */
  predicate IdsAtMost(s: seq<Individual>, n: nat)
  {
    forall i :: 0 <= i < |s| ==> s[i].id <= n
  }

  /** `x.clone()`: the same individual, including its genotype, under a fresh id. */
  method Clone(ids: IdSource, x: Individual) returns (c: Individual)
    modifies ids
    ensures ids.lastId == old(ids.lastId) + 1
    ensures c == x.(id := ids.lastId)
  {
    var id := ids.Next();
    c := x.(id := id);
  }

  /** The individual `target.deepCopy(src)` leaves behind, given the fresh id. */
  function DeepCopied(target: Individual, src: Individual, id: nat): Individual
    requires |target.fitness| <= |src.fitness|
  {
    src.(id := id, fitness := src.fitness[..|target.fitness|])
  }

  /**
   * `target.deepCopy(src)`: every attribute of `src` (genotype, flags,
   * rank, crowding, owning population), the first `|target.fitness|`
   * fitness values, and a fresh id.
   */
  method DeepCopy(ids: IdSource, target: Individual, src: Individual) returns (c: Individual)
    requires |target.fitness| <= |src.fitness|
    modifies ids
    ensures ids.lastId == old(ids.lastId) + 1
    ensures c == DeepCopied(target, src, ids.lastId)
  {
    var f := target.fitness;
    var i := 0;
    while i < |f|
      invariant 0 <= i <= |f| == |target.fitness|
      invariant f[..i] == src.fitness[..i]
    {
      f := f[i := src.fitness[i]];
      i := i + 1;
    }
    var id := ids.Next();
    c := src.(id := id, fitness := f);
  }

  /** A fresh id is above every id issued before, so it belongs to no earlier individual. */
  lemma FreshIdIsNew(s: seq<Individual>, n: nat)
    requires IdsAtMost(s, n)
    ensures forall i :: 0 <= i < |s| ==> s[i].id != n + 1
  {
  }
}
