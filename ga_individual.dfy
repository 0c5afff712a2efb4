/**
 * The genetic-algorithm individual: a genome of gene definitions and the
 * genotype, one value per gene.
 */
module GAIndividuals {
  import opened Individuals

  /** `x.setValue(i, v)`: replaces genotype entry `i`. */
  function SetValue(x: Individual, i: nat, v: Gene): (r: Individual)
    requires i < |x.genotype|
    ensures |r.genotype| == |x.genotype| && r.genotype[i] == v
    ensures forall j :: 0 <= j < |x.genotype| && j != i ==> r.genotype[j] == x.genotype[j]
    ensures r.(genotype := x.genotype) == x
  {
    x.(genotype := x.genotype[i := v])
  }

  /**
   * `x.initialize()`: clears the genotype and appends one random value per
   * gene of the genome; `draws[g]` is the value gene `g` draws.
   */
  method Initialize(x: Individual, draws: seq<Gene>) returns (r: Individual)
    requires |draws| == x.genomeSize
    ensures r == x.(genotype := draws)
    ensures |r.genotype| == r.genomeSize
  {
    var genotype: seq<Gene> := [];
    var g := 0;
    while g < x.genomeSize
      invariant 0 <= g <= x.genomeSize
      invariant genotype == draws[..g]
    {
      genotype := genotype + [draws[g]];
      g := g + 1;
    }
    r := x.(genotype := genotype);
  }

  /** The number of positions `i < n` where `a` and `b` hold different values. */
  function Mismatches(a: seq<Gene>, b: seq<Gene>, n: nat): nat
    requires n <= |a| && n <= |b|
  {
    if n == 0 then 0
    else Mismatches(a, b, n - 1) + (if a[n - 1] != b[n - 1] then 1 else 0)
  }

  /**
   * `x.genotypeDistance(src)`: the number of positions of `src`'s genotype
   * where the two genotypes differ.
   */
  method GenotypeDistance(x: Individual, src: Individual) returns (distance: real)
    requires |src.genotype| <= |x.genotype|
    ensures distance == Mismatches(x.genotype, src.genotype, |src.genotype|) as real
  {
    distance := 0.0;
    var i := 0;
    while i < |src.genotype|
      invariant 0 <= i <= |src.genotype|
      invariant distance == Mismatches(x.genotype, src.genotype, i) as real
    {
      if x.genotype[i] != src.genotype[i] {
        distance := distance + 1.0;
      }
      i := i + 1;
    }
  }

  /** The distance is bounded by the number of positions compared. */
  lemma {:induction false} MismatchesAtMost(a: seq<Gene>, b: seq<Gene>, n: nat)
    requires n <= |a| && n <= |b|
    ensures Mismatches(a, b, n) <= n
  {
    if n > 0 {
      MismatchesAtMost(a, b, n - 1);
    }
  }

  /** The distance is zero exactly when the compared prefixes are equal; in particular against itself. */
  lemma {:induction false} MismatchesZero(a: seq<Gene>, b: seq<Gene>, n: nat)
    requires n <= |a| && n <= |b|
    ensures Mismatches(a, b, n) == 0 <==> a[..n] == b[..n]
  {
    if n > 0 {
      MismatchesZero(a, b, n - 1);
      assert a[..n] == a[..n - 1] + [a[n - 1]];
      assert b[..n] == b[..n - 1] + [b[n - 1]];
      if a[..n] == b[..n] {
        assert a[..n - 1] == a[..n][..n - 1];
        assert b[..n - 1] == b[..n][..n - 1];
        assert a[n - 1] == a[..n][n - 1];
      }
    }
  }

  lemma {:induction false} MismatchesSymmetric(a: seq<Gene>, b: seq<Gene>, n: nat)
    requires n <= |a| && n <= |b|
    ensures Mismatches(a, b, n) == Mismatches(b, a, n)
  {
    if n > 0 {
      MismatchesSymmetric(a, b, n - 1);
    }
  }

  // ---------------------------------------------------------------------------
  // The distance as written: genes compared by reference

  /**
   * A gene as the genotype list holds it: a boxed value, identified by the
   * box it sits in.  Copies of a genotype and the crossovers move boxes;
   * a mutation stores a newly boxed value.
   */
  datatype BoxedGene = BoxedGene(box: nat, value: Gene)

  /** The values held in the boxes. */
  function Values(g: seq<BoxedGene>): (r: seq<Gene>)
    ensures |r| == |g| && forall i :: 0 <= i < |g| ==> r[i] == g[i].value
  {
    seq(|g|, i requires 0 <= i < |g| => g[i].value)
  }

  /** The number of positions `i < n` where `a` and `b` hold different boxes. */
  function BoxMismatches(a: seq<BoxedGene>, b: seq<BoxedGene>, n: nat): nat
    requires n <= |a| && n <= |b|
  {
    if n == 0 then 0
    else BoxMismatches(a, b, n - 1) + (if a[n - 1].box != b[n - 1].box then 1 else 0)
  }

  /** `genotypeDistance` as written: `this.genotype.get(i) != src.getGenotype().get(i)` compares the boxes. */
  method BoxDistance(x: seq<BoxedGene>, src: seq<BoxedGene>) returns (distance: real)
    requires |src| <= |x|
    ensures distance == BoxMismatches(x, src, |src|) as real
  {
    distance := 0.0;
    var i := 0;
    while i < |src|
      invariant 0 <= i <= |src|
      invariant distance == BoxMismatches(x, src, i) as real
    {
      if x[i].box != src[i].box {
        distance := distance + 1.0;
      }
      i := i + 1;
    }
  }

  /** At the first `n` positions, one box never holds two values. */
  predicate BoxesHoldOneValue(a: seq<BoxedGene>, b: seq<BoxedGene>, n: nat)
    requires n <= |a| && n <= |b|
  {
    forall i :: 0 <= i < n ==> a[i].box == b[i].box ==> a[i].value == b[i].value
  }

  /** At the first `n` positions, equal values sit in the same box. */
  predicate EqualValuesShareBoxes(a: seq<BoxedGene>, b: seq<BoxedGene>, n: nat)
    requires n <= |a| && n <= |b|
  {
    forall i :: 0 <= i < n ==> a[i].value == b[i].value ==> a[i].box == b[i].box
  }

  /**
   * Comparing boxes counts every position whose values differ, and also
   * every position where equal values sit in different boxes; the two
   * counts agree when equal values share their boxes.
   */
  lemma {:induction false} BoxMismatchesBound(a: seq<BoxedGene>, b: seq<BoxedGene>, n: nat)
    requires n <= |a| && n <= |b| && BoxesHoldOneValue(a, b, n)
    ensures Mismatches(Values(a), Values(b), n) <= BoxMismatches(a, b, n)
    ensures EqualValuesShareBoxes(a, b, n) ==> Mismatches(Values(a), Values(b), n) == BoxMismatches(a, b, n)
  {
    if n > 0 {
      BoxMismatchesBound(a, b, n - 1);
    }
  }

  /**
   * As written, two genotypes holding the same value in different boxes
   * are at distance 1, where the documented count of differing values is 0.
   */
  lemma BoxDistanceCountsEqualValues(v: Gene)
    ensures BoxMismatches([BoxedGene(0, v)], [BoxedGene(1, v)], 1) == 1
    ensures Mismatches(Values([BoxedGene(0, v)]), Values([BoxedGene(1, v)]), 1) == 0
  {
    assert Values([BoxedGene(0, v)]) == [v] == Values([BoxedGene(1, v)]);
  }
}
