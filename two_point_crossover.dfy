/**
 * Two-point crossover: both parents are cut at two points; the boy takes
 * mom's head and tail around dad's middle, the girl the reverse.
 */
module TwoPointCrossover {
  import opened Maybe
  import opened Individuals
  import opened Recombination

  function BoyGenotype(dad: seq<Gene>, mom: seq<Gene>, x1: int, x2: int): seq<Gene>
    requires x1 <= x2
  {
    Head(mom, x1) + Middle(dad, x1, x2) + Tail(mom, x2)
  }

  function GirlGenotype(dad: seq<Gene>, mom: seq<Gene>, x1: int, x2: int): seq<Gene>
    requires x1 <= x2
  {
    Head(dad, x1) + Middle(mom, x1, x2) + Tail(dad, x2)
  }

  /** Children of equal-length parents keep the length and exchange genes position by position. */
  lemma SpliceExchanges(dad: seq<Gene>, mom: seq<Gene>, x1: int, x2: int)
    requires x1 <= x2 && |dad| == |mom|
    ensures |BoyGenotype(dad, mom, x1, x2)| == |mom| && |GirlGenotype(dad, mom, x1, x2)| == |mom|
    ensures forall i :: 0 <= i < |mom| && (i <= x1 || i > x2) ==>
      BoyGenotype(dad, mom, x1, x2)[i] == mom[i] && GirlGenotype(dad, mom, x1, x2)[i] == dad[i]
    ensures forall i :: 0 <= i < |mom| && x1 < i <= x2 ==>
      BoyGenotype(dad, mom, x1, x2)[i] == dad[i] && GirlGenotype(dad, mom, x1, x2)[i] == mom[i]
  {
  }

  /** The splicing loops: the boy's and the girl's genotypes at ordered points. */
  method Splice(dad: seq<Gene>, mom: seq<Gene>, x1: int, x2: int) returns (boyGenes: seq<Gene>, girlGenes: seq<Gene>)
    requires x1 <= x2
    ensures boyGenes == BoyGenotype(dad, mom, x1, x2) && girlGenes == GirlGenotype(dad, mom, x1, x2)
  {
    var momHead, momMiddle, momTail := SplitAt2(mom, x1, x2);
    var dadHead, dadMiddle, dadTail := SplitAt2(dad, x1, x2);
    boyGenes := momHead + dadMiddle + momTail;
    girlGenes := dadHead + momMiddle + dadTail;
  }

  /**
   * `recombine(parent1, parent2, child1, child2)`: `draw` decides whether
   * to recombine; `cuts` are the draws that place the two points, which
   * are re-drawn until they differ.  parent1 is dad, parent2 is mom.
   */
  method Recombine(ids: IdSource, parent1: Individual, parent2: Individual,
                   child1: Individual, child2: Option<Individual>, draw: real, cuts: seq<real>)
    returns (ok: bool, boy: Individual, girl: Option<Individual>)
    requires CopyableChildren(parent1, parent2, child1, child2)
    requires draw <= parent2.probRecombination ==>
      |cuts| >= 1 && HasDistinctDraw(CutPoint(cuts[0], parent2.genomeSize), cuts[1..], parent2.genomeSize - 1)
    modifies ids
    ensures draw > parent2.probRecombination ==>
      ok && boy == DeepCopied(child1, parent1, old(ids.lastId) + 1) &&
      girl.Some? == child2.Some? &&
      (child2.Some? ==> girl.value == DeepCopied(child2.value, parent2, old(ids.lastId) + 2))
    ensures draw <= parent2.probRecombination ==> ids.lastId == old(ids.lastId)
    ensures draw <= parent2.probRecombination ==> (ok <==> child2.Some?)
    ensures draw <= parent2.probRecombination && ok ==>
      var a, b := CutPoint(cuts[0], parent2.genomeSize), SecondCut(cuts, parent2.genomeSize);
      var x1, x2 := if a < b then a else b, if a < b then b else a;
      boy == child1.(genotype := BoyGenotype(parent1.genotype, parent2.genotype, x1, x2), evaluated := false) &&
      girl == Some(child2.value.(genotype := GirlGenotype(parent1.genotype, parent2.genotype, x1, x2), evaluated := false))
  {
    if draw > parent2.probRecombination {
      ok := true;
      boy, girl := CopyParents(ids, parent1, parent2, child1, child2);
      return;
    }
    var dad, mom := parent1, parent2;
    var x1, x2 := ChooseCuts(cuts, mom.genomeSize);
    boy := child1.(genotype := []);
    if child2.None? {
      ok, girl := false, None;
      return;
    }
    var boyGenes, girlGenes := Splice(dad.genotype, mom.genotype, x1, x2);
    boy := boy.(genotype := boyGenes, evaluated := false);
    var g := child2.value.(genotype := girlGenes, evaluated := false);
    ok, girl := true, Some(g);
  }

  /**
   * `recombine` with a genome of fewer than three genes copied like a
   * declined crossover, so that two distinct crossover points always exist
   * (see `RedrawCanEnd`).
   */
  method GuardedRecombine(ids: IdSource, parent1: Individual, parent2: Individual,
                          child1: Individual, child2: Option<Individual>, draw: real, cuts: seq<real>)
    returns (ok: bool, boy: Individual, girl: Option<Individual>)
    requires CopyableChildren(parent1, parent2, child1, child2)
    requires draw <= parent2.probRecombination && parent2.genomeSize >= 3 ==>
      |cuts| >= 1 && HasDistinctDraw(CutPoint(cuts[0], parent2.genomeSize), cuts[1..], parent2.genomeSize - 1)
    modifies ids
    ensures draw > parent2.probRecombination || parent2.genomeSize < 3 ==>
      ok && boy == DeepCopied(child1, parent1, old(ids.lastId) + 1) &&
      girl.Some? == child2.Some? &&
      (child2.Some? ==> girl.value == DeepCopied(child2.value, parent2, old(ids.lastId) + 2))
    ensures draw <= parent2.probRecombination && parent2.genomeSize >= 3 ==>
      ids.lastId == old(ids.lastId) && (ok <==> child2.Some?)
    ensures draw <= parent2.probRecombination && parent2.genomeSize >= 3 && ok ==>
      var a, b := CutPoint(cuts[0], parent2.genomeSize), SecondCut(cuts, parent2.genomeSize);
      var x1, x2 := if a < b then a else b, if a < b then b else a;
      boy == child1.(genotype := BoyGenotype(parent1.genotype, parent2.genotype, x1, x2), evaluated := false) &&
      girl == Some(child2.value.(genotype := GirlGenotype(parent1.genotype, parent2.genotype, x1, x2), evaluated := false))
  {
    if draw > parent2.probRecombination || parent2.genomeSize < 3 {
      ok := true;
      boy, girl := CopyParents(ids, parent1, parent2, child1, child2);
      return;
    }
    ok, boy, girl := Recombine(ids, parent1, parent2, child1, child2, draw, cuts);
  }
}
