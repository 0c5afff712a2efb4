/**
 * Single-point crossover: both parents are cut after the same gene; the boy
 * takes mom's head and dad's tail, the girl dad's head and mom's tail.
 */
module SinglePointCrossover {
  import opened Maybe
  import opened Individuals
  import opened Recombination

  /** The boy's genotype for crossover point `x`. */
  function BoyGenotype(dad: seq<Gene>, mom: seq<Gene>, x: int): seq<Gene>
  {
    Head(mom, x) + Tail(dad, x)
  }

  /** The girl's genotype for crossover point `x`. */
  function GirlGenotype(dad: seq<Gene>, mom: seq<Gene>, x: int): seq<Gene>
  {
    Head(dad, x) + Tail(mom, x)
  }

  /**
   * For parents of equal length the children keep that length, and at
   * every position the two children hold the two parents' genes: mom's
   * for the boy up to the point, dad's after it.
   */
  lemma SpliceExchanges(dad: seq<Gene>, mom: seq<Gene>, x: int)
    requires |dad| == |mom|
    ensures |BoyGenotype(dad, mom, x)| == |mom| && |GirlGenotype(dad, mom, x)| == |mom|
    ensures forall i :: 0 <= i < |mom| && i <= x ==>
      BoyGenotype(dad, mom, x)[i] == mom[i] && GirlGenotype(dad, mom, x)[i] == dad[i]
    ensures forall i :: 0 <= i < |mom| && i > x ==>
      BoyGenotype(dad, mom, x)[i] == dad[i] && GirlGenotype(dad, mom, x)[i] == mom[i]
    ensures forall i :: 0 <= i < |mom| ==>
      multiset{BoyGenotype(dad, mom, x)[i], GirlGenotype(dad, mom, x)[i]} == multiset{dad[i], mom[i]}
  {
  }

  /**
   * `recombine(parent1, parent2, child1, child2)`.  `draw` decides whether
   * to recombine at all, `r` places the crossover point.  Without
   * recombination the present children deep-copy their parents.  With
   * recombination parent1 is dad and parent2 is mom; a missing girl makes
   * `girl.equals(null)` throw, reported as `ok == false`.
   */
  method Recombine(ids: IdSource, parent1: Individual, parent2: Individual,
                   child1: Individual, child2: Option<Individual>, draw: real, r: real)
    returns (ok: bool, boy: Individual, girl: Option<Individual>)
    requires CopyableChildren(parent1, parent2, child1, child2)
    modifies ids
    ensures draw > parent2.probRecombination ==>
      ok && boy == DeepCopied(child1, parent1, old(ids.lastId) + 1) &&
      girl.Some? == child2.Some? &&
      (child2.Some? ==> girl.value == DeepCopied(child2.value, parent2, old(ids.lastId) + 2))
    ensures draw <= parent2.probRecombination ==> ids.lastId == old(ids.lastId)
    ensures draw <= parent2.probRecombination ==> (ok <==> child2.Some?)
    ensures draw <= parent2.probRecombination && ok ==>
      var x := CutPoint(r, parent2.genomeSize);
      boy == child1.(genotype := BoyGenotype(parent1.genotype, parent2.genotype, x), evaluated := false) &&
      girl == Some(child2.value.(genotype := GirlGenotype(parent1.genotype, parent2.genotype, x), evaluated := false))
  {
    if draw > parent2.probRecombination {
      ok := true;
      boy, girl := CopyParents(ids, parent1, parent2, child1, child2);
      return;
    }
    var dad, mom := parent1, parent2;
    var x := CutPoint(r, mom.genomeSize);
    boy := child1.(genotype := []);
    if child2.None? {
      ok, girl := false, None;
      return;
    }
    var g := child2.value.(genotype := []);
    var momHead, momTail := SplitAt(mom.genotype, x);
    var dadHead, dadTail := SplitAt(dad.genotype, x);
    boy := boy.(genotype := momHead + dadTail, evaluated := false);
    g := g.(genotype := dadHead + momTail, evaluated := false);
    ok, girl := true, Some(g);
  }
}
