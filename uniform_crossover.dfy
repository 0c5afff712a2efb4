/**
 * Uniform crossover: at every position of mom's genotype a coin decides
 * which child takes mom's gene and which takes dad's.
 */
module UniformCrossover {
  import opened Maybe
  import opened Individuals
  import opened Recombination

  /** The boy's genotype: mom's gene where the coin is below one half, dad's otherwise. */
  function BoyGenotype(dad: seq<Gene>, mom: seq<Gene>, coins: seq<real>): (g: seq<Gene>)
    requires |mom| <= |dad| && |mom| <= |coins|
  {
    seq(|mom|, i requires 0 <= i < |mom| => if coins[i] < 0.5 then mom[i] else dad[i])
  }

  /** The girl's genotype: the gene the boy did not take. */
  function GirlGenotype(dad: seq<Gene>, mom: seq<Gene>, coins: seq<real>): (g: seq<Gene>)
    requires |mom| <= |dad| && |mom| <= |coins|
  {
    seq(|mom|, i requires 0 <= i < |mom| => if coins[i] < 0.5 then dad[i] else mom[i])
  }

  /** Both children have mom's length, and at every position they hold mom's and dad's genes in one order or the other. */
  lemma ChildrenExchange(dad: seq<Gene>, mom: seq<Gene>, coins: seq<real>)
    requires |mom| <= |dad| && |mom| <= |coins|
    ensures |BoyGenotype(dad, mom, coins)| == |mom| == |GirlGenotype(dad, mom, coins)|
    ensures forall i :: 0 <= i < |mom| ==>
      (BoyGenotype(dad, mom, coins)[i] == mom[i] && GirlGenotype(dad, mom, coins)[i] == dad[i]) ||
      (BoyGenotype(dad, mom, coins)[i] == dad[i] && GirlGenotype(dad, mom, coins)[i] == mom[i])
    ensures multiset(BoyGenotype(dad, mom, coins)) + multiset(GirlGenotype(dad, mom, coins)) ==
      multiset(mom) + multiset(dad[..|mom|])
  {
    ExchangeMultiset(dad, mom, coins, |mom|);
    assert BoyGenotype(dad, mom, coins)[..|mom|] == BoyGenotype(dad, mom, coins);
    assert GirlGenotype(dad, mom, coins)[..|mom|] == GirlGenotype(dad, mom, coins);
    assert mom[..|mom|] == mom;
  }

  /** A prefix one longer holds one more element. */
  lemma PrefixSnoc(s: seq<Gene>, n: nat)
    requires 0 < n <= |s|
    ensures multiset(s[..n]) == multiset(s[..n - 1]) + multiset{s[n - 1]}
  {
    assert s[..n] == s[..n - 1] + [s[n - 1]];
  }

  /** Adding `p` and `q` to two sums that agree keeps them in agreement. */
  lemma AddBoth(a: multiset<Gene>, b: multiset<Gene>, c: multiset<Gene>, d: multiset<Gene>, p: Gene, q: Gene)
    requires a + b == c + d
    ensures (a + multiset{p}) + (b + multiset{q}) == (c + multiset{p}) + (d + multiset{q})
  {
    forall x
      ensures ((a + multiset{p}) + (b + multiset{q}))[x] == ((c + multiset{p}) + (d + multiset{q}))[x]
    {
      assert (a + b)[x] == (c + d)[x];
    }
  }

  lemma {:induction false} ExchangeMultiset(dad: seq<Gene>, mom: seq<Gene>, coins: seq<real>, n: nat)
    requires |mom| <= |dad| && |mom| <= |coins| && n <= |mom|
    ensures multiset(BoyGenotype(dad, mom, coins)[..n]) + multiset(GirlGenotype(dad, mom, coins)[..n]) ==
      multiset(mom[..n]) + multiset(dad[..n])
  {
    if n > 0 {
      ExchangeMultiset(dad, mom, coins, n - 1);
      var b, g := BoyGenotype(dad, mom, coins), GirlGenotype(dad, mom, coins);
      PrefixSnoc(b, n);
      PrefixSnoc(g, n);
      PrefixSnoc(mom, n);
      PrefixSnoc(dad, n);
      if coins[n - 1] < 0.5 {
        assert b[n - 1] == mom[n - 1] && g[n - 1] == dad[n - 1];
        AddBoth(multiset(b[..n - 1]), multiset(g[..n - 1]), multiset(mom[..n - 1]), multiset(dad[..n - 1]),
          mom[n - 1], dad[n - 1]);
      } else {
        assert b[n - 1] == dad[n - 1] && g[n - 1] == mom[n - 1];
        AddBoth(multiset(g[..n - 1]), multiset(b[..n - 1]), multiset(mom[..n - 1]), multiset(dad[..n - 1]),
          mom[n - 1], dad[n - 1]);
      }
    }
  }

  /**
   * `recombine(parent1, parent2, child1, child2)`: `draw` decides whether
   * to recombine, `coins[i]` is the draw at position `i`.  parent1 is
   * dad, parent2 is mom; a missing girl makes `girl.equals(null)` throw.
   */
  method Recombine(ids: IdSource, parent1: Individual, parent2: Individual,
                   child1: Individual, child2: Option<Individual>, draw: real, coins: seq<real>)
    returns (ok: bool, boy: Individual, girl: Option<Individual>)
    requires CopyableChildren(parent1, parent2, child1, child2)
    requires draw <= parent2.probRecombination ==>
      |parent2.genotype| <= |parent1.genotype| && |parent2.genotype| <= |coins|
    modifies ids
    ensures draw > parent2.probRecombination ==>
      ok && boy == DeepCopied(child1, parent1, old(ids.lastId) + 1) &&
      girl.Some? == child2.Some? &&
      (child2.Some? ==> girl.value == DeepCopied(child2.value, parent2, old(ids.lastId) + 2))
    ensures draw <= parent2.probRecombination ==> ids.lastId == old(ids.lastId)
    ensures draw <= parent2.probRecombination ==> (ok <==> child2.Some?)
    ensures draw <= parent2.probRecombination && ok ==>
      boy == child1.(genotype := BoyGenotype(parent1.genotype, parent2.genotype, coins), evaluated := false) &&
      girl == Some(child2.value.(genotype := GirlGenotype(parent1.genotype, parent2.genotype, coins), evaluated := false))
  {
    if draw > parent2.probRecombination {
      ok := true;
      boy, girl := CopyParents(ids, parent1, parent2, child1, child2);
      return;
    }
    var dad, mom := parent1, parent2;
    boy := child1.(genotype := []);
    if child2.None? {
      ok, girl := false, None;
      return;
    }
    var b: seq<Gene>, g: seq<Gene> := [], [];
    var i := 0;
    while i < |mom.genotype|
      invariant 0 <= i <= |mom.genotype|
      invariant b == BoyGenotype(dad.genotype, mom.genotype, coins)[..i]
      invariant g == GirlGenotype(dad.genotype, mom.genotype, coins)[..i]
    {
      if coins[i] < 0.5 {
        b, g := b + [mom.genotype[i]], g + [dad.genotype[i]];
      } else {
        b, g := b + [dad.genotype[i]], g + [mom.genotype[i]];
      }
      i := i + 1;
    }
    assert b == BoyGenotype(dad.genotype, mom.genotype, coins);
    assert g == GirlGenotype(dad.genotype, mom.genotype, coins);
    boy := boy.(genotype := b, evaluated := false);
    ok, girl := true, Some(child2.value.(genotype := g, evaluated := false));
  }
}
