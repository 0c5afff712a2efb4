/** Swap mutation: exchanges the genes at two distinct random positions. */
module SwapMutator {
  import opened Individuals
  import opened Recombination

  /** `g` with the entries at `p1` and `p2` exchanged. */
  function Swapped(g: seq<Gene>, p1: nat, p2: nat): seq<Gene>
    requires p1 < |g| && p2 < |g|
  {
    g[p1 := g[p2]][p2 := g[p1]]
  }

  /** A swap keeps the length and the multiset of genes and touches no other position. */
  lemma SwapIsPermutation(g: seq<Gene>, p1: nat, p2: nat)
    requires p1 < |g| && p2 < |g| && p1 != p2
    ensures |Swapped(g, p1, p2)| == |g|
    ensures Swapped(g, p1, p2)[p1] == g[p2] && Swapped(g, p1, p2)[p2] == g[p1]
    ensures forall i :: 0 <= i < |g| && i != p1 && i != p2 ==> Swapped(g, p1, p2)[i] == g[i]
    ensures multiset(Swapped(g, p1, p2)) == multiset(g)
  {
    SwapMultiset(g, p1, p2);
  }

  /** Exchanging two genes keeps the multiset of genes. */
  lemma SwapMultiset(g: seq<Gene>, p1: nat, p2: nat)
    requires p1 < |g| && p2 < |g| && p1 != p2
    ensures multiset(Swapped(g, p1, p2)) == multiset(g)
  {
    var a, b := g[p1], g[p2];
    var h := g[p1 := b];
    var m := multiset(g);
    assert multiset(h) == m - multiset{a} + multiset{b};
    assert h[p2] == b;
    assert multiset(h[p2 := a]) == multiset(h) - multiset{b} + multiset{a};
    forall v
      ensures (m - multiset{a} + multiset{b} - multiset{b} + multiset{a})[v] == m[v]
    {
      assert a in m;
    }
  }

  /**
   * `mutate(x)`: when `draw <= probMutation` and the genotype has more than
   * one gene, the first position comes from `picks[0]` and the second is
   * re-drawn from the later picks until it differs; the two genes are
   * exchanged and the individual is marked unevaluated.  Otherwise nothing
   * changes.
   */
  method Mutate(x: Individual, draw: real, picks: seq<real>) returns (r: Individual, p1: int, p2: int)
    requires UnitDraws(picks)
    requires draw <= x.probMutation && |x.genotype| > 1 ==>
      |picks| >= 1 && HasDistinctDraw(Scale(picks[0], |x.genotype|), picks[1..], |x.genotype|)
    ensures !(draw <= x.probMutation && |x.genotype| > 1) ==> r == x
    ensures draw <= x.probMutation && |x.genotype| > 1 ==>
      0 <= p1 < |x.genotype| && 0 <= p2 < |x.genotype| && p1 != p2 &&
      r == x.(genotype := Swapped(x.genotype, p1, p2), evaluated := false)
  {
    r, p1, p2 := x, 0, 0;
    if draw <= x.probMutation && |x.genotype| > 1 {
      var n := |x.genotype|;
      p1 := Scale(picks[0], n);
      ScaleRange(picks[0], n);
      var used;
      p2, used := DrawDistinct(p1, picks[1..], n);
      ScaleRange(picks[1..][used], n);
      var v1, v2 := x.genotype[p1], x.genotype[p2];
      r := x.(genotype := x.genotype[p1 := v2]);
      r := r.(genotype := r.genotype[p2 := v1]);
      r := r.(evaluated := false);
    }
  }
}
