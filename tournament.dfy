/** Deb's binary tournament for NSGA-II: lower rank wins, then larger crowding. */
module Tournament {
  import opened Maybe
  import opened Individuals
  import opened Recombination

  /** The winner of a match: the lower Pareto rank, and at equal rank `c1` only when its crowding is strictly greater. */
  function Winner(c1: Individual, c2: Individual): (w: Individual)
    ensures w == c1 || w == c2
    ensures w.paretoRank <= c1.paretoRank && w.paretoRank <= c2.paretoRank
    ensures c1.paretoRank == c2.paretoRank ==>
      (w == c1 <== CrowdingGreater(c1.crowding, c2.crowding)) &&
      !CrowdingGreater(c1.crowding, w.crowding) && !CrowdingGreater(c2.crowding, w.crowding)
  {
    if c1.paretoRank < c2.paretoRank then c1
    else if c2.paretoRank < c1.paretoRank then c2
    else if CrowdingGreater(c1.crowding, c2.crowding) then c1
    else c2
  }

  /** Crowding comparison is a strict order: irreflexive, asymmetric and transitive. */
  lemma CrowdingGreaterIsStrictOrder(a: Crowding, b: Crowding, c: Crowding)
    ensures !CrowdingGreater(a, a)
    ensures CrowdingGreater(a, b) ==> !CrowdingGreater(b, a)
    ensures CrowdingGreater(a, b) && CrowdingGreater(b, c) ==> CrowdingGreater(a, c)
  {
  }

  /** A candidate that beats the other on rank wins whichever side it is drawn on. */
  lemma WinnerByRankIsSymmetric(c1: Individual, c2: Individual)
    requires c1.paretoRank != c2.paretoRank
    ensures Winner(c1, c2) == Winner(c2, c1)
  {
  }

  /**
   * `select(pop)`: the first candidate's index comes from `draws[0]`; in a
   * population of more than one the second is re-drawn from the later
   * draws until it is another individual; in a population of one both
   * candidates are that individual.  An empty population makes the first
   * draw throw: `None`.
   */
  method Select(pop: seq<Individual>, draws: seq<real>) returns (selected: Option<Individual>, i1: nat, i2: nat)
    requires UnitDraws(draws) && |draws| >= 1
    requires |pop| > 1 ==> HasDistinctDraw(Scale(draws[0], |pop|), draws[1..], |pop|)
    ensures |pop| == 0 <==> selected.None?
    ensures |pop| > 0 ==>
      (i1 < |pop| && i2 < |pop| && i1 == Scale(draws[0], |pop|) && selected == Some(Winner(pop[i1], pop[i2])))
    ensures |pop| == 1 ==> i1 == i2 == 0
    ensures |pop| > 1 ==> i1 != i2
  {
    selected, i1, i2 := None, 0, 0;
    if |pop| == 0 {
      return;
    }
    ScaleRange(draws[0], |pop|);
    i1 := Scale(draws[0], |pop|);
    if |pop| <= 1 {
      i2 := i1;
    } else {
      var second, used := DrawDistinct(i1, draws[1..], |pop|);
      ScaleRange(draws[1..][used], |pop|);
      i2 := second;
    }
    selected := Some(Winner(pop[i1], pop[i2]));
  }
}
