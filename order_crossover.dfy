/**
 * Davis's order crossover (OX).  Each child keeps one parent's middle
 * segment in place and fills the rest, starting after the second
 * crossover point, with the other parent's genes in their order from that
 * point on, skipping the genes already in the middle.  For parents that
 * are permutations of one set of values the children are permutations of
 * that set too.
 */
module OrderCrossover {
  import opened Maybe
  import opened Individuals
  import opened Recombination

  /** `list.remove(v)`: removes the first occurrence of `v`, if any. */
  function RemoveFirst(s: seq<Gene>, v: Gene): seq<Gene>
  {
    if s == [] then []
    else if s[0] == v then s[1..]
    else [s[0]] + RemoveFirst(s[1..], v)
  }

  lemma {:induction false} RemoveFirstMultiset(s: seq<Gene>, v: Gene)
    ensures multiset(RemoveFirst(s, v)) == multiset(s) - multiset{v}
  {
    if s != [] {
      assert s == [s[0]] + s[1..];
      if s[0] != v {
        RemoveFirstMultiset(s[1..], v);
      }
    }
  }

  lemma {:induction false} RemoveFirstLength(s: seq<Gene>, v: Gene)
    ensures |RemoveFirst(s, v)| == if v in s then |s| - 1 else |s|
  {
    if s != [] {
      assert v in s <==> s[0] == v || v in s[1..];
      if s[0] != v {
        RemoveFirstLength(s[1..], v);
      }
    }
  }

  /** Removing a value takes exactly one copy of it out, when there is one. */
  lemma RemoveFirstRemovesOne(s: seq<Gene>, v: Gene)
    ensures multiset(RemoveFirst(s, v)) == multiset(s) - multiset{v}
    ensures |RemoveFirst(s, v)| == if v in s then |s| - 1 else |s|
  {
    RemoveFirstMultiset(s, v);
    RemoveFirstLength(s, v);
  }

  /** Removes the first occurrence of each of `vals`, in order. */
  function RemoveEach(s: seq<Gene>, vals: seq<Gene>): seq<Gene>
  {
    if vals == [] then s
    else RemoveFirst(RemoveEach(s, vals[..|vals| - 1]), vals[|vals| - 1])
  }

  /** Removing a sequence of values takes out their multiset. */
  lemma {:induction false} RemoveEachRemovesAll(s: seq<Gene>, vals: seq<Gene>)
    ensures multiset(RemoveEach(s, vals)) == multiset(s) - multiset(vals)
  {
    if vals != [] {
      var init := vals[..|vals| - 1];
      assert vals == init + [vals[|vals| - 1]];
      RemoveEachRemovesAll(s, init);
      RemoveFirstRemovesOne(RemoveEach(s, init), vals[|vals| - 1]);
    }
  }

  /** `for (E val : vals) sequence.remove(val);` */
  method RemoveValues(s: seq<Gene>, vals: seq<Gene>) returns (r: seq<Gene>)
    ensures r == RemoveEach(s, vals)
  {
    r := s;
    var k := 0;
    while k < |vals|
      invariant 0 <= k <= |vals|
      invariant r == RemoveEach(s, vals[..k])
    {
      assert vals[..k + 1][..k] == vals[..k];
      assert RemoveEach(s, vals[..k + 1]) == RemoveFirst(RemoveEach(s, vals[..k]), vals[k]);
      r := RemoveFirst(r, vals[k]);
      k := k + 1;
    }
    assert vals[..k] == vals;
  }

  /** `for (i < n) taken.add(sequence.remove(0));` */
  method PopFront(s: seq<Gene>, n: nat) returns (taken: seq<Gene>, rest: seq<Gene>)
    requires n <= |s|
    ensures taken == s[..n] && rest == s[n..]
  {
    taken, rest := [], s;
    var i := 0;
    while i < n
      invariant 0 <= i <= n
      invariant taken == s[..i] && rest == s[i..]
    {
      taken, rest := taken + [rest[0]], rest[1..];
      i := i + 1;
    }
  }

  /**
   * The donor's genes from after the second point, wrapping round, with
   * the other parent's middle genes removed (`p2_sequence` / `p1_sequence`).
   */
  function Remainder(donor: seq<Gene>, other: seq<Gene>, x1: int, x2: int): seq<Gene>
    requires x1 <= x2
  {
    RemoveEach(Tail(donor, x2) + Head(donor, x1) + Middle(donor, x1, x2), Middle(other, x1, x2))
  }

  /**
   * A child: the remainder after its first `tailLength` genes, then the
   * other parent's middle, then those first `tailLength` genes.
   */
  function Child(donor: seq<Gene>, other: seq<Gene>, x1: int, x2: int, tailLength: nat): seq<Gene>
    requires x1 <= x2 && tailLength <= |Remainder(donor, other, x1, x2)|
  {
    var rest := Remainder(donor, other, x1, x2);
    rest[tailLength..] + Middle(other, x1, x2) + rest[..tailLength]
  }

  /** No value occurs twice. */
  ghost predicate NoRepeats(s: seq<Gene>)
  {
    forall v :: multiset(s)[v] <= 1
  }

  /**
   * The remainder holds the donor's genes less the other parent's middle,
   * provided that middle is part of the donor's genes.
   */
  lemma RemainderMultiset(donor: seq<Gene>, other: seq<Gene>, x1: int, x2: int)
    requires x1 <= x2 && multiset(donor) == multiset(other)
    ensures multiset(Remainder(donor, other, x1, x2)) + multiset(Middle(other, x1, x2)) == multiset(donor)
  {
    var mid := Middle(other, x1, x2);
    var order := Tail(donor, x2) + Head(donor, x1) + Middle(donor, x1, x2);
    HeadMiddleTail(donor, x1, x2);
    assert multiset(order) == multiset(donor);
    HeadMiddleTail(other, x1, x2);
    assert multiset(mid) <= multiset(other);
    RemoveEachRemovesAll(order, mid);
  }

  /**
   * For parents of equal length that are permutations of each other, the
   * remainder and the middle together have the parents' length (the
   * source's assertion), the child is a permutation of the donor, its
   * other parent's middle sits at the middle positions, and a parent
   * without repeats gives a child without repeats.
   */
  lemma ChildIsPermutation(donor: seq<Gene>, other: seq<Gene>, x1: int, x2: int)
    requires x1 <= x2 && |donor| == |other| && multiset(donor) == multiset(other)
    ensures |Remainder(donor, other, x1, x2)| + |Middle(other, x1, x2)| == |donor|
    ensures |Tail(other, x2)| <= |Remainder(donor, other, x1, x2)|
    ensures multiset(Child(donor, other, x1, x2, |Tail(other, x2)|)) == multiset(donor)
    ensures |Child(donor, other, x1, x2, |Tail(other, x2)|)| == |donor|
    ensures Child(donor, other, x1, x2, |Tail(other, x2)|)[|Head(other, x1)|..|Head(other, x1)| + |Middle(other, x1, x2)|]
      == Middle(other, x1, x2)
    ensures NoRepeats(donor) ==> NoRepeats(Child(donor, other, x1, x2, |Tail(other, x2)|))
  {
    var mid := Middle(other, x1, x2);
    var rest := Remainder(donor, other, x1, x2);
    RemainderMultiset(donor, other, x1, x2);
    assert |multiset(rest)| + |multiset(mid)| == |multiset(donor)|;
    HeadMiddleTail(other, x1, x2);
    var t := |Tail(other, x2)|;
    var child := rest[t..] + mid + rest[..t];
    assert rest == rest[..t] + rest[t..];
    assert multiset(child) == multiset(rest) + multiset(mid);
  }

  /**
   * One child's fill: the donor's genes from after the second point with
   * the other parent's middle removed; the first `t` of them become the
   * tail and the rest the head.  Too few of them (`remove(0)` on an empty
   * list) fails.
   */
  method FillChild(donor: seq<Gene>, other: seq<Gene>, x1: int, x2: int,
                   head: seq<Gene>, middle: seq<Gene>, tail: seq<Gene>, otherMiddle: seq<Gene>, t: nat)
    returns (ok: bool, genes: seq<Gene>)
    requires x1 <= x2
    requires head == Head(donor, x1) && middle == Middle(donor, x1, x2) && tail == Tail(donor, x2)
    requires otherMiddle == Middle(other, x1, x2)
    ensures ok <==> t <= |Remainder(donor, other, x1, x2)|
    ensures ok ==> genes == Child(donor, other, x1, x2, t)
  {
    var sequence := RemoveValues(tail + head + middle, otherMiddle);
    if |sequence| < t {
      ok, genes := false, [];
      return;
    }
    var childTail, childHead := PopFront(sequence, t);
    ok, genes := true, childHead + otherMiddle + childTail;
  }

  /**
   * `recombine(parent1, parent2, child1, child2)` with parent1 as dad and
   * parent2 as mom.  A genotype of at most one gene is only copied.  The
   * two points come from mom's genotype size.  The boy keeps dad's middle
   * and takes the rest in mom's order; the girl keeps mom's middle and
   * takes the rest in dad's order; both tails have the length of dad's
   * tail.  A missing girl, or a remainder shorter than that tail
   * (`remove(0)` on an empty list), throws: `ok == false`.
   */
  method Recombine(ids: IdSource, parent1: Individual, parent2: Individual,
                   child1: Individual, child2: Option<Individual>, draw: real, cuts: seq<real>)
    returns (ok: bool, boy: Individual, girl: Option<Individual>)
    requires CopyableChildren(parent1, parent2, child1, child2)
    requires !(draw > parent2.probRecombination || |parent1.genotype| <= 1) ==>
      |cuts| >= 1 && HasDistinctDraw(CutPoint(cuts[0], |parent2.genotype|), cuts[1..], |parent2.genotype| - 1)
    modifies ids
    ensures draw > parent2.probRecombination || |parent1.genotype| <= 1 ==>
      ok && boy == DeepCopied(child1, parent1, old(ids.lastId) + 1) &&
      girl.Some? == child2.Some? &&
      (child2.Some? ==> girl.value == DeepCopied(child2.value, parent2, old(ids.lastId) + 2))
    ensures !(draw > parent2.probRecombination || |parent1.genotype| <= 1) ==>
      ids.lastId == old(ids.lastId) &&
      var a, b := CutPoint(cuts[0], |parent2.genotype|), SecondCut(cuts, |parent2.genotype|);
      var x1, x2 := if a < b then a else b, if a < b then b else a;
      var dad, mom := parent1.genotype, parent2.genotype;
      var t := |Tail(dad, x2)|;
      (ok <==> child2.Some? && t <= |Remainder(mom, dad, x1, x2)| && t <= |Remainder(dad, mom, x1, x2)|) &&
      (ok ==>
        boy == child1.(genotype := Child(mom, dad, x1, x2, t), evaluated := false) &&
        girl == Some(child2.value.(genotype := Child(dad, mom, x1, x2, t), evaluated := false)))
  {
    if draw > parent2.probRecombination || |parent1.genotype| <= 1 {
      ok := true;
      boy, girl := CopyParents(ids, parent1, parent2, child1, child2);
      return;
    }
    var dad, mom := parent1.genotype, parent2.genotype;
    var x1, x2 := ChooseCuts(cuts, |mom|);
    boy, girl := child1.(genotype := []), None;
    if child2.None? {
      ok := false;
      return;
    }
    var momHead, momMiddle, momTail := SplitAt2(mom, x1, x2);
    var dadHead, dadMiddle, dadTail := SplitAt2(dad, x1, x2);
    var boyOk, boyGenes := FillChild(mom, dad, x1, x2, momHead, momMiddle, momTail, dadMiddle, |dadTail|);
    if !boyOk {
      ok := false;
      return;
    }
    var girlOk, girlGenes := FillChild(dad, mom, x1, x2, dadHead, dadMiddle, dadTail, momMiddle, |dadTail|);
    if !girlOk {
      ok := false;
      return;
    }
    boy := boy.(genotype := boyGenes, evaluated := false);
    girl := Some(child2.value.(genotype := girlGenes, evaluated := false));
    ok := true;
  }

  /**
   * `recombine` with a genome of fewer than three genes, rather than of at
   * most one, copied like a declined crossover, so that two distinct
   * crossover points always exist (see `RedrawCanEnd`).
   */
  method GuardedRecombine(ids: IdSource, parent1: Individual, parent2: Individual,
                          child1: Individual, child2: Option<Individual>, draw: real, cuts: seq<real>)
    returns (ok: bool, boy: Individual, girl: Option<Individual>)
    requires CopyableChildren(parent1, parent2, child1, child2)
    requires !(draw > parent2.probRecombination || |parent1.genotype| < 3 || |parent2.genotype| < 3) ==>
      |cuts| >= 1 && HasDistinctDraw(CutPoint(cuts[0], |parent2.genotype|), cuts[1..], |parent2.genotype| - 1)
    modifies ids
    ensures draw > parent2.probRecombination || |parent1.genotype| < 3 || |parent2.genotype| < 3 ==>
      ok && boy == DeepCopied(child1, parent1, old(ids.lastId) + 1) &&
      girl.Some? == child2.Some? &&
      (child2.Some? ==> girl.value == DeepCopied(child2.value, parent2, old(ids.lastId) + 2))
    ensures !(draw > parent2.probRecombination || |parent1.genotype| < 3 || |parent2.genotype| < 3) ==>
      ids.lastId == old(ids.lastId) &&
      var a, b := CutPoint(cuts[0], |parent2.genotype|), SecondCut(cuts, |parent2.genotype|);
      var x1, x2 := if a < b then a else b, if a < b then b else a;
      var dad, mom := parent1.genotype, parent2.genotype;
      var t := |Tail(dad, x2)|;
      (ok <==> child2.Some? && t <= |Remainder(mom, dad, x1, x2)| && t <= |Remainder(dad, mom, x1, x2)|) &&
      (ok ==>
        boy == child1.(genotype := Child(mom, dad, x1, x2, t), evaluated := false) &&
        girl == Some(child2.value.(genotype := Child(dad, mom, x1, x2, t), evaluated := false)))
  {
    if draw > parent2.probRecombination || |parent1.genotype| < 3 || |parent2.genotype| < 3 {
      ok := true;
      boy, girl := CopyParents(ids, parent1, parent2, child1, child2);
      return;
    }
    ok, boy, girl := Recombine(ids, parent1, parent2, child1, child2, draw, cuts);
  }
}
