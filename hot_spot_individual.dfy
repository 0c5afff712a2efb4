/**
 * The hot-spot individual: a genetic-algorithm individual that also keeps,
 * per genotype position, a count of crossover events there ("hot spots").
 */
module HotSpots {
  import opened Individuals

  /** The sum of the first `n` entries of `s`. */
  function Prefix(s: seq<int>, n: nat): int
    requires n <= |s|
  {
    if n == 0 then 0 else Prefix(s, n - 1) + s[n - 1]
  }

  /** The running sum through index `k`: the first `k + 1` entries. */
  function RunningSum(s: seq<int>, k: nat): int
    requires k < |s|
  {
    Prefix(s, k + 1)
  }

  /** Java's `int` division: the quotient truncated toward zero. */
  function JavaDiv(a: int, b: int): (q: int)
    requires b != 0
    ensures a >= 0 && b > 0 ==> q == a / b
  {
    var m := (if a < 0 then -a else a) / (if b < 0 then -b else b);
    if (a < 0) == (b < 0) then m else -m
  }

  /** The entry `softReset` stores: the scaled count, kept on the far side of `initialValue`. */
  function SoftResetValue(h: int, factor: int, initialValue: int): int
    requires factor != 0
  {
    var q := JavaDiv(h, factor);
    if initialValue >= 0 then (if q > initialValue then q else initialValue)
    else (if q < initialValue then q else initialValue)
  }

  class HotSpotIndividual {
    /** The genetic-algorithm individual this extends. */
    var individual: Individual
    var hotSpots: array<int>
    var initialValue: int
    var maxNumChunks: int

    /** `new HotSpotIndividual(initialValue, maxNumChunks)`: the hot-spot array has the (empty) genotype's size. */
    constructor (base: Individual, initialValue: int, maxNumChunks: int)
      requires base.genotype == []
      ensures individual == base && hotSpots.Length == 0
      ensures this.initialValue == initialValue && this.maxNumChunks == maxNumChunks
      ensures fresh(hotSpots)
    {
      individual := base;
      hotSpots := new int[0];
      this.initialValue := initialValue;
      this.maxNumChunks := maxNumChunks;
    }

    /** The number of genotype positions. */
    function GenotypeSize(): nat
      reads this
    {
      |individual.genotype|
    }

    /** The hot spots over the genotype, as read by the total. */
    function Total(): int
      reads this, hotSpots
      requires GenotypeSize() <= hotSpots.Length
    {
      Prefix(hotSpots[..], GenotypeSize())
    }

    /** `getTotalHotSpotPoints()`: the sum of the hot spots over the genotype's positions. */
    method TotalHotSpotPoints() returns (points: int)
      requires GenotypeSize() <= hotSpots.Length
      ensures points == Total()
    {
      points := 0;
      var i := 0;
      while i < GenotypeSize()
        invariant 0 <= i <= GenotypeSize()
        invariant points == Prefix(hotSpots[..], i)
      {
        points := points + hotSpots[i];
        i := i + 1;
      }
    }

    /**
     * `getHotSpotIndexFromPoints(p)`: the least index whose running sum of
     * hot spots exceeds `p`.  The scan reads past the array unless some
     * running sum exceeds `p`.
     */
    method HotSpotIndexFromPoints(p: int) returns (index: nat)
      requires exists k :: 0 <= k < hotSpots.Length && RunningSum(hotSpots[..], k) > p
      ensures index < hotSpots.Length
      ensures RunningSum(hotSpots[..], index) > p
      ensures forall k :: 0 <= k < index ==> RunningSum(hotSpots[..], k) <= p
    {
      index := 0;
      var points := hotSpots[0];
      assert RunningSum(hotSpots[..], 0) == Prefix(hotSpots[..], 0) + hotSpots[0];
      while points <= p
        invariant 0 <= index < hotSpots.Length
        invariant points == RunningSum(hotSpots[..], index)
        invariant forall k :: 0 <= k < index ==> RunningSum(hotSpots[..], k) <= p
        decreases hotSpots.Length - index
      {
        if index + 1 == hotSpots.Length {
          assert false;
        }
        index := index + 1;
        points := points + hotSpots[index];
      }
    }

    /**
     * `initialize()`: initializes the genotype (one draw per gene), then
     * allocates one hot spot per genotype position, each `initialValue`.
     */
    method Initialize(draws: seq<Gene>)
      requires |draws| == individual.genomeSize
      modifies this
      ensures individual == old(individual).(genotype := draws)
      ensures fresh(hotSpots) && hotSpots.Length == |draws|
      ensures forall i :: 0 <= i < hotSpots.Length ==> hotSpots[i] == initialValue
      ensures initialValue == old(initialValue) && maxNumChunks == old(maxNumChunks)
    {
      individual := individual.(genotype := draws);
      var spots := new int[|draws|];
      var i := 0;
      while i < |draws|
        modifies spots
        invariant 0 <= i <= |draws|
        invariant forall j :: 0 <= j < i ==> spots[j] == initialValue
      {
        spots[i] := initialValue;
        i := i + 1;
      }
      hotSpots := spots;
    }

    /** `addCrossoverEvent(l1, l2)`: one more event at each location. */
    method AddCrossoverEvent(location1: nat, location2: nat)
      requires location1 < hotSpots.Length && location2 < hotSpots.Length
      modifies hotSpots
      ensures location1 != location2 ==>
        hotSpots[location1] == old(hotSpots[location1]) + 1 && hotSpots[location2] == old(hotSpots[location2]) + 1
      ensures location1 == location2 ==> hotSpots[location1] == old(hotSpots[location1]) + 2
      ensures forall i :: 0 <= i < hotSpots.Length && i != location1 && i != location2 ==> hotSpots[i] == old(hotSpots[i])
      ensures GenotypeSize() <= hotSpots.Length && location1 < GenotypeSize() && location2 < GenotypeSize() ==>
        Total() == old(Total()) + 2
    {
      ghost var before := hotSpots[..];
      hotSpots[location1] := hotSpots[location1] + 1;
      hotSpots[location2] := hotSpots[location2] + 1;
      if GenotypeSize() <= hotSpots.Length && location1 < GenotypeSize() && location2 < GenotypeSize() {
        PrefixAfterEvents(before, hotSpots[..], GenotypeSize(), location1, location2);
      }
    }

    /**
     * `softReset(factor)`: each hot spot over the genotype becomes its
     * count divided by `factor`, but no smaller than a non-negative
     * `initialValue` (no larger than a negative one).
     */
    method SoftReset(factor: int)
      requires GenotypeSize() <= hotSpots.Length
      requires GenotypeSize() > 0 ==> factor != 0
      modifies hotSpots
      ensures forall i :: 0 <= i < GenotypeSize() ==>
        factor != 0 && hotSpots[i] == SoftResetValue(old(hotSpots[i]), factor, initialValue)
      ensures forall i :: GenotypeSize() <= i < hotSpots.Length ==> hotSpots[i] == old(hotSpots[i])
    {
      var i := 0;
      while i < GenotypeSize()
        invariant 0 <= i <= GenotypeSize()
        invariant forall j :: 0 <= j < i ==> hotSpots[j] == SoftResetValue(old(hotSpots[j]), factor, initialValue)
        invariant forall j :: i <= j < hotSpots.Length ==> hotSpots[j] == old(hotSpots[j])
      {
        hotSpots[i] := SoftResetValue(hotSpots[i], factor, initialValue);
        i := i + 1;
      }
    }

    /**
     * `hardReset()`: the loop assigns each unboxed entry to its loop
     * variable only, so the array is left as it was.
     */
    method HardReset()
      ensures hotSpots[..] == old(hotSpots[..])
    {
      var i := 0;
      while i < hotSpots.Length
        invariant 0 <= i <= hotSpots.Length
      {
        var entry := hotSpots[i];
        entry := initialValue;
        i := i + 1;
      }
    }

    /** `clone()`: a cloned individual with a fresh id and its own copy of the hot spots. */
    method Clone(ids: IdSource) returns (c: HotSpotIndividual)
      modifies ids
      ensures fresh(c) && fresh(c.hotSpots)
      ensures ids.lastId == old(ids.lastId) + 1
      ensures c.individual == individual.(id := ids.lastId)
      ensures c.hotSpots[..] == hotSpots[..]
      ensures c.initialValue == initialValue && c.maxNumChunks == maxNumChunks
    {
      var id := ids.Next();
      var spots := new int[hotSpots.Length];
      forall i | 0 <= i < hotSpots.Length {
        spots[i] := hotSpots[i];
      }
      c := new HotSpotIndividual.FromParts(individual.(id := id), spots, initialValue, maxNumChunks);
    }

    constructor FromParts(individual: Individual, hotSpots: array<int>, initialValue: int, maxNumChunks: int)
      ensures this.individual == individual && this.hotSpots == hotSpots
      ensures this.initialValue == initialValue && this.maxNumChunks == maxNumChunks
    {
      this.individual := individual;
      this.hotSpots := hotSpots;
      this.initialValue := initialValue;
      this.maxNumChunks := maxNumChunks;
    }

    /**
     * `deepCopy(obj)`: the individual's attributes as `deepCopy` copies
     * them, and the hot-spot array itself, shared rather than copied.
     */
    method DeepCopyFrom(ids: IdSource, obj: HotSpotIndividual)
      requires |individual.fitness| <= |obj.individual.fitness|
      modifies this, ids
      ensures ids.lastId == old(ids.lastId) + 1
      ensures individual == DeepCopied(old(individual), old(obj.individual), ids.lastId)
      ensures hotSpots == old(obj.hotSpots)
      ensures initialValue == old(obj.initialValue) && maxNumChunks == old(obj.maxNumChunks)
    {
      var src, spots, iv, chunks := obj.individual, obj.hotSpots, obj.initialValue, obj.maxNumChunks;
      individual := DeepCopy(ids, individual, src);
      initialValue, maxNumChunks := iv, chunks;
      hotSpots := spots;
    }
  }

  /** Two events raise the total by exactly two. */
  lemma {:induction false} PrefixAfterEvents(s: seq<int>, t: seq<int>, n: nat, l1: nat, l2: nat)
    requires |s| == |t| && n <= |s| && l1 < n && l2 < n
    requires l1 != l2 ==> t[l1] == s[l1] + 1 && t[l2] == s[l2] + 1
    requires l1 == l2 ==> t[l1] == s[l1] + 2
    requires forall i :: 0 <= i < |s| && i != l1 && i != l2 ==> t[i] == s[i]
    ensures Prefix(t, n) == Prefix(s, n) + 2
  {
    PrefixDifference(s, t, n, l1, l2);
  }

  lemma {:induction false} PrefixDifference(s: seq<int>, t: seq<int>, n: nat, l1: nat, l2: nat)
    requires |s| == |t| && n <= |s| && l1 < |s| && l2 < |s|
    requires l1 != l2 ==> t[l1] == s[l1] + 1 && t[l2] == s[l2] + 1
    requires l1 == l2 ==> t[l1] == s[l1] + 2
    requires forall i :: 0 <= i < |s| && i != l1 && i != l2 ==> t[i] == s[i]
    ensures Prefix(t, n) == Prefix(s, n) + (if l1 < n then 1 else 0) + (if l2 < n then 1 else 0)
  {
    if n > 0 {
      PrefixDifference(s, t, n - 1, l1, l2);
    }
  }

  /** When the total exceeds `p`, some running sum exceeds it, so the index lookup stays in bounds. */
  lemma LookupInBounds(s: seq<int>, n: nat, p: int)
    requires 1 <= n <= |s| && p < Prefix(s, n)
    ensures exists k :: 0 <= k < |s| && RunningSum(s, k) > p
  {
    assert RunningSum(s, n - 1) > p;
  }

  /** A non-negative `initialValue` is a floor for every reset entry, a negative one a ceiling. */
  lemma SoftResetBound(h: int, factor: int, initialValue: int)
    requires factor != 0
    ensures initialValue >= 0 ==> SoftResetValue(h, factor, initialValue) >= initialValue
    ensures initialValue < 0 ==> SoftResetValue(h, factor, initialValue) <= initialValue
  {
  }
}
