/**
 * What the genotype crossovers and the swap mutator share: turning a
 * uniform draw into an index, re-drawing until two indices differ,
 * cutting a genotype at crossover points, and the "no recombination"
 * branch that deep-copies the parents into the children.
 */
module Recombination {
  import opened Maybe
  import opened Individuals

  /** A value `MersenneTwisterFast.nextDouble()` can return. */
  predicate UnitDraw(r: real)
  {
    0.0 <= r < 1.0
  }

  predicate UnitDraws(rs: seq<real>)
  {
    forall k :: 0 <= k < |rs| ==> UnitDraw(rs[k])
  }

  /** Java's `(int)` cast of a `double`: truncation toward zero. */
  function Truncate(x: real): (r: int)
    ensures 0.0 <= x ==> r as real <= x < r as real + 1.0
    ensures x < 0.0 ==> r as real - 1.0 < x <= r as real
  {
    if x >= 0.0 then x.Floor else -((-x).Floor)
  }

  /** `(int) (r * n)`. */
  function Scale(r: real, n: int): int
  {
    Truncate(r * n as real)
  }

  /** A scaled unit draw lies in `0 .. n-1` when `n >= 1`, and is 0 when `-1 <= n <= 1`. */
  lemma ScaleRange(r: real, n: int)
    requires UnitDraw(r)
    ensures n >= 1 ==> 0 <= Scale(r, n) < n
    ensures -1 <= n <= 1 ==> Scale(r, n) == 0
  {
    if n >= 1 {
      assert r * n as real < n as real;
    } else if n == -1 {
      assert -1.0 < r * n as real <= 0.0;
    }
  }

  /** The crossover point `(int) (r * (size - 1))` used by the splicing crossovers. */
  function CutPoint(r: real, size: int): int
  {
    Scale(r, size - 1)
  }

  /**
   * A genome of at most two genes yields crossover point 0 for every draw,
   * so the loop that re-draws the second point until it differs from the
   * first never ends.
   */
  lemma CutPointOfTinyGenome(r: real, size: nat)
    requires UnitDraw(r) && size <= 2
    ensures CutPoint(r, size) == 0
  {
    ScaleRange(r, size - 1);
  }

  /** Some draw of `draws` scales to an index other than `first`. */
  predicate HasDistinctDraw(first: int, draws: seq<real>, n: int)
  {
    exists k :: 0 <= k < |draws| && Scale(draws[k], n) != first
  }

  /**
   * As written, the re-draw of the second crossover point cannot end on a
   * genome of at most two genes: no sequence of draws holds one whose point
   * differs from the first.
   */
  lemma NoDistinctDrawForTinyGenome(r: real, draws: seq<real>, size: nat)
    requires UnitDraw(r) && UnitDraws(draws) && size <= 2
    ensures !HasDistinctDraw(CutPoint(r, size), draws, size - 1)
  {
    CutPointOfTinyGenome(r, size);
    forall k | 0 <= k < |draws|
      ensures Scale(draws[k], size - 1) == 0
    {
      ScaleRange(draws[k], size - 1);
    }
  }

  /**
   * With the genome of fewer than three genes copied instead, the re-draw
   * can always end: whatever the first point, some unit draw places the
   * second point elsewhere.
   */
  lemma RedrawCanEnd(r: real, size: int) returns (w: real)
    requires UnitDraw(r) && size >= 3
    ensures UnitDraw(w) && HasDistinctDraw(CutPoint(r, size), [w], size - 1)
  {
    ScaleRange(r, size - 1);
    if CutPoint(r, size) == 0 {
      w := 1.0 / (size - 1) as real;
      assert w * (size - 1) as real == 1.0;
    } else {
      w := 0.0;
    }
    assert Scale([w][0], size - 1) != CutPoint(r, size);
  }

  /** The index of the first draw that scales to an index other than `first`. */
  function FirstDistinct(first: int, draws: seq<real>, n: int): (k: nat)
    requires HasDistinctDraw(first, draws, n)
    ensures k < |draws| && Scale(draws[k], n) != first
    ensures forall j :: 0 <= j < k ==> Scale(draws[j], n) == first
    decreases |draws|
  {
    if Scale(draws[0], n) != first then 0
    else
      assert HasDistinctDraw(first, draws[1..], n) by {
        var k :| 0 <= k < |draws| && Scale(draws[k], n) != first;
        assert draws[1..][k - 1] == draws[k];
      }
      var k := FirstDistinct(first, draws[1..], n);
      assert forall j :: 1 <= j <= k ==> draws[j] == draws[1..][j - 1];
      1 + k
  }

  /**
   * `x2 = x1; while (x1 == x2) x2 = (int) (nextDouble() * n);`: consumes
   * draws until one scales to an index other than `first`.
   */
  method DrawDistinct(first: int, draws: seq<real>, n: int) returns (second: int, used: nat)
    requires HasDistinctDraw(first, draws, n)
    ensures used == FirstDistinct(first, draws, n) && second == Scale(draws[used], n)
  {
    second := first;
    used := 0;
    var k := 0;
    while second == first
      invariant 0 <= k <= |draws|
      invariant second == first ==> forall j :: 0 <= j < k ==> Scale(draws[j], n) == first
      invariant second != first ==> 0 < k && used == k - 1 && second == Scale(draws[used], n)
      invariant second != first ==> forall j :: 0 <= j < used ==> Scale(draws[j], n) == first
      decreases |draws| - k, if second == first then 1 else 0
    {
      if k == |draws| {
        assert false;
      }
      second := Scale(draws[k], n);
      used := k;
      k := k + 1;
    }
    var f := FirstDistinct(first, draws, n);
    assert !(f < used) && !(used < f);
  }

  /** The second crossover point: the first later draw whose point differs from the first. */
  function SecondCut(cuts: seq<real>, size: int): int
    requires |cuts| >= 1 && HasDistinctDraw(CutPoint(cuts[0], size), cuts[1..], size - 1)
  {
    Scale(cuts[1..][FirstDistinct(CutPoint(cuts[0], size), cuts[1..], size - 1)], size - 1)
  }

  /**
   * The two crossover points: the first from `cuts[0]`, the second re-drawn
   * from the later draws until it differs, then put in order.
   */
  method ChooseCuts(cuts: seq<real>, size: int) returns (x1: int, x2: int)
    requires |cuts| >= 1 && HasDistinctDraw(CutPoint(cuts[0], size), cuts[1..], size - 1)
    ensures x1 < x2
    ensures {x1, x2} == {CutPoint(cuts[0], size), SecondCut(cuts, size)}
    ensures var a, b := CutPoint(cuts[0], size), SecondCut(cuts, size);
      x1 == (if a < b then a else b) && x2 == (if a < b then b else a)
  {
    x1 := CutPoint(cuts[0], size);
    var used;
    x2, used := DrawDistinct(x1, cuts[1..], size - 1);
    if x2 < x1 {
      x1, x2 := x2, x1;
    }
  }

  /** `min(max(k, 0), n)`: the number of positions `i < n` with `i < k`. */
  function Clip(k: int, n: nat): (r: nat)
    ensures r <= n
  {
    if k < 0 then 0 else if k > n then n else k
  }

  /** The genes at positions `i <= x`. */
  function Head<T>(g: seq<T>, x: int): seq<T>
  {
    g[..Clip(x + 1, |g|)]
  }

  /** The genes at positions `x1 < i <= x2`. */
  function Middle<T>(g: seq<T>, x1: int, x2: int): seq<T>
    requires x1 <= x2
  {
    g[Clip(x1 + 1, |g|)..Clip(x2 + 1, |g|)]
  }

  /** The genes at positions `i > x`. */
  function Tail<T>(g: seq<T>, x: int): seq<T>
  {
    g[Clip(x + 1, |g|)..]
  }

  lemma HeadTail<T>(g: seq<T>, x: int)
    ensures Head(g, x) + Tail(g, x) == g
  {
  }

  /** Splits a genotype at one crossover point, one gene at a time. */
  method SplitAt<T>(g: seq<T>, x: int) returns (head: seq<T>, tail: seq<T>)
    ensures head == Head(g, x) && tail == Tail(g, x)
    ensures head + tail == g
  {
    head, tail := [], [];
    var i := 0;
    while i < |g|
      invariant 0 <= i <= |g|
      invariant head == g[..Clip(x + 1, i)]
      invariant tail == g[Clip(x + 1, i)..i]
    {
      if i <= x {
        head := head + [g[i]];
      } else {
        tail := tail + [g[i]];
      }
      i := i + 1;
    }
    assert g[..i] == g;
  }

  /** Splits a genotype at two ordered crossover points, one gene at a time. */
  method SplitAt2<T>(g: seq<T>, x1: int, x2: int) returns (head: seq<T>, middle: seq<T>, tail: seq<T>)
    requires x1 <= x2
    ensures head == Head(g, x1) && middle == Middle(g, x1, x2) && tail == Tail(g, x2)
    ensures head + middle + tail == g
  {
    head, middle, tail := [], [], [];
    var i := 0;
    while i < |g|
      invariant 0 <= i <= |g|
      invariant head == g[..Clip(x1 + 1, i)]
      invariant middle == g[Clip(x1 + 1, i)..Clip(x2 + 1, i)]
      invariant tail == g[Clip(x2 + 1, i)..i]
    {
      head, middle, tail := SplitStep(g, x1, x2, i, head, middle, tail);
      i := i + 1;
    }
    HeadMiddleTail(g, x1, x2);
  }

  /** A genotype is its head, middle and tail, in that order. */
  lemma HeadMiddleTail<T>(g: seq<T>, x1: int, x2: int)
    requires x1 <= x2
    ensures g == Head(g, x1) + Middle(g, x1, x2) + Tail(g, x2)
  {
  }

  /** One pass of the three-way split: gene `i` joins the head, the middle or the tail. */
  method SplitStep<T>(g: seq<T>, x1: int, x2: int, i: nat, head: seq<T>, middle: seq<T>, tail: seq<T>)
    returns (head': seq<T>, middle': seq<T>, tail': seq<T>)
    requires x1 <= x2 && i < |g|
    requires head == g[..Clip(x1 + 1, i)]
    requires middle == g[Clip(x1 + 1, i)..Clip(x2 + 1, i)]
    requires tail == g[Clip(x2 + 1, i)..i]
    ensures head' == g[..Clip(x1 + 1, i + 1)]
    ensures middle' == g[Clip(x1 + 1, i + 1)..Clip(x2 + 1, i + 1)]
    ensures tail' == g[Clip(x2 + 1, i + 1)..i + 1]
  {
    head', middle', tail' := head, middle, tail;
    if i <= x1 {
      assert Clip(x1 + 1, i) == i && Clip(x1 + 1, i + 1) == i + 1;
      assert Clip(x2 + 1, i) == i && Clip(x2 + 1, i + 1) == i + 1;
      TakeSnoc(g, i);
      head' := head + [g[i]];
    } else if i <= x2 {
      assert Clip(x1 + 1, i) == Clip(x1 + 1, i + 1);
      assert Clip(x2 + 1, i) == i && Clip(x2 + 1, i + 1) == i + 1;
      SliceSnoc(g, Clip(x1 + 1, i), i);
      middle' := middle + [g[i]];
    } else {
      assert Clip(x1 + 1, i) == Clip(x1 + 1, i + 1);
      assert Clip(x2 + 1, i) == Clip(x2 + 1, i + 1);
      SliceSnoc(g, Clip(x2 + 1, i), i);
      tail' := tail + [g[i]];
    }
  }

  /** A prefix one longer gains the next element. */
  lemma TakeSnoc<T>(g: seq<T>, i: int)
    requires 0 <= i < |g|
    ensures g[..i] + [g[i]] == g[..i + 1]
  {
  }

  /** A slice one longer gains the next element. */
  lemma SliceSnoc<T>(g: seq<T>, lo: int, i: int)
    requires 0 <= lo <= i < |g|
    ensures g[lo..i] + [g[i]] == g[lo..i + 1]
  {
  }

  /** The fitness arrays of the children are no longer than their parents', as `deepCopy` needs. */
  predicate CopyableChildren(parent1: Individual, parent2: Individual, child1: Individual, child2: Option<Individual>)
  {
    |child1.fitness| <= |parent1.fitness| &&
    (child2.Some? ==> |child2.value.fitness| <= |parent2.fitness|)
  }

  /** The branch without recombination: each present child deep-copies its parent. */
  method CopyParents(ids: IdSource, parent1: Individual, parent2: Individual, child1: Individual, child2: Option<Individual>)
    returns (boy: Individual, girl: Option<Individual>)
    requires CopyableChildren(parent1, parent2, child1, child2)
    modifies ids
    ensures girl.Some? == child2.Some?
    ensures ids.lastId == old(ids.lastId) + (if child2.Some? then 2 else 1)
    ensures boy == DeepCopied(child1, parent1, old(ids.lastId) + 1)
    ensures child2.Some? ==> girl.value == DeepCopied(child2.value, parent2, old(ids.lastId) + 2)
  {
    boy := DeepCopy(ids, child1, parent1);
    if child2.Some? {
      var g := DeepCopy(ids, child2.value, parent2);
      girl := Some(g);
    } else {
      girl := None;
    }
  }
}
