/**
 * The driver of an evolution: the problems, which own their populations
 * and carry out one phase of a generation at a time, and the stepper,
 * which runs each phase for all of its problems before the next phase,
 * generation after generation.
 */
module Evolution {
  import opened Individuals
  import opened Recombination
  import opened Sorting
  import opened Pareto
  import opened Populations
  import opened Breeders
  import opened Crowding

  // ---------------------------------------------------------------------------
  // Lists of objects, by reference (`ArrayList.contains`, `add`, `remove`)

  /** No object is listed twice. */
  predicate Distinct<T(==)>(s: seq<T>)
  {
    forall i, j :: 0 <= i < j < |s| ==> s[i] != s[j]
  }

  /** `if (!list.contains(x)) list.add(x)`. */
  function WithAdded<T(==)>(s: seq<T>, x: T): seq<T>
  {
    if x in s then s else s + [x]
  }

  /** `list.remove(x)`: the first occurrence of `x` goes, if there is one. */
  function RemovedFirst<T(==)>(s: seq<T>, x: T): (r: seq<T>)
    ensures |r| == if x in s then |s| - 1 else |s|
  {
    if s == [] then []
    else if s[0] == x then s[1..]
    else [s[0]] + RemovedFirst(s[1..], x)
  }

  /** Adding keeps a list free of duplicates; afterwards it holds exactly the old members and `x`. */
  lemma AddedDistinct<T>(s: seq<T>, x: T)
    requires Distinct(s)
    ensures Distinct(WithAdded(s, x))
    ensures forall y :: y in WithAdded(s, x) <==> y in s || y == x
  {
  }

  /** Removing from a list without duplicates leaves one without duplicates that holds every other member but not `x`. */
  lemma {:induction false} RemovedDistinct<T>(s: seq<T>, x: T)
    requires Distinct(s)
    ensures Distinct(RemovedFirst(s, x))
    ensures forall y :: y in RemovedFirst(s, x) <==> y in s && y != x
  {
    if s != [] {
      assert Distinct(s[1..]) by {
        forall i, j | 0 <= i < j < |s[1..]| ensures s[1..][i] != s[1..][j] {
          assert s[1..][i] == s[i + 1] && s[1..][j] == s[j + 1];
        }
      }
      if s[0] != x {
        RemovedDistinct(s[1..], x);
        var r := RemovedFirst(s[1..], x);
        assert s[0] !in s[1..];
        forall i, j | 0 <= i < j < |[s[0]] + r| ensures ([s[0]] + r)[i] != ([s[0]] + r)[j] {
          if i == 0 {
            assert ([s[0]] + r)[j] in r;
          }
        }
      } else {
        assert x !in s[1..];
      }
    }
  }

  // ---------------------------------------------------------------------------
  // Problems

  /**
   * A problem: its populations, population 0 being the current one and
   * population 1 its shadow, the number of initializers it was given, the
   * done flag and the stepper it belongs to.  With `crowding` set it is a
   * `DeterministicCrowdingProblem`, otherwise a `SimpleProblem`; breeder 0
   * of the former is a `DeterministicCrowdingBreeder`, of the latter a
   * `SimpleGenerationalBreeder`.
   */
  class Problem {
    const crowding: bool
    var populations: seq<Population>
    var initializers: nat
    var done: bool
    var stepper: Stepper?

    /** The same population is never listed twice (`addPopulation` checks). */
    predicate Valid()
      reads this
    {
      Distinct(populations)
    }

    constructor (crowding: bool, initializers: nat)
      ensures this.crowding == crowding && this.initializers == initializers
      ensures populations == [] && !done && stepper == null && Valid()
    {
      this.crowding := crowding;
      this.initializers := initializers;
      populations := [];
      done := false;
      stepper := null;
    }

    /** `addPopulation(pop)`: appended unless already listed. */
    method AddPopulation(pop: Population)
      requires Valid()
      modifies this
      ensures populations == WithAdded(old(populations), pop) && Valid()
      ensures pop in populations
      ensures initializers == old(initializers) && done == old(done) && stepper == old(stepper)
    {
      AddedDistinct(populations, pop);
      if pop !in populations {
        populations := populations + [pop];
      }
    }

    /** `removePopulation(pop)`: the population is no longer listed. */
    method RemovePopulation(pop: Population)
      requires Valid()
      modifies this
      ensures populations == RemovedFirst(old(populations), pop) && Valid()
      ensures pop !in populations
      ensures initializers == old(initializers) && done == old(done) && stepper == old(stepper)
    {
      RemovedDistinct(populations, pop);
      populations := RemovedFirst(populations, pop);
    }

    /**
     * `initialize()`: initializer 0 fills population 0, which leaves
     * `initial` there, and a clone of population 0, owned by `shadowTag`,
     * is added as the shadow population.  A `SimpleProblem` does nothing
     * without a population or an initializer; a crowding problem with a
     * population but no initializer throws (`ok == false`).
     */
    method Initialize(ids: IdSource, initial: seq<Individual>, shadowTag: nat) returns (ok: bool)
      requires Valid()
      modifies this, populations, ids
      ensures Valid() && initializers == old(initializers) && done == old(done) && stepper == old(stepper)
      ensures ok <==> !crowding || |old(populations)| == 0 || initializers > 0
      ensures !(|old(populations)| > 0 && initializers > 0) ==>
        populations == old(populations) && ids.lastId == old(ids.lastId)
      ensures |old(populations)| > 0 && initializers > 0 ==>
        var n := |old(populations)|;
        |populations| == n + 1 && populations[..n] == old(populations) &&
        fresh(populations[n]) && populations[n].tag == shadowTag && populations[n].elites == [] &&
        populations[0].individuals == initial &&
        |populations[n].individuals| == |initial| &&
        (forall i :: 0 <= i < |initial| ==>
          populations[n].individuals[i] == initial[i].(id := old(ids.lastId) + 2 + i, owner := InPopulation(shadowTag))) &&
        ids.lastId == old(ids.lastId) + 1 + |initial|
    {
      ok := !crowding || |populations| == 0 || initializers > 0;
      if |populations| > 0 && initializers > 0 {
        var pop := populations[0];
        pop.individuals := initial;
        var shadow := pop.Clone(ids, shadowTag);
        AddPopulation(shadow);
      }
    }

    /**
     * `breed()`: breeder 0 breeds population 1 from population 0, then
     * population 1 moves to the front.  A `SimpleProblem` then gives the
     * new population 0 the elites of the old one.  The crowding breeder
     * shuffles the parents in place before breeding adjacent pairs.
     */
    method Breed(ops: Operators, shuffleDraws: seq<real>, draws: seq<real>)
      requires Valid() && |populations| >= 2
      requires |populations[0].individuals| <= |populations[1].individuals|
      requires UnitDraws(draws) && |draws| >= |populations[0].individuals| + 2
      requires crowding ==> UnitDraws(shuffleDraws) && |shuffleDraws| >= |populations[0].individuals|
      modifies this, populations[0], populations[1]
      ensures Valid() && initializers == old(initializers) && done == old(done) && stepper == old(stepper)
      ensures populations == [old(populations[1]), old(populations[0])] + old(populations[2..])
      ensures !crowding ==> var n := |old(populations[0].individuals)|;
        populations[1].individuals == old(populations[0].individuals) &&
        populations[0].individuals == Bred(ops, Selected, old(populations[0].individuals), old(populations[1].individuals),
                                           0, n, n % 2 != 0, n - 1, draws, populations[0].tag)
      ensures crowding ==> var n := |old(populations[0].individuals)|;
        populations[1].individuals == Shuffled(old(populations[0].individuals), shuffleDraws, n) &&
        populations[0].individuals == Bred(ops, Adjacent, populations[1].individuals, old(populations[1].individuals),
                                           0, n, n % 2 != 0, n - 1, draws, populations[0].tag)
      ensures populations[1].elites == old(populations[0].elites)
      ensures populations[0].elites == if crowding then old(populations[1].elites) else old(populations[0].elites)
      ensures populations[0].Settings() == old(populations[1].Settings())
      ensures populations[1].Settings() == old(populations[0].Settings())
    {
      var parent, child := populations[0], populations[1];
      if crowding {
        BreedCrowding(ops, parent, child, shuffleDraws, draws);
      } else {
        BreedGenerational(ops, parent, child, draws);
      }
      SwapKeepsDistinct(populations);
      populations := [child, parent] + populations[2..];
      if !crowding {
        child.ClearElites();
        child.AddElites(parent.elites);
      }
    }

    /**
     * `SimpleProblem.replaceIndividuals()`: an elitist population 0
     * processes its elites, by fitness value 0 or, when multi-objective,
     * by Pareto rank.
     */
    method ReplaceElitist(ids: IdSource)
      requires !crowding && Valid() && |populations| >= 1
      requires populations[0].elitist ==> 0 <= populations[0].maxElites <= |populations[0].individuals|
      requires populations[0].elitist && populations[0].multiObjective ==>
        SameObjectives(populations[0].individuals + populations[0].elites) &&
        IdsAtMost(populations[0].individuals, ids.lastId) && IdsAtMost(populations[0].elites, ids.lastId)
      modifies populations[0], ids
      ensures populations[0].Settings() == old(populations[0].Settings())
      ensures populations[0].numEvaluated == old(populations[0].numEvaluated) && populations[0].done == old(populations[0].done)
      ensures !old(populations[0].elitist) ==>
        populations[0].individuals == old(populations[0].individuals) &&
        populations[0].elites == old(populations[0].elites) && ids.lastId == old(ids.lastId)
      ensures old(populations[0].elitist) && !populations[0].multiObjective ==>
        var pop, m := populations[0], old(populations[0].maxElites);
        var sorted := SortBy(Merged(old(pop.individuals), old(pop.elites), pop.tag), ByObjective(0));
        |sorted| >= |old(pop.individuals)| && pop.individuals == sorted[..|old(pop.individuals)|] &&
        |pop.elites| == m && forall i :: 0 <= i < m ==> pop.elites[i] == sorted[i].(id := old(ids.lastId) + i + 1)
      ensures old(populations[0].elitist) && populations[0].multiObjective ==>
        var pop, m := populations[0], old(populations[0].maxElites);
        var sorted := ParetoMerged(old(pop.individuals), old(pop.elites), pop.tag);
        var promoted := Promoted(sorted, m, old(ids.lastId), pop.tag);
        pop.elites == AddedAll([], sorted[..m]) &&
        pop.individuals == promoted[..Kept(|promoted|, old(pop.maxPopSize))]
      ensures old(populations[0].elitist) ==> ids.lastId == old(ids.lastId) + old(populations[0].maxElites)
    {
      var pop := populations[0];
      if pop.elitist {
        if pop.multiObjective {
          pop.ProcessParetoElites(ids);
        } else {
          pop.ProcessElites(ids);
        }
      }
    }

    /**
     * `DeterministicCrowdingProblem.replaceIndividuals()`: from the
     * stepper's second generation on, the children in population 0
     * compete with the parents in population 1 (see `CrowdingReplace`).
     */
    method ReplaceCrowding(ids: IdSource)
      requires crowding && Valid() && |populations| >= 2 && stepper != null
      requires CrowdingReady(populations[1].individuals, populations[0].individuals)
      modifies populations[0], ids
      ensures stepper.currentGeneration > 0 ==>
        populations[0].individuals == Crowding.Crowded(populations[1].individuals, old(populations[0].individuals), old(ids.lastId))
      ensures stepper.currentGeneration <= 0 ==>
        populations[0].individuals == old(populations[0].individuals) && ids.lastId == old(ids.lastId)
      ensures populations[0].elites == old(populations[0].elites) && populations[0].Settings() == old(populations[0].Settings())
    {
      var parentPop, childPop := populations[1], populations[0];
      if stepper.currentGeneration > 0 {
        var out := CrowdingReplace(ids, parentPop.individuals, childPop.individuals);
        childPop.individuals := out;
      }
    }

    /**
     * `evaluate()`: population 0 is evaluated, evaluator 0 giving
     * `results`; the problem becomes done when the population reports
     * success, and stays done.
     */
    method Evaluate(results: seq<Evaluation>)
      requires |populations| >= 1 && |results| == |populations[0].individuals|
      modifies this, populations[0]
      ensures populations == old(populations) && initializers == old(initializers) && stepper == old(stepper)
      ensures populations[0].individuals ==
        AfterEvaluation(old(populations[0].individuals), results, old(populations[0].forceEvaluation))
      ensures done <==> old(done) || exists i :: 0 <= i < |populations[0].individuals| && populations[0].individuals[i].success
      ensures populations[0].elites == old(populations[0].elites) && populations[0].Settings() == old(populations[0].Settings())
    {
      var pop := populations[0];
      pop.Evaluate(results);
      if pop.done {
        done := true;
      }
    }
  }

  /** Swapping the first two members keeps a list free of duplicates. */
  lemma SwapKeepsDistinct<T>(s: seq<T>)
    requires Distinct(s) && |s| >= 2
    ensures Distinct([s[1], s[0]] + s[2..])
  {
    var r := [s[1], s[0]] + s[2..];
    forall i, j | 0 <= i < j < |r| ensures r[i] != r[j] {
      var si := if i == 0 then 1 else if i == 1 then 0 else i;
      var sj := if j == 0 then 1 else if j == 1 then 0 else j;
      assert r[i] == s[si] && r[j] == s[sj] && si != sj;
    }
  }

  // ---------------------------------------------------------------------------
  // The stepper: phases, and the calls it makes

  /** The problem methods the stepper calls, in the order `step()` calls them. */
  datatype Phase = Initialize | Preevaluate | Evaluate | Postevaluate | Replace | Statistics | Migrate | Breed

  /** The position of a phase in a generation. */
  function Rank(p: Phase): nat
  {
    match p
    case Initialize => 0
    case Preevaluate => 1
    case Evaluate => 2
    case Postevaluate => 3
    case Replace => 4
    case Statistics => 5
    case Migrate => 6
    case Breed => 7
  }

  /** One call of a problem method: the phase, and the position of the problem in the stepper's list. */
  datatype Call = Call(phase: Phase, problem: nat)

  /** The calls of one phase-long `for (Problem problem : problems)` loop over `n` problems. */
  function PhaseCalls(phase: Phase, n: nat): (r: seq<Call>)
    ensures |r| == n
  {
    seq(n, i requires 0 <= i < n => Call(phase, i))
  }

  /** The calls of one `step()`: migration and breeding are skipped once some problem is done. */
  function StepCalls(n: nat, done: bool): seq<Call>
  {
    PhaseCalls(Preevaluate, n) + PhaseCalls(Evaluate, n) + PhaseCalls(Postevaluate, n) +
    PhaseCalls(Replace, n) + PhaseCalls(Statistics, n) +
    (if done then [] else PhaseCalls(Migrate, n) + PhaseCalls(Breed, n))
  }

  /** `x` comes before `y`: an earlier phase, or the same phase for an earlier problem. */
  predicate Before(x: Call, y: Call)
  {
    Rank(x.phase) < Rank(y.phase) || (x.phase == y.phase && x.problem < y.problem)
  }

  /** Each call comes before every later one. */
  predicate InOrder(c: seq<Call>)
  {
    forall i, j :: 0 <= i < j < |c| ==> Before(c[i], c[j])
  }

  /** The calls of one block per phase of `phases`. */
  function Blocks(phases: seq<Phase>, n: nat): seq<Call>
  {
    if phases == [] then [] else PhaseCalls(phases[0], n) + Blocks(phases[1..], n)
  }

  /** The phases of one step. */
  function StepPhases(done: bool): seq<Phase>
  {
    [Preevaluate, Evaluate, Postevaluate, Replace, Statistics] + (if done then [] else [Migrate, Breed])
  }

  /** The blocks of a phase followed by more phases: that phase's block, then theirs. */
  lemma BlocksCons(p: Phase, ps: seq<Phase>, n: nat)
    ensures Blocks([p] + ps, n) == PhaseCalls(p, n) + Blocks(ps, n)
  {
    assert ([p] + ps)[0] == p && ([p] + ps)[1..] == ps;
  }

  /** A step's calls are its phases' blocks. */
  lemma StepBlocks(n: nat, done: bool)
    ensures StepCalls(n, done) == Blocks(StepPhases(done), n)
  {
    var a, b, c, d, e := PhaseCalls(Preevaluate, n), PhaseCalls(Evaluate, n), PhaseCalls(Postevaluate, n),
                         PhaseCalls(Replace, n), PhaseCalls(Statistics, n);
    var tail: seq<Phase> := if done then [] else [Migrate, Breed];
    var f := if done then [] else PhaseCalls(Migrate, n) + PhaseCalls(Breed, n);
    assert Blocks(tail, n) == f by {
      if !done {
        BlocksCons(Breed, [], n);
        BlocksCons(Migrate, [Breed], n);
        assert [Breed] + [] == [Breed] && [Migrate] + [Breed] == tail;
        assert PhaseCalls(Breed, n) + [] == PhaseCalls(Breed, n);
      }
    }
    var p4 := [Statistics] + tail;
    var p3 := [Replace] + p4;
    var p2 := [Postevaluate] + p3;
    var p1 := [Evaluate] + p2;
    BlocksCons(Statistics, tail, n);
    BlocksCons(Replace, p4, n);
    BlocksCons(Postevaluate, p3, n);
    BlocksCons(Evaluate, p2, n);
    BlocksCons(Preevaluate, p1, n);
    assert StepPhases(done) == [Preevaluate] + p1;
    ConcatAssoc(a, b, c + (d + (e + f)));
    ConcatAssoc(a + b, c, d + (e + f));
    ConcatAssoc(a + b + c, d, e + f);
    ConcatAssoc(a + b + c + d, e, f);
  }

  /** A call is in the blocks exactly when its phase is one of them and its problem is one of the `n`. */
  lemma {:induction false} BlocksMember(phases: seq<Phase>, n: nat, c: Call)
    ensures c in Blocks(phases, n) <==> c.phase in phases && c.problem < n
  {
    if phases != [] {
      BlocksMember(phases[1..], n, c);
      assert c in PhaseCalls(phases[0], n) <==> c.phase == phases[0] && c.problem < n by {
        if c.phase == phases[0] && c.problem < n {
          assert PhaseCalls(phases[0], n)[c.problem] == c;
        }
      }
      assert c.phase in phases <==> c.phase == phases[0] || c.phase in phases[1..];
    }
  }

  /** Blocks of phases in increasing rank are in order. */
  lemma {:induction false} BlocksInOrder(phases: seq<Phase>, n: nat)
    requires forall i, j :: 0 <= i < j < |phases| ==> Rank(phases[i]) < Rank(phases[j])
    ensures InOrder(Blocks(phases, n))
  {
    if phases != [] {
      var head, rest := PhaseCalls(phases[0], n), Blocks(phases[1..], n);
      BlocksInOrder(phases[1..], n);
      var c := head + rest;
      forall i, j | 0 <= i < j < |c| ensures Before(c[i], c[j]) {
        if j >= |head| && i < |head| {
          assert c[j] == rest[j - |head|];
          BlocksMember(phases[1..], n, c[j]);
          var k :| 0 <= k < |phases[1..]| && phases[1..][k] == c[j].phase;
          assert Rank(phases[0]) < Rank(phases[k + 1]);
        } else if j >= |head| {
          assert c[i] == rest[i - |head|] && c[j] == rest[j - |head|];
        }
      }
    }
  }

  /** The phases of a step come in increasing rank: phase `i` of a step has rank `i + 1`. */
  lemma StepPhasesIncrease(done: bool)
    ensures var ps := StepPhases(done);
      forall i, j :: 0 <= i < j < |ps| ==> Rank(ps[i]) < Rank(ps[j])
  {
    var ps := StepPhases(done);
    assert forall i :: 0 <= i < |ps| ==> Rank(ps[i]) == i + 1 by {
      if done {
        assert ps == [Preevaluate, Evaluate, Postevaluate, Replace, Statistics];
      } else {
        assert ps == [Preevaluate, Evaluate, Postevaluate, Replace, Statistics, Migrate, Breed];
      }
    }
  }

  /**
   * Within a step every phase runs for all problems, in list order, before
   * the next phase starts, in the order preevaluate, evaluate,
   * postevaluate, replace, statistics, then migrate and breed.
   */
  lemma StepInOrder(n: nat, done: bool)
    ensures InOrder(StepCalls(n, done))
  {
    StepBlocks(n, done);
    StepPhasesIncrease(done);
    BlocksInOrder(StepPhases(done), n);
  }

  /**
   * Every problem gets every phase of a step but initialization, and
   * migrates and breeds exactly when no problem is done.
   */
  lemma StepMember(n: nat, done: bool, c: Call)
    ensures c in StepCalls(n, done) <==>
      c.problem < n && c.phase != Initialize && (done ==> c.phase != Migrate && c.phase != Breed)
  {
    StepBlocks(n, done);
    BlocksMember(StepPhases(done), n, c);
  }

  /** A step's calls appended one phase at a time. */
  lemma StepTrace(t: seq<Call>, n: nat, done: bool)
    ensures t + StepCalls(n, done) ==
      t + PhaseCalls(Preevaluate, n) + PhaseCalls(Evaluate, n) + PhaseCalls(Postevaluate, n) +
      PhaseCalls(Replace, n) + PhaseCalls(Statistics, n) +
      (if done then [] else PhaseCalls(Migrate, n) + PhaseCalls(Breed, n))
  {
    var a, b, c, d, e := PhaseCalls(Preevaluate, n), PhaseCalls(Evaluate, n), PhaseCalls(Postevaluate, n),
                         PhaseCalls(Replace, n), PhaseCalls(Statistics, n);
    var f := if done then [] else PhaseCalls(Migrate, n) + PhaseCalls(Breed, n);
    assert t + (a + b + c + d + e + f) == t + a + b + c + d + e + f by {
      ConcatAssoc(t, a + b + c + d + e, f);
      ConcatAssoc(t, a + b + c + d, e);
      ConcatAssoc(t, a + b + c, d);
      ConcatAssoc(t, a + b, c);
      ConcatAssoc(t, a, b);
    }
  }

  /** Some problem reports done. */
  predicate Done(reports: seq<bool>)
  {
    true in reports
  }

  /** The number of generations `for (; cur <= max; cur += 1.)` allows. */
  function Generations(cur: int, max: int): (g: nat)
    ensures g == 0 <==> max < cur
  {
    if cur <= max then max - cur + 1 else 0
  }

  /** The number of steps among the first `k` before the first in which some problem is done. */
  function FirstDone(reports: seq<seq<bool>>, k: nat): (s: nat)
    requires k <= |reports|
    ensures s <= k
    ensures forall i :: 0 <= i < s ==> !Done(reports[i])
    ensures s < k ==> Done(reports[s])
  {
    if k == 0 then 0
    else
      var s := FirstDone(reports, k - 1);
      if s < k - 1 || Done(reports[k - 1]) then s else k
  }

  /** The calls of `s` steps in which no problem is done. */
  function Repeated(n: nat, s: nat): seq<Call>
  {
    if s == 0 then [] else Repeated(n, s - 1) + StepCalls(n, false)
  }

  /** The step after `k` steps not done either ends the run there or extends the run by one. */
  lemma DoneAhead(reports: seq<seq<bool>>, k: nat, g: nat)
    requires k < g <= |reports| && FirstDone(reports, k) == k
    ensures Done(reports[k]) ==> FirstDone(reports, g) == k
    ensures !Done(reports[k]) ==> FirstDone(reports, k + 1) == k + 1
  {
    if Done(reports[k]) {
      FirstDoneStable(reports, k + 1, g);
    }
  }

  /** Once some step is done, looking further ahead does not move the first done step. */
  lemma {:induction false} FirstDoneStable(reports: seq<seq<bool>>, k: nat, m: nat)
    requires k <= m <= |reports| && FirstDone(reports, k) < k
    ensures FirstDone(reports, m) == FirstDone(reports, k)
  {
    if m > k {
      FirstDoneStable(reports, k, m - 1);
    }
  }

  /**
   * `Stepper`: the problems it drives, the generation counters (integers
   * here), the done flag of the last step, and the calls it has made so
   * far on its problems, in order.
   */
  class Stepper {
    var problems: seq<Problem>
    var maxGenerations: int
    var currentGeneration: int
    var done: bool
    var trace: seq<Call>

    constructor ()
      ensures problems == [] && maxGenerations == 1 && currentGeneration == 0 && !done && trace == []
    {
      problems := [];
      maxGenerations := 1;
      currentGeneration := 0;
      done := false;
      trace := [];
    }

    /** `addProblem(p)`: appended unless already listed; a newly added problem's stepper becomes this one. */
    method AddProblem(p: Problem)
      requires Distinct(problems)
      modifies this, p
      ensures problems == WithAdded(old(problems), p) && Distinct(problems)
      ensures p.stepper == if p in old(problems) then old(p.stepper) else this
      ensures p.populations == old(p.populations) && p.done == old(p.done)
      ensures maxGenerations == old(maxGenerations) && currentGeneration == old(currentGeneration)
      ensures done == old(done) && trace == old(trace)
    {
      AddedDistinct(problems, p);
      if p !in problems {
        problems := problems + [p];
        p.stepper := this;
      }
    }

    /** `removeProblem(p)`: the problem is no longer listed and has no stepper. */
    method RemoveProblem(p: Problem)
      requires Distinct(problems)
      modifies this, p
      ensures problems == RemovedFirst(old(problems), p) && Distinct(problems) && p !in problems
      ensures p.stepper == null
      ensures p.populations == old(p.populations) && p.done == old(p.done)
      ensures maxGenerations == old(maxGenerations) && currentGeneration == old(currentGeneration)
      ensures done == old(done) && trace == old(trace)
    {
      RemovedDistinct(problems, p);
      problems := RemovedFirst(problems, p);
      p.stepper := null;
    }

    /** One `for (Problem problem : problems)` loop calling `phase`. */
    method RunPhase(phase: Phase)
      modifies this
      ensures trace == old(trace) + PhaseCalls(phase, |problems|)
      ensures problems == old(problems) && done == old(done)
      ensures maxGenerations == old(maxGenerations) && currentGeneration == old(currentGeneration)
    {
      var i := 0;
      while i < |problems|
        invariant 0 <= i <= |problems|
        invariant trace == old(trace) + PhaseCalls(phase, i)
        invariant problems == old(problems) && done == old(done)
        invariant maxGenerations == old(maxGenerations) && currentGeneration == old(currentGeneration)
      {
        trace := trace + [Call(phase, i)];
        assert PhaseCalls(phase, i + 1) == PhaseCalls(phase, i) + [Call(phase, i)];
        i := i + 1;
      }
    }

    /** The postevaluate loop: problem `i` reports `reports[i]`, and any report of done sets the flag. */
    method PostevaluateAll(reports: seq<bool>)
      requires |reports| == |problems|
      modifies this
      ensures trace == old(trace) + PhaseCalls(Postevaluate, |problems|)
      ensures done <==> old(done) || Done(reports)
      ensures problems == old(problems)
      ensures maxGenerations == old(maxGenerations) && currentGeneration == old(currentGeneration)
    {
      var i := 0;
      while i < |problems|
        invariant problems == old(problems) && 0 <= i <= |problems|
        invariant trace == old(trace) + PhaseCalls(Postevaluate, i)
        invariant done <==> old(done) || true in reports[..i]
        invariant maxGenerations == old(maxGenerations) && currentGeneration == old(currentGeneration)
      {
        trace := trace + [Call(Postevaluate, i)];
        assert PhaseCalls(Postevaluate, i + 1) == PhaseCalls(Postevaluate, i) + [Call(Postevaluate, i)];
        if reports[i] {
          done := true;
        }
        assert reports[..i + 1] == reports[..i] + [reports[i]];
        i := i + 1;
      }
      assert reports[..i] == reports;
    }

    /**
     * `step()`: each phase for every problem, in order; `reports` are the
     * problems' `getDone()` answers after postevaluation.  Once some
     * problem is done, migration and breeding are skipped.
     */
    method Step(reports: seq<bool>)
      requires |reports| == |problems|
      modifies this
      ensures done == Done(reports)
      ensures trace == old(trace) + StepCalls(|problems|, done)
      ensures problems == old(problems)
      ensures maxGenerations == old(maxGenerations) && currentGeneration == old(currentGeneration)
    {
      StepTrace(trace, |problems|, Done(reports));
      ghost var n := |problems|;
      done := false;
      RunPhase(Preevaluate);
      RunPhase(Evaluate);
      PostevaluateAll(reports);
      RunPhase(Replace);
      RunPhase(Statistics);
      assert done == Done(reports);
      if done {
        return;
      }
      ghost var before := trace;
      RunPhase(Migrate);
      RunPhase(Breed);
      assert trace == before + PhaseCalls(Migrate, n) + PhaseCalls(Breed, n);
      ConcatAssoc(before, PhaseCalls(Migrate, n), PhaseCalls(Breed, n));
    }

    /** `initialize()`: every problem initializes. */
    method InitializeAll()
      modifies this
      ensures trace == old(trace) + PhaseCalls(Initialize, |problems|)
      ensures problems == old(problems) && done == old(done)
      ensures maxGenerations == old(maxGenerations) && currentGeneration == old(currentGeneration)
    {
      RunPhase(Initialize);
    }

    /** One generation of the run: a step, then the generation counter moves on unless some problem is done. */
    method Advance(report: seq<bool>, ghost reports: seq<seq<bool>>, ghost k: nat, ghost g: nat, ghost start: seq<Call>)
      requires k < g <= |reports| && report == reports[k] && |report| == |problems|
      requires FirstDone(reports, k) == k && trace == start + Repeated(|problems|, k)
      modifies this
      ensures problems == old(problems) && maxGenerations == old(maxGenerations)
      ensures done ==> (FirstDone(reports, g) == k && currentGeneration == old(currentGeneration) &&
                        trace == start + Repeated(|problems|, k) + StepCalls(|problems|, true))
      ensures !done ==> (FirstDone(reports, k + 1) == k + 1 && currentGeneration == old(currentGeneration) + 1 &&
                         trace == start + Repeated(|problems|, k + 1))
    {
      Step(report);
      DoneAhead(reports, k, g);
      if !done {
        ConcatAssoc(start, Repeated(|problems|, k), StepCalls(|problems|, false));
        currentGeneration := currentGeneration + 1;
      }
    }

    /**
     * `evolve()`: initialize, then step while the current generation is at
     * most the maximum, counting one generation per step, and stop after
     * the first step in which some problem is done (without counting it).
     * `reports[g]` are the problems' answers in step `g`.
     */
    method Evolve(reports: seq<seq<bool>>)
      requires |reports| >= Generations(currentGeneration, maxGenerations)
      requires forall g :: 0 <= g < |reports| ==> |reports[g]| == |problems|
      modifies this
      ensures var g := Generations(old(currentGeneration), old(maxGenerations));
        var s := FirstDone(reports, g);
        trace == old(trace) + PhaseCalls(Initialize, |problems|) + Repeated(|problems|, s) +
                 (if s < g then StepCalls(|problems|, true) else []) &&
        currentGeneration == old(currentGeneration) + s &&
        done == (if g == 0 then old(done) else s < g)
      ensures old(currentGeneration) <= old(maxGenerations) ==>
        currentGeneration <= old(maxGenerations) + 1 && (done ==> currentGeneration <= old(maxGenerations))
      ensures problems == old(problems) && maxGenerations == old(maxGenerations)
    {
      ghost var g := Generations(currentGeneration, maxGenerations);
      ghost var start := trace + PhaseCalls(Initialize, |problems|);
      InitializeAll();
      var k := 0;
      while currentGeneration <= maxGenerations
        invariant 0 <= k <= g && currentGeneration == old(currentGeneration) + k
        invariant FirstDone(reports, k) == k
        invariant trace == start + Repeated(|problems|, k)
        invariant k == 0 ==> done == old(done)
        invariant k > 0 ==> !done
        invariant problems == old(problems) && maxGenerations == old(maxGenerations)
        decreases maxGenerations - currentGeneration
      {
        Advance(reports[k], reports, k, g, start);
        if done {
          return;
        }
        k := k + 1;
      }
      assert k == g;
    }
  }
}
