/**
 * A population: the individuals of one deme, the elites kept between
 * generations, and the bookkeeping of the last evaluation.  Membership is
 * by identity, which the model reads as the individual's id.
 */
module Populations {
  import opened Individuals
  import opened Sorting
  import opened Pareto

  // ---------------------------------------------------------------------------
  // Lists of individuals, by identity

  /** Some member of `s` has id `id` (`list.contains`, which compares references). */
  predicate HasId(s: seq<Individual>, id: nat)
  {
    exists i :: 0 <= i < |s| && s[i].id == id
  }

  /** No two members share an id: no individual is listed twice. */
  predicate DistinctIds(s: seq<Individual>)
  {
    forall i, j :: 0 <= i < j < |s| ==> s[i].id != s[j].id
  }

  /** `if (!list.contains(x)) list.add(x)`. */
  function Added(s: seq<Individual>, x: Individual): seq<Individual>
  {
    if HasId(s, x.id) then s else s + [x]
  }

  /** Adding `xs` one after another. */
  function AddedAll(s: seq<Individual>, xs: seq<Individual>): seq<Individual>
    decreases |xs|
  {
    if xs == [] then s else Added(AddedAll(s, xs[..|xs| - 1]), xs[|xs| - 1])
  }

  /** Each of `xs` as `addIndividual` leaves it: owned by population `tag`. */
  function Adopted(xs: seq<Individual>, tag: nat): (r: seq<Individual>)
    ensures |r| == |xs|
    ensures forall i :: 0 <= i < |xs| ==> r[i] == xs[i].(owner := InPopulation(tag))
  {
    seq(|xs|, i requires 0 <= i < |xs| => xs[i].(owner := InPopulation(tag)))
  }

  /** The population after `addIndividual` of each of `xs`. */
  function Merged(s: seq<Individual>, xs: seq<Individual>, tag: nat): seq<Individual>
  {
    AddedAll(s, Adopted(xs, tag))
  }

  /** `list.remove(x)`: the first member with `x`'s identity goes, if there is one. */
  function RemovedId(s: seq<Individual>, id: nat): seq<Individual>
  {
    if s == [] then []
    else if s[0].id == id then s[1..]
    else [s[0]] + RemovedId(s[1..], id)
  }

  /**
   * Adding never creates a duplicate: afterwards the individual is listed,
   * the list grew by one exactly when it was absent, and a list without
   * duplicates stays without.
   */
  lemma AddedFacts(s: seq<Individual>, x: Individual)
    ensures HasId(Added(s, x), x.id)
    ensures |Added(s, x)| == if HasId(s, x.id) then |s| else |s| + 1
    ensures Added(s, x)[..|s|] == s
    ensures DistinctIds(s) ==> DistinctIds(Added(s, x))
  {
    if !HasId(s, x.id) {
      var r := s + [x];
      assert r[|s|].id == x.id;
    }
  }

  /** Adding several: the old members stay in front, nothing is listed twice, and each added one is listed. */
  lemma {:induction false} AddedAllFacts(s: seq<Individual>, xs: seq<Individual>)
    ensures |s| <= |AddedAll(s, xs)| <= |s| + |xs|
    ensures AddedAll(s, xs)[..|s|] == s
    ensures forall y :: y in AddedAll(s, xs) ==> y in s || y in xs
    ensures DistinctIds(s) ==> DistinctIds(AddedAll(s, xs))
    ensures forall k :: 0 <= k < |xs| ==> HasId(AddedAll(s, xs), xs[k].id)
    decreases |xs|
  {
    if xs != [] {
      var init, last := xs[..|xs| - 1], xs[|xs| - 1];
      var before := AddedAll(s, init);
      AddedAllFacts(s, init);
      AddedFacts(before, last);
      assert AddedAll(s, xs) == Added(before, last);
      assert AddedAll(s, xs)[..|s|] == before[..|before|][..|s|];
      forall k | 0 <= k < |xs|
        ensures HasId(AddedAll(s, xs), xs[k].id)
      {
        if k < |xs| - 1 {
          assert xs[k] == init[k];
          var t :| 0 <= t < |before| && before[t].id == xs[k].id;
          assert AddedAll(s, xs)[t] == before[t];
        }
      }
      forall y | y in AddedAll(s, xs)
        ensures y in s || y in xs
      {
        if y in before {
          if y in init {
            var k :| 0 <= k < |init| && init[k] == y;
            assert xs[k] == y;
          }
        } else {
          assert y == last;
        }
      }
    }
  }

  /** Adding a list without duplicates to an empty list gives the list itself. */
  lemma {:induction false} AddedAllDistinct(xs: seq<Individual>)
    requires DistinctIds(xs)
    ensures AddedAll([], xs) == xs
    decreases |xs|
  {
    if xs != [] {
      var init, last := xs[..|xs| - 1], xs[|xs| - 1];
      assert DistinctIds(init);
      AddedAllDistinct(init);
      forall t | 0 <= t < |init|
        ensures init[t].id != last.id
      {
        assert init[t] == xs[t];
      }
      assert init + [last] == xs;
    }
  }

  /** Merging keeps the number of objectives common to the population and the incoming individuals. */
  lemma MergedObjectives(s: seq<Individual>, xs: seq<Individual>, tag: nat)
    requires SameObjectives(s + xs)
    ensures SameObjectives(Merged(s, xs, tag))
  {
    var a := Adopted(xs, tag);
    AddedAllFacts(s, a);
    forall y | y in Merged(s, xs, tag)
      ensures exists z :: z in s + xs && z.fitness == y.fitness
    {
      if y in s {
        assert y in s + xs;
      } else {
        var k :| 0 <= k < |a| && a[k] == y;
        assert xs[k] in s + xs;
      }
    }
  }

  /** Merging introduces no id the counter has not issued. */
  lemma MergedIds(s: seq<Individual>, xs: seq<Individual>, tag: nat, n: nat)
    requires IdsAtMost(s, n) && IdsAtMost(xs, n)
    ensures IdsAtMost(Merged(s, xs, tag), n)
  {
    var a := Adopted(xs, tag);
    var m := Merged(s, xs, tag);
    AddedAllFacts(s, a);
    forall i | 0 <= i < |m|
      ensures m[i].id <= n
    {
      assert m[i] in m;
      if m[i] in s {
        var k :| 0 <= k < |s| && s[k] == m[i];
      } else {
        var k :| 0 <= k < |a| && a[k] == m[i];
      }
    }
  }

  /** Removing an individual that is not listed changes nothing. */
  lemma {:induction false} RemovedIdAbsent(s: seq<Individual>, id: nat)
    requires !HasId(s, id)
    ensures RemovedId(s, id) == s
  {
    if s != [] {
      assert !HasId(s[1..], id) by {
        forall t | 0 <= t < |s[1..]|
          ensures s[1..][t].id != id
        {
          assert s[1..][t] == s[t + 1];
        }
      }
      RemovedIdAbsent(s[1..], id);
    }
  }

  /** Removing a listed individual takes out exactly one member. */
  lemma {:induction false} RemovedIdPresent(s: seq<Individual>, id: nat)
    requires HasId(s, id)
    ensures |RemovedId(s, id)| == |s| - 1
    ensures multiset(RemovedId(s, id)) <= multiset(s)
  {
    if s[0].id != id {
      var t :| 0 <= t < |s| && s[t].id == id;
      assert s[1..][t - 1] == s[t];
      RemovedIdPresent(s[1..], id);
      assert s == [s[0]] + s[1..];
    } else {
      assert s == [s[0]] + s[1..];
    }
  }

  /** In a list without duplicates, the removed individual is then gone. */
  lemma {:induction false} RemovedIdGone(s: seq<Individual>, id: nat)
    requires DistinctIds(s)
    ensures !HasId(RemovedId(s, id), id)
  {
    if s != [] {
      var rest := s[1..];
      assert DistinctIds(rest) by {
        forall i, j | 0 <= i < j < |rest|
          ensures rest[i].id != rest[j].id
        {
          assert rest[i] == s[i + 1] && rest[j] == s[j + 1];
        }
      }
      if s[0].id == id {
        forall t | 0 <= t < |rest|
          ensures rest[t].id != id
        {
          assert rest[t] == s[t + 1];
        }
      } else {
        RemovedIdGone(rest, id);
        var r := RemovedId(rest, id);
        forall t | 0 <= t < |r| + 1
          ensures ([s[0]] + r)[t].id != id
        {
          if t > 0 {
            assert ([s[0]] + r)[t] == r[t - 1];
          }
        }
      }
    }
  }

  // ---------------------------------------------------------------------------
  // Evaluation

  /** What the evaluator assigns to one individual: constraint error, fitness and success. */
  datatype Evaluation = Evaluation(constraintError: real, fitness: seq<real>, success: bool)

  /** `evaluateConstraints`, `evaluateFitness`, then `setEvaluated(true)`. */
  function Evaluated(x: Individual, e: Evaluation): Individual
  {
    x.(constraintError := e.constraintError, fitness := e.fitness, success := e.success, evaluated := true)
  }

  /** The individual is evaluated this time: it never was, or evaluation is forced. */
  predicate Due(x: Individual, force: bool)
  {
    !x.evaluated || force
  }

  /** An individual after an evaluation: evaluated when due, otherwise as it was. */
  function EvaluatedIfDue(x: Individual, e: Evaluation, force: bool): Individual
  {
    if Due(x, force) then Evaluated(x, e) else x
  }

  /** The population after an evaluation: each due individual gets its evaluation. */
  function AfterEvaluation(s: seq<Individual>, results: seq<Evaluation>, force: bool): (r: seq<Individual>)
    requires |results| == |s|
    ensures |r| == |s|
    ensures forall i :: 0 <= i < |s| ==> r[i] == EvaluatedIfDue(s[i], results[i], force)
  {
    seq(|s|, i requires 0 <= i < |s| => EvaluatedIfDue(s[i], results[i], force))
  }

  /** The number of individuals due for evaluation. */
  function CountDue(s: seq<Individual>, force: bool): nat
  {
    if s == [] then 0
    else CountDue(s[..|s| - 1], force) + (if Due(s[|s| - 1], force) then 1 else 0)
  }

  /** At most everyone is due; everyone when forced; no one when all are evaluated and nothing is forced. */
  lemma {:induction false} CountDueBounds(s: seq<Individual>, force: bool)
    ensures CountDue(s, force) <= |s|
    ensures force ==> CountDue(s, force) == |s|
    ensures !force && (forall i :: 0 <= i < |s| ==> s[i].evaluated) ==> CountDue(s, force) == 0
  {
    if s != [] {
      CountDueBounds(s[..|s| - 1], force);
    }
  }

  /** An evaluation leaves every individual marked evaluated and evaluates only those due. */
  lemma AfterEvaluationFacts(s: seq<Individual>, results: seq<Evaluation>, force: bool)
    requires |results| == |s|
    ensures forall i :: 0 <= i < |s| ==> AfterEvaluation(s, results, force)[i].evaluated
    ensures forall i :: 0 <= i < |s| && !Due(s[i], force) ==> AfterEvaluation(s, results, force)[i] == s[i]
    ensures force ==> forall i :: 0 <= i < |s| ==> AfterEvaluation(s, results, force)[i].fitness == results[i].fitness
  {
  }

  // ---------------------------------------------------------------------------
  // Truncation

  /** How many of `n` individuals survive removing every index from `max` on. */
  function Kept(n: nat, max: int): (k: nat)
    ensures k <= n
    ensures 0 <= max <= n ==> k == max
    ensures max >= n ==> k == n
  {
    if max < 0 then 0 else if max < n then max else n
  }

  /**
   * The loop of `standaloneEvaluate`: due individuals are evaluated, and
   * counted, and any success is recorded.
   */
  method EvaluateAll(start: seq<Individual>, results: seq<Evaluation>, force: bool)
    returns (pop: seq<Individual>, count: nat, success: bool)
    requires |results| == |start|
    ensures pop == AfterEvaluation(start, results, force)
    ensures count == CountDue(start, force)
    ensures success <==> exists t :: 0 <= t < |pop| && pop[t].success
  {
    pop, count, success := start, 0, false;
    var i := 0;
    while i < |pop|
      invariant 0 <= i <= |pop| == |start|
      invariant forall t :: 0 <= t < i ==> pop[t] == EvaluatedIfDue(start[t], results[t], force)
      invariant forall t :: i <= t < |pop| ==> pop[t] == start[t]
      invariant count == CountDue(start[..i], force)
      invariant success <==> exists t :: 0 <= t < i && EvaluatedIfDue(start[t], results[t], force).success
    {
      pop, count, success := EvaluatePass(start, results, force, i, pop, count, success);
      i := i + 1;
    }
    assert start[..i] == start;
  }

  /** The count over one more member grows by one exactly when that member is due. */
  lemma CountDueStep(s: seq<Individual>, i: nat, force: bool)
    requires i < |s|
    ensures CountDue(s[..i + 1], force) == CountDue(s[..i], force) + if Due(s[i], force) then 1 else 0
  {
    assert s[..i + 1][..i] == s[..i] && s[..i + 1][i] == s[i];
  }

  /**
   * One pass of the evaluation loop: member `i` gets its evaluation when it
   * is due, is counted when due, and reports success.
   */
  method EvaluatePass(start: seq<Individual>, results: seq<Evaluation>, force: bool, i: nat,
                      pop: seq<Individual>, count: nat, success: bool)
    returns (pop': seq<Individual>, count': nat, success': bool)
    requires i < |pop| == |start| == |results|
    requires forall t :: 0 <= t < i ==> pop[t] == EvaluatedIfDue(start[t], results[t], force)
    requires forall t :: i <= t < |pop| ==> pop[t] == start[t]
    requires count == CountDue(start[..i], force)
    requires success <==> exists t :: 0 <= t < i && EvaluatedIfDue(start[t], results[t], force).success
    ensures |pop'| == |pop|
    ensures forall t :: 0 <= t < i + 1 ==> pop'[t] == EvaluatedIfDue(start[t], results[t], force)
    ensures forall t :: i + 1 <= t < |pop'| ==> pop'[t] == start[t]
    ensures count' == CountDue(start[..i + 1], force)
    ensures success' <==> exists t :: 0 <= t < i + 1 && EvaluatedIfDue(start[t], results[t], force).success
  {
    CountDueStep(start, i, force);
    pop', count', success' := pop, count, success;
    var x := pop[i];
    if !x.evaluated || force {
      x := Evaluated(x, results[i]);
      pop' := pop[i := x];
      count' := count + 1;
    }
    if x.success {
      success' := true;
    }
  }

  /** The Pareto order of the population merged with its elites. */
  function ParetoMerged(s: seq<Individual>, xs: seq<Individual>, tag: nat): (r: seq<Individual>)
    requires SameObjectives(s + xs)
    ensures |r| >= |s|
  {
    MergedObjectives(s, xs, tag);
    AddedAllFacts(s, Adopted(xs, tag));
    ParetoSorted(Merged(s, xs, tag))
  }

  /** The first `m` members each replaced by a clone with the next id, owned by population `tag`. */
  function Promoted(s: seq<Individual>, m: nat, base: nat, tag: nat): (r: seq<Individual>)
    ensures |r| == |s|
    ensures forall i :: 0 <= i < |s| ==>
      r[i] == if i < m then s[i].(id := base + i + 1, owner := InPopulation(tag)) else s[i]
  {
    seq(|s|, i requires 0 <= i < |s| => if i < m then s[i].(id := base + i + 1, owner := InPopulation(tag)) else s[i])
  }

  /** The Pareto sort introduces no id the counter has not issued. */
  lemma ParetoSortedIds(s: seq<Individual>, n: nat)
    requires SameObjectives(s) && IdsAtMost(s, n)
    ensures IdsAtMost(ParetoSorted(s), n)
  {
    var out := ParetoSorted(s);
    ParetoSortedFacts(s);
    forall i | 0 <= i < |out|
      ensures out[i].id <= n
    {
      assert Stripped(out)[i] == Strip(out[i]);
      assert Strip(out[i]) in multiset(Stripped(s));
      var u :| 0 <= u < |s| && Stripped(s)[u] == Strip(out[i]);
    }
  }

  /** `for (Individual elite : elites) addIndividual(elite)`. */
  method MergeAll(s: seq<Individual>, xs: seq<Individual>, tag: nat) returns (r: seq<Individual>)
    ensures r == Merged(s, xs, tag)
  {
    ghost var incoming := Adopted(xs, tag);
    r := s;
    var k := 0;
    while k < |xs|
      invariant 0 <= k <= |xs|
      invariant r == AddedAll(s, incoming[..k])
    {
      assert incoming[..k + 1][..k] == incoming[..k];
      var x := xs[k].(owner := InPopulation(tag));
      if !HasId(r, x.id) {
        r := r + [x];
      }
      k := k + 1;
    }
    assert incoming[..k] == incoming;
  }

  /** `for (i < maxElites) elites.add(individuals.get(i).clone())`. */
  method CloneFirst(ids: IdSource, s: seq<Individual>, m: nat) returns (clones: seq<Individual>)
    requires m <= |s|
    modifies ids
    ensures ids.lastId == old(ids.lastId) + m
    ensures |clones| == m && forall j :: 0 <= j < m ==> clones[j] == s[j].(id := old(ids.lastId) + j + 1)
  {
    clones := [];
    var i := 0;
    while i < m
      invariant 0 <= i <= m && ids.lastId == old(ids.lastId) + i
      invariant |clones| == i && forall j :: 0 <= j < i ==> clones[j] == s[j].(id := old(ids.lastId) + j + 1)
    {
      var c := Clone(ids, s[i]);
      clones := clones + [c];
      i := i + 1;
    }
  }

  /**
   * `for (i = num - 1; i >= 0; i--) remove(max + i)` with
   * `num = size - max`: every index from `max` on is removed, from the
   * back; an index below 0 is ignored.
   */
  method RemoveFrom(s: seq<Individual>, max: int) returns (r: seq<Individual>)
    ensures r == s[..Kept(|s|, max)]
  {
    r := s;
    var i := |s| - max - 1;
    while i >= 0
      invariant i < |s| - max && (i >= -1 || i == |s| - max - 1)
      invariant r == s[..Kept(|s|, max + i + 1)]
    {
      if 0 <= max + i < |r| {
        r := r[..max + i] + r[max + i + 1..];
      }
      i := i - 1;
    }
  }

  /** Merging never loses a member of the population. */
  lemma MergedGrows(s: seq<Individual>, xs: seq<Individual>, tag: nat)
    ensures |Merged(s, xs, tag)| >= |s|
  {
    AddedAllFacts(s, Adopted(xs, tag));
  }

  /**
   * The body of `processElites()` on the two lists: merge, sort by fitness
   * value 0, clone the first `m` as the new elites, and cut the sorted
   * list back to the population's size.
   */
  method SortedElites(ids: IdSource, s: seq<Individual>, xs: seq<Individual>, tag: nat, m: nat)
    returns (kept: seq<Individual>, clones: seq<Individual>)
    requires m <= |s|
    modifies ids
    ensures var sorted := SortBy(Merged(s, xs, tag), ByObjective(0));
      |sorted| >= |s| && kept == sorted[..|s|] &&
      |clones| == m && forall i :: 0 <= i < m ==> clones[i] == sorted[i].(id := old(ids.lastId) + i + 1)
    ensures ids.lastId == old(ids.lastId) + m
  {
    var merged := MergeAll(s, xs, tag);
    MergedGrows(s, xs, tag);
    var sorted := SortBy(merged, ByObjective(0));
    clones := CloneFirst(ids, sorted, m);
    kept := RemoveFrom(sorted, |s|);
  }

  /** `remove(i)` followed by `add(i, c)` on a list replaces its member `i` by `c`. */
  lemma RemoveInsert<T>(r: seq<T>, i: nat, c: T)
    requires i < |r|
    ensures (r[..i] + r[i + 1..])[..i] + [c] + (r[..i] + r[i + 1..])[i..] == r[i := c]
  {
    var removed := r[..i] + r[i + 1..];
    assert removed[..i] == r[..i] && removed[i..] == r[i + 1..];
  }

  /** Replacing member `i` of a promoted prefix by its clone extends the prefix by one. */
  lemma PromotedStep(s: seq<Individual>, i: nat, base: nat, tag: nat)
    requires i < |s|
    ensures Promoted(s, i, base, tag)[i := s[i].(id := base + i + 1, owner := InPopulation(tag))] == Promoted(s, i + 1, base, tag)
  {
  }

  /** The promoted prefix carries the ids issued after `base`, the rest their own. */
  lemma PromotedIds(s: seq<Individual>, i: nat, base: nat, tag: nat)
    requires IdsAtMost(s, base)
    ensures IdsAtMost(Promoted(s, i, base, tag), base + i)
  {
  }

  /** Once member `i` is removed, no one left has the next fresh id. */
  lemma RemovedNoSuchId(r: seq<Individual>, i: nat, n: nat)
    requires i < |r| && IdsAtMost(r, n)
    ensures !HasId(r[..i] + r[i + 1..], n + 1)
  {
    var removed := r[..i] + r[i + 1..];
    forall t | 0 <= t < |removed|
      ensures removed[t].id != n + 1
    {
      assert removed[t] == if t < i then r[t] else r[t + 1];
    }
  }

  /**
   * The elite loop of the multi-objective `processElites`: each of the
   * first `m` individuals is added to the elites (unless already there)
   * and replaced in place by its clone, which joins the population.
   */
  method PromoteFirst(ids: IdSource, s: seq<Individual>, m: nat, tag: nat)
    returns (r: seq<Individual>, chosen: seq<Individual>)
    requires m <= |s| && IdsAtMost(s, ids.lastId)
    modifies ids
    ensures ids.lastId == old(ids.lastId) + m
    ensures r == Promoted(s, m, old(ids.lastId), tag)
    ensures chosen == AddedAll([], s[..m])
  {
    ghost var base := ids.lastId;
    r, chosen := s, [];
    var i := 0;
    while i < m
      invariant 0 <= i <= m && ids.lastId == base + i
      invariant r == Promoted(s, i, base, tag)
      invariant chosen == AddedAll([], s[..i])
    {
      var x := r[i];
      var c := Clone(ids, x);
      assert s[..i + 1][..i] == s[..i];
      if !HasId(chosen, x.id) {
        chosen := chosen + [x];
      }
      PromotedIds(s, i, base, tag);
      RemovedNoSuchId(r, i, base + i);
      RemoveInsert(r, i, c.(owner := InPopulation(tag)));
      PromotedStep(s, i, base, tag);
      r := r[..i] + r[i + 1..];
      r := r[..i] + [c.(owner := InPopulation(tag))] + r[i..];
      i := i + 1;
    }
  }

  /** `for (Individual ind : getIndividuals()) ind.setParetoRank(-1)`. */
  method ResetRanks(s: seq<Individual>) returns (r: seq<Individual>)
    ensures r == Unranked(s)
  {
    r := s;
    var i := 0;
    while i < |r|
      invariant 0 <= i <= |r| == |s|
      invariant forall t :: 0 <= t < i ==> r[t] == s[t].(paretoRank := -1)
      invariant forall t :: i <= t < |r| ==> r[t] == s[t]
    {
      r := r[i := r[i].(paretoRank := -1)];
      i := i + 1;
    }
  }

  /**
   * The loops of `sortParetoRank`: every rank reset to -1; then, while
   * individuals remain unranked, one front is found, crowded, appended to
   * the result and removed; finally the fronts, in order, are the population.
   */
  method RankPareto(s: seq<Individual>) returns (r: seq<Individual>)
    requires SameObjectives(s)
    ensures r == ParetoSorted(s)
  {
    var individuals := ResetRanks(s);
    UnrankedObjectives(s);
    var numUnranked := |individuals|;
    var curRank := 0;
    var temp := [];
    while numUnranked > 0
      invariant numUnranked == |individuals| && SameObjectives(individuals)
      invariant temp + RankFrom(individuals, curRank) == ParetoSorted(s)
      decreases numUnranked
    {
      var crowded, rest := RankRound(individuals, curRank);
      ConcatAssoc(temp, crowded, RankFrom(rest, curRank + 1));
      temp := temp + crowded;
      numUnranked := numUnranked - (|individuals| - |rest|);
      individuals := rest;
      curRank := curRank + 1;
    }
    assert individuals == [] && RankFrom(individuals, curRank) == [];
    r := individuals + temp;
  }

  lemma ConcatAssoc<T>(a: seq<T>, b: seq<T>, c: seq<T>)
    ensures a + (b + c) == (a + b) + c
  {
  }

  /**
   * One pass of the outer loop of `sortParetoRank`: find the first front,
   * crowd it at rank `curRank`, and remove it from the unranked individuals.
   */
  method RankRound(individuals: seq<Individual>, curRank: int) returns (crowded: seq<Individual>, rest: seq<Individual>)
    requires SameObjectives(individuals) && |individuals| >= 1
    ensures |rest| < |individuals| && SameObjectives(rest)
    ensures RankFrom(individuals, curRank) == crowded + RankFrom(rest, curRank + 1)
  {
    var mask := FindFront(individuals);
    RoundParts(individuals);
    RankFromRound(individuals, curRank);
    var front := Pick(individuals, mask);
    crowded := CrowdFront(front, curRank);
    rest := RemoveFront(individuals, mask);
  }

  /**
   * The body of the multi-objective `processElites` on the population `s`
   * and the elites `xs`: the result is the new population and the new elites.
   */
  method ParetoElites(ids: IdSource, s: seq<Individual>, xs: seq<Individual>, m: nat, max: int, tag: nat)
    returns (kept: seq<Individual>, chosen: seq<Individual>)
    requires m <= |s| && SameObjectives(s + xs)
    requires IdsAtMost(s, ids.lastId) && IdsAtMost(xs, ids.lastId)
    modifies ids
    ensures var sorted := ParetoMerged(s, xs, tag);
      var promoted := Promoted(sorted, m, old(ids.lastId), tag);
      chosen == AddedAll([], sorted[..m]) &&
      kept == promoted[..Kept(|promoted|, max)]
    ensures ids.lastId == old(ids.lastId) + m
  {
    var merged := MergeAll(s, xs, tag);
    MergedObjectives(s, xs, tag);
    MergedIds(s, xs, tag, ids.lastId);
    var sorted := RankPareto(merged);
    assert sorted == ParetoMerged(s, xs, tag);
    ParetoSortedIds(merged, ids.lastId);
    var promoted;
    promoted, chosen := PromoteFirst(ids, sorted, m, tag);
    kept := RemoveFrom(promoted, max);
  }

  /** The settings of a population, which only its setters change. */
  datatype Config = Config(prototype: Individual, maxPopSize: int, elitist: bool, maxElites: int, forceEvaluation: bool)

  /**
   * `Population`, and with `multiObjective` set its subclass
   * `MultiObjectivePopulation`.  The population's identity, which its
   * individuals record as their owner, is `tag`.
   */
  class Population {
    const tag: nat
    const multiObjective: bool
    var prototype: Individual
    var maxPopSize: int
    var elitist: bool
    var maxElites: int
    var forceEvaluation: bool
    var elites: seq<Individual>
    var individuals: seq<Individual>
    var numEvaluated: int
    var done: bool

    function Settings(): Config
      reads this`prototype, this`maxPopSize, this`elitist, this`maxElites, this`forceEvaluation
    {
      Config(prototype, maxPopSize, elitist, maxElites, forceEvaluation)
    }

    /** `new Population(prototype)`: empty, not elitist, nothing evaluated. */
    constructor (tag: nat, multiObjective: bool, prototype: Individual)
      ensures this.tag == tag && this.multiObjective == multiObjective
      ensures Settings() == Config(prototype, 0, false, 0, false)
      ensures elites == [] && individuals == [] && numEvaluated == 0 && !done
    {
      this.tag := tag;
      this.multiObjective := multiObjective;
      this.prototype := prototype;
      maxPopSize := 0;
      elitist := false;
      maxElites := 0;
      forceEvaluation := false;
      elites := [];
      individuals := [];
      numEvaluated := 0;
      done := false;
    }

    /** `super.clone()` with fresh, empty lists and the cloned prototype. */
    constructor ShallowCopy(tag: nat, src: Population, prototype: Individual)
      ensures this.tag == tag && multiObjective == src.multiObjective
      ensures Settings() == src.Settings().(prototype := prototype)
      ensures elites == [] && individuals == []
      ensures numEvaluated == src.numEvaluated && done == src.done
    {
      this.tag := tag;
      multiObjective := src.multiObjective;
      this.prototype := prototype;
      maxPopSize := src.maxPopSize;
      elitist := src.elitist;
      maxElites := src.maxElites;
      forceEvaluation := src.forceEvaluation;
      elites := [];
      individuals := [];
      numEvaluated := src.numEvaluated;
      done := src.done;
    }

    /** `addIndividual(x)`: appended, and owned by this population, unless already listed. */
    method AddIndividual(x: Individual)
      modifies this
      ensures individuals == Added(old(individuals), x.(owner := InPopulation(tag)))
      ensures elites == old(elites) && Settings() == old(Settings())
      ensures numEvaluated == old(numEvaluated) && done == old(done)
    {
      if !HasId(individuals, x.id) {
        individuals := individuals + [x.(owner := InPopulation(tag))];
      }
    }

    /**
     * `addIndividual(i, x)`: inserted at index `i`, and owned by this
     * population, unless already listed.  An index outside `0..size`
     * throws: `ok == false`.
     */
    method AddIndividualAt(i: int, x: Individual) returns (ok: bool)
      modifies this
      ensures ok <==> HasId(old(individuals), x.id) || 0 <= i <= |old(individuals)|
      ensures !HasId(old(individuals), x.id) && 0 <= i <= |old(individuals)| ==>
        individuals == old(individuals)[..i] + [x.(owner := InPopulation(tag))] + old(individuals)[i..]
      ensures HasId(old(individuals), x.id) || !ok ==> individuals == old(individuals)
      ensures elites == old(elites) && Settings() == old(Settings())
      ensures numEvaluated == old(numEvaluated) && done == old(done)
    {
      ok := true;
      if !HasId(individuals, x.id) {
        if !(0 <= i <= |individuals|) {
          ok := false;
          return;
        }
        individuals := individuals[..i] + [x.(owner := InPopulation(tag))] + individuals[i..];
      }
    }

    /** `removeIndividual(x)`: the individual goes, if listed. */
    method RemoveIndividual(x: Individual)
      modifies this
      ensures individuals == RemovedId(old(individuals), x.id)
      ensures elites == old(elites) && Settings() == old(Settings())
      ensures numEvaluated == old(numEvaluated) && done == old(done)
    {
      individuals := RemovedId(individuals, x.id);
    }

    /** `removeIndividual(index)`: an index out of range is ignored. */
    method RemoveIndividualAt(index: int)
      modifies this
      ensures 0 <= index < |old(individuals)| ==>
        individuals == old(individuals)[..index] + old(individuals)[index + 1..]
      ensures !(0 <= index < |old(individuals)|) ==> individuals == old(individuals)
      ensures elites == old(elites) && Settings() == old(Settings())
      ensures numEvaluated == old(numEvaluated) && done == old(done)
    {
      if index < |individuals| && index >= 0 {
        individuals := individuals[..index] + individuals[index + 1..];
      }
    }

    /** `clearPopulation()`. */
    method ClearPopulation()
      modifies this
      ensures individuals == []
      ensures elites == old(elites) && Settings() == old(Settings())
      ensures numEvaluated == old(numEvaluated) && done == old(done)
    {
      individuals := [];
    }

    /** `sortFitness()`: the stable sort by fitness value 0, ascending. */
    method SortFitness()
      modifies this
      ensures individuals == SortBy(old(individuals), ByObjective(0))
      ensures SortedBy(individuals, ByObjective(0)) && multiset(individuals) == multiset(old(individuals))
      ensures elites == old(elites) && Settings() == old(Settings())
      ensures numEvaluated == old(numEvaluated) && done == old(done)
    {
      individuals := SortBy(individuals, ByObjective(0));
      SortBySorted(old(individuals), ByObjective(0));
    }

    /** `addElite(x)`: appended unless already an elite. */
    method AddElite(x: Individual)
      modifies this
      ensures elites == Added(old(elites), x)
      ensures individuals == old(individuals) && Settings() == old(Settings())
      ensures numEvaluated == old(numEvaluated) && done == old(done)
    {
      if !HasId(elites, x.id) {
        elites := elites + [x];
      }
    }

    /** `addElites(xs)`: all appended, with no check for duplicates. */
    method AddElites(xs: seq<Individual>)
      modifies this
      ensures elites == old(elites) + xs
      ensures individuals == old(individuals) && Settings() == old(Settings())
      ensures numEvaluated == old(numEvaluated) && done == old(done)
    {
      elites := elites + xs;
    }

    /** `removeElite(x)`. */
    method RemoveElite(x: Individual)
      modifies this
      ensures elites == RemovedId(old(elites), x.id)
      ensures individuals == old(individuals) && Settings() == old(Settings())
      ensures numEvaluated == old(numEvaluated) && done == old(done)
    {
      elites := RemovedId(elites, x.id);
    }

    /** `clearElites()`. */
    method ClearElites()
      modifies this
      ensures elites == []
      ensures individuals == old(individuals) && Settings() == old(Settings())
      ensures numEvaluated == old(numEvaluated) && done == old(done)
    {
      elites := [];
    }

    /**
     * `evaluate(evaluator)`: each individual not yet evaluated (every one,
     * when evaluation is forced) gets its evaluation `results[i]` and is
     * marked evaluated; `numEvaluated` counts them; `done` records whether
     * any individual reports success.
     */
    method Evaluate(results: seq<Evaluation>)
      requires |results| == |individuals|
      modifies this
      ensures individuals == AfterEvaluation(old(individuals), results, forceEvaluation)
      ensures forall i :: 0 <= i < |individuals| ==> individuals[i].evaluated
      ensures numEvaluated == CountDue(old(individuals), forceEvaluation)
      ensures done <==> exists i :: 0 <= i < |individuals| && individuals[i].success
      ensures elites == old(elites) && Settings() == old(Settings())
    {
      var pop, count, success := EvaluateAll(individuals, results, forceEvaluation);
      individuals, numEvaluated, done := pop, count, success;
    }
  
    /**
     * `processElites()`: the elites join the population, which is sorted
     * by fitness value 0; clones of the first `maxElites` become the new
     * elites, and the population is cut back to its size before the call.
     */
    method ProcessElites(ids: IdSource)
      requires 0 <= maxElites <= |individuals|
      modifies this, ids
      ensures Settings() == old(Settings()) && numEvaluated == old(numEvaluated) && done == old(done)
      ensures var sorted := SortBy(Merged(old(individuals), old(elites), tag), ByObjective(0));
        |sorted| >= |old(individuals)| && individuals == sorted[..|old(individuals)|] &&
        |elites| == maxElites &&
        forall i :: 0 <= i < maxElites ==> elites[i] == sorted[i].(id := old(ids.lastId) + i + 1)
      ensures ids.lastId == old(ids.lastId) + maxElites
    {
      var kept, clones := SortedElites(ids, individuals, elites, tag, maxElites);
      individuals, elites := kept, clones;
    }

    /**
     * `MultiObjectivePopulation.processElites()`: the elites join the
     * population, which is Pareto-sorted; each of the first `maxElites`
     * becomes an elite and is replaced in the population by its clone;
     * then every index from `maxPopSize` on is removed.
     */
    method ProcessParetoElites(ids: IdSource)
      requires 0 <= maxElites <= |individuals|
      requires SameObjectives(individuals + elites)
      requires IdsAtMost(individuals, ids.lastId) && IdsAtMost(elites, ids.lastId)
      modifies this, ids
      ensures Settings() == old(Settings()) && numEvaluated == old(numEvaluated) && done == old(done)
      ensures var sorted := ParetoMerged(old(individuals), old(elites), tag);
        var promoted := Promoted(sorted, maxElites, old(ids.lastId), tag);
        elites == AddedAll([], sorted[..maxElites]) &&
        individuals == promoted[..Kept(|promoted|, maxPopSize)]
      ensures ids.lastId == old(ids.lastId) + maxElites
    {
      var kept, chosen := ParetoElites(ids, individuals, elites, maxElites, maxPopSize, tag);
      individuals, elites := kept, chosen;
    }

    /** `sortParetoRank()`: the population in Pareto order (see `RankPareto`). */
    method SortParetoRank()
      requires SameObjectives(individuals)
      modifies this
      ensures individuals == ParetoSorted(old(individuals))
      ensures elites == old(elites) && Settings() == old(Settings())
      ensures numEvaluated == old(numEvaluated) && done == old(done)
    {
      individuals := RankPareto(individuals);
    }

    /**
     * `clone()`: the same settings, a cloned prototype, no elites, and a
     * clone of each individual, owned by the new population.
     */
    method Clone(ids: IdSource, newTag: nat) returns (c: Population)
      modifies ids
      ensures fresh(c) && c.tag == newTag && c.multiObjective == multiObjective
      ensures c.Settings() == Settings().(prototype := prototype.(id := old(ids.lastId) + 1))
      ensures c.elites == [] && c.numEvaluated == numEvaluated && c.done == done
      ensures |c.individuals| == |individuals|
      ensures forall i :: 0 <= i < |individuals| ==>
        c.individuals[i] == individuals[i].(id := old(ids.lastId) + 2 + i, owner := InPopulation(newTag))
      ensures ids.lastId == old(ids.lastId) + 1 + |individuals|
    {
      ghost var base := ids.lastId;
      var proto := Individuals.Clone(ids, prototype);
      c := new Population.ShallowCopy(newTag, this, proto);
      var k := 0;
      while k < |individuals|
        invariant 0 <= k <= |individuals| && fresh(c)
        invariant c.tag == newTag && c.multiObjective == multiObjective
        invariant c.Settings() == Settings().(prototype := prototype.(id := base + 1))
        invariant c.elites == [] && c.numEvaluated == numEvaluated && c.done == done
        invariant |c.individuals| == k
        invariant forall j :: 0 <= j < k ==>
          c.individuals[j] == individuals[j].(id := base + 2 + j, owner := InPopulation(newTag))
        invariant ids.lastId == base + 1 + k
      {
        var x := Individuals.Clone(ids, individuals[k]);
        assert !HasId(c.individuals, x.id);
        c.AddIndividual(x);
        k := k + 1;
      }
    }
  }
}
