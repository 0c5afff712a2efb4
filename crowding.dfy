/**
 * The replacement rule of deterministic crowding: after breeding, each
 * pair of children competes with the pair of parents in the same slots,
 * each child with the parent nearer to it, and a parent whose fitness is
 * at most the child's takes the child's place.
 */
module Crowding {
  import opened Individuals
  import opened GAIndividuals

  /** `a.genotypeDistance(b)`: the positions of `b`'s genotype where `a` differs. */
  function Distance(a: Individual, b: Individual): nat
    requires |b.genotype| <= |a.genotype|
  {
    Mismatches(a.genotype, b.genotype, |b.genotype|)
  }

  /**
   * What pass `t` of the replacement reads: parents and children `2t` and
   * `2t + 1`, the children's genotypes no longer than the parents' (the
   * distance walks the child's genotype) and the children's fitness
   * non-empty and no longer than the parents' (`getFitness()` reads value
   * 0, `deepCopy` copies the child's length of values).
   */
  predicate PairOk(parent: seq<Individual>, child: seq<Individual>, t: nat)
  {
    2 * t + 1 < |parent| && 2 * t + 1 < |child| &&
    |child[2 * t].genotype| <= |parent[2 * t].genotype| && |child[2 * t].genotype| <= |parent[2 * t + 1].genotype| &&
    |child[2 * t + 1].genotype| <= |parent[2 * t].genotype| && |child[2 * t + 1].genotype| <= |parent[2 * t + 1].genotype| &&
    1 <= |child[2 * t].fitness| <= |parent[2 * t].fitness| && |child[2 * t].fitness| <= |parent[2 * t + 1].fitness| &&
    1 <= |child[2 * t + 1].fitness| <= |parent[2 * t].fitness| && |child[2 * t + 1].fitness| <= |parent[2 * t + 1].fitness|
  }

  /** The loop runs `i = 0, 2, ...` while `i < size - 1`: one pass per whole pair of children. */
  function Passes(child: seq<Individual>): (p: nat)
    ensures 2 * p <= |child| < 2 * p + 2
  {
    |child| / 2
  }

  /** Every pass of the loop can read what it reads. */
  predicate CrowdingReady(parent: seq<Individual>, child: seq<Individual>)
  {
    forall t: nat :: t < Passes(child) ==> PairOk(parent, child, t)
  }

  /** The straight pairing (mom with boy, dad with girl) is at most as far apart as the crossed one. */
  predicate Straight(mom: Individual, dad: Individual, boy: Individual, girl: Individual)
    requires |boy.genotype| <= |mom.genotype| && |boy.genotype| <= |dad.genotype|
    requires |girl.genotype| <= |mom.genotype| && |girl.genotype| <= |dad.genotype|
  {
    Distance(mom, boy) as real + Distance(dad, girl) as real <= Distance(mom, girl) as real + Distance(dad, boy) as real
  }

  /** `x` after competing with parent `rival`: the rival's copy, under id `id`, when its fitness is at most `x`'s. */
  function Contest(x: Individual, rival: Individual, id: nat): Individual
    requires 1 <= |x.fitness| <= |rival.fitness|
  {
    if rival.fitness[0] <= x.fitness[0] then DeepCopied(x, rival, id) else x
  }

  /** The number of copies (and so of ids) a contest takes: one when the rival wins. */
  function Copies(x: Individual, rival: Individual): nat
    requires 1 <= |x.fitness| <= |rival.fitness|
  {
    if rival.fitness[0] <= x.fitness[0] then 1 else 0
  }

  /** The pair `t` of parents and of children the loop compares. */
  function Quartet(parent: seq<Individual>, child: seq<Individual>, t: nat): (q: (Individual, Individual, Individual, Individual))
    requires CrowdingReady(parent, child) && t < Passes(child)
    ensures |q.2.genotype| <= |q.0.genotype| && |q.2.genotype| <= |q.1.genotype|
    ensures |q.3.genotype| <= |q.0.genotype| && |q.3.genotype| <= |q.1.genotype|
    ensures 1 <= |q.2.fitness| <= |q.0.fitness| && |q.2.fitness| <= |q.1.fitness|
    ensures 1 <= |q.3.fitness| <= |q.0.fitness| && |q.3.fitness| <= |q.1.fitness|
  {
    assert PairOk(parent, child, t);
    (parent[2 * t], parent[2 * t + 1], child[2 * t], child[2 * t + 1])
  }

  /** The parents the boy and the girl of pair `t` compete with: mom and dad when straight, crossed otherwise. */
  function Rivals(parent: seq<Individual>, child: seq<Individual>, t: nat): (Individual, Individual)
    requires CrowdingReady(parent, child) && t < Passes(child)
  {
    var q := Quartet(parent, child, t);
    if Straight(q.0, q.1, q.2, q.3) then (q.0, q.1) else (q.1, q.0)
  }

  /**
   * Pass `t` when the last id issued is `last`: the boy and the girl after
   * their contests, the boy's copy taking the next id, and the last id
   * issued after the pass.
   */
  function PassAt(parent: seq<Individual>, child: seq<Individual>, t: nat, last: nat): (k: ((Individual, Individual), nat))
    requires CrowdingReady(parent, child) && t < Passes(child)
  {
    var q := Quartet(parent, child, t);
    var r := Rivals(parent, child, t);
    var boyCopies := Copies(q.2, r.0);
    ((Contest(q.2, r.0, last + 1), Contest(q.3, r.1, last + 1 + boyCopies)), last + boyCopies + Copies(q.3, r.1))
  }

  /**
   * The results of steps `0 .. n-1` of a loop that threads the last id
   * issued: step `t` takes the last id the earlier steps left and gives a
   * result and the new last id.
   */
  function Threaded<T>(step: (nat, nat) --> (T, nat), base: nat, n: nat): (res: (seq<T>, nat))
    requires forall t: nat, last: nat :: t < n ==> step.requires(t, last)
    ensures |res.0| == n
  {
    if n == 0 then ([], base)
    else
      var prev := Threaded(step, base, n - 1);
      var k := step(n - 1, prev.1);
      (prev.0 + [k.0], k.1)
  }

  /** Step `t`'s result is the one it made from the ids the earlier steps left, whatever steps follow. */
  lemma {:induction false} ThreadedPrefix<T>(step: (nat, nat) --> (T, nat), base: nat, n: nat, t: nat)
    requires forall t: nat, last: nat :: t < n ==> step.requires(t, last)
    requires t < n
    ensures Threaded(step, base, n).0[t] == step(t, Threaded(step, base, t).1).0
  {
    if t < n - 1 {
      ThreadedPrefix(step, base, n - 1, t);
    }
  }

  /** The pairs the first `n` passes produce, and the last id issued after them, starting from `base`. */
  function PassResults(parent: seq<Individual>, child: seq<Individual>, base: nat, n: nat): (res: (seq<(Individual, Individual)>, nat))
    requires CrowdingReady(parent, child) && n <= Passes(child)
    ensures |res.0| == n
  {
    Threaded((t: nat, last: nat) requires t < Passes(child) => PassAt(parent, child, t, last), base, n)
  }

  /** The pairs of `n` passes: those of the first `n - 1`, then the last pass's pair and ids. */
  lemma PassResultsStep(parent: seq<Individual>, child: seq<Individual>, base: nat, n: nat)
    requires CrowdingReady(parent, child) && 0 < n <= Passes(child)
    ensures var prev := PassResults(parent, child, base, n - 1);
      var k := PassAt(parent, child, n - 1, prev.1);
      PassResults(parent, child, base, n) == (prev.0 + [k.0], k.1)
  {
  }

  /** Pass `t`'s pair is the one it made from the ids the earlier passes left, whatever passes follow. */
  lemma PassResultsPrefix(parent: seq<Individual>, child: seq<Individual>, base: nat, n: nat, t: nat)
    requires CrowdingReady(parent, child) && t < n <= Passes(child)
    ensures PassResults(parent, child, base, n).0[t] == PassAt(parent, child, t, PassResults(parent, child, base, t).1).0
  {
    ThreadedPrefix((t: nat, last: nat) requires t < Passes(child) => PassAt(parent, child, t, last), base, n, t);
  }

  /** `s` with the pair of every pass in `rs` written over that pass's slots, `2t` and `2t + 1`. */
  function Written<T>(s: seq<T>, rs: seq<(T, T)>): (r: seq<T>)
    requires 2 * |rs| <= |s|
    ensures |r| == |s|
  {
    if rs == [] then s
    else
      var n := |rs|;
      Written(s, rs[..n - 1])[2 * n - 2 := rs[n - 1].0][2 * n - 1 := rs[n - 1].1]
  }

  /** The slots of pass `t` hold its pair, whatever passes follow. */
  lemma {:induction false} WrittenPair<T>(s: seq<T>, rs: seq<(T, T)>, t: nat)
    requires 2 * |rs| <= |s| && t < |rs|
    ensures Written(s, rs)[2 * t] == rs[t].0 && Written(s, rs)[2 * t + 1] == rs[t].1
  {
    if t < |rs| - 1 {
      WrittenPair(s, rs[..|rs| - 1], t);
    }
  }

  /** The slots past the passes are untouched. */
  lemma {:induction false} WrittenPast<T>(s: seq<T>, rs: seq<(T, T)>, j: nat)
    requires 2 * |rs| <= j < |s|
    ensures Written(s, rs)[j] == s[j]
  {
    if rs != [] {
      WrittenPast(s, rs[..|rs| - 1], j);
    }
  }

  /** The children after every pass of the replacement, ids issued after `base`. */
  function Crowded(parent: seq<Individual>, child: seq<Individual>, base: nat): (r: seq<Individual>)
    requires CrowdingReady(parent, child)
    ensures |r| == |child|
  {
    Written(child, PassResults(parent, child, base, Passes(child)).0)
  }


  /** One contest: `x` is overwritten by a copy of `rival` when the rival's fitness is at most its own. */
  method Compete(ids: IdSource, x: Individual, rival: Individual) returns (y: Individual)
    requires 1 <= |x.fitness| <= |rival.fitness|
    modifies ids
    ensures y == Contest(x, rival, old(ids.lastId) + 1)
    ensures ids.lastId == old(ids.lastId) + Copies(x, rival)
  {
    y := x;
    if rival.fitness[0] <= x.fitness[0] {
      y := DeepCopy(ids, x, rival);
    }
  }

  /**
   * One pass of the replacement loop: the distances decide the pairing,
   * then each child is overwritten by a copy of its rival when the rival's
   * fitness is at most its own, the boy first.
   */
  method CrowdPair(ids: IdSource, mom: Individual, dad: Individual, boy: Individual, girl: Individual)
    returns (newBoy: Individual, newGirl: Individual)
    requires |boy.genotype| <= |mom.genotype| && |boy.genotype| <= |dad.genotype|
    requires |girl.genotype| <= |mom.genotype| && |girl.genotype| <= |dad.genotype|
    requires 1 <= |boy.fitness| <= |mom.fitness| && |boy.fitness| <= |dad.fitness|
    requires 1 <= |girl.fitness| <= |mom.fitness| && |girl.fitness| <= |dad.fitness|
    modifies ids
    ensures var r := if Straight(mom, dad, boy, girl) then (mom, dad) else (dad, mom);
      newBoy == Contest(boy, r.0, old(ids.lastId) + 1) &&
      newGirl == Contest(girl, r.1, old(ids.lastId) + 1 + Copies(boy, r.0)) &&
      ids.lastId == old(ids.lastId) + Copies(boy, r.0) + Copies(girl, r.1)
  {
    var momBoy := GenotypeDistance(mom, boy);
    var dadGirl := GenotypeDistance(dad, girl);
    var momGirl := GenotypeDistance(mom, girl);
    var dadBoy := GenotypeDistance(dad, boy);
    assert Straight(mom, dad, boy, girl) <==> momBoy + dadGirl <= momGirl + dadBoy;
    if momBoy + dadGirl <= momGirl + dadBoy {
      newBoy := Compete(ids, boy, mom);
      newGirl := Compete(ids, girl, dad);
    } else {
      newBoy := Compete(ids, boy, dad);
      newGirl := Compete(ids, girl, mom);
    }
  }

  /** Pass `t` of the loop, on the slots the earlier passes left as they were. */
  method CrowdPass(ids: IdSource, parent: seq<Individual>, ghost child: seq<Individual>, out: seq<Individual>,
                   t: nat) returns (boy: Individual, girl: Individual)
    requires CrowdingReady(parent, child) && t < Passes(child) && |out| == |child|
    requires out[2 * t] == child[2 * t] && out[2 * t + 1] == child[2 * t + 1]
    modifies ids
    ensures ((boy, girl), ids.lastId) == PassAt(parent, child, t, old(ids.lastId))
  {
    assert PairOk(parent, child, t);
    boy, girl := CrowdPair(ids, parent[2 * t], parent[2 * t + 1], out[2 * t], out[2 * t + 1]);
  }

  /**
   * The loop of `DeterministicCrowdingProblem.replaceIndividuals()`: for
   * `i = 0, 2, ...` while `i < size - 1`, children `i` and `i + 1` compete
   * with parents `i` and `i + 1`.
   */
  method CrowdingReplace(ids: IdSource, parent: seq<Individual>, child: seq<Individual>) returns (out: seq<Individual>)
    requires CrowdingReady(parent, child)
    modifies ids
    ensures out == Crowded(parent, child, old(ids.lastId))
    ensures ids.lastId == PassResults(parent, child, old(ids.lastId), Passes(child)).1
  {
    ghost var base := ids.lastId;
    ghost var rs: seq<(Individual, Individual)> := [];
    out := child;
    var i, t := 0, 0;
    while i < |child| - 1
      invariant i == 2 * t && t <= Passes(child)
      invariant (rs, ids.lastId) == PassResults(parent, child, base, t)
      invariant out == Written(child, rs)
      decreases |child| - i
    {
      WrittenPast(child, rs, i);
      WrittenPast(child, rs, i + 1);
      var boy, girl := CrowdPass(ids, parent, child, out, t);
      out := out[i := boy][i + 1 := girl];
      rs := rs + [(boy, girl)];
      assert rs[..t] == rs[..|rs| - 1];
      i, t := i + 2, t + 1;
    }
    assert t == Passes(child);
  }

  /** A contest never raises the fitness held in a slot, and leaves the slot as it was or a copy of the rival. */
  lemma ContestNoWorse(x: Individual, rival: Individual, id: nat)
    requires 1 <= |x.fitness| <= |rival.fitness|
    ensures var c := Contest(x, rival, id); |c.fitness| == |x.fitness| && c.fitness[0] <= x.fitness[0]
    ensures var c := Contest(x, rival, id); c == x || c.genotype == rival.genotype
  {
  }

  /**
   * `x`, in the slot where `c` was, keeps `c`'s number of values, has at
   * most its first value, and is `c` itself or a copy of `mom` or `dad`.
   */
  predicate NoWorseFrom(x: Individual, c: Individual, mom: Individual, dad: Individual)
  {
    |x.fitness| == |c.fitness| >= 1 && x.fitness[0] <= c.fitness[0] &&
    (x == c || x.genotype == mom.genotype || x.genotype == dad.genotype)
  }

  /**
   * After the replacement neither slot of pass `t` holds a higher fitness
   * than its child did, and each holds its child or a copy of one of the
   * pass's two parents.
   */
  lemma CrowdingKeepsBetter(parent: seq<Individual>, child: seq<Individual>, base: nat, t: nat)
    requires CrowdingReady(parent, child) && t < Passes(child)
    ensures var out, q := Crowded(parent, child, base), Quartet(parent, child, t);
      NoWorseFrom(out[2 * t], q.2, q.0, q.1) && NoWorseFrom(out[2 * t + 1], q.3, q.0, q.1)
  {
    var q := Quartet(parent, child, t);
    var r := Rivals(parent, child, t);
    var last := PassResults(parent, child, base, t).1;
    var rs := PassResults(parent, child, base, Passes(child)).0;
    PassResultsPrefix(parent, child, base, Passes(child), t);
    WrittenPair(child, rs, t);
    ContestNoWorse(q.2, r.0, last + 1);
    ContestNoWorse(q.3, r.1, last + 1 + Copies(q.2, r.0));
  }

  /** A last unpaired child, if any, is kept as it was. */
  lemma CrowdingKeepsUnpaired(parent: seq<Individual>, child: seq<Individual>, base: nat)
    requires CrowdingReady(parent, child)
    ensures forall j :: 2 * Passes(child) <= j < |child| ==> Crowded(parent, child, base)[j] == child[j]
  {
    forall j | 2 * Passes(child) <= j < |child|
      ensures Crowded(parent, child, base)[j] == child[j]
    {
      WrittenPast(child, PassResults(parent, child, base, Passes(child)).0, j);
    }
  }
}
