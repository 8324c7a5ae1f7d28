/** The `Population` class of geneticalgo/evolution.py: building the
    members, one generation of training (fitness, best member, elites,
    selection, breeding, mutation), the training loop with its stopping
    rule, and loading saved genes. The games that score the networks and
    every random draw are parameters. */
module Evolution {
  import opened Wrappers
  import opened Seqs
  import opened Sorting
  import opened Chromosomes
  import Networks
  import Selection
  import Crossover
  import Mutation

  /** A population. `base` is the network `base_model()` returns, `best` the
      `best_model` of the last generation, `mean` and `prevMean` the mean
      fitness of the last generation and of the one before it. */
  datatype Population = Population(
    size: nat, nGenes: nat, base: Networks.Model,
    selection: Selection.Method, crossover: Crossover.Method, mutation: Mutation.Method,
    members: seq<Chromosome>, generation: nat, best: Option<Chromosome>,
    mean: real, prevMean: real, threshold: real)

  /** The shape every population keeps: `size` members of `nGenes` genes. */
  predicate WellFormed(p: Population)
  {
    && |p.members| == p.size
    && forall i :: 0 <= i < |p.members| ==> p.members[i].length == p.nGenes
  }

  /** The size, the gene count, the network factory and the three
      strategies agree. */
  predicate SameSetup(p: Population, q: Population)
  {
    && p.size == q.size && p.nGenes == q.nGenes && p.base == q.base
    && p.selection == q.selection && p.crossover == q.crossover && p.mutation == q.mutation
  }

  // ------------------------------------------------------------ initialisation

  /** The members of `initialize_population`, built in order; the first
      chromosome whose network rejects its genes aborts the list. */
  function NewMembers(draws: seq<seq<real>>, base: Networks.Model): (r: Result<seq<Chromosome>>)
    ensures r.Ok? <==> forall s :: 0 <= s < |draws| ==> NewChromosome(draws[s], base).Ok?
    ensures r.Ok? ==> |r.value| == |draws|
    ensures r.Ok? ==> forall s :: 0 <= s < |draws| ==> r.value[s] == NewChromosome(draws[s], base).value
    ensures r.Err? ==> exists s :: 0 <= s < |draws| && NewChromosome(draws[s], base) == Err(r.error)
  {
    MapAll(genes => NewChromosome(genes, base), draws)
  }

  /** `Population(size, n_genes, base_model, ...)`: `size` chromosomes whose
      genes are the random draws, each configuring a fresh network; a
      network of the wrong parameter count fails its assertion. */
  function Init(size: nat, nGenes: nat, base: Networks.Model, selection: Selection.Method,
                crossover: Crossover.Method, mutation: Mutation.Method, draws: seq<seq<real>>): (r: Result<Population>)
    requires |draws| == size && forall s :: 0 <= s < size ==> |draws[s]| == nGenes
    ensures size > 0 && base.nParams != nGenes ==> r == Err(AssertionError)
    ensures Networks.Initialized(base) && base.nParams == nGenes ==> r.Ok?
    ensures r.Ok? ==> var p := r.value;
      && WellFormed(p) && p.size == size && p.nGenes == nGenes && p.base == base
      && p.selection == selection && p.crossover == crossover && p.mutation == mutation
      && p.generation == 0 && p.best.None? && p.mean == 1.0 && p.prevMean == 1.0 && p.threshold == 0.0
    ensures r.Ok? ==> forall s :: 0 <= s < size ==>
      var c := r.value.members[s];
      c.genes == draws[s] && c.fitness == 0.0 && c.detached.None? && Consistent(c)
  {
    assert Networks.Initialized(base) && base.nParams == nGenes ==>
        forall s :: 0 <= s < size ==> NewChromosome(draws[s], base).Ok? by {
      if Networks.Initialized(base) && base.nParams == nGenes {
        forall s | 0 <= s < size ensures NewChromosome(draws[s], base).Ok? {
          Networks.SetParamsSucceeds(base, draws[s]);
        }
      }
    }
    var members :- NewMembers(draws, base);
    Ok(Population(size, nGenes, base, selection, crossover, mutation, members, 0, None, 1.0, 1.0, 0.0))
  }

  // --------------------------------------------------------------- fitness

  /** The fitness pass of `train_population`: each member's network plays a
      game and the score becomes the member's `fitness`. `play(i, params)`
      is the score of the game played for member `i` by a network reading
      `params`, which is what the network of a chromosome reads. */
  function Scored(members: seq<Chromosome>, play: (nat, seq<real>) -> real): (r: seq<Chromosome>)
    ensures |r| == |members|
    ensures forall i :: 0 <= i < |members| ==> r[i] == members[i].(fitness := play(i, ModelParams(members[i])))
    ensures (forall i :: 0 <= i < |members| ==> Consistent(members[i])) ==>
      forall i :: 0 <= i < |r| ==> Consistent(r[i])
  {
    seq(|members|, i requires 0 <= i < |members| => members[i].(fitness := play(i, ModelParams(members[i]))))
  }

  /** `[m.fitness for m in population]`. */
  function Fitnesses(members: seq<Chromosome>): (r: seq<real>)
    ensures |r| == |members| && forall i :: 0 <= i < |members| ==> r[i] == members[i].fitness
  {
    seq(|members|, i requires 0 <= i < |members| => members[i].fitness)
  }

  /** `_best_fitness`: the first member of highest fitness, and the mean
      fitness. `max` of an empty list raises. */
  function BestFitness(members: seq<Chromosome>): (r: Result<(Chromosome, real)>)
    ensures r.Err? <==> |members| == 0
    ensures r.Err? ==> r.error == ValueError
    ensures r.Ok? ==> exists k :: (0 <= k < |members| && r.value.0 == members[k]
      && (forall i :: 0 <= i < |members| ==> members[i].fitness <= members[k].fitness)
      && (forall i :: 0 <= i < k ==> members[i].fitness < members[k].fitness))
    ensures r.Ok? ==> r.value.1 == SumReal(Fitnesses(members)) / (|members| as real)
  {
    if |members| == 0 then Err(ValueError)
    else
      var fits := Fitnesses(members);
      var k := ArgMaxFirst(fits);
      Ok((members[k], SumReal(fits) / (|members| as real)))
  }

  /** `_stopping_condition(threshold)`: never before generation 10; then the
      relative change of the mean fitness against the threshold. A previous
      mean of zero makes numpy's quotient infinite or `nan`, which compares
      false. */
  function StoppingCondition(p: Population): (stop: bool)
    ensures stop ==> p.generation >= 10 && p.prevMean != 0.0
  {
    if p.generation < 10 then false
    else if p.prevMean == 0.0 then false
    else Abs(p.mean - p.prevMean) / p.prevMean < p.threshold
  }

  /** From generation 10 on, with a positive previous mean, training stops
      exactly when the mean moved by less than `threshold` times the
      previous mean. */
  lemma StoppingRelative(p: Population)
    requires p.generation >= 10 && p.prevMean > 0.0
    ensures StoppingCondition(p) <==> Abs(p.mean - p.prevMean) < p.threshold * p.prevMean
  {
    QuotientBelow(Abs(p.mean - p.prevMean), p.prevMean, p.threshold);
  }

  function Abs(x: real): (r: real)
    ensures r >= 0.0 && (r == x || r == -x)
  {
    if x < 0.0 then -x else x
  }

  /** For a positive divisor, `a / b < t` exactly when `a < t * b`. */
  lemma QuotientBelow(a: real, b: real, t: real)
    requires b > 0.0
    ensures a / b < t <==> a < t * b
  {
    assert a == (a / b) * b;
    if a / b < t {
      assert (t - a / b) * b > 0.0 by { Selection.TimesPositive(t - a / b, b); }
    } else {
      assert (a / b - t) * b >= 0.0 by {
        if a / b - t > 0.0 { Selection.TimesPositive(a / b - t, b); }
      }
    }
  }

  /** Half a percent of change after twelve generations stops training at a
      one percent threshold; the same change after eight does not. */
  lemma StoppingExamples(p: Population)
    requires p.prevMean == 100.0 && p.mean == 100.5 && p.threshold == 0.01
    ensures StoppingCondition(p.(generation := 12))
    ensures !StoppingCondition(p.(generation := 8))
  {
    assert Abs(100.5 - 100.0) / 100.0 == 0.005;
  }

  // ---------------------------------------------------------------- elitism

  /** `int(x)`: truncation toward zero. */
  function Trunc(x: real): (r: int)
    ensures x >= 0.0 ==> 0 <= r && r as real <= x < r as real + 1.0
    ensures x < 0.0 ==> r <= 0 && r as real - 1.0 < x <= r as real
  {
    if x >= 0.0 then x.Floor else -((-x).Floor)
  }

  /** The length of `s[:t]` for a list of length `n`: a negative stop counts
      from the end. */
  function SliceEnd(n: nat, t: int): (r: nat)
    ensures r <= n
    ensures 0 <= t ==> r == (if t < n then t else n)
    ensures t < 0 ==> r == (if n + t > 0 then n + t else 0)
  {
    if t >= 0 then (if t < n then t else n)
    else if n + t > 0 then n + t else 0
  }

  /** The number of elites, `len(residents[:int(elitism * size)])`. */
  function EliteCount(n: nat, size: nat, elitism: real): nat
  {
    SliceEnd(n, Trunc(elitism * (size as real)))
  }

  /** `_get_elites(elitism)` as positions: the members sorted by fitness,
      highest first and ties in population order (Python's sort is stable
      in reverse too), cut after `int(elitism * size)`. Every elite precedes
      every other member in that order, so no member outside the elites is
      fitter than one inside. */
  function ElitePositions(fits: seq<real>, size: nat, elitism: real): (r: seq<nat>)
    ensures |r| == EliteCount(|fits|, size, elitism)
    ensures SortedBy(fits, true, r)
    ensures forall i, j :: 0 <= i < |r| && 0 <= j < |fits| && j !in r ==> Precedes(fits, true, r[i], j)
    ensures forall i, j :: 0 <= i < |r| && 0 <= j < |fits| && j !in r ==> fits[j] <= fits[r[i]]
  {
    var order := SortPositions(fits, true);
    var stop := EliteCount(|fits|, size, elitism);
    PrefixPrecedesRest(fits, order, stop);
    order[..stop]
  }

  /** In a sorted permutation of the positions, each of the first `stop`
      entries precedes every position left out of them. */
  lemma PrefixPrecedesRest(fits: seq<real>, order: seq<nat>, stop: nat)
    requires SortedBy(fits, true, order) && multiset(order) == multiset(Range(|fits|))
    requires stop <= |order|
    ensures forall i, j :: 0 <= i < stop && 0 <= j < |fits| && j !in order[..stop] ==> Precedes(fits, true, order[i], j)
  {
    RangePermutation(order, |fits|);
    forall i, j | 0 <= i < stop && 0 <= j < |fits| && j !in order[..stop]
      ensures Precedes(fits, true, order[i], j)
    {
      assert j in order;
      var q :| 0 <= q < |order| && order[q] == j;
    }
  }

  /** Elites are distinct members. */
  lemma ElitesDistinct(fits: seq<real>, size: nat, elitism: real)
    ensures var r := ElitePositions(fits, size, elitism);
      forall i, j :: 0 <= i < j < |r| ==> r[i] != r[j]
  {
    SortedDistinct(fits, true, ElitePositions(fits, size, elitism));
  }

  /** Without elitism there are no elites, and with `elitism = 1` the whole
      population is kept in fitness order. */
  lemma EliteCountBounds(size: nat)
    ensures EliteCount(size, size, 0.0) == 0
    ensures EliteCount(size, size, 1.0) == size
  {
    assert 0.0 * (size as real) == 0.0;
    assert 1.0 * (size as real) == size as real;
  }

  // -------------------------------------------------------------- breeding

  /** The draws of one generation: the games, and per child one parent draw,
      one crossover draw and one mutation draw. */
  datatype GenerationDraws = GenerationDraws(
    play: (nat, seq<real>) -> real,
    select: seq<Selection.PairDraw>,
    cross: seq<Crossover.Draws>,
    mutate: seq<Mutation.Draws>)

  /** There are draws for a full population of children, each in the range
      its random source produces. */
  predicate DrawsFit(p: Population, g: GenerationDraws)
  {
    && |g.select| >= p.size && |g.cross| >= p.size && |g.mutate| >= p.size
    && (forall k :: 0 <= k < |g.select| ==> Selection.DrawFits(p.selection, p.size, g.select[k]))
    && (forall k :: 0 <= k < |g.cross| ==> Crossover.DrawsFit(p.crossover, p.nGenes, g.cross[k]))
    && (forall k :: 0 <= k < |g.mutate| ==> Mutation.DrawsFit(p.mutation, p.nGenes, g.mutate[k]))
  }

  /** Draws that fit a population fit any population of the same setup. */
  lemma SetupDrawsFit(p: Population, q: Population, g: GenerationDraws)
    requires SameSetup(p, q) && DrawsFit(p, g)
    ensures DrawsFit(q, g)
  {
  }

  /** Every pair names members. */
  predicate PairsIn(pairs: seq<seq<nat>>, n: nat)
  {
    forall k, j :: 0 <= k < |pairs| && 0 <= j < |pairs[k]| ==> pairs[k][j] < n
  }

  /** `breed(pair[0], pair[1])` for one selected pair; a pair of fewer than
      two members fails on the subscript. */
  function BreedPair(members: seq<Chromosome>, pair: seq<nat>, m: Crossover.Method,
                     d: Crossover.Draws, base: Networks.Model, n: nat): (r: Result<Chromosome>)
    requires forall j :: 0 <= j < |pair| ==> pair[j] < |members|
    requires forall i :: 0 <= i < |members| ==> members[i].length == n
    requires Crossover.DrawsFit(m, n, d)
    ensures |pair| < 2 ==> r == Err(IndexError)
    ensures |pair| >= 2 ==> r == Crossover.Breed(members[pair[0]], members[pair[1]], m, d, base)
    ensures r.Ok? ==> var c := r.value;
      c.length == n && c.fitness == 0.0 && c.detached.None? && Consistent(c)
  {
    if |pair| < 2 then Err(IndexError)
    else Crossover.Breed(members[pair[0]], members[pair[1]], m, d, base)
  }

  /** The pairs of parents for `count` children, drawn with
      `select_parent_generation`; every pair names scored members. */
  function ParentPairs(p: Population, g: GenerationDraws, fits: seq<real>, count: int): (r: Result<seq<seq<nat>>>)
    requires WellFormed(p) && DrawsFit(p, g) && count <= p.size && |fits| == p.size
    ensures r.Ok? ==> |r.value| == (if count < 0 then 0 else count) && PairsIn(r.value, p.size)
  {
    var pairs :- Selection.SelectParentGeneration(Picker(p, fits), count, g.select);
    assert PairsIn(pairs, p.size) by {
      forall k, j | 0 <= k < |pairs| && 0 <= j < |pairs[k]| ensures pairs[k][j] < p.size {
        assert pairs[k] == Selection.SelectParents(p.selection, fits, g.select[k]).value;
      }
    }
    Ok(pairs)
  }

  /** A child in the shape the next generation needs: `nGenes` genes, no
      file of its own and a network reading its genes. */
  predicate Fresh(c: Chromosome, n: nat)
  {
    c.length == n && c.detached.None? && Consistent(c)
  }

  /** `[breed(pair[0], pair[1]) for pair in parents]`. */
  function BreedChildren(p: Population, g: GenerationDraws, scored: seq<Chromosome>, pairs: seq<seq<nat>>): (r: Result<seq<Chromosome>>)
    requires WellFormed(p) && DrawsFit(p, g) && |pairs| <= p.size && PairsIn(pairs, |scored|)
    requires forall i :: 0 <= i < |scored| ==> scored[i].length == p.nGenes
    ensures r.Ok? ==> |r.value| == |pairs| && forall k :: 0 <= k < |r.value| ==> Fresh(r.value[k], p.nGenes)
  {
    var breed := (pair: seq<nat>, d: Crossover.Draws)
      requires (forall j :: 0 <= j < |pair| ==> pair[j] < |scored|) && Crossover.DrawsFit(p.crossover, p.nGenes, d) =>
      BreedPair(scored, pair, p.crossover, d, p.base, p.nGenes);
    assert forall k :: 0 <= k < |pairs| ==> breed.requires(pairs[k], g.cross[k]);
    var children :- MapPairs(breed, pairs, g.cross);
    assert forall k :: 0 <= k < |children| ==> Fresh(children[k], p.nGenes) by {
      forall k | 0 <= k < |children| ensures Fresh(children[k], p.nGenes) {
        assert children[k] == BreedPair(scored, pairs[k], p.crossover, g.cross[k], p.base, p.nGenes).value;
      }
    }
    Ok(children)
  }

  /** `[mutate(child) for child in children]`: mutation keeps every child
      in shape. */
  function MutateChildren(p: Population, g: GenerationDraws, children: seq<Chromosome>): (r: Result<seq<Chromosome>>)
    requires WellFormed(p) && DrawsFit(p, g) && |children| <= p.size
    requires forall k :: 0 <= k < |children| ==> Fresh(children[k], p.nGenes)
    ensures r.Ok? ==> |r.value| == |children| && forall k :: 0 <= k < |r.value| ==> Fresh(r.value[k], p.nGenes)
  {
    var mutate := (c: Chromosome, d: Mutation.Draws)
      requires Mutation.DrawsFit(p.mutation, c.length, d) => Mutation.Mutate(p.mutation, c, d);
    assert forall k :: 0 <= k < |children| ==> mutate.requires(children[k], g.mutate[k]) by {
      forall k | 0 <= k < |children| ensures mutate.requires(children[k], g.mutate[k]) {
        assert Fresh(children[k], p.nGenes);
      }
    }
    var mutated :- MapPairs(mutate, children, g.mutate);
    assert forall k :: 0 <= k < |mutated| ==> Fresh(mutated[k], p.nGenes) by {
      forall k | 0 <= k < |mutated| ensures Fresh(mutated[k], p.nGenes) {
        assert Fresh(children[k], p.nGenes);
        assert mutated[k] == Mutation.Mutate(p.mutation, children[k], g.mutate[k]).value;
      }
    }
    Ok(mutated)
  }

  /** Selection, breeding and mutation of `count` children from the scored
      members. Every child has `nGenes` genes and a network reading them. */
  function Children(p: Population, g: GenerationDraws, scored: seq<Chromosome>, count: int): (r: Result<seq<Chromosome>>)
    requires WellFormed(p) && DrawsFit(p, g) && count <= p.size
    requires |scored| == p.size && forall i :: 0 <= i < |scored| ==> scored[i].length == p.nGenes
    ensures r.Ok? ==> |r.value| == (if count < 0 then 0 else count)
    ensures r.Ok? ==> forall i :: 0 <= i < |r.value| ==> Fresh(r.value[i], p.nGenes)
  {
    var pairs :- ParentPairs(p, g, Fitnesses(scored), count);
    var children :- BreedChildren(p, g, scored, pairs);
    MutateChildren(p, g, children)
  }

  // ------------------------------------------------------------- generation

  /** The selector `select_parent_generation` calls, over the scored members. */
  function Picker(p: Population, fits: seq<real>): (pick: Selection.PairDraw --> Result<seq<nat>>)
    requires |fits| == p.size
    ensures forall d :: Selection.DrawFits(p.selection, p.size, d) ==> pick.requires(d)
  {
    Selection.Selector(p.selection, fits)
  }

  /** One pass of the `train_population` loop: score every member, record
      the previous mean, find the best member and the mean, keep the elites,
      select a parent pair for every remaining place, breed a child from
      each pair and mutate it. The new population is the elites followed by
      the children. */
  function Step(p: Population, g: GenerationDraws, elitism: real): (r: Result<Population>)
    requires WellFormed(p) && DrawsFit(p, g)
    ensures p.size == 0 ==> r == Err(ValueError)
    ensures r.Ok? ==> var q := r.value;
      && WellFormed(q) && SameSetup(p, q) && q.threshold == p.threshold
      && q.generation == p.generation + 1 && q.prevMean == p.mean
    ensures r.Ok? ==> var q := r.value; var scored := Scored(p.members, g.play);
      && BestFitness(scored).Ok? && q.best == Some(BestFitness(scored).value.0)
      && q.mean == BestFitness(scored).value.1
    ensures r.Ok? && (forall i :: 0 <= i < |p.members| ==> Consistent(p.members[i])) ==>
      forall i :: 0 <= i < |r.value.members| ==> Consistent(r.value.members[i])
  {
    var scored := Scored(p.members, g.play);
    var bm :- BestFitness(scored);
    var elites := ElitePositions(Fitnesses(scored), p.size, elitism);
    var children :- Children(p, g, scored, p.size - |elites|);
    var q := Successor(p, scored, bm, elites, children);
    assert (forall i :: 0 <= i < |p.members| ==> Consistent(p.members[i])) ==>
      forall i :: 0 <= i < |q.members| ==> Consistent(q.members[i]);
    Ok(q)
  }

  /** The new population starts with the elites, copied from the scored
      members, and continues with freshly bred children. */
  lemma StepKeepsElites(p: Population, g: GenerationDraws, elitism: real)
    requires WellFormed(p) && DrawsFit(p, g) && Step(p, g, elitism).Ok?
    ensures var q := Step(p, g, elitism).value; var scored := Scored(p.members, g.play);
      var e := ElitePositions(Fitnesses(scored), p.size, elitism);
      && |e| <= |q.members|
      && (forall i :: 0 <= i < |e| ==> q.members[i] == scored[e[i]])
      && (forall i :: |e| <= i < |q.members| ==> q.members[i].detached.None?)
  {
  }

  /** The population after a generation: the elites of the scored members
      followed by the children, with the statistics of the scored members. */
  function Successor(p: Population, scored: seq<Chromosome>, bm: (Chromosome, real),
                     elites: seq<nat>, children: seq<Chromosome>): (q: Population)
    requires |scored| == p.size && forall i :: 0 <= i < |scored| ==> scored[i].length == p.nGenes
    requires forall i :: 0 <= i < |elites| ==> elites[i] < p.size
    requires |elites| + |children| == p.size
    requires forall i :: 0 <= i < |children| ==>
      children[i].length == p.nGenes && children[i].detached.None? && Consistent(children[i])
    ensures
      && WellFormed(q) && SameSetup(p, q) && q.threshold == p.threshold
      && q.generation == p.generation + 1 && q.prevMean == p.mean
      && q.best == Some(bm.0) && q.mean == bm.1
      && (forall i :: 0 <= i < |elites| ==> q.members[i] == scored[elites[i]])
      && (forall i :: |elites| <= i < |q.members| ==> q.members[i].detached.None?)
    ensures (forall i :: 0 <= i < |scored| ==> Consistent(scored[i])) ==>
      forall i :: 0 <= i < |q.members| ==> Consistent(q.members[i])
  {
    var kept := seq(|elites|, i requires 0 <= i < |elites| => scored[elites[i]]);
    var members := kept + children;
    assert forall i :: 0 <= i < |members| ==>
      members[i] == if i < |kept| then scored[elites[i]] else children[i - |kept|];
    p.(members := members, generation := p.generation + 1,
       best := Some(bm.0), mean := bm.1, prevMean := p.mean)
  }

  // --------------------------------------------------------------- training

  /** How a run of the training loop ends: the loop finished (its cycle
      count ran out or the stopping rule fired), or the supplied draws ran
      out first. */
  datatype Outcome = Finished(pop: Population) | OutOfDraws(pop: Population)

  /** The `while cycle != 0` loop of `train_population`, one generation per
      entry of `gens`. A negative cycle count never reaches zero, so only the
      stopping rule ends such a run. */
  function TrainLoop(p: Population, cycle: int, elitism: real, gens: seq<GenerationDraws>): (r: Result<Outcome>)
    requires WellFormed(p) && forall k :: 0 <= k < |gens| ==> DrawsFit(p, gens[k])
    decreases |gens|
    ensures r.Ok? ==> WellFormed(r.value.pop) && SameSetup(p, r.value.pop) && r.value.pop.threshold == p.threshold
    ensures r.Ok? ==> p.generation <= r.value.pop.generation <= p.generation + |gens|
    ensures r.Ok? ==> r.value.pop == p || r.value.pop.best.Some?
    ensures cycle == 0 ==> r == Ok(Finished(p))
    ensures 0 <= cycle <= |gens| && r.Ok? ==>
      r.value.Finished? && r.value.pop.generation == p.generation + cycle
    ensures cycle < 0 && r.Ok? && r.value.Finished? ==> StoppingCondition(r.value.pop)
  {
    if cycle == 0 then Ok(Finished(p))
    else if |gens| == 0 then Ok(OutOfDraws(p))
    else
      var next :- Step(p, gens[0], elitism);
      var left := cycle - 1;
      if left < 0 && StoppingCondition(next) then Ok(Finished(next))
      else
        assert forall k :: 0 <= k < |gens[1..]| ==> DrawsFit(next, gens[1..][k]) by {
          forall k | 0 <= k < |gens[1..]| ensures DrawsFit(next, gens[1..][k]) {
            assert gens[1..][k] == gens[k + 1];
            SetupDrawsFit(p, next, gens[k + 1]);
          }
        }
        TrainLoop(next, left, elitism, gens[1..])
  }

  /** `train_population(cycle, elitism, verbose, stopping_threshold)`: sets
      the threshold and runs the loop. The closing report reads the best
      member's fitness, which fails when no generation ever ran. */
  function Train(p: Population, cycle: int, elitism: real, threshold: real, verbose: bool,
                 gens: seq<GenerationDraws>): (r: Result<Outcome>)
    requires WellFormed(p) && forall k :: 0 <= k < |gens| ==> DrawsFit(p, gens[k])
    ensures cycle == 0 && verbose && p.best.None? ==> r == Err(AttributeError)
    ensures cycle == 0 && !(verbose && p.best.None?) ==> r == Ok(Finished(p.(threshold := threshold)))
    ensures r.Ok? ==> WellFormed(r.value.pop) && r.value.pop.threshold == threshold
    ensures 0 < cycle <= |gens| && r.Ok? ==>
      r.value.Finished? && r.value.pop.generation == p.generation + cycle && r.value.pop.best.Some?
    ensures cycle < 0 && r.Ok? && r.value.Finished? ==>
      r.value.pop.generation >= 10 && StoppingCondition(r.value.pop)
  {
    var start := p.(threshold := threshold);
    forall k | 0 <= k < |gens| ensures DrawsFit(start, gens[k]) {
      SetupDrawsFit(p, start, gens[k]);
    }
    var out :- TrainLoop(start, cycle, elitism, gens);
    if out.Finished? && verbose && out.pop.best.None? then Err(AttributeError) else Ok(out)
  }

  /** A run without a cycle limit that starts at generation 0 and finishes
      has run at least ten generations, one set of draws each. */
  lemma UnlimitedRunsTenGenerations(p: Population, elitism: real, threshold: real, verbose: bool,
                                    gens: seq<GenerationDraws>)
    requires WellFormed(p) && p.generation == 0 && forall k :: 0 <= k < |gens| ==> DrawsFit(p, gens[k])
    requires Train(p, -1, elitism, threshold, verbose, gens).Ok?
    requires Train(p, -1, elitism, threshold, verbose, gens).value.Finished?
    ensures |gens| >= 10
  {
  }

  // ---------------------------------------------------------------- loading

  /** `load_population(existing)` as written: asserts one gene list per
      member and gives each member its list with `write_genes`. The networks
      keep reading the arrays they were configured with. */
  function LoadPopulation(p: Population, existing: seq<seq<real>>): (r: Result<Population>)
    ensures |existing| != |p.members| ==> r == Err(AssertionError)
    ensures |existing| == |p.members| ==> r.Ok?
    ensures r.Ok? ==> var q := r.value;
      && q == p.(members := q.members) && |q.members| == |p.members|
      && forall i :: 0 <= i < |q.members| ==>
           && q.members[i].genes == existing[i]
           && ModelParams(q.members[i]) == ModelParams(p.members[i])
           && q.members[i].length == p.members[i].length
           && q.members[i].net == p.members[i].net
           && (Consistent(p.members[i]) ==> Consistent(q.members[i]))
  {
    if |existing| != |p.members| then Err(AssertionError)
    else
      Ok(p.(members := seq(|existing|, i requires 0 <= i < |existing| => WriteGenes(p.members[i], existing[i]))))
  }

  /** Loading keeps the population's shape. */
  lemma LoadKeepsWellFormed(p: Population, existing: seq<seq<real>>)
    requires WellFormed(p) && |existing| == |p.members|
    ensures WellFormed(LoadPopulation(p, existing).value)
  {
  }

  /** After loading, a freshly built member whose loaded genes differ from
      its old ones has a network that does not read its genes. */
  lemma LoadLeavesNetworkStale(p: Population, existing: seq<seq<real>>, i: nat)
    requires |existing| == |p.members| && i < |p.members|
    requires p.members[i].detached.None? && existing[i] != p.members[i].genes
    ensures var c := LoadPopulation(p, existing).value.members[i];
      ModelParams(c) != c.genes
  {
  }

  /** The next fitness pass after loading scores every member with the
      parameters it had before, whatever genes were loaded. */
  lemma LoadedFitnessIgnoresLoadedGenes(p: Population, a: seq<seq<real>>, b: seq<seq<real>>,
                                        play: (nat, seq<real>) -> real)
    requires |a| == |b| == |p.members|
    ensures Fitnesses(Scored(LoadPopulation(p, a).value.members, play))
         == Fitnesses(Scored(LoadPopulation(p, b).value.members, play))
    ensures forall i :: 0 <= i < |p.members| ==>
      Scored(LoadPopulation(p, a).value.members, play)[i].fitness == play(i, ModelParams(p.members[i]))
  {
  }

  /** One member loaded as evidently intended: the genes are written and the
      network is configured from them again. */
  function LoadMember(c: Chromosome, genes: seq<real>): (r: Result<Chromosome>)
    ensures c.net.nParams != |genes| ==> r == Err(AssertionError)
    ensures r.Ok? <==> Networks.SetParams(c.net, genes).Ok?
    ensures r.Ok? ==> var d := r.value;
      && d.genes == genes && ModelParams(d) == genes && Consistent(d)
      && d.length == c.length && d.fitness == c.fitness
  {
    var net :- Networks.SetParams(c.net, genes);
    SetParamsAgain(c.net, genes);
    Ok(c.(genes := genes, net := net, detached := None))
  }

  /** `load_population(existing)` as evidently intended: every member gets
      its gene list and a network configured from it. */
  function LoadPopulationConfigured(p: Population, existing: seq<seq<real>>): (r: Result<Population>)
    ensures |existing| != |p.members| ==> r == Err(AssertionError)
    ensures r.Ok? ==> var q := r.value;
      && q == p.(members := q.members) && |q.members| == |p.members|
      && forall i :: 0 <= i < |q.members| ==>
           && q.members[i].genes == existing[i] && ModelParams(q.members[i]) == existing[i]
           && Consistent(q.members[i]) && q.members[i].length == p.members[i].length
  {
    if |existing| != |p.members| then Err(AssertionError)
    else
      var members :- MapPairs(LoadMember, p.members, existing);
      assert forall i :: 0 <= i < |members| ==> members[i] == LoadMember(p.members[i], existing[i]).value;
      Ok(p.(members := members))
  }

  /** A consistent population accepts any gene lists of the lengths its
      networks read. */
  lemma LoadConfiguredSucceeds(p: Population, existing: seq<seq<real>>)
    requires |existing| == |p.members|
    requires forall i :: 0 <= i < |p.members| ==>
      Consistent(p.members[i]) && |existing[i]| == |ModelParams(p.members[i])|
    ensures LoadPopulationConfigured(p, existing).Ok?
  {
    forall i | 0 <= i < |p.members| ensures LoadMember(p.members[i], existing[i]).Ok? {
      Networks.SetParamsLengthOnly(p.members[i].net, ModelParams(p.members[i]), existing[i]);
    }
  }

  /** After the corrected load the next fitness pass scores the loaded genes. */
  lemma LoadedConfiguredFitnessUsesLoadedGenes(p: Population, existing: seq<seq<real>>,
                                               play: (nat, seq<real>) -> real)
    requires LoadPopulationConfigured(p, existing).Ok?
    ensures forall i :: 0 <= i < |p.members| ==>
      Scored(LoadPopulationConfigured(p, existing).value.members, play)[i].fitness == play(i, existing[i])
  {
  }
}
