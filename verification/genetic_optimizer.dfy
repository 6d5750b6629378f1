/** `GeneticAlgorithmOptimizer.optimize` of optimization/genetic_algorithm.py:
    validate, build the distance table, evolve the initial population
    generation by generation, and turn the best individual of the last
    population into the solution. `Optimize` evolves with the generation as
    written; `OptimizeCorrected` with the corrected breeding. The initial
    population comes from the configured initialization strategy and is an
    argument here, as are the random draws of every generation. */
module GeneticOptimizer {
  import opened Wrappers
  import opened Seqs
  import opened Types
  import opened Distance
  import opened Config
  import opened Validators
  import opened Genetic
  import opened Breeding
  import Fitness
  import GreedyOptimizer

  /** The prefix `optimize` puts in front of every error it re-raises. */
  const FailurePrefix: string := "Erro durante otimiza\U{e7}\U{e3}o: "

  /** `range(config.population_size)`: how many individuals are created,
      and the `k` of the elitist `selBest`. */
  function Size(config: OptimizationConfig): nat
  {
    if config.populationSize > 0 then config.populationSize else 0
  }

  /** `_evaluate_individual` as a function of the routes. */
  function Scorer(env: Env): Routes -> real
  {
    x => Score(env, x)
  }

  /** Selection, crossover and mutation of generation g, with that
      generation's draws. */
  function Breeder(env: Env, rng: nat -> Rolls, config: OptimizationConfig): (nat, seq<Routes>) -> seq<Routes>
  {
    (g: nat, p: seq<Routes>) =>
      Breed(p, Scorer(env), rng(g), config.crossoverRate, config.mutationRate, Index(env.deliveries), env.vehicles)
  }

  /** The loop before its first generation. */
  function Start(initial: seq<Routes>): Evolution
  {
    Evolution(initial, [], None, 0, 0)
  }

  /** With at least one vehicle the breeding keeps every covering
      population covering. */
  lemma BreederCloses(env: Env, rng: nat -> Rolls, config: OptimizationConfig)
    requires |env.vehicles| > 0
    ensures BreedCloses(Breeder(env, rng, config), Ids(env.deliveries))
  {
    var ids := Ids(env.deliveries);
    var m := Index(env.deliveries);
    IndexKeys(env.deliveries);
    assert forall y :: y in ids ==> y in m;
    var breed := Breeder(env, rng, config);
    forall g, p | AllCover(p, ids)
      ensures AllCover(breed(g, p), ids)
    {
      BreedCovers(p, Scorer(env), rng(g), config.crossoverRate, config.mutationRate, m, env.vehicles, ids);
    }
  }

  /** The first pick of `selBest(population, 1)` scores the minimum of the
      population and is one of its members. */
  lemma BestOfPopulation(pop: seq<Routes>, score: Routes -> real)
    requires |pop| > 0
    ensures |SelBest(pop, 1, score)| == 1
    ensures score(SelBest(pop, 1, score)[0]) == Least(pop, score)
    ensures SelBest(pop, 1, score)[0] in multiset(pop)
  {
    var top := SelBest(pop, 1, score);
    SelBestKeepsLeast(pop, 1, score);
    assert Least(top, score) == score(top[0]);
    assert top[0] in multiset(top);
  }

  /** Selection, crossover, mutation and replacement as written of
      generation g, with that generation's draws, on the population of
      objects. */
  function BreederAsWritten(env: Env, rng: nat -> Rolls, config: OptimizationConfig)
    : (nat, Population) -> Result<Population>
  {
    (g: nat, p: Population) =>
      NextAsWritten(p, Size(config), Scorer(env), rng(g), config.crossoverRate, config.mutationRate,
                    Index(env.deliveries), env.vehicles)
  }

  /** The run as written from the initial population, whose individuals
      are distinct objects. */
  function RunAsWritten(env: Env, rng: nat -> Rolls, config: OptimizationConfig, initial: seq<Routes>)
    : Result<Evolution>
    requires config.generations > 0
  {
    EvolveAsWritten(Start(initial), Created(initial), BreederAsWritten(env, rng, config),
                    config.maxIterationsWithoutImprovement, config.generations, Scorer(env))
  }

  /** What a successful run as written leaves behind: a consistent state
      after at least one generation and at most `generations`, stopped early
      only on a stalled counter. */
  lemma RunOutcome(env: Env, rng: nat -> Rolls, config: OptimizationConfig, initial: seq<Routes>, f: Evolution)
    requires config.generations > 0
    requires RunAsWritten(env, rng, config, initial) == Success(f)
    ensures KeptAsWritten(f, Scorer(env)) && 0 < f.ran <= config.generations
    ensures f.ran < config.generations ==> Stalled(config.maxIterationsWithoutImprovement, f.stall)
  {
    EvolveAsWrittenKept(Start(initial), Created(initial), BreederAsWritten(env, rng, config),
                        config.maxIterationsWithoutImprovement, config.generations, Scorer(env), f);
  }

  /** How the run as written starts: an empty population fails on `min`;
      with at least one vehicle, a covering population of at least two ids
      fails with AttributeError when a pair of the first generation draws
      below the crossover rate; and a single generation that crosses no pair
      succeeds. */
  lemma RunCases(env: Env, rng: nat -> Rolls, config: OptimizationConfig, initial: seq<Routes>)
    requires |initial| == Size(config) && config.generations > 0 && |env.vehicles| > 0
    ensures config.populationSize <= 0 ==> RunAsWritten(env, rng, config, initial) == Failure(ValueError(EmptyMin))
    ensures AllCover(initial, Ids(env.deliveries)) && |env.deliveries| >= 2
              && (exists p: nat :: 2 * p + 1 < |initial| && rng(0).cross(p) < config.crossoverRate) ==>
              RunAsWritten(env, rng, config, initial) == Failure(AttributeError("list", "fitness"))
    ensures config.generations == 1 && config.populationSize > 0 && AllCover(initial, Ids(env.deliveries))
              && (|env.deliveries| < 2 || forall p: nat :: 2 * p + 1 < |initial| ==> config.crossoverRate <= rng(0).cross(p)) ==>
              RunAsWritten(env, rng, config, initial).Success?
  {
    if config.populationSize <= 0 {
      RunEmpty(env, rng, config, initial);
    }
    if AllCover(initial, Ids(env.deliveries)) {
      RunFirstGeneration(env, rng, config, initial);
    }
  }

  /** The first generation as written breeds the initial population, of
      distinct objects, with the draws of generation 0: it raises exactly
      when a selected pair is crossed, and otherwise keeps `population_size`
      references, or all of them when there are fewer. */
  lemma FirstBreeding(env: Env, rng: nat -> Rolls, config: OptimizationConfig, initial: seq<Routes>)
    requires |env.vehicles| > 0
    ensures var r := BreederAsWritten(env, rng, config)(0, Created(initial));
            var sel := SelectRefs(initial, Scorer(env), rng(0));
            (r.Failure? <==> exists p :: PairCrosses(initial, sel, 0, p, rng(0), config.crossoverRate))
            && (r.Failure? ==> r.error == AttributeError("list", "fitness"))
            && (r.Success? ==> |r.value.refs| == if Size(config) <= 2 * |initial| then Size(config) else 2 * |initial|)
            && (|initial| == 0 ==> r.Success?)
  {
    var sel := SelectRefs(initial, Scorer(env), rng(0));
    IdentityValues(initial, sel);
    assert BreederAsWritten(env, rng, config)(0, Created(initial))
             == NextAsWritten(Created(initial), Size(config), Scorer(env), rng(0), config.crossoverRate,
                              config.mutationRate, Index(env.deliveries), env.vehicles);
    NextAsWrittenOutcome(Created(initial), Size(config), Scorer(env), rng(0), config.crossoverRate,
                         config.mutationRate, Index(env.deliveries), env.vehicles);
  }

  /** With no individuals the first generation fails on `min`. */
  lemma RunEmpty(env: Env, rng: nat -> Rolls, config: OptimizationConfig, initial: seq<Routes>)
    requires |initial| == Size(config) && config.generations > 0 && |env.vehicles| > 0
    requires config.populationSize <= 0
    ensures RunAsWritten(env, rng, config, initial) == Failure(ValueError(EmptyMin))
  {
    FirstBreeding(env, rng, config, initial);
    EvolveAsWrittenEmpty(Start(initial), Created(initial), BreederAsWritten(env, rng, config),
                         config.maxIterationsWithoutImprovement, config.generations, Scorer(env));
  }

  /** From a covering population the first generation raises when a pair
      of two or more ids draws below the rate, and a single generation that
      crosses no pair succeeds. */
  lemma RunFirstGeneration(env: Env, rng: nat -> Rolls, config: OptimizationConfig, initial: seq<Routes>)
    requires |initial| == Size(config) && config.generations > 0 && |env.vehicles| > 0
    requires AllCover(initial, Ids(env.deliveries))
    ensures |env.deliveries| >= 2 && (exists p: nat :: 2 * p + 1 < |initial| && rng(0).cross(p) < config.crossoverRate) ==>
              RunAsWritten(env, rng, config, initial) == Failure(AttributeError("list", "fitness"))
    ensures config.generations == 1 && config.populationSize > 0
              && (|env.deliveries| < 2 || forall p: nat :: 2 * p + 1 < |initial| ==> config.crossoverRate <= rng(0).cross(p)) ==>
              RunAsWritten(env, rng, config, initial).Success?
  {
    assert |Ids(env.deliveries)| == |env.deliveries|;
    CoveringPairsCross(initial, Scorer(env), rng(0), config.crossoverRate, Ids(env.deliveries));
    FirstBreeding(env, rng, config, initial);
    if BreederAsWritten(env, rng, config)(0, Created(initial)).Failure? {
      RunRaises(env, rng, config, initial);
    } else if config.generations == 1 && config.populationSize > 0 {
      RunSingle(env, rng, config, initial);
    }
  }

  /** A first generation that raises ends the run with its error. */
  lemma RunRaises(env: Env, rng: nat -> Rolls, config: OptimizationConfig, initial: seq<Routes>)
    requires config.generations > 0
    requires BreederAsWritten(env, rng, config)(0, Created(initial)).Failure?
    ensures RunAsWritten(env, rng, config, initial)
              == Failure(BreederAsWritten(env, rng, config)(0, Created(initial)).error)
  {
    EvolveAsWrittenRaises(Start(initial), Created(initial), BreederAsWritten(env, rng, config),
                          config.maxIterationsWithoutImprovement, config.generations, Scorer(env));
  }

  /** A single generation that succeeds with a non-empty population ends
      the run with success. */
  lemma RunSingle(env: Env, rng: nat -> Rolls, config: OptimizationConfig, initial: seq<Routes>)
    requires config.generations == 1
    requires BreederAsWritten(env, rng, config)(0, Created(initial)).Success?
    requires |BreederAsWritten(env, rng, config)(0, Created(initial)).value.refs| > 0
    ensures RunAsWritten(env, rng, config, initial).Success?
  {
    LastGenerationPasses(Start(initial), Created(initial), BreederAsWritten(env, rng, config),
                         config.maxIterationsWithoutImprovement, config.generations, Scorer(env));
  }

  /** The corrected run from the initial population. */
  function RunCorrected(env: Env, rng: nat -> Rolls, config: OptimizationConfig, initial: seq<Routes>)
    : Result<Evolution>
    requires config.generations > 0
  {
    Evolve(Start(initial), Breeder(env, rng, config), Size(config), config.maxIterationsWithoutImprovement,
           config.generations, Scorer(env))
  }

  /** What a successful corrected run leaves behind: a consistent state
      after at least one generation and at most `generations`, stopped early
      only on a stalled counter, and covering when the start did. */
  lemma RunCorrectedOutcome(env: Env, rng: nat -> Rolls, config: OptimizationConfig, initial: seq<Routes>, f: Evolution)
    requires config.generations > 0
    requires RunCorrected(env, rng, config, initial) == Success(f)
    ensures Consistent(f, Scorer(env)) && 0 < f.ran <= config.generations
    ensures f.ran < config.generations ==> Stalled(config.maxIterationsWithoutImprovement, f.stall)
    ensures |env.vehicles| > 0 && AllCover(initial, Ids(env.deliveries)) ==> AllCover(f.population, Ids(env.deliveries))
  {
    var breed := Breeder(env, rng, config);
    var patience := config.maxIterationsWithoutImprovement;
    assert Consistent(Start(initial), Scorer(env));
    EvolveConsistent(Start(initial), breed, Size(config), patience, config.generations, Scorer(env));
    if |env.vehicles| > 0 && AllCover(initial, Ids(env.deliveries)) {
      BreederCloses(env, rng, config);
      EvolveCovers(Start(initial), breed, Size(config), patience, config.generations, Scorer(env),
                   Ids(env.deliveries), f);
    }
  }

  /** The checks `optimize` makes before its loop, and the table it builds.
      Every failure is an optimization error with the prefix: a validation
      error, or with no generation to run the IndexError of
      `selBest([], 1)[0]` on an empty population, otherwise the unbound
      `generation` of `generation + 1`. */
  method Prepare(ds: seq<Delivery>, vs: seq<Vehicle>, depot: Point, geo: Metric, w: FitnessWeights,
                 num: Fitness.Numerics, config: OptimizationConfig, initial: seq<Routes>)
    returns (r: Result<Env>)
    requires |initial| == Size(config)
    ensures r.Success? <==> ValidDeliveries(ds) && ValidVehicles(vs) && config.generations > 0
    ensures r.Failure? ==> r.error.Optimization? && FailurePrefix <= r.error.reason
    ensures ValidDeliveries(ds) && ValidVehicles(vs) && config.generations <= 0 ==>
              r == Failure(Optimization(FailurePrefix +
                     (if config.populationSize > 0 then UnboundLocal("generation") else IndexError(IndexOutOfRange)).Message()))
    ensures r.Success? ==> r.value.deliveries == ds && r.value.vehicles == vs && |vs| > 0
  {
    var checked := ValidateDeliveries(ds);
    ValidateDeliveriesCorrect(ds);
    if checked.Failure? {
      return Failure(Optimization(FailurePrefix + checked.error.Message()));
    }
    var fleet := ValidateVehicles(vs);
    if fleet.Failure? {
      return Failure(Optimization(FailurePrefix + fleet.error.Message()));
    }
    var mat := GreedyOptimizer.BuildMatrix(ds, depot, geo);
    if config.generations <= 0 {
      if |initial| == 0 {
        return Failure(Optimization(FailurePrefix + IndexError(IndexOutOfRange).Message()));
      }
      return Failure(Optimization(FailurePrefix + UnboundLocal("generation").Message()));
    }
    r := Success(Env(ds, vs, depot, mat, w, num));
  }

  /** `optimize` as written. Every failure comes back as an optimization
      error with the prefix: those of `Prepare`; with generations but no
      individuals, the ValueError of `min` on the first, empty, generation;
      and, when every initial individual serves the same two or more
      deliveries once, the AttributeError of the first crossed pair of the
      first generation. A run of one generation that crosses no pair
      succeeds. A run delivers one history entry per generation, whose last
      entry is the fitness of the solution; it stops before the last
      generation only once the counter reached a truthy patience, the
      counter being the number of entries since the least one. */
  method Optimize(ds: seq<Delivery>, vs: seq<Vehicle>, depot: Point, geo: Metric, w: FitnessWeights,
                  num: Fitness.Numerics, config: OptimizationConfig, initial: seq<Routes>, rng: nat -> Rolls)
    returns (r: Result<OptimizationResult>)
    requires |initial| == Size(config)
    ensures r.Success? ==> ValidDeliveries(ds) && ValidVehicles(vs) && config.generations > 0
                           && config.populationSize > 0
    ensures r.Failure? ==> r.error.Optimization? && FailurePrefix <= r.error.reason
    ensures ValidDeliveries(ds) && ValidVehicles(vs) && config.generations <= 0 ==>
              r == Failure(Optimization(FailurePrefix +
                     (if config.populationSize > 0 then UnboundLocal("generation") else IndexError(IndexOutOfRange)).Message()))
    ensures ValidDeliveries(ds) && ValidVehicles(vs) && config.generations > 0 && config.populationSize <= 0 ==>
              r == Failure(Optimization(FailurePrefix + EmptyMin))
    ensures ValidDeliveries(ds) && ValidVehicles(vs) && config.generations > 0 && AllCover(initial, Ids(ds))
              && |ds| >= 2 && (exists p: nat :: 2 * p + 1 < |initial| && rng(0).cross(p) < config.crossoverRate) ==>
              r == Failure(Optimization(FailurePrefix + AttributeError("list", "fitness").Message()))
    ensures ValidDeliveries(ds) && ValidVehicles(vs) && config.generations == 1 && config.populationSize > 0
              && AllCover(initial, Ids(ds))
              && (|ds| < 2 || forall p: nat :: 2 * p + 1 < |initial| ==> config.crossoverRate <= rng(0).cross(p)) ==>
              r.Success?
    ensures r.Success? ==> 1 <= r.value.generationsEvolved <= config.generations
    ensures r.Success? ==> |r.value.history| == r.value.generationsEvolved
    ensures r.Success? ==> r.value.solution.fitness == r.value.history[|r.value.history| - 1]
    ensures r.Success? && r.value.generationsEvolved < config.generations ==>
              exists s :: Lagging(r.value.history, s) && Stalled(config.maxIterationsWithoutImprovement, s)
  {
    var prepared := Prepare(ds, vs, depot, geo, w, num, config, initial);
    if prepared.Failure? {
      return Failure(prepared.error);
    }
    r := EvolveFrom(prepared.value, rng, config, initial);
  }

  /** The evolution of `optimize` as written, once the inputs are valid and
      there is a generation to run. */
  method EvolveFrom(env: Env, rng: nat -> Rolls, config: OptimizationConfig, initial: seq<Routes>)
    returns (r: Result<OptimizationResult>)
    requires |initial| == Size(config) && config.generations > 0 && |env.vehicles| > 0
    ensures r.Success? ==> config.populationSize > 0
    ensures r.Failure? ==> r.error.Optimization? && FailurePrefix <= r.error.reason
    ensures config.populationSize <= 0 ==> r == Failure(Optimization(FailurePrefix + EmptyMin))
    ensures AllCover(initial, Ids(env.deliveries)) && |env.deliveries| >= 2
              && (exists p: nat :: 2 * p + 1 < |initial| && rng(0).cross(p) < config.crossoverRate) ==>
              r == Failure(Optimization(FailurePrefix + AttributeError("list", "fitness").Message()))
    ensures config.generations == 1 && config.populationSize > 0 && AllCover(initial, Ids(env.deliveries))
              && (|env.deliveries| < 2 || forall p: nat :: 2 * p + 1 < |initial| ==> config.crossoverRate <= rng(0).cross(p)) ==>
              r.Success?
    ensures r.Success? ==> 1 <= r.value.generationsEvolved <= config.generations
    ensures r.Success? ==> |r.value.history| == r.value.generationsEvolved
    ensures r.Success? ==> r.value.solution.fitness == r.value.history[|r.value.history| - 1]
    ensures r.Success? && r.value.generationsEvolved < config.generations ==>
              exists s :: Lagging(r.value.history, s) && Stalled(config.maxIterationsWithoutImprovement, s)
  {
    RunCases(env, rng, config, initial);
    var run := RunAsWritten(env, rng, config, initial);
    if run.Failure? {
      return Failure(Optimization(FailurePrefix + run.error.Message()));
    }
    var f := run.value;
    RunOutcome(env, rng, config, initial, f);
    var sol := Champion(env, f.population, Ids(env.deliveries));
    r := Success(OptimizationResult(sol, f.ran, f.history));
  }

  /** `optimize` with the corrected breeding: selection copies, crossover
      children carry a fitness, and the move keeps its delivery. Besides the
      failures of `Prepare`, only the empty first generation fails. A run
      delivers one history entry per generation, never increasing, whose
      last entry is the fitness of the solution; it stops before the last
      generation only on a plateau as long as the configured patience; and
      when every initial individual serves every delivery exactly once, so
      does the solution. */
  method OptimizeCorrected(ds: seq<Delivery>, vs: seq<Vehicle>, depot: Point, geo: Metric, w: FitnessWeights,
                           num: Fitness.Numerics, config: OptimizationConfig, initial: seq<Routes>, rng: nat -> Rolls)
    returns (r: Result<OptimizationResult>)
    requires |initial| == Size(config)
    ensures r.Success? <==> ValidDeliveries(ds) && ValidVehicles(vs) && config.generations > 0
                            && config.populationSize > 0
    ensures r.Failure? ==> r.error.Optimization? && FailurePrefix <= r.error.reason
    ensures ValidDeliveries(ds) && ValidVehicles(vs) && config.generations > 0 && config.populationSize <= 0 ==>
              r == Failure(Optimization(FailurePrefix + EmptyMin))
    ensures r.Success? ==> 1 <= r.value.generationsEvolved <= config.generations
    ensures r.Success? ==> |r.value.history| == r.value.generationsEvolved && NonIncreasing(r.value.history)
    ensures r.Success? ==> r.value.solution.fitness == r.value.history[|r.value.history| - 1]
    ensures r.Success? && r.value.generationsEvolved < config.generations ==>
              exists s :: Plateau(r.value.history, s) && Stalled(config.maxIterationsWithoutImprovement, s)
    ensures r.Success? && AllCover(initial, Ids(ds)) ==> Covers(r.value.solution.routes, Ids(ds))
  {
    var prepared := Prepare(ds, vs, depot, geo, w, num, config, initial);
    if prepared.Failure? {
      return Failure(prepared.error);
    }
    r := EvolveCorrected(prepared.value, rng, config, initial);
  }

  /** The corrected evolution, once the inputs are valid and there is a
      generation to run. */
  method EvolveCorrected(env: Env, rng: nat -> Rolls, config: OptimizationConfig, initial: seq<Routes>)
    returns (r: Result<OptimizationResult>)
    requires |initial| == Size(config) && config.generations > 0 && |env.vehicles| > 0
    ensures r.Success? <==> config.populationSize > 0
    ensures r.Failure? ==> r == Failure(Optimization(FailurePrefix + EmptyMin))
    ensures r.Success? ==> 1 <= r.value.generationsEvolved <= config.generations
    ensures r.Success? ==> |r.value.history| == r.value.generationsEvolved && NonIncreasing(r.value.history)
    ensures r.Success? ==> r.value.solution.fitness == r.value.history[|r.value.history| - 1]
    ensures r.Success? && r.value.generationsEvolved < config.generations ==>
              exists s :: Plateau(r.value.history, s) && Stalled(config.maxIterationsWithoutImprovement, s)
    ensures r.Success? && AllCover(initial, Ids(env.deliveries)) ==> Covers(r.value.solution.routes, Ids(env.deliveries))
  {
    var score := Scorer(env);
    var breed := Breeder(env, rng, config);
    var patience := config.maxIterationsWithoutImprovement;
    if config.populationSize <= 0 {
      EvolveFailsWhenEmpty(Start(initial), breed, Size(config), patience, config.generations, score);
    } else {
      EvolveSucceeds(Start(initial), breed, Size(config), patience, config.generations, score);
    }
    var run := RunCorrected(env, rng, config, initial);
    if run.Failure? {
      return Failure(Optimization(FailurePrefix + run.error.Message()));
    }
    var f := run.value;
    RunCorrectedOutcome(env, rng, config, initial, f);
    var sol := Champion(env, f.population, Ids(env.deliveries));
    assert Tracked(f.history, f.best, f.stall);
    r := Success(OptimizationResult(sol, f.ran, f.history));
  }

  /** `selBest(population, 1)[0]` turned into a solution: it scores the
      least of the population and covers what every individual covers. */
  method Champion(env: Env, pop: seq<Routes>, ids: seq<Id>) returns (sol: Solution)
    requires |pop| > 0
    ensures sol.fitness == Least(pop, Scorer(env))
    ensures AllCover(pop, ids) ==> Covers(sol.routes, ids)
  {
    var score := Scorer(env);
    BestOfPopulation(pop, score);
    var best := SelBest(pop, 1, score)[0];
    sol := GreedyOptimizer.RoutesToSolution(best, env.deliveries, env.vehicles, env.depot, env.matrix,
                                            env.weights, env.num);
    SolutionScore(env, best, sol);
    if AllCover(pop, ids) {
      var i :| 0 <= i < |pop| && pop[i] == best;
    }
  }
}
