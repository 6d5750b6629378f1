/** The validated configuration records of utils/config.py: the weights of
    the multi-objective fitness and the genetic algorithm's parameters. A
    constructor whose `__post_init__` raises `ValueError` becomes a function
    returning a `Result`. */
module Config {
  import opened Wrappers

  /** α (distance), β (capacity), γ (autonomy), δ (priority), ε (vehicles). */
  datatype FitnessWeights = FitnessWeights(
    distanceWeight: real,
    capacityPenalty: real,
    autonomyPenalty: real,
    priorityPenalty: real,
    vehiclePenalty: real)

  predicate NonNegativeWeights(w: FitnessWeights)
  {
    w.distanceWeight >= 0.0 && w.capacityPenalty >= 0.0 && w.autonomyPenalty >= 0.0
    && w.priorityPenalty >= 0.0 && w.vehiclePenalty >= 0.0
  }

  /** `FitnessWeights(...)`: construction fails exactly when a weight is
      negative; zero weights are accepted. */
  function MakeFitnessWeights(alpha: real, beta: real, gamma: real, delta: real, epsilon: real)
    : (r: Result<FitnessWeights>)
    ensures r.Success? <==> alpha >= 0.0 && beta >= 0.0 && gamma >= 0.0 && delta >= 0.0 && epsilon >= 0.0
    ensures r.Success? ==> r.value == FitnessWeights(alpha, beta, gamma, delta, epsilon)
                           && NonNegativeWeights(r.value)
    ensures r.Failure? ==> r.error.ValueError?
  {
    var w := FitnessWeights(alpha, beta, gamma, delta, epsilon);
    if alpha < 0.0 || beta < 0.0 || gamma < 0.0 || delta < 0.0 || epsilon < 0.0 then
      Failure(ValueError("Todos os pesos devem ser n\U{e3}o-negativos"))
    else
      Success(w)
  }

  /** `FitnessWeights()`. */
  function DefaultFitnessWeights(): (w: FitnessWeights)
    ensures MakeFitnessWeights(1.0, 1000.0, 1000.0, 500.0, 100.0) == Success(w)
  {
    FitnessWeights(1.0, 1000.0, 1000.0, 500.0, 100.0)
  }

  datatype GaConfig = GaConfig(
    populationSize: int,
    generations: int,
    crossoverRate: real,
    mutationRate: real,
    eliteSize: int,
    maxVehicles: int,
    maxIterationsWithoutImprovement: Option<int>,
    useHeuristicInitialization: bool,
    earlyStoppingPatience: Option<int>)

  predicate ValidGaConfig(c: GaConfig)
  {
    c.populationSize >= 2 && c.generations >= 1
    && 0.0 <= c.crossoverRate <= 1.0 && 0.0 <= c.mutationRate <= 1.0
    && c.eliteSize < c.populationSize
  }

  /** `GeneticAlgorithmConfig.__post_init__`: the checks run in order and the
      first that fails names its field. */
  function CheckGaConfig(c: GaConfig): (r: Result<GaConfig>)
    ensures r.Success? <==> ValidGaConfig(c)
    ensures r.Success? ==> r.value == c
    ensures c.populationSize < 2 ==> r == Failure(ValueError("population_size deve ser >= 2"))
    ensures c.populationSize >= 2 && c.generations < 1 ==> r == Failure(ValueError("generations deve ser >= 1"))
  {
    if c.populationSize < 2 then Failure(ValueError("population_size deve ser >= 2"))
    else if c.generations < 1 then Failure(ValueError("generations deve ser >= 1"))
    else if !(0.0 <= c.crossoverRate <= 1.0) then Failure(ValueError("crossover_rate deve estar entre 0 e 1"))
    else if !(0.0 <= c.mutationRate <= 1.0) then Failure(ValueError("mutation_rate deve estar entre 0 e 1"))
    else if c.eliteSize >= c.populationSize then Failure(ValueError("elite_size deve ser menor que population_size"))
    else Success(c)
  }

  /** `GeneticAlgorithmConfig()` with every default. */
  function DefaultGaConfig(): (c: GaConfig)
    ensures CheckGaConfig(c) == Success(c)
    ensures c.populationSize == 100 && c.generations == 200 && c.eliteSize == 10
    ensures c.maxIterationsWithoutImprovement == Some(50) && c.earlyStoppingPatience == Some(30)
  {
    GaConfig(100, 200, 0.8, 0.2, 10, 5, Some(50), true, Some(30))
  }
}
