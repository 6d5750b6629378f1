/** `OptimizerFactory.create` of optimization/factory.py: pick the
    optimizer by name, share the fitness weights, choose the genetic
    algorithm's initialization strategy and the annealing schedule from the
    optional configuration dict. */
module Factory {
  import opened Wrappers
  import opened Config
  import Annealing

  /** A key of the configuration dict: absent, present with `None`, or
      present with a value. */
  datatype Entry<T> = Missing | Null | Given(value: T)

  /** The `sa_config` dict; each field may be absent. */
  datatype SaSettings = SaSettings(initial: Option<real>, rate: Option<real>, floor: Option<real>)

  /** The `config` dict. */
  datatype Settings = Settings(
    weights: Entry<FitnessWeights>,
    strategy: Entry<string>,
    sa: Entry<SaSettings>)

  /** No configuration at all: `config or {}`. */
  const NoSettings: Settings := Settings(Missing, Missing, Missing)

  datatype Strategy = RandomStrategy | NearestNeighborStrategy | PriorityFirstStrategy

  /** The optimizers the factory builds, with the arguments it passes. */
  datatype Optimizer =
    | GeneticOptimizer(weights: FitnessWeights, strategy: Strategy)
    | GreedyOptimizer(weights: FitnessWeights)
    | AnnealingOptimizer(weights: FitnessWeights, schedule: Annealing.Schedule)

  const Kinds: seq<string> := ["genetic_algorithm", "greedy", "simulated_annealing"]

  /** The message of the `InvalidConfigurationError` for an unknown type. */
  function Unsupported(kind: string): string
  {
    "Tipo de otimizador n\U{e3}o suportado: " + kind + ". Op\U{e7}\U{f5}es: genetic_algorithm, greedy, simulated_annealing"
  }

  /** `config.get("fitness_weights")`, defaulted when absent or `None`. */
  function Weights(c: Settings): FitnessWeights
  {
    if c.weights.Given? then c.weights.value else DefaultFitnessWeights()
  }

  /** The strategy named by `initialization_strategy`; any other name,
      `None` or an absent key gives the random strategy. */
  function StrategyOf(name: Entry<string>): Strategy
  {
    if name == Given("nearest_neighbor") then NearestNeighborStrategy
    else if name == Given("priority_first") then PriorityFirstStrategy
    else RandomStrategy
  }

  /** The schedule read from `sa_config`, with the constructor's defaults
      for the absent fields. */
  function ScheduleOf(s: SaSettings): Annealing.Schedule
  {
    Annealing.Schedule(s.initial.GetOr(Annealing.DefaultSchedule.initial),
                       s.rate.GetOr(Annealing.DefaultSchedule.rate),
                       s.floor.GetOr(Annealing.DefaultSchedule.floor))
  }

  /** `OptimizerFactory.create`. */
  function Create(kind: string, config: Option<Settings>): (r: Result<Optimizer>)
    ensures r.Success? <==> kind in Kinds && !(kind == "simulated_annealing" && config.GetOr(NoSettings).sa.Null?)
    ensures kind !in Kinds ==> r == Failure(InvalidConfiguration(Unsupported(kind)))
    ensures r.Success? ==> r.value.weights == Weights(config.GetOr(NoSettings))
    ensures r.Success? ==> (r.value.GeneticOptimizer? <==> kind == "genetic_algorithm")
                           && (r.value.GreedyOptimizer? <==> kind == "greedy")
                           && (r.value.AnnealingOptimizer? <==> kind == "simulated_annealing")
  {
    var c := config.GetOr(NoSettings);
    var w := Weights(c);
    if kind == "genetic_algorithm" then
      Success(GeneticOptimizer(w, StrategyOf(c.strategy)))
    else if kind == "greedy" then
      Success(GreedyOptimizer(w))
    else if kind == "simulated_annealing" then
      match c.sa
      case Missing => Success(AnnealingOptimizer(w, ScheduleOf(SaSettings(None, None, None))))
      case Null => Failure(AttributeError("NoneType", "get"))
      case Given(s) => Success(AnnealingOptimizer(w, ScheduleOf(s)))
    else
      Failure(InvalidConfiguration(Unsupported(kind)))
  }

  /** Without weights in the configuration every optimizer gets
      `FitnessWeights()`. */
  lemma DefaultWeightsShared(kind: string, config: Option<Settings>)
    requires config.None? || !config.value.weights.Given?
    requires Create(kind, config).Success?
    ensures Create(kind, config).value.weights == FitnessWeights(1.0, 1000.0, 1000.0, 500.0, 100.0)
  {
  }

  /** The genetic algorithm gets the nearest-neighbour or priority-first
      strategy only when it is named, and the random one otherwise. */
  lemma StrategyChoice(config: Option<Settings>)
    ensures var c := config.GetOr(NoSettings);
            var o := Create("genetic_algorithm", config).value;
            && (o.strategy == NearestNeighborStrategy <==> c.strategy == Given("nearest_neighbor"))
            && (o.strategy == PriorityFirstStrategy <==> c.strategy == Given("priority_first"))
            && (o.strategy == RandomStrategy <==>
                  c.strategy != Given("nearest_neighbor") && c.strategy != Given("priority_first"))
  {
  }

  /** Without `sa_config` the annealing runs on 1000 / 0.95 / 0.1; a
      given field replaces only its own default. */
  lemma AnnealingDefaults(config: Option<Settings>)
    requires config.GetOr(NoSettings).sa.Missing?
    ensures Create("simulated_annealing", config).Success?
    ensures Create("simulated_annealing", config).value.schedule == Annealing.Schedule(1000.0, 0.95, 0.1)
  {
  }

  lemma AnnealingOverrides(config: Settings, s: SaSettings)
    requires config.sa == Given(s)
    ensures Create("simulated_annealing", Some(config)).Success?
    ensures var sched := Create("simulated_annealing", Some(config)).value.schedule;
            && (s.initial.Some? ==> sched.initial == s.initial.value)
            && (s.initial.None? ==> sched.initial == 1000.0)
            && (s.rate.Some? ==> sched.rate == s.rate.value)
            && (s.rate.None? ==> sched.rate == 0.95)
            && (s.floor.Some? ==> sched.floor == s.floor.value)
            && (s.floor.None? ==> sched.floor == 0.1)
  {
  }

  /** The name the command line passes by default, `"genetic"`, is not a
      type the factory knows. */
  lemma CommandLineDefaultRejected(config: Option<Settings>)
    ensures Create("genetic", config) == Failure(InvalidConfiguration(Unsupported("genetic")))
  {
    assert "genetic" != "genetic_algorithm" && "genetic" != "greedy" && "genetic" != "simulated_annealing";
  }
}
