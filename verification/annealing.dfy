/** `SimulatedAnnealingOptimizer` of optimization/simulated_annealing_optimizer.py:
    start from the greedy routing, draw a neighbour per iteration, accept it
    when it is better or with probability `exp(-delta / T)`, keep the best
    routing seen, cool the temperature geometrically and stop below the
    floor or when the iterations run out. The neighbour draws, the uniform
    draws of `random.random()` and `math.exp` are arguments. */
module Annealing {
  import opened Wrappers
  import opened Seqs
  import opened Types
  import opened Distance
  import opened Config
  import opened Validators
  import opened Mutation
  import opened Genetic
  import Breeding
  import Fitness
  import Greedy
  import GreedyOptimizer

  /** The prefix `optimize` puts in front of every error it re-raises. */
  const FailurePrefix: string := "Erro durante otimiza\U{e7}\U{e3}o Simulated Annealing: "

  /** The iterations run when `config.generations` is not positive. */
  const DefaultIterations: nat := 1000

  /** The constructor's `initial_temperature`, `cooling_rate` and
      `min_temperature`. */
  datatype Schedule = Schedule(initial: real, rate: real, floor: real)

  /** The constructor's defaults. */
  const DefaultSchedule: Schedule := Schedule(1000.0, 0.95, 0.1)

  /** `iterations = config.generations if config.generations > 0 else 1000`. */
  function Budget(config: OptimizationConfig): (n: nat)
    ensures n >= 1
    ensures config.generations > 0 ==> n == config.generations
    ensures config.generations <= 0 ==> n == DefaultIterations
  {
    if config.generations > 0 then config.generations else DefaultIterations
  }

  // --------------------------------------------------------------- cooling

  /** The temperature after `k` coolings, `temperature *= cooling_rate`
      applied `k` times. */
  function Cooled(s: Schedule, k: nat): real
  {
    if k == 0 then s.initial else Cooled(s, k - 1) * s.rate
  }

  /** A positive start and a positive rate keep every temperature positive. */
  lemma {:induction false} CooledPositive(s: Schedule, k: nat)
    requires s.initial > 0.0 && s.rate > 0.0
    ensures Cooled(s, k) > 0.0
  {
    if k > 0 {
      CooledPositive(s, k - 1);
    }
  }

  /** How many iterations run when iteration `k - 1` is the earliest one
      still to look at: the first `k' >= k` whose cooled temperature is below
      the floor, or the budget. */
  function Ran(s: Schedule, budget: nat, k: nat): (n: nat)
    requires 1 <= k <= budget
    ensures k <= n <= budget
    ensures n < budget ==> Cooled(s, n) < s.floor
    ensures forall j :: k <= j < n ==> Cooled(s, j) >= s.floor
    decreases budget - k
  {
    if k == budget || Cooled(s, k) < s.floor then k else Ran(s, budget, k + 1)
  }

  /** Starting at 10 and halving with a floor of 1, the temperatures after
      the iterations are 5, 2.5, 1.25 and 0.625: the fourth iteration is the
      last. */
  lemma CoolingSample(budget: nat)
    requires budget >= 4
    ensures Ran(Schedule(10.0, 0.5, 1.0), budget, 1) == 4
  {
    var s := Schedule(10.0, 0.5, 1.0);
    assert Cooled(s, 1) == 5.0;
    assert Cooled(s, 2) == 2.5;
    assert Cooled(s, 3) == 1.25;
    assert Cooled(s, 4) == 0.625;
  }

  // ------------------------------------------------------------ acceptance

  /** `delta < 0 or random() < math.exp(-delta / temperature)`: the
      division is only reached for a delta that is not negative, and it
      raises on a zero temperature. */
  function Accepts(delta: real, temperature: real, u: real, exp: real -> real): (r: Result<bool>)
  {
    if delta < 0.0 then Success(true)
    else if temperature == 0.0 then Failure(ZeroDivision(FloatDivisionByZero))
    else Success(u < exp(-delta / temperature))
  }

  /** An improvement is always taken; the only failure is the division by
      a zero temperature, and it needs a delta that is not an improvement; a
      neighbour of the same fitness is taken whenever the temperature is
      not zero, given `exp(0) == 1` and a draw in `[0, 1)`. */
  lemma AcceptsOutcome(delta: real, temperature: real, u: real, exp: real -> real)
    ensures delta < 0.0 ==> Accepts(delta, temperature, u, exp) == Success(true)
    ensures Accepts(delta, temperature, u, exp).Failure? <==> delta >= 0.0 && temperature == 0.0
    ensures delta == 0.0 && temperature != 0.0 && exp(0.0) == 1.0 && 0.0 <= u < 1.0 ==>
              Accepts(delta, temperature, u, exp) == Success(true)
  {
    if delta == 0.0 && temperature != 0.0 {
      assert -delta / temperature == 0.0;
    }
  }

  // ------------------------------------------------------------------ walk

  /** The loop's variables: the current routing and its fitness, the best
      routing and its fitness, `best_fitness_history`, the temperature and
      the number of iterations completed. */
  datatype Walk = Walk(current: Routes, fit: real, best: Routes, bestFit: real,
                       history: seq<real>, temperature: real, ran: nat)

  /** `_generate_neighbor` of iteration `i` on the current routing. */
  type Neighbour = (nat, Routes) -> Result<Routes>

  /** The neighbour as written: the move raises on a lone delivery. */
  function AsWritten(rolls: Breeding.Rolls): Neighbour
  {
    (i: nat, routes: Routes) => SaNeighbor(routes, Breeding.MutationDraw(routes, i, rolls))
  }

  /** The neighbour with the corrected move. */
  function Corrected(rolls: Breeding.Rolls): Neighbour
  {
    (i: nat, routes: Routes) => Success(Mutate(routes, Breeding.MutationDraw(routes, i, rolls)))
  }

  /** Before the first iteration: the seed is both current and best, and
      the history holds its fitness. */
  function Begin(seed: Routes, fit: real, s: Schedule): Walk
  {
    Walk(seed, fit, seed, fit, [fit], s.initial, 0)
  }

  /** One pass of the loop body, up to the cooling. */
  function Step(w: Walk, next: Neighbour, score: Routes -> real, u: nat -> real, exp: real -> real,
                rate: real): Result<Walk>
  {
    var nb :- next(w.ran, w.current);
    var nf := score(nb);
    var take :- Accepts(nf - w.fit, w.temperature, u(w.ran), exp);
    var moved :=
      if !take then w
      else if nf < w.bestFit then w.(current := nb, fit := nf, best := nb, bestFit := nf, history := w.history + [nf])
      else w.(current := nb, fit := nf);
    Success(moved.(temperature := w.temperature * rate, ran := w.ran + 1))
  }

  /** The `for iteration in range(iterations)` loop with its `break`. */
  function Anneal(w: Walk, next: Neighbour, score: Routes -> real, u: nat -> real, exp: real -> real,
                  s: Schedule, budget: nat): Result<Walk>
    decreases budget - w.ran
  {
    if w.ran >= budget then Success(w)
    else
      var w2 :- Step(w, next, score, u, exp, s.rate);
      if w2.temperature < s.floor then Success(w2)
      else Anneal(w2, next, score, u, exp, s, budget)
  }

  // ------------------------------------------------------------ invariants

  predicate Decreasing(h: seq<real>)
  {
    forall i, j :: 0 <= i < j < |h| ==> h[j] < h[i]
  }

  /** What the loop keeps: the fitnesses belong to their routings, the best
      is no worse than the current, and the history starts at the seed's
      fitness, strictly decreases and ends at the best fitness. */
  predicate Sound(w: Walk, score: Routes -> real, seedFit: real)
  {
    && w.fit == score(w.current)
    && w.bestFit == score(w.best)
    && w.bestFit <= w.fit
    && |w.history| > 0
    && w.history[0] == seedFit
    && Decreasing(w.history)
    && w.history[|w.history| - 1] == w.bestFit
  }

  /** What one pass does to the clock and to the routings: the current
      routing stays or becomes the neighbour, the best routing stays or
      becomes the new current one. */
  lemma StepShape(w: Walk, next: Neighbour, score: Routes -> real, u: nat -> real, exp: real -> real,
                  rate: real, w2: Walk)
    requires Step(w, next, score, u, exp, rate) == Success(w2)
    ensures next(w.ran, w.current).Success?
    ensures w2.ran == w.ran + 1 && w2.temperature == w.temperature * rate
    ensures w2.current == w.current || w2.current == next(w.ran, w.current).value
    ensures w2.best == w.best || w2.best == w2.current
  {
  }

  /** A pass with a successful neighbour and a non-zero temperature
      succeeds. */
  lemma StepSucceeds(w: Walk, next: Neighbour, score: Routes -> real, u: nat -> real, exp: real -> real,
                     rate: real)
    requires next(w.ran, w.current).Success? && w.temperature != 0.0
    ensures Step(w, next, score, u, exp, rate).Success?
  {
  }

  lemma StepSound(w: Walk, next: Neighbour, score: Routes -> real, u: nat -> real, exp: real -> real,
                  rate: real, seedFit: real, w2: Walk)
    requires Sound(w, score, seedFit)
    requires Step(w, next, score, u, exp, rate) == Success(w2)
    ensures Sound(w2, score, seedFit)
  {
  }

  /** A successful run past its first pass: the pass succeeded, and the run
      either stopped on the cooled temperature or went on from there. */
  lemma AnnealUnfold(w: Walk, next: Neighbour, score: Routes -> real, u: nat -> real, exp: real -> real,
                     s: Schedule, budget: nat, f: Walk) returns (w2: Walk)
    requires w.ran < budget
    requires Anneal(w, next, score, u, exp, s, budget) == Success(f)
    ensures Step(w, next, score, u, exp, s.rate) == Success(w2)
    ensures w2.temperature < s.floor ==> f == w2
    ensures w2.temperature >= s.floor ==> Anneal(w2, next, score, u, exp, s, budget) == Success(f)
  {
    w2 := Step(w, next, score, u, exp, s.rate).value;
  }

  /** Every successful run keeps the invariant. */
  lemma {:induction false} AnnealSound(w: Walk, next: Neighbour, score: Routes -> real, u: nat -> real,
                                       exp: real -> real, s: Schedule, budget: nat, seedFit: real, f: Walk)
    requires Sound(w, score, seedFit)
    requires Anneal(w, next, score, u, exp, s, budget) == Success(f)
    ensures Sound(f, score, seedFit)
    decreases budget - w.ran
  {
    if w.ran < budget {
      var w2 := AnnealUnfold(w, next, score, u, exp, s, budget, f);
      StepSound(w, next, score, u, exp, s.rate, seedFit, w2);
      if w2.temperature >= s.floor {
        AnnealSound(w2, next, score, u, exp, s, budget, seedFit, f);
      }
    }
  }

  /** The temperature is the starting one cooled once per iteration. */
  predicate OnSchedule(w: Walk, s: Schedule)
  {
    w.temperature == Cooled(s, w.ran)
  }

  lemma StepOnSchedule(w: Walk, next: Neighbour, score: Routes -> real, u: nat -> real, exp: real -> real,
                       s: Schedule, w2: Walk)
    requires OnSchedule(w, s)
    requires Step(w, next, score, u, exp, s.rate) == Success(w2)
    ensures OnSchedule(w2, s) && w2.ran == w.ran + 1
  {
    StepShape(w, next, score, u, exp, s.rate, w2);
    CooledNext(s, w.ran);
  }

  /** Every successful run stays on schedule. */
  lemma {:induction false} AnnealOnSchedule(w: Walk, next: Neighbour, score: Routes -> real, u: nat -> real,
                                            exp: real -> real, s: Schedule, budget: nat, f: Walk)
    requires OnSchedule(w, s)
    requires Anneal(w, next, score, u, exp, s, budget) == Success(f)
    ensures OnSchedule(f, s)
    decreases budget - w.ran
  {
    if w.ran < budget {
      var w2 := AnnealUnfold(w, next, score, u, exp, s, budget, f);
      StepOnSchedule(w, next, score, u, exp, s, w2);
      if w2.temperature >= s.floor {
        AnnealOnSchedule(w2, next, score, u, exp, s, budget, f);
      }
    }
  }

  /** A run started on schedule stops after `Ran` iterations. */
  lemma {:induction false} AnnealRan(w: Walk, next: Neighbour, score: Routes -> real, u: nat -> real,
                                     exp: real -> real, s: Schedule, budget: nat, f: Walk)
    requires w.ran < budget && OnSchedule(w, s)
    requires Anneal(w, next, score, u, exp, s, budget) == Success(f)
    ensures f.ran == Ran(s, budget, w.ran + 1)
    decreases budget - w.ran
  {
    var w2 := AnnealUnfold(w, next, score, u, exp, s, budget, f);
    StepOnSchedule(w, next, score, u, exp, s, w2);
    if w2.temperature < s.floor || w2.ran == budget {
      RanStop(s, budget, w2.ran);
      if w2.temperature >= s.floor {
        assert Anneal(w2, next, score, u, exp, s, budget) == Success(w2);
      }
    } else {
      AnnealRan(w2, next, score, u, exp, s, budget, f);
      RanStep(s, budget, w2.ran);
    }
  }

  lemma CooledNext(s: Schedule, k: nat)
    ensures Cooled(s, k + 1) == Cooled(s, k) * s.rate
  {
  }

  lemma RanStop(s: Schedule, budget: nat, k: nat)
    requires 1 <= k <= budget && (k == budget || Cooled(s, k) < s.floor)
    ensures Ran(s, budget, k) == k
  {
  }

  lemma RanStep(s: Schedule, budget: nat, k: nat)
    requires 1 <= k < budget && Cooled(s, k) >= s.floor
    ensures Ran(s, budget, k) == Ran(s, budget, k + 1)
  {
  }

  /** The neighbour never loses or adds a delivery. */
  ghost predicate Keeps(next: Neighbour)
  {
    forall i: nat, routes: Routes :: next(i, routes).Success? ==>
      multiset(Flatten(next(i, routes).value)) == multiset(Flatten(routes))
  }

  lemma CorrectedKeeps(rolls: Breeding.Rolls)
    ensures Keeps(Corrected(rolls))
  {
  }

  /** Both the current and the best routing carry the deliveries `ids`. */
  predicate Carries(w: Walk, ids: multiset<Id>)
  {
    multiset(Flatten(w.current)) == ids && multiset(Flatten(w.best)) == ids
  }

  /** With a neighbour that keeps the deliveries, so does every run. */
  lemma {:induction false} AnnealCarries(w: Walk, next: Neighbour, score: Routes -> real, u: nat -> real,
                                         exp: real -> real, s: Schedule, budget: nat, ids: multiset<Id>, f: Walk)
    requires Keeps(next) && Carries(w, ids)
    requires Anneal(w, next, score, u, exp, s, budget) == Success(f)
    ensures Carries(f, ids)
    decreases budget - w.ran
  {
    if w.ran < budget {
      var w2 := AnnealUnfold(w, next, score, u, exp, s, budget, f);
      StepShape(w, next, score, u, exp, s.rate, w2);
      assert Carries(w2, ids);
      if w2.temperature >= s.floor {
        AnnealCarries(w2, next, score, u, exp, s, budget, ids, f);
      }
    }
  }

  /** With the corrected neighbour and a temperature that stays positive,
      no run fails. */
  lemma {:induction false} AnnealSucceeds(w: Walk, rolls: Breeding.Rolls, score: Routes -> real, u: nat -> real,
                                          exp: real -> real, s: Schedule, budget: nat)
    requires s.initial > 0.0 && s.rate > 0.0 && OnSchedule(w, s)
    ensures Anneal(w, Corrected(rolls), score, u, exp, s, budget).Success?
    decreases budget - w.ran
  {
    if w.ran < budget {
      CooledPositive(s, w.ran);
      StepSucceeds(w, Corrected(rolls), score, u, exp, s.rate);
      var w2 := Step(w, Corrected(rolls), score, u, exp, s.rate).value;
      StepOnSchedule(w, Corrected(rolls), score, u, exp, s, w2);
      AnnealSucceeds(w2, rolls, score, u, exp, s, budget);
    }
  }

  /** A routing that is not a single delivery has a flattening of another
      length than one only if it is not a single route with a single
      delivery. */
  lemma LoneShape(routes: Routes)
    requires |routes| == 1 && |routes[0]| == 1
    ensures |Flatten(routes)| == 1
  {
    assert Flatten(routes) == routes[0] + Flatten(routes[1..]);
  }

  /** Away from a single delivery the neighbour as written is the
      corrected one. */
  lemma NeighbourAgrees(rolls: Breeding.Rolls, i: nat, routes: Routes)
    requires |Flatten(routes)| != 1
    ensures AsWritten(rolls)(i, routes) == Corrected(rolls)(i, routes)
  {
    var d := Breeding.MutationDraw(routes, i, rolls);
    if |routes| == 1 && |routes[0]| == 1 {
      LoneShape(routes);
    }
    SaNeighborAgrees(routes, d);
  }

  /** Two neighbours that agree on the current routing give the same pass. */
  lemma StepSame(w: Walk, n1: Neighbour, n2: Neighbour, score: Routes -> real, u: nat -> real,
                 exp: real -> real, rate: real)
    requires n1(w.ran, w.current) == n2(w.ran, w.current)
    ensures Step(w, n1, score, u, exp, rate) == Step(w, n2, score, u, exp, rate)
  {
  }

  /** Away from a single delivery the runs with the neighbour as written
      and with the corrected one agree. */
  lemma {:induction false} AsWrittenAgrees(w: Walk, rolls: Breeding.Rolls, score: Routes -> real, u: nat -> real,
                                           exp: real -> real, s: Schedule, budget: nat)
    requires |Flatten(w.current)| != 1
    ensures Anneal(w, AsWritten(rolls), score, u, exp, s, budget) == Anneal(w, Corrected(rolls), score, u, exp, s, budget)
    decreases budget - w.ran
  {
    if w.ran < budget {
      NeighbourAgrees(rolls, w.ran, w.current);
      StepSame(w, AsWritten(rolls), Corrected(rolls), score, u, exp, s.rate);
      var step := Step(w, Corrected(rolls), score, u, exp, s.rate);
      if step.Success? {
        StepShape(w, Corrected(rolls), score, u, exp, s.rate, step.value);
        assert |Flatten(step.value.current)| == |Flatten(w.current)| by {
          assert multiset(Flatten(step.value.current)) == multiset(Flatten(w.current));
        }
        AsWrittenAgrees(step.value, rolls, score, u, exp, s, budget);
      }
      AnnealSame(w, AsWritten(rolls), Corrected(rolls), score, u, exp, s, budget);
    }
  }

  /** Two neighbours whose first passes agree, and whose runs from there
      agree, give the same run. */
  lemma AnnealSame(w: Walk, n1: Neighbour, n2: Neighbour, score: Routes -> real, u: nat -> real,
                   exp: real -> real, s: Schedule, budget: nat)
    requires w.ran < budget
    requires Step(w, n1, score, u, exp, s.rate) == Step(w, n2, score, u, exp, s.rate)
    requires Step(w, n1, score, u, exp, s.rate).Success? ==>
               Anneal(Step(w, n1, score, u, exp, s.rate).value, n1, score, u, exp, s, budget)
               == Anneal(Step(w, n1, score, u, exp, s.rate).value, n2, score, u, exp, s, budget)
    ensures Anneal(w, n1, score, u, exp, s, budget) == Anneal(w, n2, score, u, exp, s, budget)
  {
  }

  /** As written, a seed of a single route holding a single delivery
      fails with the IndexError of the move as soon as the first draw picks
      the move. */
  lemma LoneDeliveryFails(seed: Routes, rolls: Breeding.Rolls, score: Routes -> real, u: nat -> real,
                          exp: real -> real, s: Schedule, budget: nat, fit: real)
    requires |seed| == 1 && |seed[0]| == 1
    requires rolls.op(0) % 3 == 1 && budget >= 1
    ensures Anneal(Begin(seed, fit, s), AsWritten(rolls), score, u, exp, s, budget) == Failure(IndexError(IndexOutOfRange))
  {
    var d := Breeding.MutationDraw(seed, 0, rolls);
    LoneShape(seed);
    assert d.op == Move;
    SaMoveOutcome(seed, d.first, d.target, d.insertAt);
    assert SaNeighbor(seed, d) == Failure(IndexError(IndexOutOfRange));
  }

  /** The neighbour as written keeps the deliveries whenever it succeeds. */
  lemma AsWrittenKeeps(rolls: Breeding.Rolls)
    ensures Keeps(AsWritten(rolls))
  {
    forall i: nat, routes: Routes | AsWritten(rolls)(i, routes).Success?
      ensures multiset(Flatten(AsWritten(rolls)(i, routes).value)) == multiset(Flatten(routes))
    {
      SaNeighborAgrees(routes, Breeding.MutationDraw(routes, i, rolls));
    }
  }

  // -------------------------------------------------------------- optimize

  /** The composite fitness `_calculate_fitness` gives the routes. */
  function Scorer(env: Env): Routes -> real
  {
    x => Score(env, x)
  }

  /** The annealing from a seed, with the neighbour as written. */
  function Run(seed: Routes, score: Routes -> real, s: Schedule, rolls: Breeding.Rolls, u: nat -> real,
               exp: real -> real, budget: nat): Result<Walk>
  {
    Anneal(Begin(seed, score(seed), s), AsWritten(rolls), score, u, exp, s, budget)
  }

  /** With a positive starting temperature and a positive rate the run
      fails only on a seed of a single delivery: any other seed runs as with
      the corrected neighbour, which never fails (LoneDeliveryFails shows
      the failure). */
  lemma RunSucceeds(seed: Routes, score: Routes -> real, s: Schedule, rolls: Breeding.Rolls, u: nat -> real,
                    exp: real -> real, budget: nat)
    requires s.initial > 0.0 && s.rate > 0.0
    ensures |Flatten(seed)| != 1 ==> Run(seed, score, s, rolls, u, exp, budget).Success?
    ensures |Flatten(seed)| != 1 ==>
              Run(seed, score, s, rolls, u, exp, budget)
              == Anneal(Begin(seed, score(seed), s), Corrected(rolls), score, u, exp, s, budget)
  {
    if |Flatten(seed)| != 1 {
      AsWrittenAgrees(Begin(seed, score(seed), s), rolls, score, u, exp, s, budget);
      AnnealSucceeds(Begin(seed, score(seed), s), rolls, score, u, exp, s, budget);
    }
  }

  /** When a run succeeds and when it fails. */
  lemma RunCases(seed: Routes, score: Routes -> real, s: Schedule, rolls: Breeding.Rolls, u: nat -> real,
                 exp: real -> real, budget: nat)
    requires budget >= 1
    ensures s.initial > 0.0 && s.rate > 0.0 && |Flatten(seed)| != 1 ==> Run(seed, score, s, rolls, u, exp, budget).Success?
    ensures |seed| == 1 && |seed[0]| == 1 && rolls.op(0) % 3 == 1 ==> Run(seed, score, s, rolls, u, exp, budget).Failure?
  {
    if s.initial > 0.0 && s.rate > 0.0 {
      RunSucceeds(seed, score, s, rolls, u, exp, budget);
    }
    if |seed| == 1 && |seed[0]| == 1 && rolls.op(0) % 3 == 1 {
      LoneDeliveryFails(seed, rolls, score, u, exp, s, budget, score(seed));
    }
  }

  /** A successful run: `Ran` iterations, a strictly decreasing history from
      the seed's fitness to the best routing's, and the seed's deliveries in
      the best routing. */
  lemma RunOutcome(seed: Routes, score: Routes -> real, s: Schedule, rolls: Breeding.Rolls, u: nat -> real,
                   exp: real -> real, budget: nat, f: Walk)
    requires budget >= 1
    requires Run(seed, score, s, rolls, u, exp, budget) == Success(f)
    ensures f.ran == Ran(s, budget, 1)
    ensures |f.history| > 0 && Decreasing(f.history) && f.history[0] == score(seed)
    ensures score(f.best) == f.history[|f.history| - 1] <= f.history[0]
    ensures multiset(Flatten(f.best)) == multiset(Flatten(seed))
  {
    var start := Begin(seed, score(seed), s);
    var next := AsWritten(rolls);
    AnnealSound(start, next, score, u, exp, s, budget, score(seed), f);
    AnnealRan(start, next, score, u, exp, s, budget, f);
    AsWrittenKeeps(rolls);
    AnnealCarries(start, next, score, u, exp, s, budget, multiset(Flatten(seed)), f);
    if |f.history| > 1 {
      assert f.history[|f.history| - 1] < f.history[0];
    }
  }

  /** Non-empty routes holding one delivery in all are a single route with
      a single delivery. */
  lemma SingleShape(routes: Routes)
    requires forall k :: 0 <= k < |routes| ==> |routes[k]| > 0
    requires |Flatten(routes)| == 1
    ensures |routes| == 1 && |routes[0]| == 1
  {
    AtMostFlatten(routes);
    assert |routes| > 0;
    assert Flatten(routes) == routes[0] + Flatten(routes[1..]);
    assert routes[1..] == [];
  }

  /** Non-empty routes are no more than the deliveries they hold. */
  lemma {:induction false} AtMostFlatten(routes: Routes)
    requires forall k :: 0 <= k < |routes| ==> |routes[k]| > 0
    ensures |routes| <= |Flatten(routes)|
  {
    if |routes| > 0 {
      AtMostFlatten(routes[1..]);
      assert Flatten(routes) == routes[0] + Flatten(routes[1..]);
    }
  }

  /** The greedy seed of deliveries with distinct ids serves as many
      deliveries as there are, and a single delivery makes a single
      route. */
  lemma GreedySeedSize(ds: seq<Delivery>, vs: seq<Vehicle>, mat: Matrix)
    requires DistinctIds(ds)
    ensures |Flatten(Greedy.SolveGreedy(ds, vs, mat))| == |ds|
    ensures |ds| == 1 ==> |Greedy.SolveGreedy(ds, vs, mat)| == 1 && |Greedy.SolveGreedy(ds, vs, mat)[0]| == 1
  {
    var seed := Greedy.SolveGreedy(ds, vs, mat);
    var ids := Ids(ds);
    Greedy.SolveGreedyCovers(ds, vs, mat);
    forall x
      ensures x in Flatten(seed) <==> x in ids
    {
      if x in ids {
        var i :| 0 <= i < |ids| && ids[i] == x;
        assert ds[i].id == x;
      }
    }
    DistinctSameSetPermutation(Flatten(seed), ids);
    assert |Flatten(seed)| == |multiset(Flatten(seed))| == |multiset(ids)| == |ids|;
    if |ds| == 1 {
      Greedy.SolveGreedyCompacts(ds, vs, mat);
      SingleShape(seed);
    }
  }

  /** The part of `optimize` after the validation and the distance table:
      the greedy seed (the plan of `GreedyOptimizer.optimize` as written),
      the annealing and the conversion of the best routing. */
  method Solve(env: Env, config: OptimizationConfig, s: Schedule, rolls: Breeding.Rolls,
               u: nat -> real, exp: real -> real)
    returns (r: Result<OptimizationResult>)
    requires DistinctIds(env.deliveries)
    ensures r.Failure? ==> r.error.Optimization? && FailurePrefix <= r.error.reason
    ensures s.initial > 0.0 && s.rate > 0.0 && |env.deliveries| != 1 ==> r.Success?
    ensures |env.deliveries| == 1 && rolls.op(0) % 3 == 1 ==> r.Failure?
    ensures r.Success? ==> r.value.generationsEvolved == Ran(s, Budget(config), 1)
    ensures r.Success? ==> |r.value.history| > 0 && Decreasing(r.value.history)
    ensures r.Success? ==> r.value.history[0] ==
                             Score(env, Greedy.SolveGreedy(env.deliveries, env.vehicles, env.matrix))
    ensures r.Success? ==> r.value.solution.fitness == r.value.history[|r.value.history| - 1]
    ensures r.Success? ==> r.value.solution.fitness <= r.value.history[0]
    ensures r.Success? ==> Distinct(Flatten(r.value.solution.routes))
    ensures r.Success? ==> forall id :: id in Flatten(r.value.solution.routes) <==>
                                        exists i :: 0 <= i < |env.deliveries| && env.deliveries[i].id == id
  {
    var seed := Greedy.SolveGreedy(env.deliveries, env.vehicles, env.matrix);
    Greedy.SolveGreedyCovers(env.deliveries, env.vehicles, env.matrix);
    GreedySeedSize(env.deliveries, env.vehicles, env.matrix);
    r := AnnealFrom(env, seed, Budget(config), s, rolls, u, exp);
  }

  /** The annealing from a seed that serves each of its deliveries once.
      With a positive temperature and rate it fails only on a seed of a
      single delivery, and there it fails as soon as the first draw is a
      move. */
  method AnnealFrom(env: Env, seed: Routes, budget: nat, s: Schedule, rolls: Breeding.Rolls,
                    u: nat -> real, exp: real -> real)
    returns (r: Result<OptimizationResult>)
    requires budget >= 1 && Distinct(Flatten(seed))
    ensures r.Failure? ==> r.error.Optimization? && FailurePrefix <= r.error.reason
    ensures s.initial > 0.0 && s.rate > 0.0 && |Flatten(seed)| != 1 ==> r.Success?
    ensures |seed| == 1 && |seed[0]| == 1 && rolls.op(0) % 3 == 1 ==> r.Failure?
    ensures r.Success? ==> r.value.generationsEvolved == Ran(s, budget, 1)
    ensures r.Success? ==> |r.value.history| > 0 && Decreasing(r.value.history)
    ensures r.Success? ==> r.value.history[0] == Score(env, seed)
    ensures r.Success? ==> r.value.solution.fitness == r.value.history[|r.value.history| - 1]
    ensures r.Success? ==> r.value.solution.fitness <= r.value.history[0]
    ensures r.Success? ==> Distinct(Flatten(r.value.solution.routes))
    ensures r.Success? ==> forall id :: id in Flatten(r.value.solution.routes) <==> id in Flatten(seed)
  {
    var score := Scorer(env);
    RunCases(seed, score, s, rolls, u, exp, budget);
    var run := Run(seed, score, s, rolls, u, exp, budget);
    if run.Failure? {
      return Failure(Optimization(FailurePrefix + run.error.Message()));
    }
    var f := run.value;
    RunOutcome(seed, score, s, rolls, u, exp, budget, f);
    var sol := Report(env, seed, f.best);
    assert score(f.best) == Score(env, f.best);
    var res := OptimizationResult(sol, f.ran, f.history);
    r := Success(res);
  }

  /** The conversion of the best routing into the result: the solution
      scores what the annealing scored it, and serves the seed's deliveries,
      each once. */
  method Report(env: Env, seed: Routes, best: Routes) returns (sol: Solution)
    requires multiset(Flatten(best)) == multiset(Flatten(seed)) && Distinct(Flatten(seed))
    ensures sol.fitness == Score(env, best)
    ensures Distinct(Flatten(sol.routes)) && forall id :: id in Flatten(sol.routes) <==> id in Flatten(seed)
  {
    SameIdsDistinct(seed, best);
    sol := GreedyOptimizer.RoutesToSolution(best, env.deliveries, env.vehicles, env.depot, env.matrix,
                                                env.weights, env.num);
    SolutionScore(env, best, sol);
  }

  /** `optimize`. Every failure comes back as an optimization error with
      the prefix. With valid inputs, a positive starting temperature and a
      positive rate there is none unless there is a single delivery: then
      the move raises IndexError as soon as it is drawn. A run stops after the iteration
      whose cooling goes below the floor, or after the budget; its history
      strictly decreases from the greedy seed's fitness to the fitness of
      the solution, and the solution serves every delivery id exactly
      once, as the greedy seed does. */
  method Optimize(ds: seq<Delivery>, vs: seq<Vehicle>, depot: Point, geo: Metric, w: FitnessWeights,
                  num: Fitness.Numerics, config: OptimizationConfig, s: Schedule, rolls: Breeding.Rolls,
                  u: nat -> real, exp: real -> real)
    returns (r: Result<OptimizationResult>)
    ensures r.Failure? ==> r.error.Optimization? && FailurePrefix <= r.error.reason
    ensures !ValidDeliveries(ds) || !ValidVehicles(vs) ==> r.Failure?
    ensures ValidDeliveries(ds) && ValidVehicles(vs) && s.initial > 0.0 && s.rate > 0.0 && |ds| != 1 ==> r.Success?
    ensures ValidDeliveries(ds) && ValidVehicles(vs) && |ds| == 1 && rolls.op(0) % 3 == 1 ==> r.Failure?
    ensures r.Success? ==> r.value.generationsEvolved == Ran(s, Budget(config), 1)
    ensures r.Success? ==> |r.value.history| > 0 && Decreasing(r.value.history)
    ensures r.Success? ==> r.value.solution.fitness == r.value.history[|r.value.history| - 1]
    ensures r.Success? ==> r.value.solution.fitness <= r.value.history[0]
    ensures r.Success? ==> Distinct(Flatten(r.value.solution.routes))
    ensures r.Success? ==> forall id :: id in Flatten(r.value.solution.routes) <==>
                                        exists i :: 0 <= i < |ds| && ds[i].id == id
  {
    var checked := ValidateDeliveries(ds);
    ValidateDeliveriesCorrect(ds);
    if checked.Failure? {
      return Failure(Optimization(FailurePrefix + checked.error.Message()));
    }
    var fleet := ValidateVehicles(vs);
    if fleet.Failure? {
      return Failure(Optimization(FailurePrefix + fleet.error.Message()));
    }
    var mat := GreedyOptimizer.BuildMatrix(ds, depot, geo);
    r := Solve(Env(ds, vs, depot, mat, w, num), config, s, rolls, u, exp);
  }

  /** Two routings with the same deliveries: distinctness and membership
      carry over. */
  lemma SameIdsDistinct(a: Routes, b: Routes)
    requires multiset(Flatten(a)) == multiset(Flatten(b)) && Distinct(Flatten(a))
    ensures Distinct(Flatten(b))
    ensures forall id :: id in Flatten(b) <==> id in Flatten(a)
  {
    var fa, fb := Flatten(a), Flatten(b);
    forall id
      ensures id in fb <==> id in fa
    {
      assert id in fb <==> id in multiset(fb);
      assert id in fa <==> id in multiset(fa);
    }
    forall i, j | 0 <= i < j < |fb|
      ensures fb[i] != fb[j]
    {
      if fb[i] == fb[j] {
        TwoPositionsCount(fb, i, j);
        DistinctMultiset(fa, fb[i]);
        assert false;
      }
    }
  }
}
