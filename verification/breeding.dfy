/** One generation's breeding in `GeneticAlgorithmOptimizer`
    (optimization/genetic_algorithm.py): tournament selection, crossover of
    consecutive pairs, per-individual mutation, and the `optimize` entry
    point that drives the evolution loop of module `Genetic` with them.

    Every call into `random` is read from a `Rolls` record, indexed by the
    position it is drawn for. Two variants of the step are modelled: the
    corrected one, on values, that the rest of the model uses, and the one
    as written, on object references, where selected individuals alias the
    population and the crossover's children are plain lists. */
module Breeding {
  import opened Wrappers
  import opened Seqs
  import opened Types
  import opened Distance
  import opened Config
  import opened Validators
  import opened Mutation
  import opened Genetic
  import Fitness
  import GreedyOptimizer

  /** The draws of one generation. `aspirant(j, a)` is the a-th aspirant of
      tournament j; `cross(k)`, `cutStart(k)` and `cutEnd(k)` belong to the
      pair at positions 2k and 2k + 1; `mutate(j)` and the rest to the
      mutation of offspring j. Raw draws are brought into range where they
      are used. */
  datatype Rolls = Rolls(
    aspirant: (nat, nat) -> nat,
    cross: nat -> real,
    cutStart: nat -> nat,
    cutEnd: nat -> nat,
    mutate: nat -> real,
    op: nat -> nat,
    first: nat -> nat,
    second: nat -> nat,
    target: nat -> nat,
    insertAt: nat -> nat,
    routeIdx: nat -> nat)

  /** `tournsize=3`, fixed in `_select`. */
  const TournamentSize: nat := 3

  // ------------------------------------------------------------ mutation draws

  /** The k-th entry of `all_deliveries`, which enumerates every (route,
      position) pair route by route. */
  function SlotOf(routes: Routes, k: nat): (s: Slot)
    requires k < |Flatten(routes)|
    ensures ValidSlot(routes, s) && At(routes, s) == Flatten(routes)[k]
    decreases |routes|
  {
    if k < |routes[0]| then Slot(0, k)
    else
      var s := SlotOf(routes[1..], k - |routes[0]|);
      Slot(s.route + 1, s.index)
  }

  /** Different entries of the enumeration are different slots. */
  lemma {:induction false} SlotOfInjective(routes: Routes, k1: nat, k2: nat)
    requires k1 < |Flatten(routes)| && k2 < |Flatten(routes)| && k1 != k2
    ensures SlotOf(routes, k1) != SlotOf(routes, k2)
    decreases |routes|
  {
    if k1 >= |routes[0]| && k2 >= |routes[0]| {
      SlotOfInjective(routes[1..], k1 - |routes[0]|, k2 - |routes[0]|);
    }
  }

  /** The second position of `random.sample(range(n), 2)`: one of the
      other n - 1 positions. */
  function OtherPosition(p: nat, roll: nat, n: nat): (q: nat)
    requires p < n && n >= 2
    ensures q < n && q != p
  {
    var q := p + 1 + roll % (n - 1);
    if q < n then q else q - n
  }

  /** The draws of the mutation of offspring j on its current routes:
      `random.choice` of the operator, one or two distinct entries of
      `all_deliveries`, a target route and a route to reverse among the
      routes. The insertion point is kept raw: `list.insert` clamps it. */
  function MutationDraw(routes: Routes, j: nat, rolls: Rolls): (d: Draw)
    ensures WellDrawn(routes, d)
    ensures d.op == [Swap, Move, Reverse][rolls.op(j) % 3]
  {
    var n := |Flatten(routes)|;
    var p := if n > 0 then rolls.first(j) % n else 0;
    var first := if n > 0 then SlotOf(routes, p) else Slot(0, 0);
    var second :=
      if n >= 2 then
        var q := OtherPosition(p, rolls.second(j), n);
        SlotOfInjective(routes, p, q);
        SlotOf(routes, q)
      else Slot(0, 0);
    var r := |routes|;
    Draw([Swap, Move, Reverse][rolls.op(j) % 3], first, second,
         if r > 0 then rolls.target(j) % r else 0, rolls.insertAt(j),
         if r > 0 then rolls.routeIdx(j) % r else 0)
  }

  // ---------------------------------------------------------------- selection

  /** The population index of the a-th aspirant of tournament j. */
  function Aspirant(n: nat, j: nat, a: nat, rolls: Rolls): (i: nat)
    requires n > 0
    ensures i < n
  {
    rolls.aspirant(j, a) % n
  }

  /** The winner of tournament j: the aspirant of lowest fitness, the first
      of them on a tie (`max` over fitnesses with weight -1). */
  function Tournament(pop: seq<Routes>, score: Routes -> real, j: nat, rolls: Rolls): (i: nat)
    requires |pop| > 0
    ensures i < |pop|
    ensures forall a :: 0 <= a < TournamentSize ==> score(pop[i]) <= score(pop[Aspirant(|pop|, j, a, rolls)])
    ensures exists a :: 0 <= a < TournamentSize && i == Aspirant(|pop|, j, a, rolls)
              && forall b :: 0 <= b < a ==> score(pop[i]) < score(pop[Aspirant(|pop|, j, b, rolls)])
  {
    var aspirants := seq(TournamentSize, a requires 0 <= a < TournamentSize => Aspirant(|pop|, j, a, rolls));
    var scores := seq(TournamentSize, a requires 0 <= a < TournamentSize => score(pop[aspirants[a]]));
    var k := ArgMinFirst(scores);
    assert forall a :: 0 <= a < TournamentSize ==> scores[a] == score(pop[Aspirant(|pop|, j, a, rolls)]);
    aspirants[k]
  }

  /** `selTournament(population, len(population), tournsize=3)`: the
      indices of the chosen individuals, one tournament per position. */
  function SelectRefs(pop: seq<Routes>, score: Routes -> real, rolls: Rolls): (refs: seq<nat>)
    ensures |refs| == |pop|
    ensures forall j :: 0 <= j < |refs| ==> refs[j] < |pop|
    ensures forall j :: 0 <= j < |refs| ==> refs[j] == Tournament(pop, score, j, rolls)
  {
    seq(|pop|, j requires 0 <= j < |pop| => Tournament(pop, score, j, rolls))
  }

  /** The individuals the references point at. */
  function Values(heap: seq<Routes>, refs: seq<nat>): (r: seq<Routes>)
    requires forall j :: 0 <= j < |refs| ==> refs[j] < |heap|
    ensures |r| == |refs|
    ensures forall j :: 0 <= j < |refs| ==> r[j] == heap[refs[j]]
  {
    seq(|refs|, j requires 0 <= j < |refs| => heap[refs[j]])
  }

  /** Selection on values: every chosen individual is a copy of a member of
      the population that won its tournament. */
  function Select(pop: seq<Routes>, score: Routes -> real, rolls: Rolls): (r: seq<Routes>)
    ensures |r| == |pop|
    ensures forall j :: 0 <= j < |r| ==> r[j] in pop
  {
    Values(pop, SelectRefs(pop, score, rolls))
  }

  // ---------------------------------------------------------------- crossover

  /** `start = randint(0, n - 1)`, `end = randint(start + 1, n)`. */
  function Cut(n: nat, k: nat, rolls: Rolls): (c: (nat, nat))
    requires n > 0
    ensures c.0 < c.1 <= n
  {
    var start := rolls.cutStart(k) % n;
    (start, start + 1 + rolls.cutEnd(k) % (n - start))
  }

  /** The pair at positions 2k and 2k + 1 is crossed: its roll is below the
      rate and both parents have at least two deliveries. */
  predicate Crosses(a: Routes, b: Routes, k: nat, rolls: Rolls, rate: real)
  {
    rolls.cross(k) < rate && |Flatten(a)| >= 2 && |Flatten(b)| >= 2
  }

  /** One pair of the corrected `_crossover`: the children replace the
      parents when the pair is crossed. A failed redistribution, which
      needs an empty fleet, keeps the parents. */
  function CrossPair(a: Routes, b: Routes, k: nat, rolls: Rolls, rate: real, m: map<Id, Delivery>,
                     vs: seq<Vehicle>): (r: (Routes, Routes))
    ensures !Crosses(a, b, k, rolls, rate) ==> r == (a, b)
  {
    if Crosses(a, b, k, rolls, rate) then
      var c := Cut(|Flatten(a)|, k, rolls);
      match Crossover(a, b, c.0, c.1, m, vs)
      case Success(children) => children
      case Failure(_) => (a, b)
    else (a, b)
  }

  /** The corrected `_crossover` from pair k on: consecutive pairs, a last
      odd individual left alone. */
  function CrossAll(off: seq<Routes>, k: nat, rolls: Rolls, rate: real, m: map<Id, Delivery>,
                    vs: seq<Vehicle>): (r: seq<Routes>)
    ensures |r| == |off|
    decreases |off|
  {
    if |off| < 2 then off
    else
      var c := CrossPair(off[0], off[1], k, rolls, rate, m, vs);
      [c.0, c.1] + CrossAll(off[2..], k + 1, rolls, rate, m, vs)
  }

  // ----------------------------------------------------------------- mutation

  /** The corrected `_mutate` of offspring j. */
  function MutateOne(ind: Routes, j: nat, rolls: Rolls, rate: real): (r: Routes)
    ensures multiset(Flatten(r)) == multiset(Flatten(ind))
    ensures rolls.mutate(j) >= rate ==> r == ind
  {
    if rolls.mutate(j) < rate then Mutate(ind, MutationDraw(ind, j, rolls)) else ind
  }

  /** The corrected `_mutate` from offspring j on. */
  function MutateAll(off: seq<Routes>, j: nat, rolls: Rolls, rate: real): (r: seq<Routes>)
    ensures |r| == |off|
    decreases |off|
  {
    if |off| == 0 then []
    else [MutateOne(off[0], j, rolls, rate)] + MutateAll(off[1..], j + 1, rolls, rate)
  }

  /** Selection, crossover and mutation of one generation, on values. */
  function Breed(pop: seq<Routes>, score: Routes -> real, rolls: Rolls, crossRate: real, mutRate: real,
                 m: map<Id, Delivery>, vs: seq<Vehicle>): (r: seq<Routes>)
    ensures |r| == |pop|
  {
    MutateAll(CrossAll(Select(pop, score, rolls), 0, rolls, crossRate, m, vs), 0, rolls, mutRate)
  }

  // ----------------------------------------------------------------- coverage

  /** The individual serves every delivery of `ids` exactly once. */
  predicate Covers(ind: Routes, ids: seq<Id>)
  {
    Distinct(Flatten(ind)) && multiset(Flatten(ind)) == multiset(ids)
  }

  predicate AllCover(pop: seq<Routes>, ids: seq<Id>)
  {
    forall i :: 0 <= i < |pop| ==> Covers(pop[i], ids)
  }

  /** Every id of a covering individual is an id of the list. */
  lemma CoveredKnown(ind: Routes, ids: seq<Id>, m: map<Id, Delivery>)
    requires Covers(ind, ids) && forall y :: y in ids ==> y in m
    ensures forall y :: y in Flatten(ind) ==> y in m
  {
    forall y | y in Flatten(ind)
      ensures y in m
    {
      assert y in multiset(Flatten(ind));
      assert y in multiset(ids);
    }
  }

  /** Crossing two covering parents yields covering children, and with a
      vehicle the redistribution never falls back on the parents. */
  lemma CrossPairCovers(a: Routes, b: Routes, k: nat, rolls: Rolls, rate: real, m: map<Id, Delivery>,
                        vs: seq<Vehicle>, ids: seq<Id>)
    requires Covers(a, ids) && Covers(b, ids)
    requires forall y :: y in ids ==> y in m
    requires |vs| > 0
    ensures Covers(CrossPair(a, b, k, rolls, rate, m, vs).0, ids)
    ensures Covers(CrossPair(a, b, k, rolls, rate, m, vs).1, ids)
    ensures Crosses(a, b, k, rolls, rate) ==>
              var c := Cut(|Flatten(a)|, k, rolls);
              Crossover(a, b, c.0, c.1, m, vs).Success?
  {
    if Crosses(a, b, k, rolls, rate) {
      var c := Cut(|Flatten(a)|, k, rolls);
      CoveredKnown(a, ids, m);
      CrossoverPermutes(a, b, c.0, c.1, m, vs);
    }
  }

  /** The corrected crossover keeps a covering offspring covering. */
  lemma {:induction false} CrossAllCovers(off: seq<Routes>, k: nat, rolls: Rolls, rate: real,
                                          m: map<Id, Delivery>, vs: seq<Vehicle>, ids: seq<Id>)
    requires AllCover(off, ids) && (forall y :: y in ids ==> y in m) && |vs| > 0
    ensures AllCover(CrossAll(off, k, rolls, rate, m, vs), ids)
    decreases |off|
  {
    if |off| >= 2 {
      var c := CrossPair(off[0], off[1], k, rolls, rate, m, vs);
      CrossPairCovers(off[0], off[1], k, rolls, rate, m, vs, ids);
      var rest := CrossAll(off[2..], k + 1, rolls, rate, m, vs);
      assert AllCover(off[2..], ids) by {
        forall i | 0 <= i < |off[2..]|
          ensures Covers(off[2..][i], ids)
        {
          assert off[2..][i] == off[i + 2];
        }
      }
      CrossAllCovers(off[2..], k + 1, rolls, rate, m, vs, ids);
      AllCoverConcat([c.0, c.1], rest, ids);
    }
  }

  /** Covering lists concatenate into a covering list. */
  lemma AllCoverConcat(a: seq<Routes>, b: seq<Routes>, ids: seq<Id>)
    requires AllCover(a, ids) && AllCover(b, ids)
    ensures AllCover(a + b, ids)
  {
    forall i | 0 <= i < |a + b|
      ensures Covers((a + b)[i], ids)
    {
      if i >= |a| {
        assert (a + b)[i] == b[i - |a|];
      }
    }
  }

  /** The corrected mutation keeps an individual covering. */
  lemma MutateOneCovers(ind: Routes, j: nat, rolls: Rolls, rate: real, ids: seq<Id>)
    requires Covers(ind, ids)
    ensures Covers(MutateOne(ind, j, rolls, rate), ids)
  {
    if rolls.mutate(j) < rate {
      MutateKeepsDistinct(ind, MutationDraw(ind, j, rolls));
    }
  }

  lemma {:induction false} MutateAllCovers(off: seq<Routes>, j: nat, rolls: Rolls, rate: real, ids: seq<Id>)
    requires AllCover(off, ids)
    ensures AllCover(MutateAll(off, j, rolls, rate), ids)
    decreases |off|
  {
    if |off| > 0 {
      MutateOneCovers(off[0], j, rolls, rate, ids);
      assert AllCover(off[1..], ids) by {
        forall i | 0 <= i < |off[1..]|
          ensures Covers(off[1..][i], ids)
        {
          assert off[1..][i] == off[i + 1];
        }
      }
      MutateAllCovers(off[1..], j + 1, rolls, rate, ids);
      AllCoverConcat([MutateOne(off[0], j, rolls, rate)], MutateAll(off[1..], j + 1, rolls, rate), ids);
    }
  }

  /** Breeding a covering population yields covering offspring: no
      delivery is lost or served twice. */
  lemma BreedCovers(pop: seq<Routes>, score: Routes -> real, rolls: Rolls, crossRate: real, mutRate: real,
                    m: map<Id, Delivery>, vs: seq<Vehicle>, ids: seq<Id>)
    requires AllCover(pop, ids) && (forall y :: y in ids ==> y in m) && |vs| > 0
    ensures AllCover(Breed(pop, score, rolls, crossRate, mutRate, m, vs), ids)
  {
    var sel := Select(pop, score, rolls);
    assert AllCover(sel, ids) by {
      forall i | 0 <= i < |sel|
        ensures Covers(sel[i], ids)
      {
        var x := sel[i];
        assert x in pop;
        var t :| 0 <= t < |pop| && pop[t] == x;
      }
    }
    CrossAllCovers(sel, 0, rolls, crossRate, m, vs, ids);
    MutateAllCovers(CrossAll(sel, 0, rolls, crossRate, m, vs), 0, rolls, mutRate, ids);
  }

  // ------------------------------------------------------- the evolution loop

  /** What a list of individuals with covering members keeps when elements
      are picked from it. */
  lemma AllCoverSub(a: seq<Routes>, b: seq<Routes>, ids: seq<Id>)
    requires AllCover(b, ids) && multiset(a) <= multiset(b)
    ensures AllCover(a, ids)
  {
    forall i | 0 <= i < |a|
      ensures Covers(a[i], ids)
    {
      assert a[i] in multiset(a);
      assert a[i] in multiset(b);
      var t :| 0 <= t < |b| && b[t] == a[i];
    }
  }

  /** Replacement picks from the population and the offspring, so a
      generation from covering individuals stays covering. */
  lemma GenerationCovers(e: Evolution, offspring: seq<Routes>, size: nat, score: Routes -> real, ids: seq<Id>)
    requires AllCover(e.population, ids) && AllCover(offspring, ids)
    requires Generation(e, offspring, size, score).Success?
    ensures AllCover(Generation(e, offspring, size, score).value.population, ids)
  {
    var pop := Elitism(e.population, offspring, size, score);
    assert Generation(e, offspring, size, score).value.population == pop;
    AllCoverConcat(e.population, offspring, ids);
    AllCoverSub(pop, e.population + offspring, ids);
  }

  /** Breeding turns covering populations into covering offspring. */
  ghost predicate BreedCloses(breed: (nat, seq<Routes>) -> seq<Routes>, ids: seq<Id>)
  {
    forall g, p {:trigger AllCover(breed(g, p), ids)} :: AllCover(p, ids) ==> AllCover(breed(g, p), ids)
  }

  /** A turn whose generation stops the loop ends it there. */
  lemma EvolveStops(e: Evolution, gv: Evolution, breed: (nat, seq<Routes>) -> seq<Routes>,
                    size: nat, patience: Option<int>, generations: nat, score: Routes -> real)
    requires e.ran < generations
    requires Generation(e, breed(e.ran, e.population), size, score) == Success(gv)
    requires Stalled(patience, gv.stall)
    ensures Evolve(e, breed, size, patience, generations, score) == Success(gv)
  {
  }

  /** A turn whose generation fails ends the loop with its error. */
  lemma EvolveBreaks(e: Evolution, breed: (nat, seq<Routes>) -> seq<Routes>,
                     size: nat, patience: Option<int>, generations: nat, score: Routes -> real)
    requires e.ran < generations
    requires Generation(e, breed(e.ran, e.population), size, score).Failure?
    ensures Evolve(e, breed, size, patience, generations, score).Failure?
  {
  }

  /** With a breeding that keeps coverage, the final population `f` of the
      loop covers when the initial one does. */
  lemma {:induction false} EvolveCovers(e: Evolution, breed: (nat, seq<Routes>) -> seq<Routes>, size: nat,
                                        patience: Option<int>, generations: nat, score: Routes -> real,
                                        ids: seq<Id>, f: Evolution)
    requires AllCover(e.population, ids) && BreedCloses(breed, ids)
    requires Evolve(e, breed, size, patience, generations, score) == Success(f)
    ensures AllCover(f.population, ids)
    decreases generations - e.ran, 1
  {
    if e.ran < generations {
      var g := Generation(e, breed(e.ran, e.population), size, score);
      if g.Failure? {
        EvolveBreaks(e, breed, size, patience, generations, score);
      } else {
        EvolveCoversTurn(e, g.value, breed, size, patience, generations, score, ids, f);
      }
    }
  }

  /** The turn whose generation succeeds. */
  lemma {:induction false} EvolveCoversTurn(e: Evolution, gv: Evolution, breed: (nat, seq<Routes>) -> seq<Routes>,
                                            size: nat, patience: Option<int>, generations: nat,
                                            score: Routes -> real, ids: seq<Id>, f: Evolution)
    requires AllCover(e.population, ids) && BreedCloses(breed, ids) && e.ran < generations
    requires Generation(e, breed(e.ran, e.population), size, score) == Success(gv)
    requires Evolve(e, breed, size, patience, generations, score) == Success(f)
    ensures AllCover(f.population, ids)
    decreases generations - e.ran, 0
  {
    var off := breed(e.ran, e.population);
    assert AllCover(gv.population, ids) by {
      assert AllCover(off, ids);
      GenerationCovers(e, off, size, score, ids);
    }
    if Stalled(patience, gv.stall) {
      EvolveStops(e, gv, breed, size, patience, generations, score);
    } else {
      EvolveContinues(e, gv, breed, size, patience, generations, score);
      EvolveCovers(gv, breed, size, patience, generations, score, ids, f);
    }
  }

  /** The corrected generation never raises the recorded best: its entry
      is at most the previous one. */
  lemma BredGenerationKeepsBest(e: Evolution, rolls: Rolls, crossRate: real, mutRate: real, size: nat,
                                score: Routes -> real, m: map<Id, Delivery>, vs: seq<Vehicle>)
    requires Consistent(e, score) && |e.population| > 0 && size > 0
    ensures var g := Generation(e, Breed(e.population, score, rolls, crossRate, mutRate, m, vs), size, score);
            && g.Success? && Consistent(g.value, score)
            && (e.ran > 0 ==> g.value.history[e.ran] <= e.history[e.ran - 1])
  {
    var off := Breed(e.population, score, rolls, crossRate, mutRate, m, vs);
    var pop := Elitism(e.population, off, size, score);
    assert |pop| > 0;
    var g := Generation(e, off, size, score);
    assert g.Success? && g.value.history == e.history + [Least(pop, score)];
    GenerationConsistent(e, off, size, score);
  }

  // ------------------------------------------------------------ as written

  /** `_crossover` as written from pair k on, on references into `heap`. A
      pair that is not crossed keeps its references; a crossed pair gets the
      redistributed children, which are plain lists, so the
      `del offspring[i].fitness.values` after them raises AttributeError
      (unless the redistribution raised first). */
  function CrossAsWritten(heap: seq<Routes>, refs: seq<nat>, k: nat, rolls: Rolls, rate: real,
                          m: map<Id, Delivery>, vs: seq<Vehicle>): (r: Result<seq<nat>>)
    requires forall j :: 0 <= j < |refs| ==> refs[j] < |heap|
    ensures r.Success? ==> r.value == refs
    decreases |refs|
  {
    if |refs| < 2 then Success(refs)
    else
      var a := heap[refs[0]];
      var b := heap[refs[1]];
      if Crosses(a, b, k, rolls, rate) then
        var c := Cut(|Flatten(a)|, k, rolls);
        var children :- Crossover(a, b, c.0, c.1, m, vs);
        Failure(AttributeError("list", "fitness"))
      else
        var rest :- CrossAsWritten(heap, refs[2..], k + 1, rolls, rate, m, vs);
        assert refs[..2] + rest == refs;
        Success(refs[..2] + rest)
  }

  /** Pair p of the references, the generation's pair k + p, is crossed. */
  predicate PairCrosses(heap: seq<Routes>, refs: seq<nat>, k: nat, p: nat, rolls: Rolls, rate: real)
    requires forall j :: 0 <= j < |refs| ==> refs[j] < |heap|
  {
    2 * p + 1 < |refs| && Crosses(heap[refs[2 * p]], heap[refs[2 * p + 1]], k + p, rolls, rate)
  }

  /** With at least one vehicle the crossover of two parents succeeds. */
  lemma CrossoverSucceeds(a: Routes, b: Routes, start: nat, end: nat, m: map<Id, Delivery>, vs: seq<Vehicle>)
    requires |Flatten(a)| >= 2 && |Flatten(b)| >= 2 ==> start < end <= |Flatten(a)|
    requires |vs| > 0
    ensures Crossover(a, b, start, end, m, vs).Success?
  {
    var flat1 := Flatten(a);
    var flat2 := Flatten(b);
    if |flat1| >= 2 && |flat2| >= 2 {
      assert |a| > 0 && |b| > 0;
      var c1 := OxChild(flat1[start..end], flat2);
      var c2 := OxChild(Slice(flat2, start, end), flat1);
      RedistributeCorrect(c1, |a|, vs, m);
      RedistributeCorrect(c2, |b|, vs, m);
      assert Crossover(a, b, start, end, m, vs) == RedistributeBoth(c1, c2, |a|, |b|, vs, m);
    }
  }

  /** With at least one vehicle the crossover as written raises
      AttributeError exactly when some pair is crossed, and otherwise hands
      back the references it was given. */
  lemma {:induction false} CrossAsWrittenOutcome(heap: seq<Routes>, refs: seq<nat>, k: nat, rolls: Rolls,
                                                 rate: real, m: map<Id, Delivery>, vs: seq<Vehicle>)
    requires forall j :: 0 <= j < |refs| ==> refs[j] < |heap|
    requires |vs| > 0
    ensures CrossAsWritten(heap, refs, k, rolls, rate, m, vs).Failure? <==>
              exists p :: PairCrosses(heap, refs, k, p, rolls, rate)
    ensures CrossAsWritten(heap, refs, k, rolls, rate, m, vs).Failure? ==>
              CrossAsWritten(heap, refs, k, rolls, rate, m, vs).error == AttributeError("list", "fitness")
    decreases |refs|
  {
    if |refs| < 2 {
      assert forall p :: !PairCrosses(heap, refs, k, p, rolls, rate);
    } else if Crosses(heap[refs[0]], heap[refs[1]], k, rolls, rate) {
      CrossedPairRaises(heap, refs, k, rolls, rate, m, vs);
    } else {
      var tail := refs[2..];
      CrossAsWrittenOutcome(heap, tail, k + 1, rolls, rate, m, vs);
      UncrossedPairPasses(heap, refs, tail, k, k + 1, rolls, rate, m, vs);
      PairsShift(heap, refs, tail, k, k + 1, rolls, rate);
    }
  }

  /** A crossed first pair raises AttributeError. */
  lemma CrossedPairRaises(heap: seq<Routes>, refs: seq<nat>, k: nat, rolls: Rolls,
                          rate: real, m: map<Id, Delivery>, vs: seq<Vehicle>)
    requires forall j :: 0 <= j < |refs| ==> refs[j] < |heap|
    requires |vs| > 0 && |refs| >= 2 && Crosses(heap[refs[0]], heap[refs[1]], k, rolls, rate)
    ensures CrossAsWritten(heap, refs, k, rolls, rate, m, vs) == Failure(AttributeError("list", "fitness"))
    ensures PairCrosses(heap, refs, k, 0, rolls, rate)
  {
    var a := heap[refs[0]];
    var b := heap[refs[1]];
    var c := Cut(|Flatten(a)|, k, rolls);
    CrossoverSucceeds(a, b, c.0, c.1, m, vs);
  }

  /** Past an uncrossed first pair, the outcome is that of the tail. */
  lemma UncrossedPairPasses(heap: seq<Routes>, refs: seq<nat>, tail: seq<nat>, k: nat, k': nat, rolls: Rolls,
                            rate: real, m: map<Id, Delivery>, vs: seq<Vehicle>)
    requires forall j :: 0 <= j < |refs| ==> refs[j] < |heap|
    requires |refs| >= 2 && !Crosses(heap[refs[0]], heap[refs[1]], k, rolls, rate)
    requires tail == refs[2..] && k' == k + 1
    ensures var r := CrossAsWritten(heap, refs, k, rolls, rate, m, vs);
            var t := CrossAsWritten(heap, tail, k', rolls, rate, m, vs);
            r.Failure? == t.Failure? && (r.Failure? ==> r.error == t.error)
  {
    var t := CrossAsWritten(heap, tail, k', rolls, rate, m, vs);
    assert CrossAsWritten(heap, refs, k, rolls, rate, m, vs)
             == if t.Failure? then Failure(t.error) else Success(refs[..2] + t.value);
  }

  /** Past an uncrossed first pair, the crossed pairs are those of the tail. */
  lemma PairsShift(heap: seq<Routes>, refs: seq<nat>, tail: seq<nat>, k: nat, k': nat, rolls: Rolls, rate: real)
    requires forall j :: 0 <= j < |refs| ==> refs[j] < |heap|
    requires |refs| >= 2 && !Crosses(heap[refs[0]], heap[refs[1]], k, rolls, rate)
    requires tail == refs[2..] && k' == k + 1
    ensures (exists p :: PairCrosses(heap, refs, k, p, rolls, rate)) <==>
              (exists p :: PairCrosses(heap, tail, k', p, rolls, rate))
  {
    if p: nat :| PairCrosses(heap, refs, k, p, rolls, rate) {
      assert p > 0;
      assert tail[2 * (p - 1)] == refs[2 * p] && tail[2 * (p - 1) + 1] == refs[2 * p + 1];
      assert PairCrosses(heap, tail, k', p - 1, rolls, rate);
    }
    if p: nat :| PairCrosses(heap, tail, k', p, rolls, rate) {
      assert tail[2 * p] == refs[2 * (p + 1)] && tail[2 * p + 1] == refs[2 * (p + 1) + 1];
      assert PairCrosses(heap, refs, k, p + 1, rolls, rate);
    }
  }

  /** `_mutate` as written from offspring j on: the mutation, with the
      source's move, rewrites the referenced individual in place, so the
      population and every other reference to it see the change. */
  function MutateAsWritten(heap: seq<Routes>, refs: seq<nat>, j: nat, rolls: Rolls, rate: real): (h: seq<Routes>)
    requires forall i :: 0 <= i < |refs| ==> refs[i] < |heap|
    ensures |h| == |heap|
    ensures forall i :: 0 <= i < |heap| && i !in refs ==> h[i] == heap[i]
    decreases |refs|
  {
    if |refs| == 0 then heap
    else
      var x := heap[refs[0]];
      var h1 := if rolls.mutate(j) < rate then heap[refs[0] := GaMutate(x, MutationDraw(x, j, rolls))] else heap;
      MutateAsWritten(h1, refs[1..], j + 1, rolls, rate)
  }

  /** Every reference points into the heap. */
  predicate Inside<T>(heap: seq<T>, refs: seq<nat>)
  {
    forall j :: 0 <= j < |refs| ==> refs[j] < |heap|
  }

  /** The individuals of a run as objects: `heap` holds them and `refs` is
      the population, references into the heap. */
  datatype Herd = Herd(heap: seq<Routes>, refs: seq<nat>)

  type Population = h: Herd | Inside(h.heap, h.refs) witness Herd([], [])

  /** One generation's breeding on objects: the rewritten heap, the
      population's references and the offspring's. */
  datatype Brood = Brood(heap: seq<Routes>, refs: seq<nat>, offspring: seq<nat>)

  type Pool = b: Brood | Inside(b.heap, b.refs) && Inside(b.heap, b.offspring) witness Brood([], [], [])

  /** The object a reference points at. */
  function Lookup(heap: seq<Routes>): nat -> Routes
  {
    (r: nat) => if r < |heap| then heap[r] else []
  }

  /** The fitness of the object a reference points at. */
  function RefScore(heap: seq<Routes>, score: Routes -> real): nat -> real
  {
    (r: nat) => score(Lookup(heap)(r))
  }

  /** `refs[sel[j]]`: the objects at the positions a selection chose. */
  function Follow(refs: seq<nat>, sel: seq<nat>): (r: seq<nat>)
    requires forall j :: 0 <= j < |sel| ==> sel[j] < |refs|
    ensures |r| == |sel|
    ensures forall j :: 0 <= j < |sel| ==> r[j] == refs[sel[j]]
  {
    seq(|sel|, j requires 0 <= j < |sel| => refs[sel[j]])
  }

  /** A population of n distinct objects, the heap in order. */
  function Identity(n: nat): (r: seq<nat>)
    ensures |r| == n
    ensures forall j :: 0 <= j < n ==> r[j] == j
  {
    seq(n, j => j)
  }

  /** The population of distinct objects is the heap itself, and following
      it changes no selection. */
  lemma IdentityValues(heap: seq<Routes>, sel: seq<nat>)
    requires Inside(heap, sel)
    ensures Values(heap, Identity(|heap|)) == heap
    ensures Follow(Identity(|heap|), sel) == sel
  {
  }

  /** Following a selection and reading the objects is reading the
      selected members of the population. */
  lemma FollowValues(heap: seq<Routes>, refs: seq<nat>, sel: seq<nat>)
    requires Inside(heap, refs) && Inside(refs, sel)
    ensures Inside(heap, Follow(refs, sel))
    ensures Values(heap, Follow(refs, sel)) == Values(Values(heap, refs), sel)
  {
  }

  /** Reading references commutes with concatenation. */
  lemma ValuesConcat(heap: seq<Routes>, a: seq<nat>, b: seq<nat>)
    requires Inside(heap, a) && Inside(heap, b)
    ensures Inside(heap, a + b)
    ensures Values(heap, a + b) == Values(heap, a) + Values(heap, b)
  {
    assert forall j :: 0 <= j < |a + b| ==> (a + b)[j] == if j < |a| then a[j] else b[j - |a|];
  }

  /** Inside the heap, reading references is looking them up. */
  lemma ValuesLookup(heap: seq<Routes>, s: seq<nat>)
    requires Inside(heap, s)
    ensures Values(heap, s) == MapSeq<nat, Routes>(s, Lookup(heap))
  {
  }

  /** Sorting references keeps them inside the heap. */
  lemma SortedInside(heap: seq<Routes>, all: seq<nat>, h: nat -> real)
    requires Inside(heap, all)
    ensures Inside(heap, SortBy<nat>(all, h))
  {
    var sorted := SortBy<nat>(all, h);
    forall j | 0 <= j < |sorted|
      ensures sorted[j] < |heap|
    {
      assert sorted[j] in multiset(all);
    }
  }

  /** The first n references ranked by the fitness of their objects, `h`,
      point at the first n objects ranked by fitness, ties in the same
      order. */
  lemma EliteValues(heap: seq<Routes>, all: seq<nat>, n: nat, score: Routes -> real, h: nat -> real)
    requires Inside(heap, all) && n <= |all|
    requires forall r: nat :: h(r) == score(Lookup(heap)(r))
    ensures Inside(heap, SortBy<nat>(all, h)[..n])
    ensures Values(heap, SortBy<nat>(all, h)[..n]) == SortBy(Values(heap, all), score)[..n]
  {
    var sorted := SortBy<nat>(all, h);
    SortedInside(heap, all, h);
    ValuesPrefix(heap, sorted, n);
    ValuesLookup(heap, sorted);
    MapSortBy<nat, Routes>(all, Lookup(heap), score, h);
    ValuesLookup(heap, all);
  }

  /** Reading a prefix of references reads a prefix of the objects. */
  lemma ValuesPrefix(heap: seq<Routes>, s: seq<nat>, n: nat)
    requires Inside(heap, s) && n <= |s|
    ensures Inside(heap, s[..n])
    ensures Values(heap, s[..n]) == Values(heap, s)[..n]
  {
  }

  /** `selBest(population + offspring, population_size)` on references:
      the elite are objects of the population or the offspring, possibly
      the same object more than once, and reading them gives the elitist
      replacement of the individuals they point at. */
  function ElitismRefs(heap: seq<Routes>, refs: seq<nat>, kept: seq<nat>, size: nat, score: Routes -> real)
    : (r: seq<nat>)
    requires Inside(heap, refs) && Inside(heap, kept)
    ensures Inside(heap, r)
    ensures multiset(r) <= multiset(refs + kept)
    ensures Values(heap, r) == Elitism(Values(heap, refs), Values(heap, kept), size, score)
  {
    var all := refs + kept;
    var n := if size <= |all| then size else |all|;
    var sorted := SortBy<nat>(all, RefScore(heap, score));
    ValuesConcat(heap, refs, kept);
    EliteValues(heap, all, n, score, RefScore(heap, score));
    PrefixMultiset(sorted, n);
    assert Elitism(Values(heap, refs), Values(heap, kept), size, score) == SortBy(Values(heap, all), score)[..n];
    sorted[..n]
  }

  /** A population of distinct objects: the initial individuals, each
      created by its own `creator.Individual`. */
  function Created(pop: seq<Routes>): (p: Population)
    ensures p.heap == pop && p.refs == Identity(|pop|) && Distinct(p.refs)
    ensures Values(p.heap, p.refs) == pop
  {
    Herd(pop, Identity(|pop|))
  }

  /** Selection, crossover and mutation as written on a population of
      objects: the tournaments pick population members by reference, the
      crossover raises on any crossed pair, and the mutation rewrites the
      picked objects in place. The result is the rewritten heap, the same
      population references, and the offspring references that replacement
      ranks with them. */
  function BreedAsWritten(p: Population, score: Routes -> real, rolls: Rolls, crossRate: real, mutRate: real,
                          m: map<Id, Delivery>, vs: seq<Vehicle>): (r: Result<Pool>)
    ensures r.Success? ==> |r.value.heap| == |p.heap| && r.value.refs == p.refs && |r.value.offspring| == |p.refs|
  {
    var sel := SelectRefs(Values(p.heap, p.refs), score, rolls);
    FollowValues(p.heap, p.refs, sel);
    var picked := Follow(p.refs, sel);
    var kept :- CrossAsWritten(p.heap, picked, 0, rolls, crossRate, m, vs);
    var heap := MutateAsWritten(p.heap, kept, 0, rolls, mutRate);
    Success(Brood(heap, p.refs, kept))
  }

  /** A breeding as written whose crossover lets the selected references
      through mutates them and offers them as the offspring. */
  lemma BreedAsWrittenPasses(p: Population, score: Routes -> real, rolls: Rolls, crossRate: real, mutRate: real,
                             m: map<Id, Delivery>, vs: seq<Vehicle>, picked: seq<nat>, kept: seq<nat>)
    requires Inside(p.refs, SelectRefs(Values(p.heap, p.refs), score, rolls))
    requires picked == Follow(p.refs, SelectRefs(Values(p.heap, p.refs), score, rolls)) && Inside(p.heap, picked)
    requires CrossAsWritten(p.heap, picked, 0, rolls, crossRate, m, vs) == Success(kept)
    ensures BreedAsWritten(p, score, rolls, crossRate, mutRate, m, vs)
              == Success(Brood(MutateAsWritten(p.heap, kept, 0, rolls, mutRate), p.refs, kept))
  {
  }

  /** One generation's selection, crossover, mutation and replacement as
      written on a population of objects: the next population is the elite
      of the mutated population and the offspring, by reference, over the
      rewritten heap. */
  function NextAsWritten(p: Population, size: nat, score: Routes -> real, rolls: Rolls, crossRate: real,
                         mutRate: real, m: map<Id, Delivery>, vs: seq<Vehicle>): (r: Result<Population>)
    ensures var b := BreedAsWritten(p, score, rolls, crossRate, mutRate, m, vs);
            && r.Success? == b.Success?
            && (r.Failure? ==> r.error == b.error)
            && (r.Success? ==> r.value.heap == b.value.heap
                               && Values(r.value.heap, r.value.refs)
                                    == Elitism(Values(b.value.heap, b.value.refs), Values(b.value.heap, b.value.offspring),
                                               size, score)
                               && |r.value.refs| == if size <= 2 * |p.refs| then size else 2 * |p.refs|)
  {
    var pool :- BreedAsWritten(p, score, rolls, crossRate, mutRate, m, vs);
    Success(Herd(pool.heap, ElitismRefs(pool.heap, pool.refs, pool.offspring, size, score)))
  }

  /** One generation as written from a population of distinct objects:
      the selected references alias the population, the crossover raises
      on any crossed pair, the mutation works in place, and replacement
      ranks the mutated population together with the offspring it points
      at. */
  function GenerationAsWritten(e: Evolution, rolls: Rolls, crossRate: real, mutRate: real, size: nat,
                               score: Routes -> real, m: map<Id, Delivery>, vs: seq<Vehicle>)
    : (r: Result<Evolution>)
    ensures r.Success? ==> r.value.ran == e.ran + 1
  {
    var next :- NextAsWritten(Created(e.population), size, score, rolls, crossRate, mutRate, m, vs);
    Advance(e, Values(next.heap, next.refs), score)
  }

  // --------------------------------------------- aliasing counterexample

  /** Two routings of the same two deliveries, the first scoring better. */
  const SampleA: Routes := [["a", "b"]]
  const SampleB: Routes := [["b", "a"]]

  function SampleScore(x: Routes): real
  {
    if x == SampleA then 0.0 else 1.0
  }

  /** Every tournament picks individual 0, no pair is crossed, the first
      offspring is reversed and the second left alone. */
  function SampleRolls(): Rolls
  {
    Rolls((j, a) => 0, k => 1.0, k => 0, k => 0, j => if j == 0 then 0.0 else 1.0,
          j => 2, j => 0, j => 0, j => 0, j => 0, j => 0)
  }

  /** After one generation the best score is 0.0, held by SampleA. */
  function SampleState(): Evolution
  {
    Evolution([SampleA, SampleB], [0.0], Some(0.0), 0, 1)
  }

  lemma SampleConsistent()
    ensures Consistent(SampleState(), SampleScore)
  {
    var e := SampleState();
    assert Least(e.population, SampleScore) == 0.0 by {
      assert Least(e.population, SampleScore) <= SampleScore(e.population[0]);
    }
  }

  /** Both tournaments choose the first individual. */
  lemma SampleSelection()
    ensures SelectRefs(SampleState().population, SampleScore, SampleRolls()) == [0, 0]
  {
    var refs := SelectRefs(SampleState().population, SampleScore, SampleRolls());
    assert Aspirant(2, 0, 0, SampleRolls()) == 0 && Aspirant(2, 1, 0, SampleRolls()) == 0;
    assert Aspirant(2, 0, 1, SampleRolls()) == 0 && Aspirant(2, 1, 1, SampleRolls()) == 0;
    assert Aspirant(2, 0, 2, SampleRolls()) == 0 && Aspirant(2, 1, 2, SampleRolls()) == 0;
  }

  /** The only pair is not crossed, so the references pass through. */
  lemma SampleCrossover(m: map<Id, Delivery>, vs: seq<Vehicle>)
    ensures CrossAsWritten(SampleState().population, [0, 0], 0, SampleRolls(), 0.5, m, vs) == Success([0, 0])
  {
    assert !Crosses(SampleA, SampleA, 0, SampleRolls(), 0.5);
    assert [0, 0][2..] == [];
  }

  /** Reversing the first offspring in place turns the population's best
      individual into the worse one. */
  lemma SampleMutation()
    ensures MutateAsWritten(SampleState().population, [0, 0], 0, SampleRolls(), 0.5) == [SampleB, SampleB]
  {
    var heap := SampleState().population;
    SampleReversal();
    var h1 := [SampleB, SampleB];
    assert heap[0 := SampleB] == h1;
    assert [0, 0][1..] == [0];
    SampleSecondKept(h1);
  }

  /** The draw for the first offspring reverses its only route. */
  lemma SampleReversal()
    ensures GaMutate(SampleA, MutationDraw(SampleA, 0, SampleRolls())) == SampleB
  {
    var d := MutationDraw(SampleA, 0, SampleRolls());
    assert d.op == Reverse && d.routeIdx == 0;
    assert Reversed(["a", "b"]) == ["b", "a"] by {
      assert Reversed(["a", "b"][1..]) == ["b"];
    }
  }

  /** The second offspring is left alone. */
  lemma SampleSecondKept(h: seq<Routes>)
    requires |h| == 2
    ensures MutateAsWritten(h, [0], 1, SampleRolls(), 0.5) == h
  {
    assert [0][1..] == [];
  }

  /** From the consistent state SampleState (SampleConsistent), the
      generation as written records 1.0 after 0.0: the best fitness of the
      run gets worse, which the corrected generation rules out
      (BredGenerationKeepsBest). */
  lemma AliasingLosesBest(m: map<Id, Delivery>, vs: seq<Vehicle>)
    ensures var g := GenerationAsWritten(SampleState(), SampleRolls(), 0.5, 0.5, 2, SampleScore, m, vs);
            g.Success? && g.value.history == [0.0, 1.0] && !NonIncreasing(g.value.history)
  {
    SampleOutcome(m, vs);
    assert [0.0, 1.0][0] < [0.0, 1.0][1];
  }

  /** The whole sample generation: both individuals end up as SampleB and
      the recorded best stays 0.0 while the history gains 1.0. */
  lemma SampleOutcome(m: map<Id, Delivery>, vs: seq<Vehicle>)
    ensures GenerationAsWritten(SampleState(), SampleRolls(), 0.5, 0.5, 2, SampleScore, m, vs)
              == Success(Evolution([SampleB, SampleB], [0.0, 1.0], Some(0.0), 1, 2))
  {
    SampleGeneration(SampleState(), SampleRolls(), m, vs);
    SampleElitism();
    SampleAdvance();
  }

  /** The sample generation, from the sample state and rolls, replaces
      from two copies of SampleB on each side. */
  lemma SampleGeneration(e: Evolution, rolls: Rolls, m: map<Id, Delivery>, vs: seq<Vehicle>)
    requires e == SampleState() && rolls == SampleRolls()
    ensures GenerationAsWritten(e, rolls, 0.5, 0.5, 2, SampleScore, m, vs)
              == Advance(e, Elitism([SampleB, SampleB], [SampleB, SampleB], 2, SampleScore), SampleScore)
  {
    SampleBreeding(m, vs);
    SampleReads();
  }

  /** The breeding of the sample: both offspring are references to the
      first object, which the mutation turned into SampleB. */
  lemma SampleBreeding(m: map<Id, Delivery>, vs: seq<Vehicle>)
    ensures BreedAsWritten(Created(SampleState().population), SampleScore, SampleRolls(), 0.5, 0.5, m, vs)
              == Success(Brood([SampleB, SampleB], [0, 1], [0, 0]))
  {
    var pop := SampleState().population;
    var rolls := SampleRolls();
    var p := Created(pop);
    IdentityValues(pop, [0, 0]);
    assert p.heap == pop && Values(p.heap, p.refs) == pop && p.refs == [0, 1];
    assert Follow(p.refs, [0, 0]) == [0, 0];
    assert SelectRefs(Values(p.heap, p.refs), SampleScore, rolls) == [0, 0] by {
      SampleSelection();
    }
    SampleCrossover(m, vs);
    SampleMutation();
    BreedAsWrittenPasses(p, SampleScore, rolls, 0.5, 0.5, m, vs, [0, 0], [0, 0]);
  }

  /** Both the population and the offspring read two copies of SampleB. */
  lemma SampleReads()
    ensures Values([SampleB, SampleB], [0, 1]) == [SampleB, SampleB]
    ensures Values([SampleB, SampleB], [0, 0]) == [SampleB, SampleB]
  {
  }

  /** Replacement from copies of SampleB keeps two of them. */
  lemma SampleElitism()
    ensures Elitism([SampleB, SampleB], [SampleB, SampleB], 2, SampleScore) == [SampleB, SampleB]
  {
    var r := Elitism([SampleB, SampleB], [SampleB, SampleB], 2, SampleScore);
    assert r[0] in multiset(r) && r[1] in multiset(r);
  }

  /** The bookkeeping after that replacement: 1.0 is no improvement. */
  lemma SampleAdvance()
    ensures Advance(SampleState(), [SampleB, SampleB], SampleScore)
              == Success(Evolution([SampleB, SampleB], [0.0, 1.0], Some(0.0), 1, 2))
  {
    assert SampleB[0][0] != SampleA[0][0];
    assert Least([SampleB, SampleB], SampleScore) == 1.0;
    assert [0.0] + [1.0] == [0.0, 1.0];
  }

  // ------------------------------------------------- evolution as written

  /** The `for generation in range(config.generations)` loop as written,
      from generation `e.ran` on, over the population of objects `p`:
      `step` is one generation's selection, crossover, mutation and
      replacement, which may raise, rewrites the objects in place and keeps
      references, so an object that survives twice is one individual in the
      next generation. */
  function EvolveAsWritten(e: Evolution, p: Population, step: (nat, Population) -> Result<Population>,
                           patience: Option<int>, generations: nat, score: Routes -> real): (r: Result<Evolution>)
    decreases generations - e.ran
  {
    if e.ran >= generations then Success(e)
    else
      var p' :- step(e.ran, p);
      var next :- Advance(e, Values(p'.heap, p'.refs), score);
      if Stalled(patience, next.stall) then Success(next)
      else EvolveAsWritten(next, p', step, patience, generations, score)
  }

  /** The counter as written: once the elite can change after it was
      scored, the history need not be monotone, but the counter still counts
      the entries since the first occurrence of the least one, which is below
      every earlier entry and no later entry is below it. */
  predicate Lagging(h: seq<real>, stall: nat)
  {
    && stall < |h|
    && (forall k :: 0 <= k < |h| - 1 - stall ==> h[|h| - 1 - stall] < h[k])
    && (forall k :: |h| - 1 - stall <= k < |h| ==> h[|h| - 1 - stall] <= h[k])
  }

  /** The best so far is the least entry of the history, and the counter
      lags behind it. */
  predicate Counted(h: seq<real>, best: Option<real>, stall: nat)
  {
    && (|h| == 0 ==> best.None? && stall == 0)
    && (|h| > 0 ==> Lagging(h, stall) && best == Some(h[|h| - 1 - stall]))
  }

  /** What the loop as written keeps true: one history entry per
      generation, counted as above, whose last entry is the best score of
      the population. */
  predicate KeptAsWritten(e: Evolution, score: Routes -> real)
  {
    && |e.history| == e.ran
    && Counted(e.history, e.best, e.stall)
    && (e.ran > 0 ==> |e.population| > 0 && Least(e.population, score) == e.history[e.ran - 1])
  }

  /** Recording the best score of any non-empty population keeps the loop
      as written consistent, whether or not it is worse than the last. */
  lemma RecordKept(e: Evolution, pop: seq<Routes>, score: Routes -> real, current: real)
    requires KeptAsWritten(e, score) && |pop| > 0 && current == Least(pop, score)
    ensures KeptAsWritten(Record(e, pop, current), score)
  {
    CountedStep(e.history, e.best, e.stall, current);
    var improved := e.best.None? || current < e.best.value;
    var r := Evolution(pop, e.history + [current], if improved then Some(current) else e.best,
                       if improved then 0 else e.stall + 1, e.ran + 1);
    assert Record(e, pop, current) == r;
    assert r.history[r.ran - 1] == current;
  }

  /** Appending an entry: one below the best so far becomes the new best
      with a counter of 0, any other adds one to the counter. */
  lemma CountedStep(h: seq<real>, best: Option<real>, stall: nat, current: real)
    requires Counted(h, best, stall)
    ensures var improved := best.None? || current < best.value;
            Counted(h + [current], if improved then Some(current) else best, if improved then 0 else stall + 1)
  {
    var h' := h + [current];
    if |h| > 0 {
      var i0 := |h| - 1 - stall;
      assert forall k :: 0 <= k < |h| ==> h'[k] == h[k] && h[i0] <= h[k];
      if !(current < h[i0]) {
        assert h'[|h'| - 1 - (stall + 1)] == h[i0];
      }
    }
  }

  /** The bookkeeping after any replacement that succeeds keeps the loop as
      written consistent. */
  lemma AdvanceKept(e: Evolution, pop: seq<Routes>, score: Routes -> real, next: Evolution)
    requires KeptAsWritten(e, score)
    requires Advance(e, pop, score) == Success(next)
    ensures KeptAsWritten(next, score) && next.ran == e.ran + 1
  {
    RecordKept(e, pop, score, Least(pop, score));
  }

  /** A successful turn of the loop as written: breeding and replacement
      succeeded, and the run ended there on a stalled counter or went on
      from the new state and population of objects. */
  lemma EvolveAsWrittenTurn(e: Evolution, p: Population, step: (nat, Population) -> Result<Population>,
                            patience: Option<int>, generations: nat, score: Routes -> real, f: Evolution)
    returns (p': Population, next: Evolution)
    requires e.ran < generations
    requires EvolveAsWritten(e, p, step, patience, generations, score) == Success(f)
    ensures Advance(e, Values(p'.heap, p'.refs), score) == Success(next)
    ensures if Stalled(patience, next.stall) then f == next
            else EvolveAsWritten(next, p', step, patience, generations, score) == Success(f)
  {
    p' := step(e.ran, p).value;
    next := Advance(e, Values(p'.heap, p'.refs), score).value;
  }

  /** What a successful run as written leaves behind: a consistent state,
      at least one more generation when one was due and no more than
      `generations`, stopped early only on a stalled counter. */
  lemma {:induction false} EvolveAsWrittenKept(e: Evolution, p: Population,
                                               step: (nat, Population) -> Result<Population>,
                                               patience: Option<int>, generations: nat,
                                               score: Routes -> real, f: Evolution)
    requires KeptAsWritten(e, score)
    requires EvolveAsWritten(e, p, step, patience, generations, score) == Success(f)
    ensures KeptAsWritten(f, score) && e.ran <= f.ran
    ensures e.ran < generations ==> e.ran < f.ran <= generations
    ensures f.ran < generations ==> Stalled(patience, f.stall)
    decreases generations - e.ran
  {
    if e.ran < generations {
      var p', next := EvolveAsWrittenTurn(e, p, step, patience, generations, score, f);
      AdvanceKept(e, Values(p'.heap, p'.refs), score, next);
      if !Stalled(patience, next.stall) {
        EvolveAsWrittenKept(next, p', step, patience, generations, score, f);
      }
    }
  }

  /** A run as written whose next generation raises ends with that error. */
  lemma EvolveAsWrittenRaises(e: Evolution, p: Population, step: (nat, Population) -> Result<Population>,
                              patience: Option<int>, generations: nat, score: Routes -> real)
    requires e.ran < generations && step(e.ran, p).Failure?
    ensures EvolveAsWritten(e, p, step, patience, generations, score) == Failure(step(e.ran, p).error)
  {
  }

  /** A last generation that succeeds with a non-empty population ends the
      run with success. */
  lemma LastGenerationPasses(e: Evolution, p: Population, step: (nat, Population) -> Result<Population>,
                             patience: Option<int>, generations: nat, score: Routes -> real)
    requires e.ran + 1 == generations
    requires step(e.ran, p).Success? && |step(e.ran, p).value.refs| > 0
    ensures EvolveAsWritten(e, p, step, patience, generations, score).Success?
  {
    var p' := step(e.ran, p).value;
    assert |Values(p'.heap, p'.refs)| > 0;
  }

  /** A generation that leaves an empty population fails with the
      ValueError of `min`. */
  lemma EvolveAsWrittenEmpty(e: Evolution, p: Population, step: (nat, Population) -> Result<Population>,
                             patience: Option<int>, generations: nat, score: Routes -> real)
    requires e.ran < generations && step(e.ran, p).Success? && |step(e.ran, p).value.refs| == 0
    ensures EvolveAsWritten(e, p, step, patience, generations, score) == Failure(ValueError(EmptyMin))
  {
    var p' := step(e.ran, p).value;
    assert |Values(p'.heap, p'.refs)| == 0;
  }

  /** With at least one vehicle the breeding as written raises the
      AttributeError of the crossover exactly when some pair of the
      selected objects is crossed; otherwise the offspring are the selected
      references, and an empty population breeds nothing. */
  lemma BreedAsWrittenOutcome(p: Population, score: Routes -> real, rolls: Rolls, crossRate: real, mutRate: real,
                              m: map<Id, Delivery>, vs: seq<Vehicle>)
    requires |vs| > 0
    ensures var picked := Follow(p.refs, SelectRefs(Values(p.heap, p.refs), score, rolls));
            var r := BreedAsWritten(p, score, rolls, crossRate, mutRate, m, vs);
            && Inside(p.heap, picked)
            && (r.Failure? <==> exists k :: PairCrosses(p.heap, picked, 0, k, rolls, crossRate))
            && (r.Failure? ==> r.error == AttributeError("list", "fitness"))
            && (r.Success? ==> r.value.offspring == picked)
            && (|p.refs| == 0 ==> r == Success(Brood(p.heap, [], [])))
  {
    var sel := SelectRefs(Values(p.heap, p.refs), score, rolls);
    FollowValues(p.heap, p.refs, sel);
    var picked := Follow(p.refs, sel);
    CrossAsWrittenOutcome(p.heap, picked, 0, rolls, crossRate, m, vs);
    if |p.refs| == 0 {
      assert CrossAsWritten(p.heap, picked, 0, rolls, crossRate, m, vs) == Success([]);
    }
  }

  /** With at least one vehicle a generation as written raises the
      AttributeError of the crossover exactly when some pair of the
      selected objects is crossed, and otherwise keeps `size` references, or
      all of the population and offspring when there are fewer. */
  lemma NextAsWrittenOutcome(p: Population, size: nat, score: Routes -> real, rolls: Rolls, crossRate: real,
                             mutRate: real, m: map<Id, Delivery>, vs: seq<Vehicle>)
    requires |vs| > 0
    ensures var picked := Follow(p.refs, SelectRefs(Values(p.heap, p.refs), score, rolls));
            var r := NextAsWritten(p, size, score, rolls, crossRate, mutRate, m, vs);
            && Inside(p.heap, picked)
            && (r.Failure? <==> exists k :: PairCrosses(p.heap, picked, 0, k, rolls, crossRate))
            && (r.Failure? ==> r.error == AttributeError("list", "fitness"))
            && (r.Success? ==> |r.value.refs| == if size <= 2 * |p.refs| then size else 2 * |p.refs|)
            && (|p.refs| == 0 ==> r.Success?)
  {
    BreedAsWrittenOutcome(p, score, rolls, crossRate, mutRate, m, vs);
  }

  /** In a population whose every individual serves the same ids once, a
      pair is crossed exactly when there are two ids to cut between and the
      pair's draw is below the rate, whichever individuals the tournaments
      pick. */
  lemma CoveringPairsCross(pop: seq<Routes>, score: Routes -> real, rolls: Rolls, rate: real, ids: seq<Id>)
    requires AllCover(pop, ids)
    ensures (exists p :: PairCrosses(pop, SelectRefs(pop, score, rolls), 0, p, rolls, rate)) <==>
              |ids| >= 2 && exists p: nat :: 2 * p + 1 < |pop| && rolls.cross(p) < rate
  {
    var refs := SelectRefs(pop, score, rolls);
    forall j | 0 <= j < |pop|
      ensures |Flatten(pop[j])| == |ids|
    {
      assert |multiset(Flatten(pop[j]))| == |multiset(ids)|;
    }
    if p: nat :| PairCrosses(pop, refs, 0, p, rolls, rate) {
      assert |Flatten(pop[refs[2 * p]])| == |ids|;
      assert 2 * p + 1 < |pop| && rolls.cross(p) < rate;
    }
    if |ids| >= 2 && exists p: nat :: 2 * p + 1 < |pop| && rolls.cross(p) < rate {
      var p: nat :| 2 * p + 1 < |pop| && rolls.cross(p) < rate;
      assert |Flatten(pop[refs[2 * p]])| == |ids| && |Flatten(pop[refs[2 * p + 1]])| == |ids|;
      assert PairCrosses(pop, refs, 0, p, rolls, rate);
    }
  }
}
