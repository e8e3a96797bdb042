// What Simulation.update and Simulation.simulate do to the whole population
// and to the bookkeeping fields infected_persons, generation and info.
module WorldLaws {
  import opened Rumor
  import opened PassLaws
  import opened RumorLaws

  /**
   * The bookkeeping a Simulation keeps between generations: infected_persons
   * is the number of infected persons, one history entry per generation,
   * every entry non-negative, and the entries add up to the infections after
   * the first one.
   */
  predicate WorldInv(w: World) {
    && w.infectedPersons == CountInfected(w.agents)
    && w.generation == |w.info|
    && (forall g :: 0 <= g < |w.info| ==> w.info[g] >= 0)
    && Sum(w.info) + 1 == w.infectedPersons
  }

  /** The pass that update makes, started at person 0 with infected_num 0 and an empty log. */
  function StartOf(w: World, cursor: nat): Pass {
    Pass(w.agents, 0, cursor, [])
  }

  // ---------------------------------------------------------------------------
  // One call of update

  /**
   * update never cures anyone, never changes a tier or a position, and
   * infected_num is exactly the number of NON_INFECTED to INFECTED changes,
   * so the infected count grows by infected_num, which is at most the number
   * of persons uninfected when the pass began.
   */
  lemma UpdateStates(w: World, L: int, roll: nat -> int, cursor: nat, p: Pass)
    requires p == FullPass(w, L, roll, cursor)
    ensures StaysInfected(w.agents, p.agents)
    ensures SameFixed(w.agents, p.agents)
    ensures p.infectedNum == Transitions(w.agents, p.agents)
    ensures CountInfected(p.agents) == CountInfected(w.agents) + p.infectedNum
    ensures 0 <= p.infectedNum <= |w.agents| - CountInfected(w.agents)
  {
    PassStates(StartOf(w, cursor), 0, L, roll, w.generation, p);
    PassFixed(StartOf(w, cursor), 0, L, roll, w.generation, p);
    TransitionsCount(w.agents, p.agents);
  }

  /**
   * Every spreading attempt of update is made by a person whose cooldown
   * was 0 and whose tier is 1, 2 or 3 (so tier 4 never spreads); with L != 0
   * the spreaders of successive attempts strictly increase, so no person
   * attempts twice; and infected_num is the number of attempts that returned 1.
   */
  lemma UpdateAttempts(w: World, L: int, roll: nat -> int, cursor: nat, p: Pass)
    requires p == FullPass(w, L, roll, cursor)
    ensures forall t :: 0 <= t < |p.attempts| ==>
              var x := p.attempts[t].spreader;
              x < |w.agents| && w.agents[x].cooldown == 0 && 1 <= w.agents[x].tier <= 3
    ensures L != 0 ==> forall t1, t2 :: 0 <= t1 < t2 < |p.attempts| ==>
              p.attempts[t1].spreader < p.attempts[t2].spreader
    ensures p.infectedNum == Successes(p.attempts)
  {
    PassAttempts(StartOf(w, cursor), 0, L, roll, w.generation, p);
  }

  /**
   * Every person's cooldown and turn after update follow CooldownLaw, with
   * the person's state at the moment update's loop reaches it.
   */
  lemma UpdateCooldown(w: World, L: int, roll: nat -> int, cursor: nat, p: Pass)
    requires p == FullPass(w, L, roll, cursor)
    ensures |p.agents| == |w.agents|
    ensures forall x :: 0 <= x < |w.agents| ==>
              CooldownLaw(w.agents[x], p.agents[x], SpokeSince(p.attempts, 0, x),
                          InfectedAtTurn(StartOf(w, cursor), 0, x, L, roll, w.generation), L, w.generation)
  {
    PassCooldown(StartOf(w, cursor), 0, L, roll, w.generation, p);
  }

  /** With L >= 0 cooldown counters never go below 0. */
  lemma CooldownNonNegative(w: World, L: int, roll: nat -> int, cursor: nat, p: Pass)
    requires p == FullPass(w, L, roll, cursor)
    requires L >= 0 && forall x :: 0 <= x < |w.agents| ==> w.agents[x].cooldown >= 0
    ensures forall x :: 0 <= x < |p.agents| ==> p.agents[x].cooldown >= 0
  {
    UpdateCooldown(w, L, roll, cursor, p);
    forall x | 0 <= x < |p.agents|
      ensures p.agents[x].cooldown >= 0
    {
      assert CooldownLaw(w.agents[x], p.agents[x], SpokeSince(p.attempts, 0, x),
                         InfectedAtTurn(StartOf(w, cursor), 0, x, L, roll, w.generation), L, w.generation);
    }
  }

  /** When every person has tier 4 nobody spreads: no attempt and infected_num 0. */
  lemma AllTierFourSilent(w: World, L: int, roll: nat -> int, cursor: nat, p: Pass)
    requires p == FullPass(w, L, roll, cursor)
    requires forall x :: 0 <= x < |w.agents| ==> w.agents[x].tier == 4
    ensures p.attempts == [] && p.infectedNum == 0
    ensures CountInfected(p.agents) == CountInfected(w.agents)
  {
    UpdateAttempts(w, L, roll, cursor, p);
    UpdateStates(w, L, roll, cursor, p);
  }

  /**
   * With L != 0, infected_num is at most the number of attempts, which is at
   * most the number of persons that are infected when their turn comes.
   */
  lemma UpdateBound(w: World, L: int, roll: nat -> int, cursor: nat, p: Pass)
    requires L != 0 && p == FullPass(w, L, roll, cursor)
    ensures p.infectedNum <= |p.attempts| <= ActiveFrom(StartOf(w, cursor), 0, L, roll, w.generation)
  {
    PassBound(StartOf(w, cursor), 0, L, roll, w.generation, p);
  }

  /**
   * update as a whole: generation grows by one, info gains exactly the entry
   * infected_num, infected_persons grows by it, and the bookkeeping invariant
   * is preserved.
   */
  lemma GenerationStep(w: World, L: int, roll: nat -> int, cursor: nat, g: World)
    requires g == Generation(w, L, roll, cursor).0
    ensures g.generation == w.generation + 1
    ensures g.info == w.info + [g.infectedPersons - w.infectedPersons]
    ensures g.infectedPersons >= w.infectedPersons
    ensures StaysInfected(w.agents, g.agents) && SameFixed(w.agents, g.agents)
    ensures g.infectedPersons - w.infectedPersons == Transitions(w.agents, g.agents)
    ensures WorldInv(w) ==> WorldInv(g)
  {
    var p := FullPass(w, L, roll, cursor);
    UpdateStates(w, L, roll, cursor, p);
    SumAppend(w.info, p.infectedNum);
  }

  /**
   * update from the pass it makes: the next world and the next draw number
   * are read off the pass, and the bookkeeping invariant carries over.
   */
  lemma GenerationOf(w: World, L: int, roll: nat -> int, cursor: nat, p: Pass)
    requires p == PassFrom(Pass(w.agents, 0, cursor, []), 0, L, roll, w.generation)
    ensures Generation(w, L, roll, cursor)
      == (World(p.agents, w.generation + 1, w.infectedPersons + p.infectedNum, w.info + [p.infectedNum]), p.drawn)
    ensures WorldInv(w) ==> WorldInv(World(p.agents, w.generation + 1, w.infectedPersons + p.infectedNum, w.info + [p.infectedNum]))
  {
    GenerationStep(w, L, roll, cursor, Generation(w, L, roll, cursor).0);
  }

  // ---------------------------------------------------------------------------
  // The simulate loop

  lemma StaysInfectedTrans(a: seq<Agent>, b: seq<Agent>, c: seq<Agent>)
    requires StaysInfected(a, b) && StaysInfected(b, c)
    ensures StaysInfected(a, c)
  {
  }

  /**
   * simulate ends at generation 251 (or one past a start already beyond the
   * cap), having appended one history entry per generation, never curing
   * anyone and keeping the bookkeeping invariant.
   */
  lemma {:induction false} RunFacts(w: World, L: int, roll: nat -> int, cursor: nat, r: World)
    requires r == Run(w, L, roll, cursor)
    ensures r.generation == if w.generation <= GENERATION_CAP then GENERATION_CAP + 1 else w.generation + 1
    ensures w.info <= r.info && |r.info| == |w.info| + r.generation - w.generation
    ensures StaysInfected(w.agents, r.agents)
    ensures WorldInv(w) ==> WorldInv(r)
    decreases if w.generation <= GENERATION_CAP then GENERATION_CAP + 1 - w.generation else 0
  {
    var g := Generation(w, L, roll, cursor);
    GenerationStep(w, L, roll, cursor, g.0);
    if g.0.generation <= GENERATION_CAP {
      RunFacts(g.0, L, roll, g.1, r);
      StaysInfectedTrans(w.agents, g.0.agents, r.agents);
    }
  }

  /**
   * From a freshly built simulation (generation 0), simulate returns a
   * history of 251 entries whose sum is infected_persons - 1.
   */
  lemma RunFromStart(w: World, L: int, roll: nat -> int, cursor: nat, r: World)
    requires WorldInv(w) && w.generation == 0 && r == Run(w, L, roll, cursor)
    ensures r.generation == GENERATION_CAP + 1 && |r.info| == 251
    ensures Sum(r.info) == r.infectedPersons - 1
    ensures forall g :: 0 <= g < |r.info| ==> r.info[g] >= 0
  {
    RunFacts(w, L, roll, cursor, r);
  }
}
