// Reference semantics of the rumour-spreading engine, on values.
//
// A population is a sequence of Agent values in the order of
// Simulation.persons; the grid is implied by the agents' positions (a cell is
// occupied exactly when some agent stands on it).  One generation is a fold,
// in list order, of each agent's turn over the live population: an agent
// infected earlier in the same pass is seen as infected when its own turn
// comes.  The draws of random.randint(1, 3) are an oracle `roll`, indexed by
// the number of draws made so far.
module Rumor {
  import opened Grid

  datatype Option<T> = None | Some(value: T)

  datatype State = Infected | NonInfected

  /** The observable part of a Person. */
  datatype Agent = Agent(tier: int, position: Pos, state: State, cooldown: int, turn: int)

  /** One call of spread_rumor: who called it, on which cell, and whether it returned 1. */
  datatype Attempt = Attempt(spreader: nat, target: Pos, infected: bool)

  /**
   * The state of a pass over the population: the agents, the running
   * infected_num, the number of random draws consumed, and the log of
   * spreading attempts (the log exists only to state properties).
   */
  datatype Pass = Pass(agents: seq<Agent>, infectedNum: int, drawn: nat, attempts: seq<Attempt>)

  /** The part of a Simulation that update changes. */
  datatype World = World(agents: seq<Agent>, generation: int, infectedPersons: int, info: seq<int>)

  /** simulate stops once the generation counter exceeds this value. */
  const GENERATION_CAP: int := 250

  // ---------------------------------------------------------------------------
  // Helpers on populations

  function Positions(agents: seq<Agent>): (ps: seq<Pos>)
    ensures |ps| == |agents|
    ensures forall j :: 0 <= j < |agents| ==> ps[j] == agents[j].position
  {
    seq(|agents|, j requires 0 <= j < |agents| => agents[j].position)
  }

  /** Tiers and positions agree: the parts of a person that never change. */
  predicate SameFixed(a: seq<Agent>, b: seq<Agent>) {
    |a| == |b| && forall j :: 0 <= j < |a| ==> a[j].tier == b[j].tier && a[j].position == b[j].position
  }

  /** The index of the first agent standing on m, if any. */
  function IndexAt(ps: seq<Pos>, m: Pos): (r: Option<nat>)
    ensures r.Some? ==> r.value < |ps| && ps[r.value] == m
    ensures r.Some? ==> forall j :: 0 <= j < r.value ==> ps[j] != m
    ensures r.None? <==> m !in ps
  {
    if ps == [] then None
    else if ps[0] == m then Some(0)
    else match IndexAt(ps[1..], m)
      case None => None
      case Some(j) => Some(j + 1)
  }

  function Indicator(a: Agent): nat {
    if a.state == Infected then 1 else 0
  }

  /** The number of infected agents. */
  function CountInfected(agents: seq<Agent>): (n: nat)
    ensures n <= |agents|
  {
    if agents == [] then 0
    else CountInfected(agents[..|agents| - 1]) + Indicator(agents[|agents| - 1])
  }

  /** The number of agents that are not infected in a and infected in b. */
  function Transitions(a: seq<Agent>, b: seq<Agent>): nat
    requires |a| == |b|
  {
    if a == [] then 0
    else
      var n := |a| - 1;
      Transitions(a[..n], b[..n]) + (if a[n].state == NonInfected && b[n].state == Infected then 1 else 0)
  }

  /** No agent infected in a is uninfected in b. */
  predicate StaysInfected(a: seq<Agent>, b: seq<Agent>) {
    |a| == |b| && forall x :: 0 <= x < |a| && a[x].state == Infected ==> b[x].state == Infected
  }

  /** Apart from agent i, b differs from a only in agents that became infected. */
  predicate OnlyInfects(a: seq<Agent>, b: seq<Agent>, i: int) {
    |a| == |b| &&
    forall x :: 0 <= x < |a| && x != i ==>
      b[x] == a[x] || (a[x].state == NonInfected && b[x] == a[x].(state := Infected))
  }

  /** The number of attempts in the log that returned 1. */
  function Successes(atts: seq<Attempt>): nat {
    if atts == [] then 0
    else Successes(atts[..|atts| - 1]) + (if atts[|atts| - 1].infected then 1 else 0)
  }

  /** Agent x appears as a spreader in the log from entry n0 on. */
  predicate SpokeSince(atts: seq<Attempt>, n0: nat, x: nat)
    decreases |atts| - n0
  {
    n0 < |atts| && (atts[n0].spreader == x || SpokeSince(atts, n0 + 1, x))
  }

  /** One generation of cooldown decay: a positive counter drops by one. */
  function Dec(c: int): int {
    if c > 0 then c - 1 else c
  }

  function Sum(s: seq<int>): int {
    if s == [] then 0 else Sum(s[..|s| - 1]) + s[|s| - 1]
  }

  // ---------------------------------------------------------------------------
  // One generation

  /**
   * Person.spread_rumor: the occupant of cell m becomes infected; the second
   * component is 1 when it was not infected before and 0 when it already was.
   */
  function Spread(agents: seq<Agent>, m: Pos): (r: (seq<Agent>, int))
    requires m in Positions(agents)
    ensures var j := IndexAt(Positions(agents), m).value;
      && (r.1 == 1 <==> agents[j].state == NonInfected)
      && (r.1 == 0 <==> agents[j].state == Infected)
      && r.0 == agents[j := agents[j].(state := Infected)]
  {
    var j := IndexAt(Positions(agents), m).value;
    if agents[j].state == NonInfected then (agents[j := agents[j].(state := Infected)], 1)
    else (agents, 0)
  }

  /** A spreading attempt by agent i on cell m: spread, count, reset i's cooldown to L. */
  function SpreadOnce(s: Pass, i: nat, m: Pos, L: int): (r: Pass)
    requires i < |s.agents| && m in Positions(s.agents)
    ensures Positions(r.agents) == Positions(s.agents)
  {
    var sp := Spread(s.agents, m);
    Pass(sp.0[i := sp.0[i].(cooldown := L)], s.infectedNum + sp.1, s.drawn,
         s.attempts + [Attempt(i, m, sp.1 == 1)])
  }

  /** The body of the loop over valid moves in Simulation.update, for agent i and move m. */
  function TryMove(s: Pass, i: nat, m: Pos, L: int, roll: nat -> int): (r: Pass)
    requires i < |s.agents| && m in Positions(s.agents)
    ensures Positions(r.agents) == Positions(s.agents)
  {
    var p := s.agents[i];
    if p.tier == 1 && p.cooldown == 0 then
      SpreadOnce(s, i, m, L)
    else if p.tier == 2 && p.cooldown == 0 then
      var s1 := s.(drawn := s.drawn + 1);
      if roll(s.drawn) == 1 then SpreadOnce(s1, i, m, L) else s1
    else if p.tier == 3 && p.cooldown == 0 then
      var s1 := s.(drawn := s.drawn + 1);
      if roll(s.drawn) == 1 || roll(s.drawn) == 2 then SpreadOnce(s1, i, m, L) else s1
    else
      s
  }

  /** The loop over valid moves, in order. */
  function TryMoves(s: Pass, i: nat, vm: seq<Pos>, L: int, roll: nat -> int): (r: Pass)
    requires i < |s.agents| && forall m :: m in vm ==> m in Positions(s.agents)
    ensures Positions(r.agents) == Positions(s.agents)
    decreases |vm|
  {
    if vm == [] then s
    else TryMoves(TryMove(s, i, vm[0], L, roll), i, vm[1..], L, roll)
  }

  /** The moves whose cell is occupied, in their order. */
  function OccupiedMoves(ps: seq<Pos>, moves: seq<Pos>): (r: seq<Pos>)
    ensures forall m :: m in r ==> m in ps && m in moves
  {
    if moves == [] then []
    else (if moves[0] in ps then [moves[0]] else []) + OccupiedMoves(ps, moves[1..])
  }

  /** Person.update, as far as it has an effect. */
  function Tick(a: Agent, gen: int): (r: Agent)
    ensures r.turn == gen
    ensures a.cooldown > 0 ==> r.cooldown == a.cooldown - 1
    ensures a.cooldown <= 0 ==> r.cooldown == a.cooldown
  {
    a.(cooldown := Dec(a.cooldown), turn := gen)
  }

  /**
   * The turn of agent i in Simulation.update: skipped when i is not infected
   * at this moment; otherwise the loop over its occupied neighbours, then
   * Person.update.
   */
  function Turn(s: Pass, i: nat, L: int, roll: nat -> int, gen: int): (r: Pass)
    requires i < |s.agents|
    ensures |r.agents| == |s.agents|
  {
    if s.agents[i].state == NonInfected then s
    else
      var t := TryMoves(s, i, OccupiedMoves(Positions(s.agents), Moves(s.agents[i].position)), L, roll);
      t.(agents := t.agents[i := Tick(t.agents[i], gen)])
  }

  /** The turns of agents k, k+1, ... in list order. */
  function PassFrom(s: Pass, k: nat, L: int, roll: nat -> int, gen: int): (r: Pass)
    requires k <= |s.agents|
    ensures |r.agents| == |s.agents|
    decreases |s.agents| - k
  {
    if k == |s.agents| then s
    else PassFrom(Turn(s, k, L, roll, gen), k + 1, L, roll, gen)
  }

  /** The pass of Simulation.update over the whole population, from draw number `cursor`. */
  function FullPass(w: World, L: int, roll: nat -> int, cursor: nat): Pass {
    PassFrom(Pass(w.agents, 0, cursor, []), 0, L, roll, w.generation)
  }

  /** Simulation.update: one pass, then the bookkeeping; also yields the next draw number. */
  function Generation(w: World, L: int, roll: nat -> int, cursor: nat): (r: (World, nat))
    ensures |r.0.agents| == |w.agents| && r.0.generation == w.generation + 1
    ensures |r.0.info| == |w.info| + 1 && r.0.info[..|w.info|] == w.info
    ensures r.0.infectedPersons == w.infectedPersons + r.0.info[|w.info|]
  {
    var p := FullPass(w, L, roll, cursor);
    (World(p.agents, w.generation + 1, w.infectedPersons + p.infectedNum, w.info + [p.infectedNum]), p.drawn)
  }

  /** The loop of Simulation.simulate: update, then stop once the generation exceeds the cap. */
  function Run(w: World, L: int, roll: nat -> int, cursor: nat): (r: World)
    ensures |r.agents| == |w.agents| && r.generation > GENERATION_CAP
    ensures w.generation <= GENERATION_CAP ==> r.generation == GENERATION_CAP + 1
    ensures w.info <= r.info && |r.info| - |w.info| == r.generation - w.generation
    decreases if w.generation <= GENERATION_CAP then GENERATION_CAP + 1 - w.generation else 0
  {
    var g := Generation(w, L, roll, cursor);
    if g.0.generation > GENERATION_CAP then g.0 else Run(g.0, L, roll, g.1)
  }

  // ---------------------------------------------------------------------------
  // Counting lemmas

  lemma {:induction false} CountUpdate(a: seq<Agent>, j: nat, v: Agent)
    requires j < |a|
    ensures CountInfected(a[j := v]) == CountInfected(a) - Indicator(a[j]) + Indicator(v)
    decreases |a|
  {
    var n := |a|;
    if j == n - 1 {
      assert a[j := v][..n - 1] == a[..n - 1];
    } else {
      assert a[j := v][..n - 1] == a[..n - 1][j := v];
      CountUpdate(a[..n - 1], j, v);
    }
  }

  /** When infection is monotone, the count grows by exactly the number of transitions. */
  lemma {:induction false} TransitionsCount(a: seq<Agent>, b: seq<Agent>)
    requires StaysInfected(a, b)
    ensures CountInfected(b) == CountInfected(a) + Transitions(a, b)
    decreases |a|
  {
    if a != [] {
      var n := |a| - 1;
      assert StaysInfected(a[..n], b[..n]);
      TransitionsCount(a[..n], b[..n]);
    }
  }

  lemma SuccessesSnoc(a: seq<Attempt>, x: Attempt)
    ensures Successes(a + [x]) == Successes(a) + (if x.infected then 1 else 0)
  {
    assert (a + [x])[..|a|] == a;
  }

  lemma {:induction false} SumAppend(s: seq<int>, x: int)
    ensures Sum(s + [x]) == Sum(s) + x
  {
    assert (s + [x])[..|s|] == s;
  }
}
