// The population that Simulation.__init__ and init_simulation build, on
// values: how many persons there are, where each one is placed, and who
// starts out infected.  The outcomes of random.sample, random.choice and
// random.choices are inputs.
module Setup {
  import opened Grid
  import opened Rumor
  import opened WorldLaws

  /** Python's int() on a float: truncation toward zero. */
  function Truncate(x: real): (n: int)
    ensures x >= 0.0 ==> 0 <= n && n as real <= x < n as real + 1.0
    ensures x < 0.0 ==> n <= 0 && n as real - 1.0 < x <= n as real
  {
    if x >= 0.0 then x.Floor else -((-x).Floor)
  }

  /** number_of_persons: int(ROWS * COLS * density). */
  function NumberOfPersons(density: real): (n: int)
    ensures 0.0 <= density ==> 0 <= n && n as real <= (ROWS * COLS) as real * density < (n + 1) as real
  {
    Truncate((ROWS * COLS) as real * density)
  }

  lemma NumberOfPersonsRange(density: real)
    requires 0.0 <= density <= 1.0
    ensures 0 <= NumberOfPersons(density) <= ROWS * COLS
  {
  }

  /**
   * create_person's cell for a cell number: the row by division by the
   * number of rows, the column by remainder by the number of columns.
   */
  function CellOf(position: int): (c: Pos)
    ensures 0 <= position < ROWS * COLS ==> InGrid(c) && c.0 * COLS + c.1 == position
  {
    (position / ROWS, position % COLS)
  }

  /** The cell numbering that random.sample draws from: row-major over the grid. */
  function CellNumber(c: Pos): int {
    c.0 * COLS + c.1
  }

  /**
   * With a square grid the two agree: CellOf and CellNumber are inverse
   * bijections between 0 .. ROWS*COLS-1 and the cells of the grid.
   */
  lemma CellOfRoundTrip(position: int, c: Pos)
    ensures 0 <= position < ROWS * COLS ==> InGrid(CellOf(position)) && CellNumber(CellOf(position)) == position
    ensures InGrid(c) ==> 0 <= CellNumber(c) < ROWS * COLS && CellOf(CellNumber(c)) == c
  {
  }

  /** Distinct cell numbers give distinct cells. */
  lemma CellOfInjective(p: int, q: int)
    requires 0 <= p < ROWS * COLS && 0 <= q < ROWS * COLS && p != q
    ensures CellOf(p) != CellOf(q)
  {
    CellOfRoundTrip(p, CellOf(p));
    CellOfRoundTrip(q, CellOf(q));
  }

  /** A possible result of random.sample(range(ROWS * COLS), n). */
  predicate ValidSample(cellsPos: seq<int>, n: int) {
    && |cellsPos| == n
    && (forall j :: 0 <= j < |cellsPos| ==> 0 <= cellsPos[j] < ROWS * COLS)
    && (forall j, k :: 0 <= j < k < |cellsPos| ==> cellsPos[j] != cellsPos[k])
  }

  /** The person created for a sampled cell number: infected exactly when it is the chosen one. */
  function Newcomer(position: int, tier: int, randomPerson: int): (a: Agent)
    ensures a.state == Infected <==> position == randomPerson
    ensures a.tier == tier && a.cooldown == 0 && a.turn == 0
    ensures 0 <= position < ROWS * COLS ==> InGrid(a.position)
  {
    Agent(tier, CellOf(position), if position == randomPerson then Infected else NonInfected, 0, 0)
  }

  /** The persons list after init_simulation, in creation order. */
  function InitialAgents(cellsPos: seq<int>, randomPerson: int, tiers: seq<int>): (a: seq<Agent>)
    requires |tiers| == |cellsPos|
    ensures |a| == |cellsPos|
  {
    seq(|cellsPos|, j requires 0 <= j < |cellsPos| => Newcomer(cellsPos[j], tiers[j], randomPerson))
  }

  /** init_simulation's loop builds InitialAgents one sampled cell at a time. */
  lemma InitialAgentsSnoc(cellsPos: seq<int>, randomPerson: int, tiers: seq<int>, i: nat)
    requires |tiers| == |cellsPos| && i < |cellsPos|
    ensures InitialAgents(cellsPos[..i + 1], randomPerson, tiers[..i + 1])
      == InitialAgents(cellsPos[..i], randomPerson, tiers[..i]) + [Newcomer(cellsPos[i], tiers[i], randomPerson)]
  {
  }

  /** The simulation state right after construction. */
  function InitialWorld(cellsPos: seq<int>, randomPerson: int, tiers: seq<int>): (w: World)
    requires |tiers| == |cellsPos|
    ensures |w.agents| == |cellsPos| && w.generation == 0 && w.info == []
    ensures WorldInv(w) <==> CountInfected(w.agents) == 1
  {
    var a := InitialAgents(cellsPos, randomPerson, tiers);
    World(a, 0, CountInfected(a), [])
  }

  /** A population with exactly one infected person counts one infected. */
  lemma {:induction false} CountSingle(a: seq<Agent>, j: nat)
    requires j < |a| && a[j].state == Infected
    requires forall x :: 0 <= x < |a| && x != j ==> a[x].state == NonInfected
    ensures CountInfected(a) == 1
    decreases |a|
  {
    var n := |a| - 1;
    if j < n {
      CountSingle(a[..n], j);
    } else {
      CountNone(a[..n]);
    }
  }

  lemma {:induction false} CountNone(a: seq<Agent>)
    requires forall x :: 0 <= x < |a| ==> a[x].state == NonInfected
    ensures CountInfected(a) == 0
    decreases |a|
  {
    if a != [] {
      CountNone(a[..|a| - 1]);
    }
  }

  /**
   * The population that init_simulation builds from a valid sample: persons
   * on distinct cells of the grid, tiers from 1 to 4, cooldown and turn 0,
   * exactly one of them infected (the chosen one), infected_persons 1, and
   * the bookkeeping invariant in place.
   */
  lemma InitialFacts(cellsPos: seq<int>, randomPerson: int, tiers: seq<int>)
    requires ValidSample(cellsPos, |cellsPos|) && randomPerson in cellsPos
    requires |tiers| == |cellsPos| && forall j :: 0 <= j < |tiers| ==> 1 <= tiers[j] <= 4
    ensures var a := InitialAgents(cellsPos, randomPerson, tiers);
      && (forall j :: 0 <= j < |a| ==>
            InGrid(a[j].position) && 1 <= a[j].tier <= 4 && a[j].cooldown == 0 && a[j].turn == 0)
      && (forall j, k :: 0 <= j < k < |a| ==> a[j].position != a[k].position)
      && (exists j :: 0 <= j < |a| && a[j].state == Infected)
      && (forall j, k :: 0 <= j < |a| && 0 <= k < |a| && a[j].state == Infected && a[k].state == Infected ==> j == k)
      && CountInfected(a) == 1
    ensures InitialWorld(cellsPos, randomPerson, tiers).infectedPersons == 1
    ensures WorldInv(InitialWorld(cellsPos, randomPerson, tiers))
  {
    var a := InitialAgents(cellsPos, randomPerson, tiers);
    forall j | 0 <= j < |a|
      ensures InGrid(a[j].position)
    {
      CellOfRoundTrip(cellsPos[j], (0, 0));
    }
    forall j, k | 0 <= j < k < |a|
      ensures a[j].position != a[k].position
    {
      CellOfInjective(cellsPos[j], cellsPos[k]);
    }
    var j :| 0 <= j < |cellsPos| && cellsPos[j] == randomPerson;
    CountSingle(a, j);
  }
}
