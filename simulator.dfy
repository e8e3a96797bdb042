// The classes of Simulator.py.  A Simulation owns the grid, an array2 of
// Person references (null for an empty cell), the list of persons in
// creation order and the per-generation history.  Each method is proved
// against the value semantics of modules Rumor and Setup: the persons' states
// read as a sequence of Agent values evolve exactly as the reference pass
// says, so every law proved there holds of the objects as well.
module Simulator {
  import opened Grid
  import opened Rumor
  import opened RumorLaws
  import opened WorldLaws
  import opened Setup

  /** create_matrix: a rows x cols grid whose cells are all empty. */
  method CreateMatrix(rows: nat, cols: nat) returns (matrix: array2<Person?>)
    ensures fresh(matrix)
    ensures matrix.Length0 == rows && matrix.Length1 == cols
    ensures forall r, c :: 0 <= r < rows && 0 <= c < cols ==> matrix[r, c] == null
  {
    matrix := new Person?[rows, cols];
    var r := 0;
    while r < rows
      invariant 0 <= r <= rows
      invariant forall i, j :: 0 <= i < r && 0 <= j < cols ==> matrix[i, j] == null
    {
      var col := 0;
      while col < cols
        invariant 0 <= col <= cols
        invariant forall i, j :: 0 <= i < r && 0 <= j < cols ==> matrix[i, j] == null
        invariant forall j :: 0 <= j < col ==> matrix[r, j] == null
      {
        matrix[r, col] := null;
        col := col + 1;
      }
      r := r + 1;
    }
  }

  class Person {
    /** The tier, 1 to 4: how readily the person passes the rumour on. */
    const levelOfSkepticism: int
    const position: Pos
    var state: State
    /** stop_spreading: generations to wait before spreading again. */
    var stopSpreading: int
    /** The generation of the person's last turn. */
    var turn: int

    constructor (levelOfSkepticism: int, position: Pos, state: State)
      ensures this.levelOfSkepticism == levelOfSkepticism && this.position == position
      ensures this.state == state && stopSpreading == 0 && turn == 0
    {
      this.levelOfSkepticism := levelOfSkepticism;
      this.position := position;
      this.state := state;
      turn := 0;
      stopSpreading := 0;
    }

    /** The person's observable state as a value. */
    function Value(): Agent
      reads this
    {
      Agent(levelOfSkepticism, position, state, stopSpreading, turn)
    }

    /** get_moves: the eight neighbouring cells, in move-set order, wrapping at the edges. */
    method GetMoves() returns (moves: seq<Pos>)
      ensures moves == Moves(position)
    {
      moves := [];
      var k := 0;
      while k < |MoveSet|
        invariant 0 <= k <= |MoveSet| && moves == Moves(position)[..k]
      {
        var offset := MoveSet[k];
        moves := moves + [((position.0 + offset.0) % ROWS, (position.1 + offset.1) % COLS)];
        k := k + 1;
      }
    }

    /**
     * spread_rumor: the person on cell personPosition becomes infected; the
     * result is 1 when it was not infected before and 0 when it already
     * was.  Only that person's state may change.
     */
    method SpreadRumor(personPosition: Pos, matrix: array2<Person?>) returns (r: int)
      requires 0 <= personPosition.0 < matrix.Length0 && 0 <= personPosition.1 < matrix.Length1
      requires matrix[personPosition.0, personPosition.1] != null
      modifies matrix[personPosition.0, personPosition.1]`state
      ensures matrix[personPosition.0, personPosition.1].state == Infected
      ensures r == 1 <==> old(matrix[personPosition.0, personPosition.1].state) == NonInfected
      ensures r == 0 <==> old(matrix[personPosition.0, personPosition.1].state) == Infected
    {
      var row := personPosition.0;
      var column := personPosition.1;
      if matrix[row, column].state == NonInfected {
        matrix[row, column].state := Infected;
        return 1;
      }
      return 0;
    }

    /**
     * The effective part of Person.update: a positive cooldown drops by one
     * and the turn is stamped; the state is never changed.
     */
    method Update(gen: int)
      modifies this`stopSpreading, this`turn
      ensures stopSpreading == Dec(old(stopSpreading)) && turn == gen
    {
      if stopSpreading > 0 {
        stopSpreading := stopSpreading - 1;
      }
      turn := gen;
    }
  }

  /** The states of a list of persons as values, in list order. */
  function Values(ps: seq<Person>): (v: seq<Agent>)
    reads ps
    ensures |v| == |ps|
    ensures forall j :: 0 <= j < |ps| ==> v[j] == ps[j].Value()
  {
    if ps == [] then [] else Values(ps[..|ps| - 1]) + [ps[|ps| - 1].Value()]
  }

  /** Appending a person appends its value. */
  lemma ValuesSnoc(ps: seq<Person>, p: Person)
    ensures Values(ps + [p]) == Values(ps) + [p.Value()]
  {
    assert (ps + [p])[..|ps|] == ps;
  }

  // ---------------------------------------------------------------------------
  // The grid and the body of Simulation.update, over the matrix and the
  // persons list (the only parts of a Simulation they use)

  /**
   * Every person stands on a cell of its own inside the grid and that cell
   * refers back to it.
   */
  predicate Placed(matrix: array2<Person?>, persons: seq<Person>)
    reads matrix
  {
    && matrix.Length0 == ROWS && matrix.Length1 == COLS
    && (forall j :: 0 <= j < |persons| ==> InGrid(persons[j].position))
    && (forall j, k :: 0 <= j < k < |persons| ==> persons[j].position != persons[k].position)
    && (forall j :: 0 <= j < |persons| ==> matrix[persons[j].position.0, persons[j].position.1] == persons[j])
  }

  /** The grid and the persons list agree: Placed, and every occupied cell holds a listed person standing there. */
  predicate Layout(matrix: array2<Person?>, persons: seq<Person>)
    reads matrix
  {
    && Placed(matrix, persons)
    && (forall r, c :: 0 <= r < ROWS && 0 <= c < COLS && matrix[r, c] != null ==>
          matrix[r, c] in persons && matrix[r, c].position == (r, c))
  }

  /** Under Placed, the cell m of a listed person holds the person at index j of the list. */
  lemma CellOccupant(matrix: array2<Person?>, persons: seq<Person>, m: Pos) returns (j: nat)
    requires Placed(matrix, persons) && m in Positions(Values(persons))
    ensures j < |persons| && IndexAt(Positions(Values(persons)), m) == Some(j)
    ensures 0 <= m.0 < matrix.Length0 && 0 <= m.1 < matrix.Length1 && matrix[m.0, m.1] == persons[j]
    ensures forall a, b :: 0 <= a < b < |persons| ==> persons[a] != persons[b]
  {
    j := IndexAt(Positions(Values(persons)), m).value;
    assert persons[j].position == m;
    assert InGrid(persons[j].position);
  }

  /** Under Layout, a cell of the grid is occupied exactly when a listed person stands on it. */
  lemma OccupiedCell(matrix: array2<Person?>, persons: seq<Person>, m: Pos)
    requires Layout(matrix, persons) && 0 <= m.0 < ROWS && 0 <= m.1 < COLS
    ensures m in Positions(Values(persons)) <==> matrix[m.0, m.1] != null
  {
    var ps := Positions(Values(persons));
    if matrix[m.0, m.1] != null {
      var j :| 0 <= j < |persons| && persons[j] == matrix[m.0, m.1];
      assert ps[j] == m;
    }
    if m in ps {
      var j :| 0 <= j < |ps| && ps[j] == m;
      assert InGrid(persons[j].position);
    }
  }

  /**
   * get_valid_moves: the moves whose cell holds a person, in their order;
   * under Layout these are the moves onto a listed person's cell.
   */
  method GetValidMoves(matrix: array2<Person?>, persons: seq<Person>, moves: seq<Pos>) returns (valid: seq<Pos>)
    requires Layout(matrix, persons)
    requires forall i :: 0 <= i < |moves| ==> 0 <= moves[i].0 < ROWS && 0 <= moves[i].1 < COLS
    ensures forall m :: m in valid <==> m in moves && matrix[m.0, m.1] != null
    ensures valid == OccupiedMoves(Positions(Values(persons)), moves)
  {
    ghost var ps := Positions(Values(persons));
    valid := [];
    var i := 0;
    while i < |moves|
      invariant 0 <= i <= |moves| && valid == OccupiedMoves(ps, moves[..i])
    {
      var move := moves[i];
      OccupiedCell(matrix, persons, move);
      if matrix[move.0, move.1] != null {
        valid := valid + [move];
      }
      OccupiedMovesSnoc(ps, moves[..i], move);
      assert moves[..i + 1] == moves[..i] + [move];
      i := i + 1;
    }
    assert moves[..i] == moves;
    OccupiedMovesFilter(ps, moves);
    forall m | m in moves
      ensures m in ps <==> matrix[m.0, m.1] != null
    {
      OccupiedCell(matrix, persons, m);
    }
  }

  /**
   * Person k's call of spread_rumor on the cell m of person j: only j's
   * state changes, to INFECTED, and the result is 1 exactly when j was
   * NON_INFECTED.
   */
  method InfectAt(matrix: array2<Person?>, persons: seq<Person>, k: nat, m: Pos, ghost j: nat) returns (x: int)
    requires k < |persons| && j < |persons|
    requires 0 <= m.0 < matrix.Length0 && 0 <= m.1 < matrix.Length1 && matrix[m.0, m.1] == persons[j]
    requires forall a, b :: 0 <= a < b < |persons| ==> persons[a] != persons[b]
    modifies persons[j]
    ensures Values(persons) == old(Values(persons))[j := old(Values(persons))[j].(state := Infected)]
    ensures x == if old(Values(persons))[j].state == NonInfected then 1 else 0
  {
    ghost var v0 := Values(persons);
    x := persons[k].SpreadRumor(m, matrix);
    forall i | 0 <= i < |persons|
      ensures persons[i].Value() == v0[j := v0[j].(state := Infected)][i]
    {
      if i != j {
        assert persons[i] != persons[j];
      }
    }
  }

  /** person.stop_spreading = l_generation for the person at index k: only its cooldown changes. */
  method SetCooldown(persons: seq<Person>, k: nat, L: int)
    requires k < |persons| && forall a, b :: 0 <= a < b < |persons| ==> persons[a] != persons[b]
    modifies persons[k]
    ensures Values(persons) == old(Values(persons))[k := old(Values(persons))[k].(cooldown := L)]
  {
    ghost var v0 := Values(persons);
    persons[k].stopSpreading := L;
    forall i | 0 <= i < |persons|
      ensures persons[i].Value() == v0[k := v0[k].(cooldown := L)][i]
    {
      if i != k {
        assert persons[i] != persons[k];
      }
    }
  }

  /**
   * One spreading attempt of person k on the cell m of person j, as update
   * makes it: j is infected, infected_num grows by spread_rumor's result
   * and k's cooldown is set to l_generation.
   */
  method SpreadFrom(matrix: array2<Person?>, persons: seq<Person>, L: int, k: nat, m: Pos, ghost j: nat,
                    infectedNum: int, drawn: nat, ghost log: seq<Attempt>)
    returns (newInfected: int, ghost newLog: seq<Attempt>)
    requires k < |persons| && j < |persons| && IndexAt(Positions(Values(persons)), m) == Some(j)
    requires 0 <= m.0 < matrix.Length0 && 0 <= m.1 < matrix.Length1 && matrix[m.0, m.1] == persons[j]
    requires forall a, b :: 0 <= a < b < |persons| ==> persons[a] != persons[b]
    modifies persons
    ensures Pass(Values(persons), newInfected, drawn, newLog) ==
            SpreadOnce(Pass(old(Values(persons)), infectedNum, drawn, log), k, m, L)
  {
    ghost var v0 := Values(persons);
    var x := InfectAt(matrix, persons, k, m, j);
    newInfected := infectedNum + x;
    SetCooldown(persons, k, L);
    newLog := log + [Attempt(k, m, x == 1)];
    SpreadOnceAt(Pass(v0, infectedNum, drawn, log), k, m, L, j);
  }

  /**
   * The body of update's loop over the valid moves, for person k and move
   * m: the tier and the cooldown decide whether to spread, tiers 2 and 3
   * after one draw of randint(1, 3).
   */
  method TryMoveAt(matrix: array2<Person?>, persons: seq<Person>, L: int, k: nat, m: Pos, roll: nat -> int,
                   infectedNum: int, drawn: nat, ghost log: seq<Attempt>)
    returns (newInfected: int, newDrawn: nat, ghost newLog: seq<Attempt>)
    requires Placed(matrix, persons) && k < |persons| && m in Positions(Values(persons))
    modifies persons
    ensures Pass(Values(persons), newInfected, newDrawn, newLog) ==
            TryMove(Pass(old(Values(persons)), infectedNum, drawn, log), k, m, L, roll)
  {
    ghost var j := CellOccupant(matrix, persons, m);
    var person := persons[k];
    newInfected, newDrawn, newLog := infectedNum, drawn, log;
    var personType := person.levelOfSkepticism;
    if personType == 1 && person.stopSpreading == 0 {
      newInfected, newLog := SpreadFrom(matrix, persons, L, k, m, j, infectedNum, drawn, log);
    } else if personType == 2 && person.stopSpreading == 0 {
      var randomNumber := roll(drawn);
      newDrawn := drawn + 1;
      if randomNumber == 1 {
        newInfected, newLog := SpreadFrom(matrix, persons, L, k, m, j, infectedNum, newDrawn, log);
      }
    } else if personType == 3 && person.stopSpreading == 0 {
      var randomNumber := roll(drawn);
      newDrawn := drawn + 1;
      if randomNumber == 1 || randomNumber == 2 {
        newInfected, newLog := SpreadFrom(matrix, persons, L, k, m, j, infectedNum, newDrawn, log);
      }
    }
  }

  /** update's loop over the valid moves of person k, in their order. */
  method TryMovesAt(matrix: array2<Person?>, persons: seq<Person>, L: int, k: nat, validMoves: seq<Pos>,
                    roll: nat -> int, infectedNum: int, drawn: nat, ghost log: seq<Attempt>)
    returns (newInfected: int, newDrawn: nat, ghost newLog: seq<Attempt>)
    requires Placed(matrix, persons) && k < |persons|
    requires forall m :: m in validMoves ==> m in Positions(Values(persons))
    modifies persons
    ensures Pass(Values(persons), newInfected, newDrawn, newLog) ==
            TryMoves(Pass(old(Values(persons)), infectedNum, drawn, log), k, validMoves, L, roll)
  {
    ghost var before := Pass(Values(persons), infectedNum, drawn, log);
    newInfected, newDrawn, newLog := infectedNum, drawn, log;
    var v := 0;
    while v < |validMoves|
      invariant 0 <= v <= |validMoves| && Placed(matrix, persons)
      invariant Positions(Values(persons)) == Positions(before.agents)
      invariant TryMoves(Pass(Values(persons), newInfected, newDrawn, newLog), k, validMoves[v..], L, roll) ==
                TryMoves(before, k, validMoves, L, roll)
    {
      assert validMoves[v..][1..] == validMoves[v + 1..];
      newInfected, newDrawn, newLog := TryMoveAt(matrix, persons, L, k, validMoves[v], roll, newInfected, newDrawn, newLog);
      assert Placed(matrix, persons) == old(Placed(matrix, persons));
      v := v + 1;
    }
    assert validMoves[v..] == [];
  }

  /**
   * The turn of person k in update: nothing for a NON_INFECTED person;
   * otherwise its spreading attempts on the valid moves, then Person.update
   * ticks its cooldown down and stamps the generation.
   */
  method TakeTurn(matrix: array2<Person?>, persons: seq<Person>, L: int, gen: int, k: nat, roll: nat -> int,
                  infectedNum: int, drawn: nat, ghost log: seq<Attempt>)
    returns (newInfected: int, newDrawn: nat, ghost newLog: seq<Attempt>)
    requires Layout(matrix, persons) && k < |persons|
    modifies persons
    ensures Layout(matrix, persons)
    ensures Pass(Values(persons), newInfected, newDrawn, newLog) ==
            Turn(Pass(old(Values(persons)), infectedNum, drawn, log), k, L, roll, gen)
  {
    ghost var before := Pass(Values(persons), infectedNum, drawn, log);
    newInfected, newDrawn, newLog := infectedNum, drawn, log;
    var person := persons[k];
    if person.state == NonInfected {
      assert before.agents[k].state == NonInfected;
      return;
    }
    var moves := person.GetMoves();
    var validMoves := GetValidMoves(matrix, persons, moves);
    assert validMoves == OccupiedMoves(Positions(before.agents), Moves(before.agents[k].position));
    OccupiedMovesFilter(Positions(before.agents), moves);
    assert forall m :: m in validMoves ==> m in Positions(Values(persons));
    newInfected, newDrawn, newLog := TryMovesAt(matrix, persons, L, k, validMoves, roll, infectedNum, drawn, log);
    ghost var t := Pass(Values(persons), newInfected, newDrawn, newLog);
    TurnAt(before, k, L, roll, gen, validMoves, t);
    TickAt(persons, k, gen);
    assert Layout(matrix, persons) == old(Layout(matrix, persons));
  }

  /** Person.update for the person at index k: only that person's cooldown and turn change. */
  method TickAt(persons: seq<Person>, k: nat, gen: int)
    requires k < |persons| && forall a, b :: 0 <= a < b < |persons| ==> persons[a] != persons[b]
    modifies persons[k]
    ensures Values(persons) == old(Values(persons))[k := Tick(old(Values(persons))[k], gen)]
  {
    ghost var v0 := Values(persons);
    persons[k].Update(gen);
    forall i | 0 <= i < |persons|
      ensures persons[i].Value() == v0[k := Tick(v0[k], gen)][i]
    {
      if i != k {
        assert persons[i] != persons[k];
      }
    }
  }

  /**
   * The body of update on the persons list: the pass over all persons, read
   * as the generation it makes of the world w0 they belong to.
   */
  method Step(matrix: array2<Person?>, persons: seq<Person>, L: int, gen: int, roll: nat -> int, cursor: nat, ghost w0: World)
    returns (infectedNum: int, drawn: nat)
    requires Layout(matrix, persons) && w0.agents == Values(persons) && w0.generation == gen
    modifies persons
    ensures Layout(matrix, persons)
    ensures var g := World(Values(persons), w0.generation + 1, w0.infectedPersons + infectedNum, w0.info + [infectedNum]);
      Generation(w0, L, roll, cursor) == (g, drawn) && (WorldInv(w0) ==> WorldInv(g))
  {
    ghost var log;
    infectedNum, drawn, log := TakeTurns(matrix, persons, L, gen, roll, cursor);
    ghost var p := Pass(Values(persons), infectedNum, drawn, log);
    GenerationOf(w0, L, roll, cursor, p);
    ghost var g := World(p.agents, w0.generation + 1, w0.infectedPersons + p.infectedNum, w0.info + [p.infectedNum]);
    assert Generation(w0, L, roll, cursor) == (g, p.drawn);
  }

  /**
   * While init_simulation places the persons of a valid sample one by one,
   * the cell of the next sampled cell number is still empty.
   */
  lemma EmptyCell(matrix: array2<Person?>, persons: seq<Person>, cellsPos: seq<int>, randomPerson: int, tiers: seq<int>, i: nat)
    requires ValidSample(cellsPos, |cellsPos|) && |tiers| == |cellsPos| && i < |cellsPos|
    requires Layout(matrix, persons) && Values(persons) == InitialAgents(cellsPos[..i], randomPerson, tiers[..i])
    ensures 0 <= cellsPos[i] < ROWS * COLS && matrix[cellsPos[i] / ROWS, cellsPos[i] % COLS] == null
  {
    var position := cellsPos[i];
    var cell := CellOf(position);
    CellOfRoundTrip(position, (0, 0));
    if matrix[cell.0, cell.1] != null {
      var j :| 0 <= j < |persons| && persons[j] == matrix[cell.0, cell.1];
      assert Values(persons)[j].position == CellOf(cellsPos[j]);
      CellOfInjective(cellsPos[j], position);
    }
  }

  /**
   * The assignment matrix[row][col] = person of create_person.  When the
   * cell was empty and the grid agreed with the list, it agrees with the
   * list extended by the new person.
   */
  method PutOnCell(matrix: array2<Person?>, persons: seq<Person>, person: Person)
    requires matrix.Length0 == ROWS && matrix.Length1 == COLS && InGrid(person.position)
    modifies matrix
    ensures Values(persons) == old(Values(persons))
    ensures matrix[person.position.0, person.position.1] == person
    ensures forall r, c :: 0 <= r < ROWS && 0 <= c < COLS && (r, c) != person.position ==>
              matrix[r, c] == old(matrix[r, c])
    ensures old(matrix[person.position.0, person.position.1]) == null && old(Layout(matrix, persons)) ==>
              Layout(matrix, persons + [person])
  {
    var cell := person.position;
    ghost var empty := matrix[cell.0, cell.1] == null && Layout(matrix, persons);
    assert empty ==> forall j :: 0 <= j < |persons| ==> persons[j].position != cell;
    matrix[cell.0, cell.1] := person;
    if empty {
      var ps := persons + [person];
      assert Placed(matrix, ps) by {
        forall j | 0 <= j < |persons|
          ensures matrix[persons[j].position.0, persons[j].position.1] == persons[j]
        {
        }
      }
      forall r, c | 0 <= r < ROWS && 0 <= c < COLS && matrix[r, c] != null
        ensures matrix[r, c] in ps && matrix[r, c].position == (r, c)
      {
        if (r, c) != cell {
          assert matrix[r, c] == old(matrix[r, c]);
        }
      }
    }
  }

  /**
   * update's loop over the persons: each takes its turn in list order,
   * seeing the persons as the earlier turns left them.
   */
  method TakeTurns(matrix: array2<Person?>, persons: seq<Person>, L: int, gen: int, roll: nat -> int, cursor: nat)
    returns (infectedNum: int, drawn: nat, ghost log: seq<Attempt>)
    requires Layout(matrix, persons)
    modifies persons
    ensures Layout(matrix, persons)
    ensures Pass(Values(persons), infectedNum, drawn, log) ==
            PassFrom(Pass(old(Values(persons)), 0, cursor, []), 0, L, roll, gen)
  {
    ghost var goal := PassFrom(Pass(Values(persons), 0, cursor, []), 0, L, roll, gen);
    infectedNum, drawn, log := 0, cursor, [];
    var k := 0;
    while k < |persons|
      invariant 0 <= k <= |persons| && Layout(matrix, persons)
      invariant PassFrom(Pass(Values(persons), infectedNum, drawn, log), k, L, roll, gen) == goal
    {
      infectedNum, drawn, log := TakeTurn(matrix, persons, L, gen, k, roll, infectedNum, drawn, log);
      k := k + 1;
    }
  }

  class Simulation {
    const rows: int
    const cols: int
    var generation: int
    var infectedPersons: int
    const matrix: array2<Person?>
    const pPopulationDensity: real
    const numberOfPersons: int
    /** The tier weights; with random.choices taken as an input they are only stored. */
    const pS1: real
    const pS2: real
    const pS3: real
    const pS4: real
    /** l_generation: the cooldown set after each spreading attempt. */
    const lGeneration: int
    const name: string
    var persons: seq<Person>
    var info: seq<int>

    /** The part of the simulation that update changes, as a value. */
    function Snapshot(): World
      reads this, persons
    {
      World(Values(persons), generation, infectedPersons, info)
    }

    /** A square ROWS x COLS grid laid out as Layout says, and the bookkeeping invariant. */
    predicate Valid()
      reads this, matrix, persons
    {
      rows == ROWS && cols == COLS && Layout(matrix, persons) && WorldInv(Snapshot())
    }

    /**
     * update: one generation.  Persons take their turns in list order and
     * each sees the persons as the earlier turns left them; the n-th draw of
     * randint(1, 3) overall is roll(n), this call starting at draw number
     * cursor and returning the next unused one.  The new state is the
     * reference generation of the old one.  The contract names the
     * conjuncts of Valid() one by one.
     */
    method Update(roll: nat -> int, cursor: nat) returns (drawn: nat)
      requires rows == ROWS && cols == COLS && Layout(matrix, persons) && WorldInv(Snapshot())
      modifies this`generation, this`infectedPersons, this`info, persons
      ensures persons == old(persons) && Layout(matrix, persons) && WorldInv(Snapshot())
      ensures (Snapshot(), drawn) == Generation(old(Snapshot()), lGeneration, roll, cursor)
    {
      ghost var w0 := Snapshot();
      var ps := persons;
      var infectedNum;
      infectedNum, drawn := Step(matrix, ps, lGeneration, generation, roll, cursor, w0);
      assert persons == ps && generation == w0.generation && infectedPersons == w0.infectedPersons && info == w0.info;
      ghost var g := World(Values(ps), w0.generation + 1, w0.infectedPersons + infectedNum, w0.info + [infectedNum]);
      assert WorldInv(g);
      Record(infectedNum);
      assert persons == ps && Snapshot() == g;
    }

    /** The bookkeeping at the end of update: infected_persons, generation and info. */
    method Record(infectedNum: int)
      requires Layout(matrix, persons)
      modifies this`generation, this`infectedPersons, this`info
      ensures persons == old(persons) && Layout(matrix, persons)
      ensures Snapshot() == old(Snapshot()).(generation := old(generation) + 1,
        infectedPersons := old(infectedPersons) + infectedNum, info := old(info) + [infectedNum])
    {
      infectedPersons := infectedPersons + infectedNum;
      generation := generation + 1;
      info := info + [infectedNum];
    }

    /**
     * simulate without the rendering: update until the generation passes
     * 250, then return the history.  The draws of randint(1, 3) are
     * numbered from 0 at the start of the run.
     */
    method Simulate(roll: nat -> int) returns (result: seq<int>)
      requires Valid()
      modifies this`generation, this`infectedPersons, this`info, persons
      ensures Valid()
      ensures Snapshot() == Run(old(Snapshot()), lGeneration, roll, 0)
      ensures result == info
    {
      ghost var w0 := Snapshot();
      var cursor := 0;
      var run := true;
      while run
        invariant persons == old(persons) && rows == ROWS && cols == COLS && Layout(matrix, persons) && WorldInv(Snapshot())
        invariant run ==> Run(Snapshot(), lGeneration, roll, cursor) == Run(w0, lGeneration, roll, 0)
        invariant !run ==> Snapshot() == Run(w0, lGeneration, roll, 0)
        decreases run, if generation <= GENERATION_CAP then GENERATION_CAP + 1 - generation else 0
      {
        cursor := Update(roll, cursor);
        if generation > GENERATION_CAP {
          run := false;
        }
      }
      result := info;
    }

    /**
     * create_person: a new person of tier pType on the cell of cell number
     * position (row by division by rows, column by remainder by cols),
     * entered in the matrix and appended to the list.
     */
    method CreatePerson(position: int, pType: int, state: State)
      requires rows == ROWS && cols == COLS && matrix.Length0 == ROWS && matrix.Length1 == COLS
      requires 0 <= position < ROWS * COLS
      requires Layout(matrix, persons)
      modifies this`persons, matrix
      ensures old(matrix[position / ROWS, position % COLS]) == null ==> Layout(matrix, persons)
      ensures |persons| == |old(persons)| + 1 && persons[..|old(persons)|] == old(persons)
      ensures fresh(persons[|old(persons)|])
      ensures persons[|old(persons)|].Value() == Agent(pType, CellOf(position), state, 0, 0)
      ensures Values(persons) == old(Values(persons)) + [Agent(pType, CellOf(position), state, 0, 0)]
      ensures matrix[CellOf(position).0, CellOf(position).1] == persons[|old(persons)|]
      ensures forall r, c :: 0 <= r < ROWS && 0 <= c < COLS && (r, c) != CellOf(position) ==>
                matrix[r, c] == old(matrix[r, c])
    {
      var row := position / rows;
      var col := position % cols;
      CellOfRoundTrip(position, (0, 0));
      ghost var ps := persons;
      ghost var v0 := Values(ps);
      var person := new Person(pType, (row, col), state);
      assert Values(ps) == v0;
      PutOnCell(matrix, persons, person);
      persons := persons + [person];
      assert Values(ps) == v0;
      ValuesSnoc(ps, person);
    }

    /**
     * init_simulation, with the outcomes of random.sample (cellsPos),
     * random.choice (randomPerson) and random.choices (tiers, one per
     * person) as inputs: one person per sampled cell number, in sample
     * order, INFECTED exactly for the chosen one, which is counted in
     * infected_persons.
     */
    method InitSimulation(cellsPos: seq<int>, randomPerson: int, tiers: seq<int>)
      requires rows == ROWS && cols == COLS && Layout(matrix, persons) && persons == [] && infectedPersons == 0
      requires ValidSample(cellsPos, |cellsPos|) && |tiers| == |cellsPos|
      modifies this`persons, this`infectedPersons, matrix
      ensures Layout(matrix, persons) && Values(persons) == InitialAgents(cellsPos, randomPerson, tiers)
      ensures infectedPersons == CountInfected(Values(persons))
      ensures generation == old(generation) && info == old(info)
    {
      var i := 0;
      while i < |cellsPos|
        invariant 0 <= i <= |cellsPos| && Layout(matrix, persons)
        invariant generation == old(generation) && info == old(info)
        invariant Values(persons) == InitialAgents(cellsPos[..i], randomPerson, tiers[..i])
        invariant infectedPersons == CountInfected(Values(persons))
      {
        var position := cellsPos[i];
        var typeOfPerson := tiers[i];
        EmptyCell(matrix, persons, cellsPos, randomPerson, tiers, i);
        AddNewcomer(position, typeOfPerson, randomPerson);
        InitialAgentsSnoc(cellsPos, randomPerson, tiers, i);
        i := i + 1;
      }
      assert cellsPos[..i] == cellsPos && tiers[..i] == tiers;
    }

    /**
     * The body of init_simulation's loop: the person for one sampled cell
     * number, INFECTED and counted in infected_persons exactly when it is
     * the chosen one.
     */
    method AddNewcomer(position: int, typeOfPerson: int, randomPerson: int)
      requires rows == ROWS && cols == COLS && Layout(matrix, persons)
      requires 0 <= position < ROWS * COLS && matrix[position / ROWS, position % COLS] == null
      requires infectedPersons == CountInfected(Values(persons))
      modifies this`persons, this`infectedPersons, matrix
      ensures Layout(matrix, persons)
      ensures Values(persons) == old(Values(persons)) + [Newcomer(position, typeOfPerson, randomPerson)]
      ensures infectedPersons == CountInfected(Values(persons))
      ensures generation == old(generation) && info == old(info)
    {
      ghost var v0 := Values(persons);
      ghost var v1 := v0 + [Newcomer(position, typeOfPerson, randomPerson)];
      var state := if position == randomPerson then Infected else NonInfected;
      CreatePerson(position, typeOfPerson, state);
      assert Values(persons) == v1;
      assert v1[..|v0|] == v0;
      assert CountInfected(v1) == CountInfected(v0) + Indicator(v1[|v0|]);
      if position == randomPerson {
        infectedPersons := infectedPersons + 1;
        assert Values(persons) == v1;
      }
    }

    /**
     * Simulation.__init__ with the outcomes of the random calls in
     * init_simulation as inputs: an empty grid, the stored parameters and
     * the population that init_simulation builds, at generation 0 with an
     * empty history.
     */
    constructor (density: real, pS1: real, pS2: real, pS3: real, pS4: real, lGeneration: int, name: string,
                 cellsPos: seq<int>, randomPerson: int, tiers: seq<int>)
      requires ValidSample(cellsPos, NumberOfPersons(density)) && randomPerson in cellsPos
      requires |tiers| == |cellsPos| && forall j :: 0 <= j < |tiers| ==> 1 <= tiers[j] <= 4
      ensures Valid() && fresh(matrix)
      ensures Snapshot() == InitialWorld(cellsPos, randomPerson, tiers)
      ensures infectedPersons == 1 && |persons| == numberOfPersons == NumberOfPersons(density)
      ensures this.lGeneration == lGeneration && this.name == name && pPopulationDensity == density
      ensures this.pS1 == pS1 && this.pS2 == pS2 && this.pS3 == pS3 && this.pS4 == pS4
    {
      rows := ROWS;
      cols := COLS;
      generation := 0;
      infectedPersons := 0;
      var grid := CreateMatrix(ROWS, COLS);
      matrix := grid;
      pPopulationDensity := density;
      numberOfPersons := NumberOfPersons(density);
      this.pS1 := pS1;
      this.pS2 := pS2;
      this.pS3 := pS3;
      this.pS4 := pS4;
      this.lGeneration := lGeneration;
      this.name := name;
      persons := [];
      info := [];
      new;
      InitSimulation(cellsPos, randomPerson, tiers);
      assert generation == 0 && info == [];
      InitialFacts(cellsPos, randomPerson, tiers);
      ghost var w := InitialWorld(cellsPos, randomPerson, tiers);
      assert Snapshot() == w;
      assert WorldInv(w);
    }
  }
}
