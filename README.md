# Rumour simulator: a verified model of the spreading engine

This project models the core of a rumour-spreading simulator. Persons live on a 100 x 100 toroidal grid
(`Simulation.matrix`, a grid of references that hold a Person or nothing). Each person has:

- a skepticism tier from 1 to 4;
- a state, INFECTED (has heard the rumour) or NON_INFECTED;
- a cooldown counter `stop_spreading`.

Once per generation, `Simulation.update` goes through the persons list in creation order. Each person
that is INFECTED *at the moment it is reached* tries its occupied neighbour cells in move-set order:

- tier 1 always spreads;
- tier 2 spreads when `randint(1, 3)` gives 1;
- tier 3 spreads when it gives 1 or 2;
- tier 4 never spreads.

A spreading attempt calls `spread_rumor` on the neighbour and sets the spreader's cooldown to
`l_generation`. This stops further attempts in the same turn whenever `l_generation != 0`. At the end of
its turn the person's `Person.update` lowers a positive cooldown by one and stamps the generation. The
bookkeeping then adds the number of new infections to `infected_persons`, advances `generation` and
appends the number to the history `info`. `simulate` repeats `update` until the generation passes 250.
`main.py` turns the history into running totals (`prefix_sum`), which it scales to percentages for
its plot, and builds the plot's file name from the simulation name.

The model has two layers:

- **Value layer (modules `Grid`, `Rumor`, `PassLaws`, `RumorLaws`, `WorldLaws`, `Setup`).** The
  population is a sequence of `Agent` values. One generation is a fold of each person's `Turn` over the
  live population (`PassFrom`, `Generation`), and `Run` is the `simulate` loop. The lemmas prove the
  laws of a pass: monotone infection, exact counting, the cooldown law, tier-4 silence, at most one
  attempt per person when `l_generation != 0`, and fixed tiers and positions. They also prove the laws of a run: a history of
  251 entries whose sum is `infected_persons - 1`.
- **Object layer (module `Simulator`).** `Person` and `Simulation` are classes. The grid is an
  `array2<Person?>` and the persons list is a `seq<Person>`. The methods of `update`, `simulate` and
  the set-up are proved against the value layer; `CreateMatrix`, the `Person` constructor and
  `SpreadRumor` state their effect on the objects directly. After `Simulation.Update`, the persons' values and the bookkeeping fields are exactly
  `Generation` of the old ones. Every law proved on values therefore holds of the objects. The class
  invariant `Simulation.Valid()` is the conjunction of a square 100 x 100 grid, `Layout` (the grid and
  the list agree) and the bookkeeping invariant `WorldInv`. The constructor establishes it, and
  `Update` and `Simulate` keep it. The set-up methods `CreatePerson`, `AddNewcomer`, `InitSimulation`
  and `PutOnCell` do not speak of `WorldInv`. `AddNewcomer` and `InitSimulation` keep `Layout` and
  keep `infected_persons` equal to the infected count. `CreatePerson` and `PutOnCell` keep `Layout`
  only when the target cell was empty. `Record` keeps `Layout` and states its new bookkeeping fields
  outright, without `WorldInv`; `Update` proves `WorldInv` around it.
- **Post-processing (module `PostProcess`).** `PrefixSum` and `Path` model `main.py`.

Randomness is an input:

- `cellsPos`: the result of `random.sample`;
- `randomPerson`: the result of `random.choice`;
- `tiers`: the results of `random.choices`, one per person;
- `roll: nat -> int`: an oracle for `random.randint(1, 3)`. `roll(n)` is the n-th such draw of the
  run, and `Update` takes and returns the draw counter.

## Model

| member | source | states |
|---|---|---|
| Grid.Moves | Simulator.py:48-54 | get_moves gives 8 cells; cell k is ((r + dr) % ROWS, (c + dc) % COLS) for offset k of move_set, counting across the wrapped edges, and lies inside the grid |
| Grid.MoveIsAdjacent | Simulator.py:37 | every offset of move_set leads to a different cell at most one step away on each wrapped axis |
| Grid.AdjacentIsMove | Simulator.py:37 | every cell at most one step away on each wrapped axis, other than p itself, is reached by some offset of move_set |
| Grid.MovesAreAdjacent | Simulator.py:48-54 | q is among get_moves(p) exactly when q is adjacent to p; p is never its own neighbour |
| Grid.NeighbourSymmetric | Simulator.py:37 | q is a neighbour of p exactly when p is a neighbour of q, also across the wrapped edges |
| Grid.MovesDistinct | Simulator.py:37 | the eight neighbours are pairwise different cells |
| Simulator.CreateMatrix | Simulator.py:16-23 | create_matrix builds a fresh rows x cols grid whose cells are all empty |
| Simulator.Person.constructor | Simulator.py:27-37 | a new person has the given tier, position and state, with stop_spreading 0 and turn 0 |
| Simulator.Person.GetMoves | Simulator.py:48-54 | the loop over move_set builds exactly Moves(position) |
| Simulator.Person.SpreadRumor | Simulator.py:56-62 | the target ends INFECTED; the result is 1 exactly when it was NON_INFECTED and 0 exactly when it was INFECTED; only the target's state may change |
| Simulator.Person.Update | Simulator.py:64-70 | a positive stop_spreading drops by one and turn becomes gen; stop_spreading and turn are all it may change, so state never changes |
| Rumor.Spread | Simulator.py:56-62 | on values: the occupant of the cell becomes INFECTED and the result is 1 exactly when it was NON_INFECTED |
| Rumor.SpreadOnce | Simulator.py:200-201 | defines one spreading attempt by person i on cell m: spread_rumor on the occupant, infected_num raised by its result, the attempt logged, then person i's stop_spreading set to L; positions never change |
| Rumor.TryMove | Simulator.py:198-211 | defines the body of the valid-move loop: a tier-1 person with cooldown 0 spreads; a tier-2 or tier-3 person with cooldown 0 consumes one randint(1, 3) draw and spreads on 1 (tier 2) or on 1 or 2 (tier 3); anyone else does nothing; positions never change |
| Rumor.TryMoves | Simulator.py:197-211 | defines the loop over the valid moves: TryMove for each move in order, each seeing the state the previous one left; positions never change |
| Rumor.Tick | Simulator.py:64-67 | defines the effect of Person.update: turn becomes gen, a positive cooldown drops by one and a cooldown at or below 0 is kept |
| Rumor.Turn | Simulator.py:192-212 | defines one person's turn in update: nothing when the person is NON_INFECTED at that moment, else TryMoves over its occupied moves followed by Tick; the population size is kept |
| Rumor.PassFrom | Simulator.py:192-212 | defines update's loop over the persons from index k on: the turns in list order, each seeing the population as the earlier turns left it; the population size is kept |
| Rumor.Generation | Simulator.py:189-216 | defines update: the pass from person 0 with infected_num 0, then the bookkeeping; the generation grows by one, the old history is kept and gains exactly one entry, and infected_persons grows by that entry |
| Rumor.Run | Simulator.py:139-151 | defines simulate's loop: update, then stop once the generation exceeds 250; the run ends past the cap, at 251 from a start at or below 250, keeps the old history as a prefix and adds one entry per generation |
| Rumor.OccupiedMoves | Simulator.py:180-187 | every move it keeps is a move onto an occupied cell |
| RumorLaws.OccupiedMovesFilter | Simulator.py:180-187 | the valid moves are exactly the moves onto an occupied cell, and keep their order (a subsequence of the moves) |
| RumorLaws.OccupiedMovesSnoc | Simulator.py:182-186 | one more move extends the valid moves by that move exactly when its cell is occupied |
| Simulator.OccupiedCell | Simulator.py:185 | when grid and list agree, a cell is not None exactly when a listed person stands on it |
| Simulator.CellOccupant | Simulator.py:59-60 | the cell of a listed position holds the listed person of that position, and the listed persons are distinct objects |
| Simulator.GetValidMoves | Simulator.py:180-187 | get_valid_moves keeps exactly the moves whose cell is not None, in order: the occupied moves of the persons' positions |
| RumorLaws.SpreadOnceFacts | Simulator.py:199-201 | one attempt logs one attempt, adds 1 to infected_num exactly when the target was NON_INFECTED, resets the spreader's cooldown to L and changes anybody else only from NON_INFECTED to INFECTED |
| RumorLaws.SpreadOnceAt | Simulator.py:200-201 | an attempt on the cell of person j infects j, then sets the spreader's cooldown to L |
| RumorLaws.TryMoveFacts | Simulator.py:198-211 | one valid move either leaves persons, infected_num and log alone or is a spreading attempt by a person with cooldown 0 and tier 1 to 3 |
| RumorLaws.MoveLaws | Simulator.py:198-211 | one move by an infected person obeys the log law and the counting law of a turn |
| RumorLaws.TryMovesLaws | Simulator.py:197-211 | the whole loop over the valid moves obeys both laws: attempts only by this person, only with cooldown 0 and tier 1 to 3, at most one when L != 0, everyone else at most infected, infected_num counts the new infections |
| RumorLaws.TickStep | Simulator.py:212 | the move loop followed by Person.update obeys the turn law |
| RumorLaws.TurnAt | Simulator.py:193-212 | an infected person's turn is the loop over its occupied moves followed by Person.update |
| RumorLaws.TurnFacts | Simulator.py:192-212 | every turn obeys the turn law; a NON_INFECTED person's turn changes nothing |
| RumorLaws.PassUnfold | Simulator.py:192-212 | the pass from person k is person k's turn, obeying the turn law, followed by the pass from person k + 1; every later person is reached in the same state either way |
| RumorLaws.StatesStep | Simulator.py:192-212 | the state law of a pass carries over from person k + 1 to person k |
| RumorLaws.PassStates | Simulator.py:192-216 | a pass never cures anyone; a person that ends NON_INFECTED is untouched; nobody changes but by infection or by their own turn; infected_num grows and the infected count grows by the same amount |
| RumorLaws.AttemptsStep | Simulator.py:192-212 | the attempt law of a pass carries over from person k + 1 to person k |
| RumorLaws.PassAttempts | Simulator.py:192-212 | every attempt of a pass is by a person with cooldown 0 and tier 1 to 3 at the start; with L != 0 the spreaders strictly increase; infected_num is the number of successful attempts |
| RumorLaws.SpokeSinceExists | Simulator.py:200-211 | SpokeSince says that some attempt from entry n0 on was made by person x |
| RumorLaws.NotSpoke | Simulator.py:192-211 | a person before every spreader of a stretch of the log made no attempt in it |
| RumorLaws.SpokeSplit | Simulator.py:192-211 | in a log made of person k's turn followed by later turns, k spoke exactly when its turn logged something, and anyone else spoke exactly when they spoke after k's turn |
| RumorLaws.CooldownStep | Simulator.py:199-212 | the cooldown law, with each person's state when reached, carries over from person k + 1 to person k |
| RumorLaws.TailFactsFromLaws | Simulator.py:192-212 | the attempt and state laws of the rest of a pass give what person k's cooldown law needs from it |
| RumorLaws.TailFactsOf | Simulator.py:192-212 | the rest of a pass only extends the log, by later persons, and leaves person k unchanged except for infection |
| RumorLaws.PassCooldown | Simulator.py:192-212 | every person from k on obeys the cooldown law over the pass, read against its state when the pass reaches it: ticked exactly when reached infected, untouched when reached NON_INFECTED |
| RumorLaws.PassFixed | Simulator.py:192-212 | a pass never changes a tier or a position |
| RumorLaws.PassBound | Simulator.py:192-212 | with L != 0 a pass makes at most one attempt per person reached while infected, and infected_num is at most the number of attempts |
| RumorLaws.SuccessesPrefix | Simulator.py:200-210 | extending the log by n attempts adds between 0 and n successes |
| Rumor.TransitionsCount | Simulator.py:213 | when nobody is cured, the infected count grows by exactly the number of NON_INFECTED to INFECTED changes |
| WorldLaws.UpdateStates | Simulator.py:189-216 | update never cures anyone and never changes tiers or positions; infected_num is the number of NON_INFECTED to INFECTED changes, the infected count grows by it, and it lies between 0 and the number of persons uninfected at the start |
| WorldLaws.UpdateAttempts | Simulator.py:197-211 | every attempt of update is by a person with stop_spreading 0 and tier 1 to 3 (so tier 4 never spreads); with L != 0 no person attempts twice; infected_num is the number of attempts that returned 1 |
| WorldLaws.UpdateCooldown | Simulator.py:192-212 | after update each person obeys the cooldown law, read against its state when the loop reaches it (InfectedAtTurn): a person infected at the start is reached infected; one that attempted was reached infected, had cooldown 0 and tier 1 to 3, and ends at Dec(L) (L - 1 for L > 0) with its turn stamped; one reached infected that did not attempt ends at Dec of its old cooldown with its turn stamped; one reached NON_INFECTED, even if infected later in the pass, never attempted and keeps cooldown and turn |
| WorldLaws.CooldownNonNegative | Simulator.py:64-67 | with L >= 0 no cooldown ever goes below 0 |
| WorldLaws.AllTierFourSilent | Simulator.py:198-211 | when every person has tier 4 nobody attempts, infected_num is 0 and the infected count is unchanged |
| WorldLaws.UpdateBound | Simulator.py:192-211 | with L != 0, infected_num is at most the number of attempts, which is at most the number of persons infected when their turn comes |
| WorldLaws.GenerationStep | Simulator.py:189-216 | update adds exactly one history entry, infected_num; generation grows by one; infected_persons grows by the number of new infections; the bookkeeping invariant is preserved |
| WorldLaws.GenerationOf | Simulator.py:189-216 | update reads the next world off the pass it makes, and keeps the bookkeeping invariant |
| WorldLaws.RunFacts | Simulator.py:139-151 | simulate ends at generation 251 (from a start at or below 250), appends one entry per generation, never cures anyone and keeps the bookkeeping invariant |
| WorldLaws.RunFromStart | Simulator.py:139-151 | from generation 0, simulate returns a history of 251 non-negative entries whose sum is infected_persons - 1 |
| Simulator.InfectAt | Simulator.py:200 | person k's spread_rumor on the cell of person j infects j and changes no other person; the result is 1 exactly when j was NON_INFECTED |
| Simulator.SetCooldown | Simulator.py:201 | setting stop_spreading = l_generation changes only that person's cooldown |
| Simulator.SpreadFrom | Simulator.py:200-201 | spread_rumor followed by the cooldown reset, on the objects, is SpreadOnce of their values |
| Simulator.TryMoveAt | Simulator.py:198-211 | the body of the valid-move loop, on the objects, is TryMove of their values, consuming a draw exactly for tiers 2 and 3 with cooldown 0 |
| Simulator.TryMovesAt | Simulator.py:197-211 | the valid-move loop, on the objects, is TryMoves of their values |
| Simulator.TickAt | Simulator.py:212 | Person.update on the person at index k changes only that person, by Tick |
| Simulator.TakeTurn | Simulator.py:192-212 | one person's turn, on the objects, is Turn of their values; the grid and the list still agree |
| Simulator.TakeTurns | Simulator.py:192-212 | update's loop over the persons, on the objects, is the pass PassFrom of their values from person 0 |
| Simulator.Step | Simulator.py:190-216 | the loop over the persons yields the next world of Generation, and keeps the bookkeeping invariant |
| Simulator.Simulation.Update | Simulator.py:189-216 | update's new state, with the next draw number, is Generation of the old state; the grid and the list still agree and the bookkeeping invariant holds |
| Simulator.Simulation.Record | Simulator.py:213-216 | infected_persons grows by infected_num, generation by one, and info gains the entry infected_num; nothing else changes |
| Simulator.Simulation.Simulate | Simulator.py:139-151 | simulate's final state is Run of the initial one and the result is info; the invariant still holds |
| Setup.Truncate | Simulator.py:107 | Python's int() on a float truncates toward zero |
| Setup.NumberOfPersons | Simulator.py:107 | defines number_of_persons = int(ROWS * COLS * density); for a non-negative density it is the largest whole number not above ROWS * COLS * density |
| Setup.CellOf | Simulator.py:119-120 | defines create_person's cell: row position // rows, column position % cols; for a cell number in range the cell is inside the grid and its row-major number is the cell number |
| Setup.Newcomer | Simulator.py:131-137 | defines the person created for one sampled cell number: the given tier, cooldown and turn 0, INFECTED exactly when it is the chosen one, on a grid cell when the number is in range |
| Setup.InitialWorld | Simulator.py:100-137 | defines the state after construction: the persons of InitialAgents, generation 0, an empty history, infected_persons the infected count; it meets the bookkeeping invariant exactly when one person is infected |
| Setup.NumberOfPersonsRange | Simulator.py:107 | for a density between 0 and 1 the number of persons lies between 0 and ROWS * COLS |
| Setup.CellOfRoundTrip | Simulator.py:119-120 | with a square grid, create_person's row and column computation inverts the row-major cell numbering of random.sample's range |
| Setup.CellOfInjective | Simulator.py:119-120 | distinct cell numbers give distinct cells |
| Setup.InitialAgents | Simulator.py:130-137 | init_simulation creates one person per sampled cell number |
| Setup.InitialAgentsSnoc | Simulator.py:130-137 | each loop iteration appends the person of the next sampled cell number |
| Setup.CountSingle | Simulator.py:132-135 | a population with exactly one INFECTED person counts one infected |
| Setup.InitialFacts | Simulator.py:125-137 | after init_simulation every person is on a grid cell of its own with tier 1 to 4 and cooldown and turn 0; exactly one person, the chosen one, is INFECTED; infected_persons is 1; the bookkeeping invariant holds |
| Simulator.EmptyCell | Simulator.py:127-137 | while init_simulation places the persons of a sample without repetition, the next sampled cell is still empty |
| Simulator.PutOnCell | Simulator.py:122 | matrix[row][col] = person changes that one cell; an empty cell in an agreeing grid makes the grid agree with the list extended by the person |
| Simulator.Simulation.CreatePerson | Simulator.py:118-123 | create_person appends a fresh person with the given tier, state and computed cell, enters it in the matrix and changes no other cell |
| Simulator.Simulation.AddNewcomer | Simulator.py:131-137 | one iteration of init_simulation's loop appends the person of that cell number, INFECTED and counted in infected_persons exactly when it is the chosen one |
| Simulator.Simulation.InitSimulation | Simulator.py:125-137 | init_simulation builds exactly InitialAgents, with grid and list agreeing and infected_persons equal to the infected count |
| Simulator.Simulation.constructor | Simulator.py:100-116 | a new Simulation has an empty history at generation 0, int(ROWS * COLS * density) persons, exactly one INFECTED, infected_persons 1, the stored parameters (l_generation, the name, the density and the four tier weights), and a grid laid out as the list says |
| PostProcess.PrefixSum | main.py:53 | prefix_sum has the length of info |
| PostProcess.PrefixSumHead | main.py:53 | the first running total is info[0] |
| PostProcess.PrefixSumStep | main.py:53 | each running total is the previous one plus the current entry |
| PostProcess.PrefixSumLast | main.py:53 | the last running total is sum(info) |
| PostProcess.SumPrefixBounded | main.py:53 | with non-negative entries, the sum of a prefix lies between 0 and the total |
| PostProcess.PrefixSumMonotone | main.py:53 | with non-negative entries, as update produces them, the running totals never decrease and stay between 0 and sum(info) |
| PostProcess.HistoryTotal | main.py:53 | for a full run from generation 0, prefix_sum has 251 running totals and the last one is infected_persons - 1 |
| PostProcess.Path | main.py:73 | the file name has the length of the simulation name, every ':' becomes '-', every other character is kept, and no ':' is left |
| PostProcess.PathIdempotent | main.py:73 | rewriting twice changes nothing more, and a name is kept exactly when it has no ':' |

The code is followed wherever descriptions of this simulator differ from Simulator.py:

- Some descriptions have every informed person spread from a snapshot taken at the start of the
  generation. The code checks each person's state when the loop reaches it, so a person infected
  earlier in the same pass spreads in that same generation (Simulator.py:192-194). `Turn` and `PassFrom`
  do that, and `UpdateBound` counts the persons "infected when their turn comes".
- The code has no exposure counting, no temporary tier lowering and no fast/slow modes, so none of
  these appear in the model.
- Some descriptions reset the cooldown once per person after its turn. The code sets it right after
  each attempt, inside the move loop (Simulator.py:201, 206, 211), so with `L != 0` the first attempt
  blocks the others. `Person.update` then lowers it in the same generation, so a person that spread
  ends the generation at `L - 1`, not at `L` (`CooldownLaw`).
- The code has no configuration or capacity error of its own. Invalid inputs make `random.sample`,
  `random.choice` or `random.choices` raise, and these paths are left out (below).

## Left out

- Rendering, fonts, `pygame.display`, `time.sleep`, event polling and `quit()` in `simulate`
  (Simulator.py:39-46, 143-147, 153-178): presentation and I/O. `Simulate` is the loop skeleton.
- The code after the return in `Person.update` (Simulator.py:73-92): it cannot change any state. Lines
  73-76 are unreachable. Lines 78-92 only compute a neighbour list and draw `randint(0, 100)` per
  neighbour. Those draws are not modelled. The oracle `roll` numbers only the `randint(1, 3)` draws,
  so it stands for the subsequence of the random stream that decides spreading.
- The `Person.generation` field, set to 0 in `__init__` (Simulator.py:36) and otherwise written only
  in the unreachable branch, and the `colors`, `size`, `move_range` fields: they do not take part in
  spreading.
- The distributions of `random.sample`, `random.choice`, `random.choices` and `random.randint`: their
  outcomes are inputs. The tier weights `p_s1`..`p_s4` are only stored.
- Simulation.constructor: requires a sample without repetition of `int(ROWS * COLS * density)` cell
  numbers, `randomPerson` among them, and tiers from 1 to 4. The model does not cover the exceptions
  that `random.sample` raises for an impossible sample size, that `random.choice` raises for an
  empty sample, or that `random.choices(range(1, 5), weights=...)` (Simulator.py:131) raises when the
  weights `p_s1`..`p_s4` total zero (or are negative).
- Setup.NumberOfPersons: computes `int(ROWS * COLS * density)` on exact reals, so any floating-point
  rounding of the product is not modelled.
- Simulator.Simulation.CreatePerson: requires a cell number in `0 .. ROWS * COLS - 1`, the only ones
  `init_simulation` passes. It promises that the grid and the list still agree only when the cell was
  empty; the code would silently overwrite an occupied cell.
- Setup.CellOfRoundTrip: holds because `ROWS == COLS` (both 100). `create_person` divides by `rows`
  and takes the remainder by `cols`, which is the right row-major decoding only for a square grid.
  `CellOf` mirrors the code exactly.
- Simulator.Simulation.Update: takes and returns the number of `randint(1, 3)` draws made so far. This
  counter is a modelling device for indexing `roll` and is not a field of the Python class.
- Python's `%` and `//` floor, while Dafny's are Euclidean. They agree for the positive divisors used
  here (`ROWS`, `COLS`), and cell numbers are non-negative, so `Moves` and `CellOf` mirror the code.
- `menu_screen.py` (user interface and float validation), package installation and `os.system` in
  `main.py`, `read_parameters`, the matplotlib plotting, the `input()` loop, and the float percentages
  `percent_know` (main.py:54): I/O and floating point.
