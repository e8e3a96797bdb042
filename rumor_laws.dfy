// Properties of the reference semantics in module Rumor: what one spreading
// attempt, one agent's turn, one pass and a whole run of the simulator do.
module RumorLaws {
  import opened Grid
  import opened Rumor
  import opened PassLaws

  /** b extends a's behaviour: attempts appended by i only, so x < k keeps its own fields. */
  lemma OnlyInfectsTrans(a: seq<Agent>, b: seq<Agent>, c: seq<Agent>, i: int)
    requires OnlyInfects(a, b, i) && OnlyInfects(b, c, i)
    ensures OnlyInfects(a, c, i)
  {
  }

  /** Extending a log by n attempts adds between 0 and n successes. */
  lemma {:induction false} SuccessesPrefix(a: seq<Attempt>, b: seq<Attempt>)
    requires a <= b
    ensures Successes(a) <= Successes(b) <= Successes(a) + |b| - |a|
    decreases |b|
  {
    if |b| > |a| {
      assert a <= b[..|b| - 1];
      SuccessesPrefix(a, b[..|b| - 1]);
    } else {
      assert a == b;
    }
  }

  // ---------------------------------------------------------------------------
  // One attempt and one move

  /** SpreadOnce in terms of the index j of the person on the target cell. */
  lemma SpreadOnceAt(s: Pass, i: nat, m: Pos, L: int, j: nat)
    requires i < |s.agents| && m in Positions(s.agents) && IndexAt(Positions(s.agents), m) == Some(j)
    ensures var infected := s.agents[j := s.agents[j].(state := Infected)];
      SpreadOnce(s, i, m, L) ==
        Pass(infected[i := infected[i].(cooldown := L)],
             s.infectedNum + (if s.agents[j].state == NonInfected then 1 else 0), s.drawn,
             s.attempts + [Attempt(i, m, s.agents[j].state == NonInfected)])
  {
  }

  /**
   * spread_rumor followed by the cooldown reset: exactly one attempt is logged,
   * infected_num grows by 1 exactly when the target was not infected, the
   * spreader is unchanged but for its cooldown, and every other agent at most
   * becomes infected.
   */
  lemma SpreadOnceFacts(s: Pass, i: nat, m: Pos, L: int)
    requires i < |s.agents| && m in Positions(s.agents) && s.agents[i].state == Infected
    ensures var r := SpreadOnce(s, i, m, L);
      && r.attempts == s.attempts + [Attempt(i, m, r.infectedNum == s.infectedNum + 1)]
      && (r.infectedNum == s.infectedNum || r.infectedNum == s.infectedNum + 1)
      && (r.infectedNum == s.infectedNum + 1 <==>
            s.agents[IndexAt(Positions(s.agents), m).value].state == NonInfected)
      && r.agents[i] == s.agents[i].(cooldown := L)
      && OnlyInfects(s.agents, r.agents, i)
      && CountInfected(r.agents) == CountInfected(s.agents) + r.infectedNum - s.infectedNum
  {
    var j := IndexAt(Positions(s.agents), m).value;
    var a1 := s.agents[j := s.agents[j].(state := Infected)];
    CountUpdate(s.agents, j, s.agents[j].(state := Infected));
    CountUpdate(a1, i, a1[i].(cooldown := L));
  }

  lemma TryMoveFacts(s: Pass, i: nat, m: Pos, L: int, roll: nat -> int)
    requires i < |s.agents| && m in Positions(s.agents)
    ensures var r := TryMove(s, i, m, L, roll);
      || (r.agents == s.agents && r.infectedNum == s.infectedNum && r.attempts == s.attempts)
      || (s.agents[i].cooldown == 0 && 1 <= s.agents[i].tier <= 3 &&
          r == SpreadOnce(s.(drawn := r.drawn), i, m, L))
  {
  }

  /** One move of an infected agent obeys both laws. */
  lemma MoveLaws(s: Pass, i: nat, m: Pos, L: int, roll: nat -> int)
    requires i < |s.agents| && m in Positions(s.agents) && s.agents[i].state == Infected
    ensures MoveLogLaw(s, i, L, TryMove(s, i, m, L, roll))
    ensures MoveCountLaw(s, i, TryMove(s, i, m, L, roll))
  {
    var r := TryMove(s, i, m, L, roll);
    TryMoveFacts(s, i, m, L, roll);
    if !(r.agents == s.agents && r.infectedNum == s.infectedNum && r.attempts == s.attempts) {
      SpreadOnceFacts(s.(drawn := r.drawn), i, m, L);
      SuccessesSnoc(s.attempts, r.attempts[|s.attempts|]);
    }
  }

  lemma MoveLogTrans(s: Pass, t: Pass, r: Pass, i: nat, L: int)
    requires i < |s.agents| && MoveLogLaw(s, i, L, t) && MoveLogLaw(t, i, L, r)
    ensures MoveLogLaw(s, i, L, r)
  {
    assert forall u :: |s.attempts| <= u < |t.attempts| ==> r.attempts[u] == t.attempts[u];
  }

  lemma MoveCountTrans(s: Pass, t: Pass, r: Pass, i: nat)
    requires i < |s.agents| && MoveCountLaw(s, i, t) && MoveCountLaw(t, i, r)
    ensures MoveCountLaw(s, i, r)
  {
    OnlyInfectsTrans(s.agents, t.agents, r.agents, i);
  }

  /** The loop over one infected agent's valid moves obeys both laws. */
  lemma {:induction false} TryMovesLaws(s: Pass, i: nat, vm: seq<Pos>, L: int, roll: nat -> int, r: Pass)
    requires i < |s.agents| && (forall m :: m in vm ==> m in Positions(s.agents))
    requires s.agents[i].state == Infected
    requires r == TryMoves(s, i, vm, L, roll)
    ensures MoveLogLaw(s, i, L, r)
    ensures MoveCountLaw(s, i, r)
    decreases |vm|
  {
    if vm != [] {
      var t := TryMove(s, i, vm[0], L, roll);
      MoveLaws(s, i, vm[0], L, roll);
      TryMovesLaws(t, i, vm[1..], L, roll, r);
      MoveLogTrans(s, t, r, i, L);
      MoveCountTrans(s, t, r, i);
    }
  }

  // ---------------------------------------------------------------------------
  // One agent's turn

  /** The move loop followed by Person.update obeys the turn law. */
  lemma TickStep(s: Pass, t: Pass, r: Pass, i: nat, L: int, gen: int)
    requires i < |s.agents| && s.agents[i].state == Infected
    requires MoveLogLaw(s, i, L, t) && MoveCountLaw(s, i, t)
    requires r == t.(agents := t.agents[i := Tick(t.agents[i], gen)])
    ensures TurnLaw(s, i, L, gen, r)
  {
    CountUpdate(t.agents, i, Tick(t.agents[i], gen));
  }

  /** Turn of an infected person, in terms of its list of occupied moves. */
  lemma TurnAt(s: Pass, i: nat, L: int, roll: nat -> int, gen: int, vm: seq<Pos>, t: Pass)
    requires i < |s.agents| && s.agents[i].state == Infected
    requires vm == OccupiedMoves(Positions(s.agents), Moves(s.agents[i].position))
    requires t == TryMoves(s, i, vm, L, roll)
    ensures Turn(s, i, L, roll, gen) == t.(agents := t.agents[i := Tick(t.agents[i], gen)])
  {
  }

  lemma TurnFacts(s: Pass, i: nat, L: int, roll: nat -> int, gen: int, r: Pass)
    requires i < |s.agents| && r == Turn(s, i, L, roll, gen)
    ensures TurnLaw(s, i, L, gen, r)
  {
    if s.agents[i].state != NonInfected {
      var vm := OccupiedMoves(Positions(s.agents), Moves(s.agents[i].position));
      var t := TryMoves(s, i, vm, L, roll);
      TryMovesLaws(s, i, vm, L, roll, t);
      TickStep(s, t, r, i, L, gen);
    }
  }

  // ---------------------------------------------------------------------------
  // One pass

  /**
   * One step of a pass, with Turn kept out of sight: the pass from agent k is
   * the pass from agent k + 1 after a turn that obeys the turn law, and
   * every later agent meets its own turn in the same state either way.
   */
  lemma PassUnfold(s: Pass, k: nat, L: int, roll: nat -> int, gen: int, r: Pass) returns (t: Pass)
    requires k < |s.agents| && r == PassFrom(s, k, L, roll, gen)
    ensures TurnLaw(s, k, L, gen, t) && k + 1 <= |t.agents| && r == PassFrom(t, k + 1, L, roll, gen)
    ensures forall x :: k < x < |s.agents| ==>
              InfectedAtTurn(s, k, x, L, roll, gen) == InfectedAtTurn(t, k + 1, x, L, roll, gen)
  {
    t := Turn(s, k, L, roll, gen);
    TurnFacts(s, k, L, roll, gen, t);
  }

  lemma StatesStep(s: Pass, t: Pass, r: Pass, k: nat, L: int, gen: int)
    requires k < |s.agents| && TurnLaw(s, k, L, gen, t) && StatesLaw(t, k + 1, r)
    ensures StatesLaw(s, k, r)
  {
  }

  lemma {:induction false} PassStates(s: Pass, k: nat, L: int, roll: nat -> int, gen: int, r: Pass)
    requires k <= |s.agents| && r == PassFrom(s, k, L, roll, gen)
    ensures StatesLaw(s, k, r)
    decreases |s.agents| - k
  {
    if k < |s.agents| {
      var t := Turn(s, k, L, roll, gen);
      TurnFacts(s, k, L, roll, gen, t);
      PassStates(t, k + 1, L, roll, gen, r);
      StatesStep(s, t, r, k, L, gen);
    }
  }

  lemma AttemptsStep(s: Pass, t: Pass, r: Pass, k: nat, L: int, gen: int)
    requires k < |s.agents| && TurnLaw(s, k, L, gen, t) && AttemptsLaw(t, k + 1, L, r)
    ensures AttemptsLaw(s, k, L, r)
  {
    var n0 := |s.attempts|;
    var nt := |t.attempts|;
    forall u | n0 <= u < |r.attempts|
      ensures var x := r.attempts[u].spreader;
        k <= x < |s.agents| && s.agents[x].cooldown == 0 && 1 <= s.agents[x].tier <= 3
    {
      if u < nt {
        assert r.attempts[u] == t.attempts[u];
      }
    }
    if L != 0 {
      forall t1, t2 | n0 <= t1 < t2 < |r.attempts|
        ensures r.attempts[t1].spreader < r.attempts[t2].spreader
      {
        if t1 < nt {
          assert r.attempts[t1] == t.attempts[t1];
        }
      }
    }
  }

  lemma {:induction false} PassAttempts(s: Pass, k: nat, L: int, roll: nat -> int, gen: int, r: Pass)
    requires k <= |s.agents| && r == PassFrom(s, k, L, roll, gen)
    ensures AttemptsLaw(s, k, L, r)
    decreases |s.agents| - k
  {
    if k < |s.agents| {
      var t := Turn(s, k, L, roll, gen);
      TurnFacts(s, k, L, roll, gen, t);
      PassAttempts(t, k + 1, L, roll, gen, r);
      AttemptsStep(s, t, r, k, L, gen);
    }
  }

  /** SpokeSince means what its name says: some attempt from entry n0 on was made by x. */
  lemma {:induction false} SpokeSinceExists(atts: seq<Attempt>, n0: nat, x: nat)
    ensures SpokeSince(atts, n0, x) <==> exists t :: n0 <= t < |atts| && atts[t].spreader == x
    decreases |atts| - n0
  {
    if n0 < |atts| {
      SpokeSinceExists(atts, n0 + 1, x);
    }
  }

  /** Nobody before every spreader of the log from n0 on spoke from n0 on. */
  lemma {:induction false} NotSpoke(atts: seq<Attempt>, n0: nat, k: nat)
    requires forall u :: n0 <= u < |atts| ==> atts[u].spreader > k
    ensures !SpokeSince(atts, n0, k)
    decreases |atts| - n0
  {
    if n0 < |atts| {
      NotSpoke(atts, n0 + 1, k);
    }
  }

  /**
   * A log ra that extends ta, where ta's entries from n0 on are all by k and
   * ra's further entries are all by agents after k: agent k spoke from n0 on
   * exactly when ta grew, and any other agent spoke from n0 on exactly when
   * it spoke after ta.
   */
  lemma {:induction false} SpokeSplit(ta: seq<Attempt>, ra: seq<Attempt>, n0: nat, k: nat, x: nat)
    requires n0 <= |ta| && ta <= ra
    requires forall u :: n0 <= u < |ta| ==> ta[u].spreader == k
    requires forall u :: |ta| <= u < |ra| ==> ra[u].spreader > k
    ensures x == k ==> (SpokeSince(ra, n0, x) <==> |ta| > n0)
    ensures x != k ==> (SpokeSince(ra, n0, x) <==> SpokeSince(ra, |ta|, x))
    decreases |ta| - n0
  {
    if n0 < |ta| {
      assert ra[n0] == ta[n0];
      SpokeSplit(ta, ra, n0 + 1, k, x);
    } else if x == k {
      NotSpoke(ra, n0, k);
    }
  }

  /**
   * The inductive step of PassCooldown, stated on the facts it needs: what
   * agent k's turn did (s to t) and what the rest of the pass did (t to r).
   */
  lemma CooldownStep(s: Pass, t: Pass, r: Pass, k: nat, L: int, roll: nat -> int, gen: int)
    requires k < |s.agents| && TurnLaw(s, k, L, gen, t) && |r.agents| == |s.agents|
    requires TailFacts(t, r, k)
    requires forall x :: k < x < |s.agents| ==>
               InfectedAtTurn(s, k, x, L, roll, gen) == InfectedAtTurn(t, k + 1, x, L, roll, gen)
    requires CooldownLawsFrom(t, r, k + 1, L, roll, gen)
    ensures CooldownLawsFrom(s, r, k, L, roll, gen)
  {
    var n0 := |s.attempts|;
    forall x | k <= x < |s.agents|
      ensures CooldownLaw(s.agents[x], r.agents[x], SpokeSince(r.attempts, n0, x),
                          InfectedAtTurn(s, k, x, L, roll, gen), L, gen)
    {
      SpokeSplit(t.attempts, r.attempts, n0, k, x);
      if x != k {
        assert CooldownLaw(t.agents[x], r.agents[x], SpokeSince(r.attempts, |t.attempts|, x),
                           InfectedAtTurn(t, k + 1, x, L, roll, gen), L, gen);
      }
    }
  }

  /**
   * What the rest of a pass, from agent k + 1 on, leaves for agent k: the
   * log only grows, every later attempt is by an agent after k, and agent k
   * at most becomes infected.
   */
  predicate TailFacts(t: Pass, r: Pass, k: nat) {
    && k < |t.agents| && |r.agents| == |t.agents|
    && t.attempts <= r.attempts
    && (forall u :: |t.attempts| <= u < |r.attempts| ==> r.attempts[u].spreader > k)
    && (r.agents[k] == t.agents[k] ||
        (t.agents[k].state == NonInfected && r.agents[k] == t.agents[k].(state := Infected)))
  }

  lemma TailFactsFromLaws(t: Pass, r: Pass, k: nat, L: int)
    requires k < |t.agents| && AttemptsLaw(t, k + 1, L, r) && StatesLaw(t, k + 1, r)
    ensures TailFacts(t, r, k)
  {
  }

  /** The pass from agent j on leaves TailFacts for agent j - 1. */
  lemma TailFactsOf(t: Pass, r: Pass, j: nat, L: int, roll: nat -> int, gen: int)
    requires 1 <= j <= |t.agents| && r == PassFrom(t, j, L, roll, gen)
    ensures TailFacts(t, r, j - 1)
  {
    PassAttempts(t, j, L, roll, gen, r);
    PassStates(t, j, L, roll, gen, r);
    TailFactsFromLaws(t, r, j - 1, L);
  }

  lemma {:induction false} PassCooldown(s: Pass, k: nat, L: int, roll: nat -> int, gen: int, r: Pass)
    requires k <= |s.agents| && r == PassFrom(s, k, L, roll, gen)
    ensures CooldownLawsFrom(s, r, k, L, roll, gen)
    decreases |s.agents| - k
  {
    if k < |s.agents| {
      var t := PassUnfold(s, k, L, roll, gen, r);
      PassCooldown(t, k + 1, L, roll, gen, r);
      TailFactsOf(t, r, k + 1, L, roll, gen);
      CooldownStep(s, t, r, k, L, roll, gen);
    }
  }

  lemma SameFixedTrans(a: seq<Agent>, b: seq<Agent>, c: seq<Agent>)
    requires SameFixed(a, b) && SameFixed(b, c)
    ensures SameFixed(a, c)
  {
  }

  /** A pass never changes a person's level of skepticism or position. */
  lemma {:induction false} PassFixed(s: Pass, k: nat, L: int, roll: nat -> int, gen: int, r: Pass)
    requires k <= |s.agents| && r == PassFrom(s, k, L, roll, gen)
    ensures SameFixed(s.agents, r.agents)
    decreases |s.agents| - k
  {
    if k < |s.agents| {
      var t := Turn(s, k, L, roll, gen);
      TurnFacts(s, k, L, roll, gen, t);
      assert SameFixed(s.agents, t.agents);
      PassFixed(t, k + 1, L, roll, gen, r);
      SameFixedTrans(s.agents, t.agents, r.agents);
    }
  }

  /** The number of agents that are infected when their turn comes, from agent k on. */
  function ActiveFrom(s: Pass, k: nat, L: int, roll: nat -> int, gen: int): nat
    requires k <= |s.agents|
    decreases |s.agents| - k
  {
    if k == |s.agents| then 0
    else Indicator(s.agents[k]) + ActiveFrom(Turn(s, k, L, roll, gen), k + 1, L, roll, gen)
  }

  /**
   * With L != 0 a pass makes at most one attempt per agent reached while
   * infected, so infected_num is at most the number of such agents.
   */
  lemma {:induction false} PassBound(s: Pass, k: nat, L: int, roll: nat -> int, gen: int, r: Pass)
    requires k <= |s.agents| && L != 0 && r == PassFrom(s, k, L, roll, gen)
    ensures |r.attempts| - |s.attempts| <= ActiveFrom(s, k, L, roll, gen)
    ensures r.infectedNum - s.infectedNum <= |r.attempts| - |s.attempts|
    decreases |s.agents| - k
  {
    PassAttempts(s, k, L, roll, gen, r);
    SuccessesPrefix(s.attempts, r.attempts);
    if k < |s.agents| {
      var t := Turn(s, k, L, roll, gen);
      TurnFacts(s, k, L, roll, gen, t);
      PassBound(t, k + 1, L, roll, gen, r);
    }
  }

  // ---------------------------------------------------------------------------
  // The occupied moves

  /** a is b with some of its elements left out and the others kept in order. */
  predicate IsSubsequence(a: seq<Pos>, b: seq<Pos>)
    decreases |b|
  {
    if a == [] then true
    else if b == [] then false
    else (a[0] == b[0] && IsSubsequence(a[1..], b[1..])) || IsSubsequence(a, b[1..])
  }

  /**
   * The occupied moves are exactly the moves onto an occupied cell, kept in
   * move order.
   */
  lemma {:induction false} OccupiedMovesFilter(ps: seq<Pos>, moves: seq<Pos>)
    ensures forall m :: m in OccupiedMoves(ps, moves) <==> m in ps && m in moves
    ensures IsSubsequence(OccupiedMoves(ps, moves), moves)
    decreases |moves|
  {
    if moves != [] {
      OccupiedMovesFilter(ps, moves[1..]);
      var r := OccupiedMoves(ps, moves);
      var rest := OccupiedMoves(ps, moves[1..]);
      assert moves == [moves[0]] + moves[1..];
      if moves[0] in ps {
        assert r == [moves[0]] + rest && r[1..] == rest;
      } else {
        assert r == rest;
      }
      if r != [] && r[0] != moves[0] {
        SubsequenceTail(r, moves);
      }
    }
  }

  /** A subsequence of the tail is a subsequence of the whole. */
  lemma SubsequenceTail(a: seq<Pos>, b: seq<Pos>)
    requires b != [] && IsSubsequence(a, b[1..])
    ensures IsSubsequence(a, b)
  {
  }

  /** Filtering a list extended by one move extends the filtered list by at most that move. */
  lemma {:induction false} OccupiedMovesSnoc(ps: seq<Pos>, moves: seq<Pos>, m: Pos)
    ensures OccupiedMoves(ps, moves + [m]) == OccupiedMoves(ps, moves) + (if m in ps then [m] else [])
    decreases |moves|
  {
    var e := if m in ps then [m] else [];
    if moves == [] {
      assert moves + [m] == [m] && [m][1..] == [];
      assert OccupiedMoves(ps, [m]) == e + OccupiedMoves(ps, []);
    } else {
      var tail := moves[1..];
      var h := if moves[0] in ps then [moves[0]] else [];
      assert (moves + [m])[0] == moves[0] && (moves + [m])[1..] == tail + [m];
      OccupiedMovesSnoc(ps, tail, m);
      assert OccupiedMoves(ps, moves + [m]) == h + (OccupiedMoves(ps, tail) + e);
      assert OccupiedMoves(ps, moves) == h + OccupiedMoves(ps, tail);
    }
  }
}
