// The laws that one move, one turn and one pass of the rumour simulator
// obey, stated as predicates over the states of module Rumor.  The lemmas of
// module RumorLaws prove that the reference semantics satisfies them.
module PassLaws {
  import opened Rumor

  /**
   * What a run of agent i's move loop does to the log and to agent i: the
   * log only grows, every new attempt is i's own, with L != 0 there is at
   * most one, an attempt happens only from cooldown 0 and tier 1 to 3 and
   * leaves i's cooldown at L, and without an attempt nothing changes.
   */
  predicate MoveLogLaw(s: Pass, i: nat, L: int, r: Pass)
    requires i < |s.agents|
  {
    && |r.agents| == |s.agents|
    && s.attempts <= r.attempts
    && (forall u :: |s.attempts| <= u < |r.attempts| ==> r.attempts[u].spreader == i)
    && (L != 0 ==> |r.attempts| <= |s.attempts| + 1)
    && (|r.attempts| == |s.attempts| ==> r.agents == s.agents && r.infectedNum == s.infectedNum)
    && (|r.attempts| > |s.attempts| ==>
          s.agents[i].cooldown == 0 && 1 <= s.agents[i].tier <= 3 &&
          r.agents[i] == s.agents[i].(cooldown := L))
  }

  /**
   * What a run of agent i's move loop does to the counts: i stays infected,
   * other agents at most become infected, and infected_num, the number of
   * successful attempts and the number of infected agents grow together.
   */
  predicate MoveCountLaw(s: Pass, i: nat, r: Pass)
    requires i < |s.agents|
  {
    && |r.agents| == |s.agents|
    && r.agents[i].state == Infected
    && OnlyInfects(s.agents, r.agents, i)
    && r.infectedNum >= s.infectedNum
    && Successes(r.attempts) == Successes(s.attempts) + r.infectedNum - s.infectedNum
    && CountInfected(r.agents) == CountInfected(s.agents) + r.infectedNum - s.infectedNum
  }

  /**
   * What the turn of agent i does: a non-infected agent is skipped
   * entirely; an infected agent spreads only from cooldown 0 and tier 1 to
   * 3, at most once when L != 0, and ends its turn with its cooldown at Dec(L)
   * after an attempt and at Dec(old cooldown) otherwise, with its turn set to
   * gen and its state, tier and position unchanged; other agents at most
   * become infected, and infected_num, the successes and the infected count
   * grow together.
   */
  predicate TurnLaw(s: Pass, i: nat, L: int, gen: int, r: Pass)
    requires i < |s.agents|
  {
    && |r.agents| == |s.agents|
    && s.attempts <= r.attempts
    && (s.agents[i].state == NonInfected ==> r == s)
    && (forall u :: |s.attempts| <= u < |r.attempts| ==> r.attempts[u].spreader == i)
    && (L != 0 ==> |r.attempts| <= |s.attempts| + 1)
    && (|r.attempts| > |s.attempts| ==>
          s.agents[i].state == Infected && s.agents[i].cooldown == 0 && 1 <= s.agents[i].tier <= 3)
    && (s.agents[i].state == Infected ==>
          r.agents[i] == s.agents[i].(cooldown := if |r.attempts| > |s.attempts| then Dec(L)
                                                   else Dec(s.agents[i].cooldown),
                                      turn := gen))
    && OnlyInfects(s.agents, r.agents, i)
    && r.infectedNum >= s.infectedNum
    && Successes(r.attempts) == Successes(s.attempts) + r.infectedNum - s.infectedNum
    && CountInfected(r.agents) == CountInfected(s.agents) + r.infectedNum - s.infectedNum
  }

  /**
   * What a pass from agent k on does to the agents: infection is monotone,
   * an agent that ends the pass uninfected is untouched, agents before k at
   * most become infected, infected_num never decreases and the infected
   * count grows by exactly the growth of infected_num.
   */
  predicate StatesLaw(s: Pass, k: nat, r: Pass) {
    && StaysInfected(s.agents, r.agents)
    && (forall x :: 0 <= x < |r.agents| && r.agents[x].state == NonInfected ==> r.agents[x] == s.agents[x])
    && (forall x :: 0 <= x < k && x < |r.agents| ==>
          r.agents[x] == s.agents[x] ||
          (s.agents[x].state == NonInfected && r.agents[x] == s.agents[x].(state := Infected)))
    && r.infectedNum >= s.infectedNum
    && CountInfected(r.agents) == CountInfected(s.agents) + r.infectedNum - s.infectedNum
  }

  /**
   * What a pass from agent k on logs: the log only grows, the spreaders of
   * its new attempts are agents k and later, each had cooldown 0 and tier 1
   * to 3 when the pass began, with L != 0 the spreaders strictly increase
   * (so each agent makes at most one attempt), and infected_num grows by the
   * number of successes.
   */
  predicate AttemptsLaw(s: Pass, k: nat, L: int, r: Pass) {
    && |r.agents| == |s.agents|
    && s.attempts <= r.attempts
    && (forall u :: |s.attempts| <= u < |r.attempts| ==>
          var x := r.attempts[u].spreader;
          k <= x < |s.agents| && s.agents[x].cooldown == 0 && 1 <= s.agents[x].tier <= 3)
    && (L != 0 ==> forall t1, t2 :: |s.attempts| <= t1 < t2 < |r.attempts| ==>
          r.attempts[t1].spreader < r.attempts[t2].spreader)
    && Successes(r.attempts) == Successes(s.attempts) + r.infectedNum - s.infectedNum
  }

  /**
   * Whether agent x is infected at the moment the pass that starts at agent
   * k reaches it: the state that the turns of agents k .. x-1 left it in.
   */
  predicate InfectedAtTurn(s: Pass, k: nat, x: nat, L: int, roll: nat -> int, gen: int)
    requires k <= x < |s.agents|
    decreases x - k
  {
    if k == x then s.agents[x].state == Infected
    else InfectedAtTurn(Turn(s, k, L, roll, gen), k + 1, x, L, roll, gen)
  }

  /**
   * The cooldown law for one agent over a pass, where `active` says whether
   * it was infected when its turn came and `spoke` whether it attempted.
   * An agent infected at the start is active.  One that attempted was
   * active, had cooldown 0 and tier 1 to 3, and ends at Dec(L) with its turn
   * recorded; an active one that did not attempt ends at Dec(old cooldown)
   * with its turn recorded; one that was not active (skipped by the loop,
   * even if infected later in the pass) never attempted and keeps its
   * cooldown and turn.
   */
  predicate CooldownLaw(before: Agent, after: Agent, spoke: bool, active: bool, L: int, gen: int) {
    && (before.state == Infected ==> active)
    && (spoke ==>
          active && before.cooldown == 0 && 1 <= before.tier <= 3 && after.cooldown == Dec(L) && after.turn == gen)
    && (active && !spoke ==> after.cooldown == Dec(before.cooldown) && after.turn == gen)
    && (!active ==> !spoke && after.cooldown == before.cooldown && after.turn == before.turn)
  }

  /** The cooldown law for every agent from k on, over the pass from s to r that starts at agent k. */
  predicate CooldownLawsFrom(s: Pass, r: Pass, k: nat, L: int, roll: nat -> int, gen: int)
    requires |r.agents| == |s.agents|
  {
    forall x :: k <= x < |s.agents| ==>
      CooldownLaw(s.agents[x], r.agents[x], SpokeSince(r.attempts, |s.attempts|, x),
                  InfectedAtTurn(s, k, x, L, roll, gen), L, gen)
  }
}
