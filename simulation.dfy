/**
 * The round loop of the mini-casino: while time remains and the agent can pay
 * for a play, it asks the reflex rule for a machine, pays, samples a payout,
 * collects it and records it in its memory; at the end it reports why it
 * stopped.
 *
 * The random source is a parameter: `draws[k]` is the roll used in round k + 1.
 * Money is an unbounded integer here; PlayRoundInt32 shows what the
 * program's 32-bit `int` does instead.
 */
module Simulation {
  import opened Casino
  import opened ReflexPolicy
  import opened PayoutSampler

  /** The state the loop keeps: money, rounds played, and the agent's memory. */
  datatype Session = Session(
    money: int,
    round: int,
    timesPlayed: seq<int>,
    lastPayout: seq<int>,
    currentMachine: int)

  /** Nothing played, nothing remembered: the sentinels -1 mean "none yet". */
  function Initial(startingMoney: int): (s: Session)
    ensures s.money == startingMoney && s.round == 0
    ensures startingMoney >= 0 ==> Consistent(s)
    ensures CanPlay(s) <==> startingMoney >= CostPerPlay
  {
    Session(startingMoney, 0, [0, 0], [-1, -1], -1)
  }

  /** The invariant the loop keeps. */
  predicate Consistent(s: Session) {
    && |s.timesPlayed| == 2 && |s.lastPayout| == 2
    && 0 <= s.round <= MaxTimeBasedPlays
    && s.money >= 0
    && s.timesPlayed[0] >= 0 && s.timesPlayed[1] >= 0
    && s.timesPlayed[0] + s.timesPlayed[1] == s.round
    && (forall m :: 0 <= m < 2 ==> (s.lastPayout[m] == -1 <==> s.timesPlayed[m] == 0))
    && (forall m :: 0 <= m < 2 ==> s.lastPayout[m] == -1 || s.lastPayout[m] in Payouts)
    && -1 <= s.currentMachine <= 1
    && (s.currentMachine == -1 <==> s.round == 0)
    && (s.currentMachine != -1 ==> s.timesPlayed[s.currentMachine] > 0)
    // machine A is explored in round 1 and machine B in round 2
    && (s.round >= 1 ==> s.timesPlayed[0] >= 1)
    && (s.round >= 2 ==> s.timesPlayed[1] >= 1)
  }

  /** The loop guard: time for another play and money to pay for it. */
  predicate CanPlay(s: Session) {
    s.round < MaxTimeBasedPlays && s.money >= CostPerPlay
  }

  /** The probability table of the machine with the given index. */
  function ChancesOf(machine: int): seq<real> {
    if machine == 0 then MachineAChances else MachineBChances
  }

  /** The agent's memory has the shape the reflex rule reads. */
  predicate Memory(s: Session) {
    WellFormedMemory(s.timesPlayed, s.lastPayout, s.currentMachine)
  }

  /** One iteration of the loop body; only the chosen machine's memory changes. */
  function PlayRound(s: Session, roll: real): (t: Session)
    requires Memory(s)
    ensures var c := ChooseActionReflex(s.timesPlayed, s.lastPayout, s.currentMachine);
      && t.currentMachine == c
      && t.round == s.round + 1
      && |t.timesPlayed| == 2 && |t.lastPayout| == 2
      && t.timesPlayed[c] == s.timesPlayed[c] + 1
      && t.timesPlayed[1 - c] == s.timesPlayed[1 - c]
      && t.lastPayout[c] in Payouts
      && t.lastPayout[c] == SampledPayout(ChancesOf(c), roll)
      && t.lastPayout[1 - c] == s.lastPayout[1 - c]
      && t.money == s.money - CostPerPlay + t.lastPayout[c]
  {
    var chosen := ChooseActionReflex(s.timesPlayed, s.lastPayout, s.currentMachine);
    var payout := SampledPayout(ChancesOf(chosen), roll);
    Session(
      s.money - CostPerPlay + payout,
      s.round + 1,
      s.timesPlayed[chosen := s.timesPlayed[chosen] + 1],
      s.lastPayout[chosen := payout],
      chosen)
  }

  /** A round that the guard admits keeps the invariant, money included. */
  lemma PlayRoundKeepsConsistent(s: Session, roll: real)
    requires Consistent(s) && CanPlay(s)
    ensures Consistent(PlayRound(s, roll))
  {
    var t := PlayRound(s, roll);
    var c := t.currentMachine;
    assert t.lastPayout[c] >= 0;
    if s.round == 1 {
      assert s.timesPlayed == [1, 0];
    }
    forall m | 0 <= m < 2
      ensures (t.lastPayout[m] == -1 <==> t.timesPlayed[m] == 0)
      ensures t.lastPayout[m] == -1 || t.lastPayout[m] in Payouts
    {
      if m != c {
        assert m == 1 - c;
      }
    }
  }

  /** The loop takes one round and continues from there. */
  lemma PlayStep(s: Session, draws: seq<real>)
    requires Consistent(s) && CanPlay(s)
    requires |draws| >= MaxTimeBasedPlays
    ensures Consistent(PlayRound(s, draws[s.round]))
    ensures Play(s, draws) == Play(PlayRound(s, draws[s.round]), draws)
  {
    PlayRoundKeepsConsistent(s, draws[s.round]);
  }

  /** The whole loop, from a state to the first state the guard rejects. */
  function Play(s: Session, draws: seq<real>): (t: Session)
    requires Consistent(s)
    requires |draws| >= MaxTimeBasedPlays
    ensures Consistent(t) && !CanPlay(t)
    ensures s.round <= t.round
    ensures !CanPlay(s) ==> t == s
    decreases MaxTimeBasedPlays - s.round
  {
    if CanPlay(s) then
      PlayRoundKeepsConsistent(s, draws[s.round]);
      Play(PlayRound(s, draws[s.round]), draws)
    else
      s
  }

  /** Why the simulation stopped; NoneStated is the case the program prints nothing for. */
  datatype StopReason = NotEnoughMoney | TimeLimitReached | NoneStated

  /** A reason is reported exactly when the loop guard is false. */
  function StopReasonFor(money: int, round: int): (reason: StopReason)
    ensures reason == NoneStated <==> round < MaxTimeBasedPlays && money >= CostPerPlay
    ensures reason == NotEnoughMoney ==> money < CostPerPlay
    ensures reason == TimeLimitReached <==> round >= MaxTimeBasedPlays
  {
    if money < CostPerPlay && round < MaxTimeBasedPlays then NotEnoughMoney
    else if round >= MaxTimeBasedPlays then TimeLimitReached
    else NoneStated
  }

  /** The end-of-simulation report. */
  datatype Summary = Summary(
    playsCompleted: int,
    moneyAtEnd: int,
    netChange: int,
    machineAPlays: int,
    machineBPlays: int,
    stop: StopReason)

  /** The end-of-run report of a session, with the reason for stopping. */
  function Summarize(s: Session, startingMoney: int): (summary: Summary)
    requires |s.timesPlayed| == 2
    ensures summary.netChange == summary.moneyAtEnd - startingMoney
    ensures summary.playsCompleted == s.round && summary.moneyAtEnd == s.money
    ensures summary.machineAPlays == s.timesPlayed[0] && summary.machineBPlays == s.timesPlayed[1]
    ensures summary.stop == StopReasonFor(s.money, s.round)
    ensures Consistent(s) ==> summary.machineAPlays + summary.machineBPlays == summary.playsCompleted
    ensures summary.stop == NoneStated <==> CanPlay(s)
  {
    Summary(s.round, s.money, s.money - startingMoney, s.timesPlayed[0], s.timesPlayed[1],
            StopReasonFor(s.money, s.round))
  }

  /**
   * Each round costs at most one play's price, since payouts are never
   * negative, so the loop lasts at least as many rounds as the money pays for
   * (capped by the time budget).
   */
  lemma {:induction false} PlaysAtLeast(s: Session, draws: seq<real>)
    requires Consistent(s)
    requires |draws| >= MaxTimeBasedPlays
    ensures Play(s, draws).round >= Min(s.round + s.money / CostPerPlay, MaxTimeBasedPlays)
    decreases MaxTimeBasedPlays - s.round
  {
    if CanPlay(s) {
      var t := PlayRound(s, draws[s.round]);
      PlayRoundKeepsConsistent(s, draws[s.round]);
      PlaysAtLeast(t, draws);
    }
  }

  /**
   * What the program promises about a whole session: the time budget bounds
   * the rounds, money never goes negative, the play counts add up to the
   * rounds, the loop ends only when time or money runs out, and the reason
   * printed names the condition that ended it.
   */
  lemma SessionOutcome(startingMoney: int, draws: seq<real>)
    requires startingMoney >= 0
    requires |draws| >= MaxTimeBasedPlays
    ensures var summary := Summarize(Play(Initial(startingMoney), draws), startingMoney);
      && 0 <= summary.playsCompleted <= MaxTimeBasedPlays
      && summary.moneyAtEnd >= 0
      && summary.netChange == summary.moneyAtEnd - startingMoney
      && summary.machineAPlays >= 0 && summary.machineBPlays >= 0
      && summary.machineAPlays + summary.machineBPlays == summary.playsCompleted
      && (summary.playsCompleted >= MaxTimeBasedPlays || summary.moneyAtEnd < CostPerPlay)
      && (summary.stop == NotEnoughMoney <==>
            summary.moneyAtEnd < CostPerPlay && summary.playsCompleted < MaxTimeBasedPlays)
      && (summary.stop == TimeLimitReached <==> summary.playsCompleted >= MaxTimeBasedPlays)
      && summary.playsCompleted >= Min(startingMoney / CostPerPlay, MaxTimeBasedPlays)
      && (startingMoney == 0 ==> summary.playsCompleted == 0 && summary.stop == NotEnoughMoney)
  {
    PlaysAtLeast(Initial(startingMoney), draws);
  }

  /**
   * One pass of the loop body over the program's variables: choose, pay,
   * sample, collect, and update the memory arrays in place.
   */
  method PlayRoundInPlace(
    timesPlayed: array<int>, lastPayout: array<int>,
    money: int, round: int, currentMachine: int, roll: real)
    returns (money': int, round': int, currentMachine': int)
    requires timesPlayed != lastPayout
    requires WellFormedMemory(timesPlayed[..], lastPayout[..], currentMachine)
    modifies timesPlayed, lastPayout
    ensures Session(money', round', timesPlayed[..], lastPayout[..], currentMachine')
         == PlayRound(Session(money, round, old(timesPlayed[..]), old(lastPayout[..]), currentMachine), roll)
  {
    ghost var before := Session(money, round, timesPlayed[..], lastPayout[..], currentMachine);
    var chosenMachine := ChooseActionReflex(timesPlayed[..], lastPayout[..], currentMachine);
    var chosenChances := ChancesOf(chosenMachine);
    round' := round + 1;
    money' := money - CostPerPlay;
    var payout := SamplePayout(chosenChances, roll);
    money' := money' + payout;
    timesPlayed[chosenMachine] := timesPlayed[chosenMachine] + 1;
    lastPayout[chosenMachine] := payout;
    currentMachine' := chosenMachine;
    assert timesPlayed[..] == before.timesPlayed[chosenMachine := before.timesPlayed[chosenMachine] + 1];
    assert lastPayout[..] == before.lastPayout[chosenMachine := payout];
  }

  /**
   * The round loop of the program's entry point, followed by the stop-reason
   * choice. Its result is the session the loop specification Play describes,
   * so SessionOutcome applies to it.
   */
  method RunSimulation(startingMoney: int, draws: seq<real>) returns (summary: Summary)
    requires startingMoney >= 0
    requires |draws| >= MaxTimeBasedPlays
    ensures summary == Summarize(Play(Initial(startingMoney), draws), startingMoney)
    ensures 0 <= summary.playsCompleted <= MaxTimeBasedPlays
    ensures summary.moneyAtEnd >= 0
    ensures summary.machineAPlays + summary.machineBPlays == summary.playsCompleted
    ensures summary.stop == NotEnoughMoney <==>
      summary.moneyAtEnd < CostPerPlay && summary.playsCompleted < MaxTimeBasedPlays
    ensures summary.stop == TimeLimitReached <==> summary.playsCompleted >= MaxTimeBasedPlays
  {
    var maxTimeBasedPlays := TotalPlayTime / SecondsPerPlay;
    var money := startingMoney;
    var timesPlayed := new int[] [0, 0];
    var lastPayout := new int[] [-1, -1];
    var currentMachine := -1;
    var round := 0;
    assert Session(money, round, timesPlayed[..], lastPayout[..], currentMachine) == Initial(startingMoney);

    while round < maxTimeBasedPlays && money >= CostPerPlay
      invariant timesPlayed.Length == 2 && lastPayout.Length == 2 && timesPlayed != lastPayout
      invariant Consistent(Session(money, round, timesPlayed[..], lastPayout[..], currentMachine))
      invariant Play(Session(money, round, timesPlayed[..], lastPayout[..], currentMachine), draws)
             == Play(Initial(startingMoney), draws)
      decreases maxTimeBasedPlays - round
    {
      ghost var before := Session(money, round, timesPlayed[..], lastPayout[..], currentMachine);
      money, round, currentMachine :=
        PlayRoundInPlace(timesPlayed, lastPayout, money, round, currentMachine, draws[round]);
      PlayStep(before, draws);
    }

    summary := Summary(round, money, money - startingMoney, timesPlayed[0], timesPlayed[1],
                       StopReasonFor(money, round));
    SessionOutcome(startingMoney, draws);
  }

  /**
   * In the loop the reflex rule's "no current machine" fallback is never
   * taken: once both machines have been played, there is a current machine.
   */
  lemma NoCurrentFallbackUnreachable(s: Session)
    requires Consistent(s)
    ensures s.timesPlayed[0] != 0 && s.timesPlayed[1] != 0 ==> s.currentMachine != -1
    ensures ReflexBranch(s.timesPlayed, s.lastPayout, s.currentMachine) != NoCurrentDefaultA
  {
  }

  /**
   * Along the loop the agent plays A in round 1, B in round 2, and from then
   * on stays after a payout of at least 5 and switches otherwise.
   */
  lemma RoundChoice(s: Session, roll: real)
    requires Consistent(s) && CanPlay(s)
    ensures var t := PlayRound(s, roll);
      && (s.round == 0 ==> t.currentMachine == 0)
      && (s.round == 1 ==> t.currentMachine == 1)
      && (s.round >= 2 ==>
            (t.currentMachine == s.currentMachine <==> s.lastPayout[s.currentMachine] >= StayThreshold)
            && (t.currentMachine != s.currentMachine ==> t.currentMachine == 1 - s.currentMachine))
  {
    if s.round == 1 {
      assert s.timesPlayed == [1, 0];
    }
  }

  // ----- The program's 32-bit money -----------------------------------------

  /** The loop body as written, where `money -= ...` and `money += ...` wrap at 32 bits. */
  function PlayRoundInt32(s: Session, roll: real): (t: Session)
    requires Memory(s)
    ensures Int32Min <= t.money <= Int32Max
    ensures Int32Min <= s.money - CostPerPlay && Int32Min <= PlayRound(s, roll).money <= Int32Max
      ==> t == PlayRound(s, roll)
  {
    var chosen := ChooseActionReflex(s.timesPlayed, s.lastPayout, s.currentMachine);
    var payout := SampledPayout(ChancesOf(chosen), roll);
    Session(
      Wrap32(Wrap32(s.money - CostPerPlay) + payout),
      s.round + 1,
      s.timesPlayed[chosen := s.timesPlayed[chosen] + 1],
      s.lastPayout[chosen := payout],
      chosen)
  }

  /**
   * Starting with the largest `int` the program accepts and winning 100 in the
   * first round, the 32-bit money wraps to a negative amount, whereas the
   * intended (unbounded) round keeps it non-negative.
   */
  lemma Int32MoneyWrapsNegative()
    ensures Consistent(Initial(Int32Max)) && CanPlay(Initial(Int32Max))
    ensures PlayRoundInt32(Initial(Int32Max), 0.99).money < 0
    ensures PlayRound(Initial(Int32Max), 0.99).money == Int32Max + 99
  {
    FixedChancesBuckets(0.99);
    assert SampledPayout(ChancesOf(0), 0.99) == 100;
  }
}
