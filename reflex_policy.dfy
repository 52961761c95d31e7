/**
 * The reflex agent's decision rule and its explanation.
 *
 * The agent's memory is the per-machine play counts, the per-machine last
 * payouts (-1 = not played yet) and the machine played last (-1 = none yet).
 * Machines are indices 0 ("A") and 1 ("B").
 */
module ReflexPolicy {
  import opened Narration

  /** Good-enough last payout to stay on the current machine. */
  const StayThreshold: int := 5

  /**
   * What the rule may be given: two counts, two last payouts, and a current
   * machine that is either the sentinel -1 or an index the payout array has.
   */
  predicate WellFormedMemory(timesPlayed: seq<int>, lastPayout: seq<int>, currentMachine: int) {
    |timesPlayed| == 2 && |lastPayout| == 2 && -1 <= currentMachine <= 1
  }

  /**
   * Priority-ordered reflex rule: explore A, then explore B, then (with no
   * current machine) default to A, then stay after a good payout, else switch.
   */
  function ChooseActionReflex(timesPlayed: seq<int>, lastPayout: seq<int>, currentMachine: int): (machine: int)
    requires WellFormedMemory(timesPlayed, lastPayout, currentMachine)
    ensures machine == 0 || machine == 1
    ensures timesPlayed[0] == 0 ==> machine == 0
    ensures timesPlayed[0] != 0 && timesPlayed[1] == 0 ==> machine == 1
    ensures timesPlayed[0] != 0 && timesPlayed[1] != 0 && currentMachine == -1 ==> machine == 0
    ensures timesPlayed[0] != 0 && timesPlayed[1] != 0 && currentMachine != -1 ==>
      (machine == currentMachine <==> lastPayout[currentMachine] >= StayThreshold)
      && (machine != currentMachine <==> machine == 1 - currentMachine)
  {
    if timesPlayed[0] == 0 then 0
    else if timesPlayed[1] == 0 then 1
    else if currentMachine == -1 then 0
    else if lastPayout[currentMachine] >= StayThreshold then currentMachine
    else 1 - currentMachine
  }

  /** The condition the explanation reports, one constructor per reason text. */
  datatype Branch =
    | ExploreA
    | ExploreB
    | NoCurrentDefaultA
    | Stay(machine: int)
    | Switch(machine: int)
  {
    predicate Valid() {
      (Stay? || Switch?) ==> machine == 0 || machine == 1
    }

    /** The machine this reason announces the agent will play next. */
    function Target(): int {
      match this
      case ExploreA => 0
      case ExploreB => 1
      case NoCurrentDefaultA => 0
      case Stay(m) => m
      case Switch(m) => 1 - m
    }
  }

  /** The explanation's own if-chain, as a branch rather than a string. */
  function ReflexBranch(timesPlayed: seq<int>, lastPayout: seq<int>, currentMachine: int): (b: Branch)
    requires WellFormedMemory(timesPlayed, lastPayout, currentMachine)
    ensures b.Valid()
    ensures b.Target() == ChooseActionReflex(timesPlayed, lastPayout, currentMachine)
    ensures b == ExploreA <==> timesPlayed[0] == 0
    ensures b == ExploreB <==> timesPlayed[0] != 0 && timesPlayed[1] == 0
    ensures b == NoCurrentDefaultA <==> timesPlayed[0] != 0 && timesPlayed[1] != 0 && currentMachine == -1
    ensures (b.Stay? || b.Switch?) ==> b.machine == currentMachine
    ensures b.Stay? <==>
      timesPlayed[0] != 0 && timesPlayed[1] != 0 && currentMachine != -1 && lastPayout[currentMachine] >= StayThreshold
  {
    if timesPlayed[0] == 0 then ExploreA
    else if timesPlayed[1] == 0 then ExploreB
    else if currentMachine == -1 then NoCurrentDefaultA
    else if lastPayout[currentMachine] >= StayThreshold then Stay(currentMachine)
    else Switch(currentMachine)
  }

  /** Shared ending of the two exploration reasons. */
  const NotTestedYet: string := " because I have not tested it yet."

  /**
   * The sentence the agent states for each branch. The longer sentences are
   * written as concatenations of shorter literals only so that the prover can
   * read their characters; the program has each one as a single literal.
   *
   * The ensures say what each sentence tells: its opening (character 2 is 'w'
   * for "I will try", 'd' for "I do not have", ' ' for "My last payout") gives
   * the kind of reason, the exploration sentences name the machine to try
   * (character 19), and the stay / switch sentences name the current machine
   * (character 26) and call its payout good or low (character 32).
   */
  function ReasonText(b: Branch): (text: string)
    ensures |text| > 32
    ensures text[2] == (if b.ExploreA? || b.ExploreB? then 'w' else if b.NoCurrentDefaultA? then 'd' else ' ')
    ensures b.ExploreA? || b.ExploreB? ==> text[19] == MachineLabel(b.Target())[0]
    ensures b.Stay? || b.Switch? ==>
      text[26] == MachineLabel(b.machine)[0] && text[32] == (if b.Stay? then 'g' else 'l')
  {
    match b
    case ExploreA => "I will try Machine A first" + NotTestedYet
    case ExploreB => "I will try Machine B now" + NotTestedYet
    case NoCurrentDefaultA => "I do not have a current machine yet, " + "so I will start with Machine A."
    case Stay(m) => "My last payout on Machine " + MachineLabel(m) + " was good (>= 5), so I will stay."
    case Switch(m) => "My last payout on Machine " + MachineLabel(m) + " was low (< 5), so I will switch."
  }

  /**
   * The explanation states the sentence of the branch whose condition holds,
   * a valid branch that announces the rule's choice.
   */
  function ExplainReflexDecision(timesPlayed: seq<int>, lastPayout: seq<int>, currentMachine: int): (text: string)
    requires WellFormedMemory(timesPlayed, lastPayout, currentMachine)
    ensures text == ReasonText(ReflexBranch(timesPlayed, lastPayout, currentMachine))
    ensures exists b: Branch ::
              b.Valid() && b.Target() == ChooseActionReflex(timesPlayed, lastPayout, currentMachine) && text == ReasonText(b)
  {
    var b := ReflexBranch(timesPlayed, lastPayout, currentMachine);
    assert b.Valid() && b.Target() == ChooseActionReflex(timesPlayed, lastPayout, currentMachine);
    ReasonText(b)
  }

  /** Different valid reasons are worded differently. */
  lemma ReasonTextInjective(b1: Branch, b2: Branch)
    requires b1.Valid() && b2.Valid()
    requires ReasonText(b1) == ReasonText(b2)
    ensures b1 == b2
  {
    if b1.Stay? || b1.Switch? {
      assert MachineLabel(b1.machine)[0] == MachineLabel(b2.machine)[0];
    }
  }

  /**
   * The explanation and the rule take the same branch: any reason whose text is
   * the explanation announces exactly the machine the rule chooses.
   */
  lemma ExplanationNamesChoice(timesPlayed: seq<int>, lastPayout: seq<int>, currentMachine: int)
    requires WellFormedMemory(timesPlayed, lastPayout, currentMachine)
    ensures forall b: Branch :: b.Valid() && ReasonText(b) == ExplainReflexDecision(timesPlayed, lastPayout, currentMachine) ==>
      b == ReflexBranch(timesPlayed, lastPayout, currentMachine)
      && b.Target() == ChooseActionReflex(timesPlayed, lastPayout, currentMachine)
  {
    forall b: Branch | b.Valid() && ReasonText(b) == ExplainReflexDecision(timesPlayed, lastPayout, currentMachine)
      ensures b == ReflexBranch(timesPlayed, lastPayout, currentMachine)
      ensures b.Target() == ChooseActionReflex(timesPlayed, lastPayout, currentMachine)
    {
      ReasonTextInjective(b, ReflexBranch(timesPlayed, lastPayout, currentMachine));
    }
  }
}
