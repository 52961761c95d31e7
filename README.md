# Mini-casino reflex agent, modelled in Dafny

This project models the mini-casino simulation. A single agent has a fixed
90-second budget and starting money in Php. It plays two slot machines, A
(index 0) and B (index 1). Each play costs 1 Php and takes 10 seconds, so at
most 90 / 10 = 9 rounds fit into the budget. Both machines pay 0, 1, 5 or 100
Php with probabilities 0.50, 0.30, 0.15 and 0.05.

The agent is a reflex agent. Its memory is the per-machine play counts, the
per-machine last payout (-1 means "not played yet") and the machine played
last (-1 means "none yet"). Its rule is: try A, then try B, then (with no
current machine) default to A. After that it stays on the current machine
after a payout of at least 5 and switches otherwise. Each decision comes with
a one-sentence explanation. Each round's outcome is narrated as lost, broke
even or won.

Modules, one per component of `MiniCasino.java`:

- `Casino` (casino.dfy) holds the constants and Java's 32-bit wrap-around.
- `Narration` (narration.dfy) holds the machine labels and the outcome
  sentence. It also renders an `int` in decimal, as Java does when it
  concatenates one into a string, together with a parser that reads the
  number back.
- `ReflexPolicy` (reflex_policy.dfy) holds the decision rule and its
  explanation. The explanation's if-chain is kept as a `Branch` value, and
  `ReasonText` renders that value as the program's sentence.
- `PayoutSampler` (payout_sampler.dfy) holds the cumulative walk as a `for`
  loop with an early return and the last-bucket fallback (`SamplePayout`). The
  function it is proved against is `SampledPayout`.
- `Simulation` (simulation.dfy) holds the round loop of `main`.
  `RunSimulation` keeps the program's locals and allocates the two memory
  arrays. `PlayRoundInPlace` is one pass of the loop body and updates those
  arrays in place. Both are proved against the value-level specification
  `PlayRound` / `Play` over a `Session` record. The invariant `Consistent` is
  proved about that specification.

The random source is a parameter. `draws[k]` is the `nextDouble()` roll of
round k + 1. Probabilities and the running total are exact Dafny reals, an
idealisation of Java doubles. Money is an unbounded integer in the main
model. `PlayRoundInt32` models the program's 32-bit `int` (see Findings).

When neither stop condition holds, the if-chain at MiniCasino.java:131-135
prints no reason. The model keeps that case as `StopReason.NoneStated` and
proves that it never occurs when the loop ends. The guard
`money >= COST_PER_PLAY` at MiniCasino.java:80 (with its comment at :79) lets
a round start only when the round can be paid for, so money is meant to stay
>= 0. The program's 32-bit `int` breaks that for starting money near
`Integer.MAX_VALUE` (see Findings).

## Model

| member | source | states |
|---|---|---|
| `Narration.MachineLabel` | MiniCasino.java:178-180 | The label is "A" exactly for index 0 and "B" otherwise. |
| `Narration.DecimalRoundTrip` | MiniCasino.java:211 | The decimal rendering of every int, negative ones included, parses back to that int. |
| `Narration.DecimalString` | MiniCasino.java:211 | The rendering of Java's `"..." + payout`: it is non-empty, starts with '-' exactly for negative numbers, and is otherwise made of digits with no leading zero. 0 is rendered as exactly "0". `DecimalRoundTrip` reads it back. |
| `Narration.DescribeOutcome` | MiniCasino.java:204-212 | The outcome line is the "lost" line exactly when the payout is 0, and the "broke even" line exactly when the payout is 1. `DescribeOutcomeReadsBack` covers the "won" line. |
| `Narration.DescribeOutcomeReadsBack` | MiniCasino.java:204-212 | The outcome is the "lost" line exactly when the payout is 0. It is the "broke even" line exactly when the payout is 1. Otherwise it is "I won Php <n> this round!" and `<n>` reads back as the payout. |
| `ReflexPolicy.ChooseActionReflex` | MiniCasino.java:149-172 | The result is always 0 or 1. An unplayed A gives 0. A played A with an unplayed B gives 1. Both played with no current machine gives 0. Otherwise the rule stays on the current machine exactly when its last payout is at least 5, and it switches to the other machine exactly when it does not stay. |
| `ReflexPolicy.ReflexBranch` | MiniCasino.java:185-199 | The explanation's if-chain takes the rule's branch. "Try A" is chosen exactly when A is unplayed. "Try B" is chosen exactly when A is played and B is not. "No current machine" is chosen exactly when both are played and there is no current machine. Stay and switch are about the current machine, and stay is chosen exactly when its last payout is at least 5. The branch is valid, and the machine it announces is the one `ChooseActionReflex` returns for the same inputs. |
| `ReflexPolicy.ReasonText` | MiniCasino.java:185-199 | Each reason sentence shows its kind of reason. The exploration sentences name the machine to try. The stay and switch sentences name the branch's machine and call its last payout good or low. That machine is the current machine by `ReflexBranch`'s contract. |
| `ReflexPolicy.ExplainReflexDecision` | MiniCasino.java:185-199 | The explanation is the sentence of the branch `ReflexBranch` picks, so it takes the same branch as the rule. That branch is valid and announces exactly the machine `ChooseActionReflex` picks. `ReasonTextInjective` shows that no other branch has that sentence. |
| `ReflexPolicy.ReasonTextInjective` | MiniCasino.java:185-199 | Different branches, including stay or switch on different machines, have different explanation sentences. |
| `ReflexPolicy.ExplanationNamesChoice` | MiniCasino.java:185-199 | For every input, the only valid branch whose sentence equals the explanation is the branch whose condition holds. It announces exactly the machine the rule chooses. |
| `PayoutSampler.FirstCovering` | MiniCasino.java:226-231 | The walk stops at the first bucket whose running total is at least the roll. No earlier bucket reaches the roll. The result is past the end only if no bucket reaches it. |
| `PayoutSampler.SampledPayout` | MiniCasino.java:218-235 | The sampled payout is always an element of the payout table. |
| `PayoutSampler.SamplePayout` | MiniCasino.java:218-235 | The `for` loop with its early return returns an element of the payout table. That element is the payout of the first covering bucket, or the last payout when the walk ends without a match. |
| `PayoutSampler.BucketInterval` | MiniCasino.java:226-231 | With non-negative probabilities, bucket i is chosen exactly for rolls in (sum of the first i, sum of the first i+1]. Bucket 0 is chosen for every roll up to its probability. |
| `PayoutSampler.NoFallbackWhenTotalReached` | MiniCasino.java:233-234 | The fallback is reached only when the total of all probabilities is below the roll. |
| `PayoutSampler.FixedChancesBuckets` | MiniCasino.java:18-21 | With the fixed chances, rolls up to 0.50 pay 0, up to 0.80 pay 1, up to 0.95 pay 5, and rolls above that pay 100. For rolls up to 1.0 the fallback is never taken. |
| `Simulation.Initial` | MiniCasino.java:55-77 | The start state holds the starting money at round 0. For non-negative money it satisfies the loop invariant. The loop guard admits it exactly when the money covers one play. |
| `Simulation.PlayRound` | MiniCasino.java:82-119 | One round sets the current machine to the machine the rule chose and advances the round by one. Only the chosen machine's count (+1) and last payout change. The new last payout is the payout the roll draws from the chosen machine's table, and it is an element of the payout table. Money becomes money − cost + that payout. |
| `Simulation.PlayRoundKeepsConsistent` | MiniCasino.java:80-119 | A round that the guard admits keeps every part of the loop invariant. Money stays >= 0. The rounds stay <= 9. The two play counts sum to the round number. `lastPayout[m] == -1` exactly when machine m is unplayed. `currentMachine == -1` exactly at round 0. A is played first and B second. |
| `Simulation.Play` | MiniCasino.java:80-120 | The loop ends in a state that still satisfies the invariant and fails the guard. With starting money 0 it runs no round at all. |
| `Simulation.StopReasonFor` | MiniCasino.java:131-135 | A reason is printed exactly when the loop guard is false. "Not enough money" implies money < cost. "Time limit reached" is printed exactly when the round limit is reached. |
| `Simulation.Summarize` | MiniCasino.java:123-135 | The report gives the plays and the final money. The net change is the final money minus the starting money. "Machine 1 plays" is A's count and "Machine 2 plays" is B's count. For a consistent state the two counts add up to the plays. The reason is the one the stop if-chain picks, and no reason is printed exactly when the loop guard would still admit a round. |
| `Simulation.PlaysAtLeast` | MiniCasino.java:80-109 | Because payouts are never negative, the loop lasts at least as many rounds as the money on hand pays for, capped at 9. |
| `Simulation.SessionOutcome` | MiniCasino.java:52-135 | In a whole session, 0 <= plays <= 9 and the final money is >= 0. The machine counts sum to the plays. The loop ends only when the time or the money runs out. "Not enough money" is reported exactly when money < cost and plays < 9, and the time limit in every other case. Plays >= min(starting money, 9). Starting money 0 gives zero plays and "Not enough money". |
| `Simulation.PlayRoundInPlace` | MiniCasino.java:82-119 | One pass of the loop body over the program's variables and its two arrays updated in place. It yields exactly the state `PlayRound` specifies. |
| `Simulation.RunSimulation` | MiniCasino.java:44-135 | The imperative loop returns the summary of the state `Play` reaches. That summary is within the time budget, keeps money >= 0, has counts that add up, and names the stop reason correctly. |
| `Simulation.NoCurrentFallbackUnreachable` | MiniCasino.java:160-163 | In every state the loop reaches, the rule's "no current machine" fallback is never taken. |
| `Simulation.RoundChoice` | MiniCasino.java:84-119 | Along the loop, round 1 plays A and round 2 plays B. From round 3 on the agent stays exactly when the current machine last paid at least 5, and otherwise switches to the other machine. |
| `Simulation.PlayRoundInt32` | MiniCasino.java:102-109 | The round as written with 32-bit `int` money keeps money inside the `int` range. It agrees with the unbounded round whenever nothing overflows. |
| `Simulation.Int32MoneyWrapsNegative` | MiniCasino.java:102-109 | Starting with 2147483647 Php and rolling 0.99 in the first round (payout 100), the 32-bit money becomes negative. The unbounded round gives 2147483647 + 99. |

## Left out

- Reading the starting money (`readNonNegativeInt`) is console I/O with `Integer.parseInt` and its exception handling. The starting money is a parameter with `startingMoney >= 0`. The main model does not impose the `int` upper bound.
- `java.util.Random` is replaced by a sequence of rolls, one per round. `RunSimulation` asks for at least 9 of them, since the program's generator never runs out.
- IEEE-754 doubles are not modelled. Probabilities and the running total are exact reals, so rounding in the cumulative sum, and the roll range being [0,1), are not captured. With exact reals the fallback can happen only for rolls above 1.0, which `nextDouble` never returns.
- The frequency of each payout over many runs is not modelled. It is stated only as the interval lemma `BucketInterval` (bucket i covers a stretch of rolls of length `chances[i]`).
- Printed output is not modelled. That covers the banner, the per-round narration (round number, time used, bet, money after paying, payout line), the summary lines, `Locale.setDefault` and `scanner.close()`. The summary and the stop reason are returned as values instead.
- The explanation computed each round is printed and has no other effect, so `RunSimulation` does not compute it. Its agreement with the chosen machine is proved separately by `ExplanationNamesChoice`.
- The two per-machine `clone()` copies of the chances array are two equal constants. Since they are never mutated, aliasing is not modelled.

## Findings

| source | as written | input that shows it | evidently intended | confidence | as-written member | corrected member |
|---|---|---|---|---|---|---|
| MiniCasino.java:102-109 | `money` is a Java `int`, so `money -= COST_PER_PLAY; money += payout;` wraps at 32 bits | starting money 2147483647 and a first roll of 0.99 (payout 100): money wraps to -2147483550, the loop stops, and "Not enough money" is printed with a negative balance | money stays >= 0, as the guard at MiniCasino.java:79-80 intends, and equals start − cost + payout after the round | not executed | `Simulation.Int32MoneyWrapsNegative` | `Simulation.PlayRoundKeepsConsistent` |
