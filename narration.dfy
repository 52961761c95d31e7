/**
 * The user-facing words of the simulation: machine labels, the outcome line of
 * a round, and the decimal rendering Java uses when it concatenates an `int`
 * into a string.
 */
module Narration {

  datatype Option<T> = None | Some(value: T)

  /** Machine index 0 is labelled "A"; every other index "B". */
  function MachineLabel(machineIndex: int): (name: string)
    ensures name == "A" || name == "B"
    ensures name == "A" <==> machineIndex == 0
  {
    if machineIndex == 0 then "A" else "B"
  }

  // ----- Decimal rendering of integers (what `"..." + n` produces) ---------

  predicate IsDigit(c: char) {
    '0' <= c <= '9'
  }

  predicate AllDigits(s: string) {
    forall i :: 0 <= i < |s| ==> IsDigit(s[i])
  }

  function DigitChar(d: int): (c: char)
    requires 0 <= d < 10
    ensures IsDigit(c)
    ensures c as int - '0' as int == d
  {
    ('0' as int + d) as char
  }

  /** Decimal digits of a natural number, most significant first, no leading zero. */
  function NatDecimal(n: nat): (s: string)
    ensures |s| >= 1 && AllDigits(s)
    ensures s[0] == '0' ==> n == 0
    ensures n == 0 ==> s == "0"
    decreases n
  {
    if n < 10 then [DigitChar(n)] else NatDecimal(n / 10) + [DigitChar(n % 10)]
  }

  /** Java's `Integer.toString`: a minus sign for negatives, then the digits. */
  function DecimalString(n: int): (s: string)
    ensures |s| >= 1
    ensures s[0] == '-' <==> n < 0
    ensures n < 0 ==> |s| >= 2 && AllDigits(s[1..]) && s[1] != '0'
    ensures n >= 0 ==> AllDigits(s) && (s[0] == '0' ==> n == 0)
    ensures n == 0 ==> s == "0"
  {
    if n < 0 then "-" + NatDecimal(-n) else NatDecimal(n)
  }

  /** Value of a digit string, read most significant digit first. */
  function DigitsValue(s: string): nat
    requires AllDigits(s)
    decreases |s|
  {
    if |s| == 0 then 0
    else DigitsValue(s[..|s| - 1]) * 10 + (s[|s| - 1] as int - '0' as int)
  }

  /** Reads back an optionally signed decimal numeral; None if it is not one. */
  function ParseDecimal(s: string): Option<int> {
    if |s| >= 2 && s[0] == '-' && AllDigits(s[1..]) then Some(-(DigitsValue(s[1..]) as int))
    else if |s| >= 1 && AllDigits(s) then Some(DigitsValue(s))
    else None
  }

  lemma {:induction false} NatDecimalRoundTrip(n: nat)
    ensures DigitsValue(NatDecimal(n)) == n
    decreases n
  {
    if n >= 10 {
      var s := NatDecimal(n);
      assert s[..|s| - 1] == NatDecimal(n / 10);
      NatDecimalRoundTrip(n / 10);
    }
  }

  /** The decimal rendering of every int reads back as that int. */
  lemma DecimalRoundTrip(n: int)
    ensures ParseDecimal(DecimalString(n)) == Some(n)
  {
    if n < 0 {
      var s := DecimalString(n);
      assert s[1..] == NatDecimal(-n);
      NatDecimalRoundTrip(-n);
    } else {
      NatDecimalRoundTrip(n);
    }
  }

  // ----- Outcome line of one round -----------------------------------------

  const LostText: string := "I lost this round."
  const BrokeEvenText: string := "I broke even on this round."
  const WonPrefix: string := "I won Php "
  const WonSuffix: string := " this round!"

  /** The outcome line: "lost" for 0, "broke even" for 1, the amount won otherwise. */
  function DescribeOutcome(payout: int): (text: string)
    ensures text == LostText <==> payout == 0
    ensures text == BrokeEvenText <==> payout == 1
  {
    assert LostText[2] == 'l' && BrokeEvenText[2] == 'b';
    if payout == 0 then LostText
    else if payout == 1 then BrokeEvenText
    else
      var won := WonPrefix + DecimalString(payout) + WonSuffix;
      assert won[2] == 'w';
      won
  }

  /**
   * The outcome line tells the three cases apart: it is the "lost" line exactly
   * for payout 0, the "broke even" line exactly for payout 1, and otherwise a
   * "won" line from which the payout amount can be read back.
   */
  lemma DescribeOutcomeReadsBack(payout: int)
    ensures DescribeOutcome(payout) == LostText <==> payout == 0
    ensures DescribeOutcome(payout) == BrokeEvenText <==> payout == 1
    ensures payout != 0 && payout != 1 ==>
      var text := DescribeOutcome(payout);
      |text| > |WonPrefix| + |WonSuffix|
      && text[..|WonPrefix|] == WonPrefix
      && text[|text| - |WonSuffix|..] == WonSuffix
      && ParseDecimal(text[|WonPrefix|..|text| - |WonSuffix|]) == Some(payout)
  {
    if payout != 0 && payout != 1 {
      var digits := DecimalString(payout);
      var text := DescribeOutcome(payout);
      assert text == WonPrefix + digits + WonSuffix;
      assert text[2] == 'w';
      assert LostText[2] == 'l' && BrokeEvenText[2] == 'b';
      assert text[..|WonPrefix|] == WonPrefix;
      assert text[|text| - |WonSuffix|..] == WonSuffix;
      assert text[|WonPrefix|..|text| - |WonSuffix|] == digits;
      DecimalRoundTrip(payout);
    } else {
      assert LostText[2] != BrokeEvenText[2];
    }
  }
}
