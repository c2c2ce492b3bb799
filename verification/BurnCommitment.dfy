/** The owner's published burn rate: the one commitment text for each rate, and what any other text means. */
module BurnCommitment {
  import opened Wrappers

  const FULL_BURN_BPS: nat := 10000
  const BURN_COMMITMENT_PREFIX := "endure.burn_bps="

  type BurnRate = bps: nat | bps <= 10000

  predicate IsDigit(c: char) {
    '0' <= c <= '9'
  }

  /** Python's `str` of a non-negative int. */
  function DecimalText(n: nat): string {
    var last := [(n % 10 + '0' as int) as char];
    if n < 10 then last else DecimalText(n / 10) + last
  }

  /** Python's `int` of a text of decimal digits. */
  function DecimalValue(digits: string): nat
    requires forall c | c in digits :: IsDigit(c)
  {
    if digits == [] then 0 else
      var most := |digits| - 1;
      assert IsDigit(digits[most]);
      10 * DecimalValue(digits[..most]) + (digits[most] as int - '0' as int)
  }

  /** Up to five digits, the first no zero unless it is the only one. */
  predicate RateDigits(digits: string) {
    || digits == "0"
    || (1 <= |digits| <= 5 && digits[0] != '0' && forall c | c in digits :: IsDigit(c))
  }

  function BurnCommitmentText(burnBps: BurnRate): string {
    BURN_COMMITMENT_PREFIX + DecimalText(burnBps)
  }

  /** The rate a commitment text sets; anything but an exact commitment burns all. */
  function ParseBurnRate(text: Option<string>): BurnRate {
    if text.None? || !(BURN_COMMITMENT_PREFIX <= text.value) then FULL_BURN_BPS else
      var digits := text.value[|BURN_COMMITMENT_PREFIX|..];
      if !RateDigits(digits) then FULL_BURN_BPS else
        var burnBps := DecimalValue(digits);
        if burnBps <= FULL_BURN_BPS then burnBps else FULL_BURN_BPS
  }

  // -- one text a rate ------------------------------------------------------

  lemma {:induction false} DecimalRoundTrip(n: nat)
    ensures DecimalText(n) != [] && (forall c | c in DecimalText(n) :: IsDigit(c))
    ensures DecimalValue(DecimalText(n)) == n
    ensures DecimalText(n)[0] == '0' ==> n == 0
  {
    if n >= 10 {
      DecimalRoundTrip(n / 10);
      var text := DecimalText(n);
      assert text[..|text| - 1] == DecimalText(n / 10);
    }
  }

  /** Digits without a leading zero are the text of their value. */
  lemma {:induction false} DigitsOfValue(digits: string)
    requires digits != [] && (forall c | c in digits :: IsDigit(c)) && (digits[0] == '0' ==> |digits| == 1)
    ensures DecimalText(DecimalValue(digits)) == digits
    ensures |digits| > 1 ==> DecimalValue(digits) >= 10
    ensures digits[0] != '0' ==> DecimalValue(digits) >= 1
  {
    var most := |digits| - 1;
    assert IsDigit(digits[0]) && IsDigit(digits[most]);
    if most > 0 {
      DigitsOfValue(digits[..most]);
      assert DecimalValue(digits) / 10 == DecimalValue(digits[..most]);
    }
    assert digits == digits[..most] + [digits[most]];
  }

  lemma {:induction false} DigitCount(n: nat, digits: nat)
    requires n < Pow10(digits) && digits >= 1
    ensures |DecimalText(n)| <= digits
  {
    if n >= 10 {
      DigitCount(n / 10, digits - 1);
    }
  }

  ghost function Pow10(k: nat): nat {
    if k == 0 then 1 else 10 * Pow10(k - 1)
  }

  /** A rate short of the whole vote is set by its own text and by no other; every other reading burns all. */
  lemma PublishedRateExactly(text: Option<string>, burnBps: BurnRate)
    ensures burnBps < FULL_BURN_BPS ==> (ParseBurnRate(text) == burnBps <==> text == Some(BurnCommitmentText(burnBps)))
    ensures ParseBurnRate(Some(BurnCommitmentText(burnBps))) == burnBps
  {
    var own := BurnCommitmentText(burnBps);
    DecimalRoundTrip(burnBps);
    DigitCount(burnBps, 5);
    assert own[|BURN_COMMITMENT_PREFIX|..] == DecimalText(burnBps);
    if text.Some? && BURN_COMMITMENT_PREFIX <= text.value {
      var digits := text.value[|BURN_COMMITMENT_PREFIX|..];
      assert text.value == BURN_COMMITMENT_PREFIX + digits;
      if RateDigits(digits) {
        DigitsOfValue(digits);
      }
    }
  }

  /** The repository's own example. */
  lemma PublishedExample()
    ensures BurnCommitmentText(9800) == "endure.burn_bps=9800"
  {
    assert DecimalText(98) == "98";
    assert DecimalText(980) == "980";
  }
}
