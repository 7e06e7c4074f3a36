/**
 * Rust's `u16::from_str` (what `"80".parse::<u16>()` runs): an optional
 * leading '+', then one or more ASCII decimal digits, read left to right
 * with an overflow check at every step.
 */
module U16Parse {
  import opened Wrappers

  const U16_MAX := 65535

  /** The three ways `from_str` can fail for an unsigned type (`IntErrorKind`). */
  datatype IntErrorKind = Empty | InvalidDigit | PosOverflow

  predicate IsAsciiDigit(c: char) {
    '0' <= c <= '9'
  }

  function DigitValue(c: char): (d: nat)
    requires IsAsciiDigit(c)
    ensures d <= 9
  {
    (c as int) - ('0' as int)
  }

  /** The digit loop: `acc` is the value read so far, already known to fit. */
  function ParseDigits(ds: string, acc: nat): (r: Result<nat, IntErrorKind>)
    requires acc <= U16_MAX
    ensures r.Ok? ==> acc <= r.value <= U16_MAX
    ensures r.Err? ==> r.error != Empty
  {
    if ds == [] then Ok(acc)
    else if !IsAsciiDigit(ds[0]) then Err(InvalidDigit)
    else if acc * 10 + DigitValue(ds[0]) > U16_MAX then Err(PosOverflow)
    else ParseDigits(ds[1..], acc * 10 + DigitValue(ds[0]))
  }

  /** `u16::from_str`. A lone sign is an invalid digit; '-' is never a sign for an unsigned type. */
  function ParseU16(t: string): (r: Result<nat, IntErrorKind>)
    ensures r.Ok? ==> r.value <= U16_MAX
    ensures r == Err(Empty) <==> t == []
  {
    if t == [] then Err(Empty)
    else if t == "+" || t == "-" then Err(InvalidDigit)
    else if t[0] == '+' then ParseDigits(t[1..], 0)
    else ParseDigits(t, 0)
  }

  /** A string that starts with neither a digit nor '+' is rejected as an invalid digit. */
  lemma LeadingNonDigit(t: string)
    requires t != [] && t[0] != '+' && !IsAsciiDigit(t[0])
    ensures ParseU16(t) == Err(InvalidDigit)
  {
  }

  // ---- A declarative reference for what `ParseU16` accepts ----

  predicate AllDigits(ds: string) {
    forall i :: 0 <= i < |ds| ==> IsAsciiDigit(ds[i])
  }

  /** The decimal value of a digit string, with no bound on its size. */
  function DecimalValue(acc: nat, ds: string): nat
    requires AllDigits(ds)
    decreases |ds|
  {
    if ds == [] then acc else DecimalValue(acc * 10 + DigitValue(ds[0]), ds[1..])
  }

  /** The digits of a numeral: the text after an optional leading '+'. */
  function Digits(t: string): string {
    if t != [] && t[0] == '+' then t[1..] else t
  }

  /** `t` is an optional '+' followed by one or more ASCII digits. */
  predicate IsNumeral(t: string) {
    Digits(t) != [] && AllDigits(Digits(t))
  }

  function NumeralValue(t: string): nat
    requires IsNumeral(t)
  {
    DecimalValue(0, Digits(t))
  }

  /** `t` is the text of the 16-bit value `n`. */
  predicate IsU16Numeral(t: string, n: int) {
    IsNumeral(t) && NumeralValue(t) == n && n <= U16_MAX
  }

  lemma {:induction false} DecimalValueGrows(acc: nat, ds: string)
    requires AllDigits(ds)
    ensures DecimalValue(acc, ds) >= acc
    decreases |ds|
  {
    if ds != [] {
      DecimalValueGrows(acc * 10 + DigitValue(ds[0]), ds[1..]);
    }
  }

  lemma {:induction false} ParseDigitsCorrect(ds: string, acc: nat)
    requires acc <= U16_MAX
    ensures ParseDigits(ds, acc).Ok? <==> AllDigits(ds) && DecimalValue(acc, ds) <= U16_MAX
    ensures ParseDigits(ds, acc).Ok? ==> ParseDigits(ds, acc).value == DecimalValue(acc, ds)
  {
    if ds != [] {
      if !IsAsciiDigit(ds[0]) {
        assert !AllDigits(ds);
      } else {
        var next := acc * 10 + DigitValue(ds[0]);
        assert AllDigits(ds) <==> AllDigits(ds[1..]);
        if next > U16_MAX {
          if AllDigits(ds) {
            DecimalValueGrows(next, ds[1..]);
          }
        } else {
          ParseDigitsCorrect(ds[1..], next);
        }
      }
    }
  }

  /** `ParseU16` accepts exactly the numerals of 16-bit values, and returns their value. */
  lemma ParseU16Correct(t: string)
    ensures ParseU16(t).Ok? <==> IsNumeral(t) && NumeralValue(t) <= U16_MAX
    ensures ParseU16(t).Ok? ==> ParseU16(t).value == NumeralValue(t)
  {
    ParseDigitsCorrect(Digits(t), 0);
  }

  /** Some inputs, and what Rust's `parse::<u16>` gives for them. */
  lemma ParseU16Examples()
    ensures ParseU16("80") == Ok(80)
    ensures ParseU16("+443") == Ok(443)
    ensures ParseU16("65536") == Err(PosOverflow)
    ensures ParseU16("80 ") == Err(InvalidDigit)
    ensures ParseU16("-1") == Err(InvalidDigit)
    ensures ParseU16("+") == Err(InvalidDigit)
    ensures ParseU16("") == Err(Empty)
  {
    assert ParseDigits("", 80) == Ok(80);
    assert ParseDigits("0", 8) == Ok(80);
    assert ParseDigits("80", 0) == Ok(80);
    assert ParseDigits("3", 44) == Ok(443);
    assert ParseDigits("43", 4) == Ok(443);
    assert ParseDigits("443", 0) == Ok(443);
    assert ParseDigits("6", 6553) == Err(PosOverflow);
    assert ParseDigits("36", 655) == Err(PosOverflow);
    assert ParseDigits("536", 65) == Err(PosOverflow);
    assert ParseDigits("5536", 6) == Err(PosOverflow);
    assert ParseDigits("65536", 0) == Err(PosOverflow);
    assert ParseDigits(" ", 80) == Err(InvalidDigit);
    assert ParseDigits("0 ", 8) == Err(InvalidDigit);
    assert ParseDigits("80 ", 0) == Err(InvalidDigit);
  }
}
