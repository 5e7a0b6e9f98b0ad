/** The duration of an unlock grant as it is typed: a number and a unit. */
module UnlockTtl {
  import opened Text

  const MAX_U64: nat := 0xffff_ffff_ffff_ffff
  const MAX_TTL: nat := 30 * 24 * 60 * 60

  datatype Outcome = Seconds(seconds: nat) | Malformed | TooShort | TooLong | Panic

  predicate IsDigit(c: char) {
    '0' <= c <= '9'
  }

  predicate AllDigits(s: string) {
    forall k :: 0 <= k < |s| ==> IsDigit(s[k])
  }

  function Number(digits: string): nat
    requires AllDigits(digits)
  {
    if digits == "" then 0
    else 10 * Number(digits[..|digits| - 1]) + (digits[|digits| - 1] as nat - '0' as nat)
  }

  /** An unsigned 64-bit number, which may have a plus sign. */
  function ParseU64(s: string): Option<nat> {
    var digits := if s != "" && s[0] == '+' then s[1..] else s;
    if digits == "" || !AllDigits(digits) || Number(digits) > MAX_U64 then None
    else Some(Number(digits))
  }

  function UnitSeconds(unit: char): Option<nat> {
    match unit
    case 'm' => Some(60)
    case 'h' => Some(60 * 60)
    case 'd' => Some(24 * 60 * 60)
    case _ => None
  }

  function SaturatingMul(a: nat, b: nat): nat {
    if a * b > MAX_U64 then MAX_U64 else a * b
  }

  predicate IsAscii(c: char) {
    c < '\U{80}'
  }

  /** Splitting off the last byte panics when the last character has several. */
  function ParseUnlockTtl(input: string): Outcome {
    if input == "" then Malformed
    else
      var last := input[|input| - 1];
      if !IsAscii(last) then Panic
      else if |input| < 2 then Malformed
      else
        match ParseU64(input[..|input| - 1])
        case None => Malformed
        case Some(value) =>
          match UnitSeconds(last)
          case None => Malformed
          case Some(unit) =>
            var seconds := SaturatingMul(value, unit);
            if seconds == 0 then TooShort
            else if seconds > MAX_TTL then TooLong
            else Seconds(seconds)
  }

  predicate Spells(input: string, value: nat, unit: nat) {
    && input != ""
    && UnitSeconds(input[|input| - 1]) == Some(unit)
    && ParseU64(input[..|input| - 1]) == Some(value)
  }

  /** Minutes, hours and days, from one second to thirty days, with or without a plus sign. */
  lemma DurationExactly(digits: string, unit: char)
    requires digits != "" && AllDigits(digits) && Number(digits) <= MAX_U64
    requires unit == 'm' || unit == 'h' || unit == 'd'
    ensures var seconds := Number(digits) * (if unit == 'm' then 60 else if unit == 'h' then 3600 else 86400);
            && ParseUnlockTtl(digits + [unit]) == ParseUnlockTtl("+" + digits + [unit])
            && ParseUnlockTtl(digits + [unit]) ==
               if seconds == 0 then TooShort else if seconds > 2592000 then TooLong else Seconds(seconds)
  {
    var input, signed := digits + [unit], "+" + digits + [unit];
    assert input[|input| - 1] == unit && input[..|input| - 1] == digits;
    assert signed[|signed| - 1] == unit && signed[..|signed| - 1] == "+" + digits;
    assert ("+" + digits)[1..] == digits;
    assert digits[0] != '+' by {
      assert IsDigit(digits[0]);
    }
  }

  /** No digits, or an unknown unit, are malformed. */
  lemma MalformedExactly(digits: string, unit: char)
    requires IsAscii(unit) && AllDigits(digits)
    requires digits == "" || (unit != 'm' && unit != 'h' && unit != 'd')
    ensures ParseUnlockTtl(digits + [unit]) == Malformed
  {
    var input := digits + [unit];
    assert input[|input| - 1] == unit && input[..|input| - 1] == digits;
  }

  /**
   * A grant is accepted exactly for a number and a unit that make 1 second to 30 days; saturation plays no part.
   * A last character outside ASCII is not refused but panics.
   */
  lemma AcceptedExactly(input: string, seconds: nat)
    ensures ParseUnlockTtl(input) == Seconds(seconds) <==>
              && 0 < seconds <= MAX_TTL
              && exists value: nat, unit: nat :: Spells(input, value, unit) && value * unit == seconds
    ensures ParseUnlockTtl(input) == Panic <==> input != "" && !IsAscii(input[|input| - 1])
  {
    if value: nat, unit: nat :| Spells(input, value, unit) && value * unit == seconds {
      if 0 < seconds <= MAX_TTL {
        assert |input| >= 2 by {
          assert input[..|input| - 1] != "";
        }
      }
    }
    if ParseUnlockTtl(input) == Seconds(seconds) {
      var value := ParseU64(input[..|input| - 1]).value;
      var unit := UnitSeconds(input[|input| - 1]).value;
      assert Spells(input, value, unit) && value * unit == seconds;
    }
  }
}
