/**
 * Time-to-live strings such as "15m", "7d" or "3600s", turned into an
 * absolute expiry instant (`addFromNow` in src/utils/jwt.utilities.ts).
 * Instants are milliseconds since the epoch; the clock reading `now` is a parameter.
 */
module Ttl {
  import opened Wrappers

  const SecondMs: nat := 1_000
  const MinuteMs: nat := 60_000
  const HourMs: nat := 3_600_000
  const DayMs: nat := 86_400_000
  /** The offset used for every string that is not of the form digits-then-unit. */
  const FallbackMs: nat := 7 * DayMs

  predicate IsDigit(c: char) { '0' <= c <= '9' }

  predicate IsUnit(c: char) { c == 's' || c == 'm' || c == 'h' || c == 'd' }

  predicate AllDigits(s: string) { forall i :: 0 <= i < |s| ==> IsDigit(s[i]) }

  /** The strings matched by the pattern `^(\d+)([smhd])$`. */
  predicate WellFormed(ttl: string) {
    |ttl| >= 2 && AllDigits(ttl[..|ttl| - 1]) && IsUnit(ttl[|ttl| - 1])
  }

  /** The two capture groups of a successful match. */
  datatype TtlMatch = TtlMatch(digits: string, unit: char)

  /** Executing the pattern `^(\d+)([smhd])$` on `ttl`. */
  function Exec(ttl: string): (m: Option<TtlMatch>)
    ensures m.Some? <==> WellFormed(ttl)
    ensures m.Some? ==> ttl == m.value.digits + [m.value.unit]
    ensures m.Some? ==> |m.value.digits| >= 1 && AllDigits(m.value.digits) && IsUnit(m.value.unit)
  {
    if WellFormed(ttl) then Some(TtlMatch(ttl[..|ttl| - 1], ttl[|ttl| - 1])) else None
  }

  function DigitValue(c: char): nat
    requires IsDigit(c)
  {
    (c as int) - ('0' as int)
  }

  /** `parseInt(digits, 10)` on a string of decimal digits, leading zeros allowed. */
  function DecimalValue(digits: string): nat
    requires AllDigits(digits)
  {
    if digits == [] then 0
    else DecimalValue(digits[..|digits| - 1]) * 10 + DigitValue(digits[|digits| - 1])
  }

  /** Milliseconds in one unit of each unit letter. */
  function UnitMs(unit: char): nat
    requires IsUnit(unit)
  {
    match unit
    case 's' => SecondMs
    case 'm' => MinuteMs
    case 'h' => HourMs
    case 'd' => DayMs
  }

  /** The offset `ms` that `addFromNow` adds to the clock. */
  function OffsetMs(ttl: string): nat
  {
    match Exec(ttl)
    case Some(m) =>
      var val := DecimalValue(m.digits);
      if m.unit == 's' then val * 1_000
      else if m.unit == 'm' then val * 60_000
      else if m.unit == 'h' then val * 3_600_000
      else val * 86_400_000
    case None => 7 * 86_400_000
  }

  /** `addFromNow(ttl)` evaluated when the clock reads `now`. */
  function AddFromNow(ttl: string, now: int): (expiry: int)
    ensures expiry >= now
    ensures !WellFormed(ttl) ==> expiry == now + FallbackMs
  {
    now + OffsetMs(ttl)
  }

  /** For a matching string the offset is the parsed number times the unit's length. */
  lemma MatchedOffset(ttl: string, now: int)
    requires WellFormed(ttl)
    ensures AddFromNow(ttl, now) == now + DecimalValue(ttl[..|ttl| - 1]) * UnitMs(ttl[|ttl| - 1])
  {
  }

  /** The canonical decimal numeral of `n`, without leading zeros. */
  function Decimal(n: nat): (s: string)
    ensures |s| >= 1 && AllDigits(s)
    decreases n
  {
    if n < 10 then [('0' as int + n) as char]
    else Decimal(n / 10) + [('0' as int + n % 10) as char]
  }

  /** Parsing the numeral of `n` gives back `n`. */
  lemma {:induction false} DecimalRoundTrip(n: nat)
    ensures DecimalValue(Decimal(n)) == n
    decreases n
  {
    if n >= 10 {
      var s := Decimal(n);
      assert s[..|s| - 1] == Decimal(n / 10);
      DecimalRoundTrip(n / 10);
    }
  }

  /** Leading zeros do not change the parsed value. */
  lemma {:induction false} LeadingZerosIgnored(zeros: string, digits: string)
    requires forall i :: 0 <= i < |zeros| ==> zeros[i] == '0'
    requires AllDigits(digits)
    ensures AllDigits(zeros + digits)
    ensures DecimalValue(zeros + digits) == DecimalValue(digits)
    decreases |digits| + |zeros|
  {
    var s := zeros + digits;
    if digits == [] {
      assert s == zeros;
      if zeros != [] {
        var init := zeros[..|zeros| - 1];
        assert init + [] == init;
        LeadingZerosIgnored(init, []);
        assert s[..|s| - 1] == init;
      }
    } else {
      assert s[..|s| - 1] == zeros + digits[..|digits| - 1];
      LeadingZerosIgnored(zeros, digits[..|digits| - 1]);
    }
  }

  /** For the numeral of `n` followed by a unit the offset is `n` times that unit. */
  lemma NumeralOffset(n: nat, unit: char, now: int)
    requires IsUnit(unit)
    ensures AddFromNow(Decimal(n) + [unit], now) == now + n * UnitMs(unit)
  {
    var ttl := Decimal(n) + [unit];
    assert ttl[..|ttl| - 1] == Decimal(n);
    DecimalRoundTrip(n);
  }

  /** A numeral written with leading zeros ("007d") means the same as without ("7d"). */
  lemma PaddedNumeralOffset(zeros: string, n: nat, unit: char, now: int)
    requires forall i :: 0 <= i < |zeros| ==> zeros[i] == '0'
    requires IsUnit(unit)
    ensures AddFromNow(zeros + Decimal(n) + [unit], now) == AddFromNow(Decimal(n) + [unit], now)
  {
    var ttl := zeros + Decimal(n) + [unit];
    LeadingZerosIgnored(zeros, Decimal(n));
    assert ttl[..|ttl| - 1] == zeros + Decimal(n);
    NumeralOffset(n, unit, now);
  }

  /** For a fixed unit a larger number never gives an earlier expiry. */
  lemma MonotoneInValue(m: nat, n: nat, unit: char, now: int)
    requires IsUnit(unit) && m <= n
    ensures AddFromNow(Decimal(m) + [unit], now) <= AddFromNow(Decimal(n) + [unit], now)
  {
    NumeralOffset(m, unit, now);
    NumeralOffset(n, unit, now);
    ScaleMonotone(m, n, UnitMs(unit));
  }

  lemma ScaleMonotone(m: nat, n: nat, k: nat)
    requires m <= n
    ensures m * k <= n * k
  {
    assert n * k == m * k + (n - m) * k;
  }

  /** The documented example "15m": fifteen minutes. */
  lemma FifteenMinutes(now: int)
    ensures AddFromNow("15m", now) == now + 900_000
  {
    assert Decimal(15) + ['m'] == "15m";
    NumeralOffset(15, 'm', now);
  }

  /** The documented example "7d": seven days, the same as the fallback. */
  lemma SevenDays(now: int)
    ensures AddFromNow("7d", now) == now + 604_800_000
  {
    assert Decimal(7) + ['d'] == "7d";
    NumeralOffset(7, 'd', now);
  }

  /** "3600s" is one hour; "900s" matches the pattern too and is fifteen minutes. */
  lemma SecondsExamples(now: int)
    ensures AddFromNow("3600s", now) == now + 3_600_000
    ensures AddFromNow("900s", now) == now + 900_000
  {
    assert Decimal(3600) + ['s'] == "3600s";
    NumeralOffset(3600, 's', now);
    assert Decimal(900) + ['s'] == "900s";
    NumeralOffset(900, 's', now);
  }

  /** "0s" expires at the instant it is computed. */
  lemma ZeroSeconds(now: int)
    ensures AddFromNow("0s", now) == now
  {
    assert Decimal(0) + ['s'] == "0s";
    NumeralOffset(0, 's', now);
  }

  /** Strings outside the pattern fall back to seven days. */
  lemma FallbackExamples(now: int)
    ensures AddFromNow("", now) == now + 604_800_000
    ensures AddFromNow("15", now) == now + 604_800_000
    ensures AddFromNow("1w", now) == now + 604_800_000
    ensures AddFromNow("-5m", now) == now + 604_800_000
    ensures AddFromNow("15 m", now) == now + 604_800_000
    ensures AddFromNow("bogus", now) == now + 604_800_000
  {
    assert !IsUnit("15"[1]);
    assert !IsUnit("1w"[1]);
    assert !IsDigit("-5m"[0]);
    assert !IsDigit("15 m"[2]);
    assert !IsDigit("bogus"[0]);
  }
}
