/**
 * Calendar timestamps as the pipeline writes them: `datetime.now()` rendered
 * with the format "%Y-%m-%d %H:%M:%S", compared chronologically, and turned
 * into Unix epoch seconds by the fact transforms.
 */
module Timestamps {
  import opened Wrappers

  /** A wall-clock time with one-second resolution (no time zone). */
  datatype DateTime = DateTime(year: nat, month: nat, day: nat, hour: nat, minute: nat, second: nat)
  {
    /** The ranges Python's `datetime` enforces (days are bounded by 31, not per month). */
    predicate Valid() {
      1 <= year <= 9999 && 1 <= month <= 12 && 1 <= day <= 31 &&
      hour < 24 && minute < 60 && second < 60
    }
  }

  /** The "beginning of time" used when no load has been recorded: '1111-01-01'. */
  const Sentinel: DateTime := DateTime(1111, 1, 1, 0, 0, 0)

  /** Strict chronological order: field by field, most significant first. */
  predicate Before(a: DateTime, b: DateTime) {
    if a.year != b.year then a.year < b.year
    else if a.month != b.month then a.month < b.month
    else if a.day != b.day then a.day < b.day
    else if a.hour != b.hour then a.hour < b.hour
    else if a.minute != b.minute then a.minute < b.minute
    else a.second < b.second
  }

  /** The later of two times (SQL MAX over two values). */
  function Later(a: DateTime, b: DateTime): (r: DateTime)
    ensures r == a || r == b
    ensures !Before(r, a) && !Before(r, b)
  {
    if Before(a, b) then b else a
  }

  lemma BeforeTransitive(a: DateTime, b: DateTime, c: DateTime)
    requires Before(a, b) && Before(b, c)
    ensures Before(a, c)
  {
  }

  // ---------------------------------------------------------------------------
  // Rendering with strftime("%Y-%m-%d %H:%M:%S") and reading it back
  // ---------------------------------------------------------------------------

  function Pow10(n: nat): (r: nat)
    ensures r >= 1
  {
    if n == 0 then 1 else 10 * Pow10(n - 1)
  }

  predicate IsDigit(c: char) {
    '0' <= c <= '9'
  }

  predicate AllDigits(s: string) {
    forall i | 0 <= i < |s| :: IsDigit(s[i])
  }

  function DigitChar(d: nat): (c: char)
    requires d < 10
    ensures IsDigit(c)
  {
    (('0' as int) + d) as char
  }

  /** The last `w` decimal digits of `n`, zero-padded on the left. */
  function Digits(n: nat, w: nat): (s: string)
    ensures |s| == w
    ensures AllDigits(s)
  {
    if w == 0 then [] else Digits(n / 10, w - 1) + [DigitChar(n % 10)]
  }

  /** The number a string of decimal digits denotes. */
  function DigitsValue(s: string): nat
    requires AllDigits(s)
  {
    if s == [] then 0 else 10 * DigitsValue(s[..|s| - 1]) + ((s[|s| - 1] as int) - ('0' as int))
  }

  lemma {:induction false} DigitsRoundTrip(n: nat, w: nat)
    requires n < Pow10(w)
    ensures DigitsValue(Digits(n, w)) == n
  {
    if w > 0 {
      var s := Digits(n, w);
      assert s[..|s| - 1] == Digits(n / 10, w - 1);
      assert n / 10 < Pow10(w - 1) by {
        assert n < 10 * Pow10(w - 1);
      }
      DigitsRoundTrip(n / 10, w - 1);
    }
  }

  /** `strftime("%Y-%m-%d %H:%M:%S")` for a valid time. */
  function Stamp(t: DateTime): (s: string)
    ensures |s| == 19
  {
    Digits(t.year, 4) + "-" + Digits(t.month, 2) + "-" + Digits(t.day, 2) + " " +
    Digits(t.hour, 2) + ":" + Digits(t.minute, 2) + ":" + Digits(t.second, 2)
  }

  /** Reads a "YYYY-MM-DD HH:MM:SS" text back; anything else is None. */
  function ParseStamp(s: string): Option<DateTime> {
    if |s| == 19 && s[4] == '-' && s[7] == '-' && s[10] == ' ' && s[13] == ':' && s[16] == ':' &&
       AllDigits(s[0..4]) && AllDigits(s[5..7]) && AllDigits(s[8..10]) &&
       AllDigits(s[11..13]) && AllDigits(s[14..16]) && AllDigits(s[17..19])
    then Some(DateTime(DigitsValue(s[0..4]), DigitsValue(s[5..7]), DigitsValue(s[8..10]),
                       DigitsValue(s[11..13]), DigitsValue(s[14..16]), DigitsValue(s[17..19])))
    else None
  }

  /** The rendered stamp determines the time it was rendered from. */
  lemma StampRoundTrip(t: DateTime)
    requires t.Valid()
    ensures ParseStamp(Stamp(t)) == Some(t)
  {
    var s := Stamp(t);
    assert s[0..4] == Digits(t.year, 4);
    assert s[5..7] == Digits(t.month, 2);
    assert s[8..10] == Digits(t.day, 2);
    assert s[11..13] == Digits(t.hour, 2);
    assert s[14..16] == Digits(t.minute, 2);
    assert s[17..19] == Digits(t.second, 2);
    DigitsRoundTrip(t.year, 4);
    DigitsRoundTrip(t.month, 2);
    DigitsRoundTrip(t.day, 2);
    DigitsRoundTrip(t.hour, 2);
    DigitsRoundTrip(t.minute, 2);
    DigitsRoundTrip(t.second, 2);
  }

  /** Distinct valid times never share a stamp. */
  lemma StampInjective(a: DateTime, b: DateTime)
    requires a.Valid() && b.Valid() && Stamp(a) == Stamp(b)
    ensures a == b
  {
    StampRoundTrip(a);
    StampRoundTrip(b);
  }

  // ---------------------------------------------------------------------------
  // Epoch seconds, as `pd.to_datetime(col).astype(int) / 10**9` yields them
  // ---------------------------------------------------------------------------

  /** Days from 1970-01-01 to the given civil date (proleptic Gregorian calendar). */
  function DaysFromCivil(year: int, month: int, day: int): int {
    var y := if month <= 2 then year - 1 else year;
    var era := y / 400;
    var yoe := y - era * 400;
    var mp := if month > 2 then month - 3 else month + 9;
    var doy := (153 * mp + 2) / 5 + day - 1;
    var doe := yoe * 365 + yoe / 4 - yoe / 100 + doy;
    era * 146097 + doe - 719468
  }

  /** Seconds since 1970-01-01 00:00:00, reading the time as UTC. */
  function EpochSeconds(t: DateTime): int {
    DaysFromCivil(t.year, t.month, t.day) * 86400 + t.hour * 3600 + t.minute * 60 + t.second
  }
}
