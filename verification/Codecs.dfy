/** Keys that must not collide, and the retry backoff. */
module Codecs {

  // --- Job ids ------------------------------------------------------------------------------

  /** `replaceAll` with a pattern of one character. */
  function ReplaceEach(s: string, c: char, with: string): string {
    if s == "" then "" else (if s[0] == c then with else [s[0]]) + ReplaceEach(s[1..], c, with)
  }

  function ToJobId(dedupeKey: string): string {
    ReplaceEach(ReplaceEach(dedupeKey, '%', "%25"), ':', "%3A")
  }

  /** Reads the two escapes back. */
  function FromJobId(id: string): string
    decreases |id|
  {
    if id == "" then ""
    else if |id| >= 3 && id[..3] == "%25" then "%" + FromJobId(id[3..])
    else if |id| >= 3 && id[..3] == "%3A" then ":" + FromJobId(id[3..])
    else [id[0]] + FromJobId(id[1..])
  }

  lemma {:induction false} ReplaceEachAppend(a: string, b: string, c: char, with: string)
    ensures ReplaceEach(a + b, c, with) == ReplaceEach(a, c, with) + ReplaceEach(b, c, with)
    decreases |a|
  {
    if a == "" {
      assert a + b == b;
    } else {
      assert (a + b)[1..] == a[1..] + b;
      ReplaceEachAppend(a[1..], b, c, with);
    }
  }

  lemma ReplaceInEscape()
    ensures ReplaceEach("%25", ':', "%3A") == "%25"
  {
    assert "%25"[1..] == "25" && "25"[1..] == "5" && "5"[1..] == "";
    assert ReplaceEach("5", ':', "%3A") == "5";
    assert ReplaceEach("25", ':', "%3A") == "25";
  }

  /** What the two passes make of one more character. */
  lemma ToJobIdUnfolds(k: string)
    requires k != ""
    ensures ToJobId(k) == (if k[0] == '%' then "%25" else if k[0] == ':' then "%3A" else [k[0]]) + ToJobId(k[1..])
  {
    var head := if k[0] == '%' then "%25" else [k[0]];
    ReplaceEachAppend(head, ReplaceEach(k[1..], '%', "%25"), ':', "%3A");
    ReplaceInEscape();
    if k[0] != '%' {
      assert head[1..] == "";
    }
  }

  /** The id BullMQ is given holds no colon and determines the dedupe key. */
  lemma {:induction false} JobIdRoundTrip(k: string)
    ensures ':' !in ToJobId(k)
    ensures FromJobId(ToJobId(k)) == k
    decreases |k|
  {
    if k == "" {
    } else {
      ToJobIdUnfolds(k);
      JobIdRoundTrip(k[1..]);
      var id, rest := ToJobId(k), ToJobId(k[1..]);
      if k[0] == '%' || k[0] == ':' {
        assert id[3..] == rest;
      } else {
        assert id[1..] == rest;
      }
      assert k == [k[0]] + k[1..];
    }
  }

  lemma JobIdsAreInjective(a: string, b: string)
    ensures ToJobId(a) == ToJobId(b) <==> a == b
  {
    JobIdRoundTrip(a);
    JobIdRoundTrip(b);
  }

  /** A key that needs no escaping is its own id. */
  lemma {:induction false} PlainKeysAreKept(k: string)
    requires '%' !in k && ':' !in k
    ensures ToJobId(k) == k
    decreases |k|
  {
    if k == "" {
    } else {
      ToJobIdUnfolds(k);
      PlainKeysAreKept(k[1..]);
      assert k == [k[0]] + k[1..];
    }
  }

  // --- Tick keys ----------------------------------------------------------------------------

  /** An instant as `toISOString` reads it: calendar fields in UTC, years 0 to 9999. */
  datatype Fields = Fields(year: nat, month: nat, day: nat, hour: nat, minute: nat, second: nat, milli: nat)

  predicate InRange(f: Fields) {
    f.year < 10000 && f.month < 100 && f.day < 100 && f.hour < 100 && f.minute < 100 && f.second < 100 && f.milli < 1000
  }

  type Instant = f: Fields | InRange(f) witness Fields(1970, 1, 1, 0, 0, 0, 0)

  function Pow10(w: nat): nat { if w == 0 then 1 else 10 * Pow10(w - 1) }

  function Digit(n: nat): char
    requires n < 10
  {
    '0' + n as char
  }

  function Digits(n: nat, width: nat): (s: string)
    ensures |s| == width
  {
    if width == 0 then "" else Digits(n / 10, width - 1) + [Digit(n % 10)]
  }

  function DatePart(t: Instant): (s: string)
    ensures |s| == 10
  {
    Digits(t.year, 4) + "-" + Digits(t.month, 2) + "-" + Digits(t.day, 2)
  }

  function TimePart(t: Instant): (s: string)
    ensures |s| == 12
  {
    Digits(t.hour, 2) + ":" + Digits(t.minute, 2) + ":" + Digits(t.second, 2) + "." + Digits(t.milli, 3)
  }

  /** An instant as a key holds it. */
  type Stamp = s: string | |s| == 24 witness "1970-01-01T00:00:00.000Z"

  /** `toISOString`. */
  function Iso(t: Instant): Stamp {
    DatePart(t) + "T" + TimePart(t) + "Z"
  }

  /** Reads a decimal. */
  function ReadDigits(s: string): int {
    if s == "" then 0 else 10 * ReadDigits(s[..|s| - 1]) + (s[|s| - 1] as int - '0' as int)
  }

  lemma {:induction false} DigitsReadBack(n: nat, width: nat)
    requires n < Pow10(width)
    ensures ReadDigits(Digits(n, width)) == n
    decreases width
  {
    if width == 0 {
    } else {
      var s := Digits(n, width);
      assert s[..width - 1] == Digits(n / 10, width - 1) && s[width - 1] == Digit(n % 10);
      DigitsReadBack(n / 10, width - 1);
    }
  }

  lemma PowersOfTen()
    ensures Pow10(2) == 100 && Pow10(3) == 1000 && Pow10(4) == 10000
  {
    assert Pow10(1) == 10;
  }

  /** Year, month and day, then hour, minute, second and millisecond, at their places. */
  lemma DateReadsBack(t: Instant)
    ensures var s := DatePart(t);
      && ReadDigits(s[..4]) == t.year && s[4] == '-' && ReadDigits(s[5..7]) == t.month && s[7] == '-'
      && ReadDigits(s[8..]) == t.day
  {
    PowersOfTen();
    var s := DatePart(t);
    assert s[..4] == Digits(t.year, 4) && s[5..7] == Digits(t.month, 2) && s[8..] == Digits(t.day, 2);
    DigitsReadBack(t.year, 4);
    DigitsReadBack(t.month, 2);
    DigitsReadBack(t.day, 2);
  }

  lemma TimeParts(hour: string, minute: string, second: string, milli: string)
    requires |hour| == |minute| == |second| == 2 && |milli| == 3
    ensures var s := hour + ":" + minute + ":" + second + "." + milli;
      && s[..2] == hour && s[2] == ':' && s[3..5] == minute && s[5] == ':'
      && s[6..8] == second && s[8] == '.' && s[9..] == milli
  {
  }

  lemma TimeReadsBack(t: Instant)
    ensures var s := TimePart(t);
      && ReadDigits(s[..2]) == t.hour && s[2] == ':' && ReadDigits(s[3..5]) == t.minute && s[5] == ':'
      && ReadDigits(s[6..8]) == t.second && s[8] == '.' && ReadDigits(s[9..]) == t.milli
  {
    PowersOfTen();
    DigitsReadBack(t.hour, 2);
    DigitsReadBack(t.minute, 2);
    DigitsReadBack(t.second, 2);
    DigitsReadBack(t.milli, 3);
    TimeParts(Digits(t.hour, 2), Digits(t.minute, 2), Digits(t.second, 2), Digits(t.milli, 3));
  }

  /** The text of an instant reads back to it, field by field. */
  lemma IsoReadsBack(t: Instant)
    ensures var s := Iso(t);
      && ReadDigits(s[..4]) == t.year && s[4] == '-' && ReadDigits(s[5..7]) == t.month && s[7] == '-'
      && ReadDigits(s[8..10]) == t.day && s[10] == 'T' && ReadDigits(s[11..13]) == t.hour && s[13] == ':'
      && ReadDigits(s[14..16]) == t.minute && s[16] == ':' && ReadDigits(s[17..19]) == t.second && s[19] == '.'
      && ReadDigits(s[20..23]) == t.milli && s[23] == 'Z'
  {
    var s, date, time := Iso(t), DatePart(t), TimePart(t);
    DateReadsBack(t);
    TimeReadsBack(t);
    assert s[..4] == date[..4] && s[5..7] == date[5..7] && s[8..10] == date[8..];
    assert s[11..13] == time[..2] && s[14..16] == time[3..5] && s[17..19] == time[6..8] && s[20..23] == time[9..];
  }

  lemma IsoInjective(t: Instant, u: Instant)
    requires Iso(t) == Iso(u)
    ensures t == u
  {
    IsoReadsBack(t);
    IsoReadsBack(u);
  }

  function JobKeyFor(schedule: string, firedFor: Stamp): string {
    schedule + ":" + firedFor
  }

  function ManualKeyFor(schedule: string, firedFor: Stamp): string {
    JobKeyFor(schedule + ":manual", firedFor)
  }

  lemma KeySplits(a: string, t: Stamp, b: string, u: Stamp)
    ensures JobKeyFor(a, t) == JobKeyFor(b, u) <==> a == b && t == u
  {
    var x, y := JobKeyFor(a, t), JobKeyFor(b, u);
    if x == y {
      assert x[|x| - 24..] == t && y[|y| - 24..] == u;
      assert x[..|x| - 25] == a && y[..|y| - 25] == b;
    }
  }

  /** The instant is the last 24 characters, so a key names one schedule and one instant. */
  lemma JobKeysAreInjective(a: string, t: Instant, b: string, u: Instant)
    ensures JobKeyFor(a, Iso(t)) == JobKeyFor(b, Iso(u)) <==> a == b && t == u
    ensures var key := JobKeyFor(a, Iso(t));
      && |key| == |a| + 25 && key[..|a|] == a && key[|a|] == ':' && key[|a| + 1..] == Iso(t)
  {
    KeySplits(a, Iso(t), b, Iso(u));
    if Iso(t) == Iso(u) { IsoInjective(t, u); }
  }

  /** A manual run can only collide with a tick of a schedule whose own key ends in `:manual`. */
  lemma ManualKeysAreApart(a: string, t: Stamp, b: string, u: Stamp)
    ensures ManualKeyFor(a, t) == JobKeyFor(b, u) <==> b == a + ":manual" && t == u
    ensures ManualKeyFor(a, t) == ManualKeyFor(b, u) <==> a == b && t == u
  {
    KeySplits(a + ":manual", t, b, u);
    KeySplits(a + ":manual", t, b + ":manual", u);
    if a + ":manual" == b + ":manual" {
      assert a == (a + ":manual")[..|a|] && b == (b + ":manual")[..|b|];
    }
  }

  // --- Retry backoff ------------------------------------------------------------------------

  function Pow2(n: nat): nat { if n == 0 then 1 else 2 * Pow2(n - 1) }

  function Base(attempt: nat): nat
    requires attempt >= 1
  {
    if 1000 * Pow2(attempt - 1) < 300_000 then 1000 * Pow2(attempt - 1) else 300_000
  }

  /** `Math.round` rounds a half up. */
  function Jittered(base: nat, factor: real): int {
    (base as real * factor + 0.5).Floor
  }

  /** `draw` is what `Math.random()` returned. */
  function RetryDelayMs(attempt: nat, draw: real): int
    requires attempt >= 1 && 0.0 <= draw < 1.0
  {
    Jittered(Base(attempt), 1.0 + 0.2 * (draw * 2.0 - 1.0))
  }

  /** The waits before jitter: one second, doubled up to five minutes. */
  lemma MiddleDelays(attempt: nat)
    requires attempt >= 1
    ensures RetryDelayMs(attempt, 0.5) ==
      if attempt <= 9 then [1000, 2000, 4000, 8000, 16_000, 32_000, 64_000, 128_000, 256_000][attempt - 1] else 300_000
  {
    assert Pow2(1) == 2 && Pow2(2) == 4 && Pow2(3) == 8 && Pow2(4) == 16;
    assert Pow2(5) == 32 && Pow2(6) == 64 && Pow2(7) == 128 && Pow2(8) == 256;
    if attempt > 9 { PowGrows(attempt - 1); }
    assert Base(attempt) as real * 1.0 == Base(attempt) as real;
  }

  lemma {:induction false} PowGrows(n: nat)
    requires n >= 9
    ensures Pow2(n) >= 512
    decreases n
  {
    if n == 9 {
      assert Pow2(3) == 8 && Pow2(6) == 64;
    } else {
      PowGrows(n - 1);
    }
  }

  /** A draw moves the wait evenly from a fifth below to a fifth above, rounded to a millisecond. */
  lemma JitterIsEven(attempt: nat, draw: real)
    requires attempt >= 1 && 0.0 <= draw < 1.0
    ensures var exact := RetryDelayMs(attempt, 0.5) as real * (0.8 + 0.4 * draw);
      exact - 0.5 < RetryDelayMs(attempt, draw) as real <= exact + 0.5
  {
    var base := Base(attempt);
    assert base as real * 1.0 == base as real && RetryDelayMs(attempt, 0.5) == base;
    assert 1.0 + 0.2 * (draw * 2.0 - 1.0) == 0.8 + 0.4 * draw;
  }

  lemma RoundedProduct(n: nat, factor: real)
    requires 0.8 <= factor <= 1.2
    ensures 4 * n <= 5 * Jittered(n, factor) + 4 && 5 * Jittered(n, factor) <= 6 * n + 2
  {
    var b := n as real;
    var x := b * factor;
    var low, high := b * (factor - 0.8), b * (1.2 - factor);
    assert low >= 0.0 && high >= 0.0;
    assert x == 0.8 * b + low && x == 1.2 * b - high;
    var d := (x + 0.5).Floor;
    assert (4 * n) as real == 4.0 * b && (6 * n) as real == 6.0 * b && (5 * d) as real == 5.0 * d as real;
  }

  /** The jitter keeps a delay within a fifth of its base. */
  lemma JitterIsAFifth(attempt: nat, draw: real)
    requires attempt >= 1 && 0.0 <= draw < 1.0
    ensures 4 * Base(attempt) <= 5 * RetryDelayMs(attempt, draw) + 4
    ensures 5 * RetryDelayMs(attempt, draw) <= 6 * Base(attempt) + 2
  {
    RoundedProduct(Base(attempt), 1.0 + 0.2 * (draw * 2.0 - 1.0));
  }

  lemma {:induction false} BaseIsMultipleOf1000(attempt: nat)
    requires attempt >= 1
    ensures Base(attempt) % 1000 == 0 && 1000 <= Base(attempt) <= 300_000
    decreases attempt
  {
    if attempt > 1 {
      BaseIsMultipleOf1000(attempt - 1);
      assert Pow2(attempt - 1) == 2 * Pow2(attempt - 2);
    }
  }

  lemma DelayIsBounded(attempt: nat, draw: real)
    requires attempt >= 1 && 0.0 <= draw < 1.0
    ensures 800 <= RetryDelayMs(attempt, draw) <= 360_000
  {
    JitterIsAFifth(attempt, draw);
    BaseIsMultipleOf1000(attempt);
  }

  lemma BaseDoubles(attempt: nat)
    requires 1 <= attempt < 9
    ensures Base(attempt + 1) == 2 * Base(attempt)
  {
    assert Pow2(1) == 2 && Pow2(2) == 4 && Pow2(3) == 8 && Pow2(4) == 16;
    assert Pow2(5) == 32 && Pow2(6) == 64 && Pow2(7) == 128 && Pow2(8) == 256;
  }

  lemma NextDelayIsLonger(attempt: nat, draw: real, draw': real)
    requires 1 <= attempt < 9 && 0.0 <= draw < 1.0 && 0.0 <= draw' < 1.0
    ensures RetryDelayMs(attempt, draw) < RetryDelayMs(attempt + 1, draw')
  {
    JitterIsAFifth(attempt, draw);
    JitterIsAFifth(attempt + 1, draw');
    BaseDoubles(attempt);
    BaseIsMultipleOf1000(attempt);
  }

  /** Through the ninth attempt no jitter can make a later wait shorter than an earlier one. */
  lemma {:induction false} DelayGrows(attempt: nat, later: nat, draw: real, draw': real)
    requires 1 <= attempt < later <= 9 && 0.0 <= draw < 1.0 && 0.0 <= draw' < 1.0
    ensures RetryDelayMs(attempt, draw) < RetryDelayMs(later, draw')
    decreases later
  {
    if attempt + 1 < later {
      DelayGrows(attempt, later - 1, draw, 0.5);
      NextDelayIsLonger(later - 1, 0.5, draw');
    } else {
      NextDelayIsLonger(attempt, draw, draw');
    }
  }
}
