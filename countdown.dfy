/**
 * The countdown to the release instant: the remaining time split into whole
 * days, hours, minutes and seconds, shown as zero-padded text in four slots.
 */
module Countdown {
  import opened Decimal

  /** Milliseconds per second, minute (60 s), hour (60 min) and day (24 h). */
  const MsPerSecond: nat := 1000
  const MsPerMinute: nat := 60000
  const MsPerHour: nat := 3600000
  const MsPerDay: nat := 86400000

  /** 2025-09-25T00:00:00Z in milliseconds since the Unix epoch. */
  const ReleaseDate: int := 1758758400000

  datatype Remaining = Remaining(days: nat, hours: nat, minutes: nat, seconds: nat)

  /** The whole milliseconds a decomposition stands for. */
  function TotalMs(r: Remaining): nat {
    r.days * MsPerDay + r.hours * MsPerHour + r.minutes * MsPerMinute + r.seconds * MsPerSecond
  }

  /** Hours, minutes and seconds are each below the next unit. */
  predicate InRange(r: Remaining) {
    r.hours < 24 && r.minutes < 60 && r.seconds < 60
  }

  /**
   * The split of a non-negative distance into units by floor division and
   * remainder; the sub-second rest is dropped.
   */
  function Split(distance: nat): (r: Remaining)
    ensures InRange(r)
    ensures TotalMs(r) <= distance < TotalMs(r) + MsPerSecond
  {
    UnitSteps(distance);
    Remaining(
      distance / MsPerDay,
      (distance % MsPerDay) / MsPerHour,
      (distance % MsPerHour) / MsPerMinute,
      (distance % MsPerMinute) / MsPerSecond)
  }

  /**
   * Each remainder taken by a larger unit leaves the remainder by the next
   * smaller unit as it was, because every unit is a whole multiple of the next.
   */
  lemma UnitSteps(x: nat)
    ensures x == (x / MsPerDay) * MsPerDay + x % MsPerDay
    ensures x % MsPerDay == ((x % MsPerDay) / MsPerHour) * MsPerHour + x % MsPerHour
    ensures x % MsPerHour == ((x % MsPerHour) / MsPerMinute) * MsPerMinute + x % MsPerMinute
    ensures x % MsPerMinute == ((x % MsPerMinute) / MsPerSecond) * MsPerSecond + x % MsPerSecond
    ensures (x % MsPerDay) / MsPerHour < 24
    ensures (x % MsPerHour) / MsPerMinute < 60
    ensures (x % MsPerMinute) / MsPerSecond < 60
  {
    ModOfMultiple(x, 24, MsPerHour);
    ModOfMultiple(x, 60, MsPerMinute);
    ModOfMultiple(x, 60, MsPerSecond);
  }

  /** (x % (k * m)) % m == x % m, with x % (k * m) split by m into fewer than k whole parts. */
  lemma ModOfMultiple(x: nat, k: nat, m: nat)
    requires k > 0 && m > 0
    ensures (x % (k * m)) % m == x % m
    ensures (x % (k * m)) / m < k
    ensures x % (k * m) == ((x % (k * m)) / m) * m + (x % (k * m)) % m
  {
    var q, r := x / (k * m), x % (k * m);
    assert x == q * (k * m) + r;
    var q2, r2 := r / m, r % m;
    assert r == q2 * m + r2 && 0 <= r2 < m;
    assert x == (q * k + q2) * m + r2 by {
      assert q * (k * m) == (q * k) * m;
      assert (q * k) * m + q2 * m == (q * k + q2) * m;
    }
    DivModUnique(x, m, q * k + q2, r2);
    if q2 >= k {
      assert q2 * m >= k * m by { MulMono(k, q2, m); }
      assert false;
    }
  }

  lemma DivModUnique(x: int, m: int, q: int, r: int)
    requires m > 0 && 0 <= r < m && x == q * m + r
    ensures x / m == q && x % m == r
  {
    var q0, r0 := x / m, x % m;
    assert x == q0 * m + r0 && 0 <= r0 < m;
    if q0 < q {
      assert (q - q0) * m == r0 - r;
      MulMono(1, q - q0, m);
      assert false;
    } else if q < q0 {
      assert (q0 - q) * m == r - r0;
      MulMono(1, q0 - q, m);
      assert false;
    }
  }

  lemma MulMono(a: int, b: int, m: int)
    requires 0 <= a <= b && m >= 0
    ensures a * m <= b * m
  {
  }

  /** The bounds and the reconstruction determine the split: no other decomposition has them. */
  lemma SplitUnique(distance: nat, r: Remaining)
    requires InRange(r)
    requires TotalMs(r) <= distance < TotalMs(r) + MsPerSecond
    ensures r == Split(distance)
  {
    var s := Split(distance);
    var rest := r.hours * MsPerHour + r.minutes * MsPerMinute + r.seconds * MsPerSecond;
    assert rest + 999 < MsPerDay;
    assert r.days == s.days;
    assert r.hours == s.hours;
    assert r.minutes == s.minutes;
  }

  lemma SplitExample()
    ensures Split(90061000) == Remaining(1, 1, 1, 1)
  {
  }

  /** `n.toString().padStart(2, '0')`. */
  function Pad2(n: nat): (r: string)
    ensures |r| >= 2 && (r[0] == '0' <==> n < 10)
  {
    ToDecimalShape(n);
    PadStart(ToDecimal(n), 2, '0')
  }

  /**
   * Below 10 one '0' is put in front; from 10 on the number is printed as it
   * is, so three-digit day counts are not cut. The text always reads back as n.
   */
  lemma Pad2Shape(n: nat)
    ensures Pad2(n) == if n < 10 then ['0'] + ToDecimal(n) else ToDecimal(n)
    ensures |Pad2(n)| == if NumDigits(n) < 2 then 2 else NumDigits(n)
    ensures AllDigits(Pad2(n)) && ParseDecimal(Pad2(n)) == n
    ensures |Pad2(n)| >= 2 && (n < 100 ==> |Pad2(n)| == 2)
  {
    var t := ToDecimal(n);
    ToDecimalShape(n);
    ParseToDecimal(n);
    if n < 10 {
      assert Pad2(n) == Repeat('0', 1) + t;
      ParseLeadingZeros(1, t);
    } else {
      assert Pad2(n) == t;
      if n < 100 {
        assert NumDigits(n / 10) == 1;
      }
    }
  }

  /** The four texts the display slots hold. */
  datatype Slots = Slots(days: string, hours: string, minutes: string, seconds: string)

  const AllZero: Slots := Slots("00", "00", "00", "00")

  /** The padded texts of a decomposition. */
  function SlotsOf(r: Remaining): Slots {
    Slots(Pad2(r.days), Pad2(r.hours), Pad2(r.minutes), Pad2(r.seconds))
  }

  /** What one tick writes for the given distance to the release instant. */
  function SlotsFor(distance: int): (s: Slots)
    ensures distance <= 0 ==> s == AllZero
  {
    ZeroDistance();
    if distance < 0 then AllZero else SlotsOf(Split(distance))
  }

  /** At distance zero the split is all zeros, and so are its padded texts. */
  lemma ZeroDistance()
    ensures Split(0) == Remaining(0, 0, 0, 0)
    ensures SlotsOf(Remaining(0, 0, 0, 0)) == AllZero
  {
    assert ToDecimal(0) == "0";
    assert Pad2(0) == "00";
  }

  /** Once the release instant is reached or passed, every tick shows "00" in all four slots. */
  lemma ReleasedPinned(now: int)
    requires now >= ReleaseDate
    ensures SlotsFor(ReleaseDate - now) == AllZero
  {
  }

  /**
   * Each slot reads back as its component; for components in range (as the
   * split's are before release) hours, minutes and seconds are exactly two
   * characters long and days at least two.
   */
  lemma SlotsReadBack(r: Remaining)
    requires InRange(r)
    ensures var s := SlotsOf(r);
      && AllDigits(s.days) && ParseDecimal(s.days) == r.days
      && AllDigits(s.hours) && ParseDecimal(s.hours) == r.hours
      && AllDigits(s.minutes) && ParseDecimal(s.minutes) == r.minutes
      && AllDigits(s.seconds) && ParseDecimal(s.seconds) == r.seconds
      && |s.hours| == 2 && |s.minutes| == 2 && |s.seconds| == 2 && |s.days| >= 2
  {
    Pad2Shape(r.days);
    Pad2Shape(r.hours);
    Pad2Shape(r.minutes);
    Pad2Shape(r.seconds);
  }

  /** One day, one hour, one minute and one second before release the slots read "01" each. */
  lemma SlotsExample()
    ensures SlotsFor(90061000) == Slots("01", "01", "01", "01")
  {
    SplitExample();
  }

  /** The four countdown slots of the page, each holding its text content. */
  class CountdownDisplay {
    var days: string
    var hours: string
    var minutes: string
    var seconds: string

    function Shown(): Slots
      reads this
    {
      Slots(days, hours, minutes, seconds)
    }

    /** The slots as the page's markup first fills them. */
    constructor (initial: Slots)
      ensures Shown() == initial
    {
      days, hours, minutes, seconds := initial.days, initial.hours, initial.minutes, initial.seconds;
    }

    /** One tick at wall-clock instant `now` (milliseconds since the epoch). */
    method UpdateCountdown(now: int)
      modifies this
      ensures Shown() == SlotsFor(ReleaseDate - now)
    {
      var distance := ReleaseDate - now;
      if distance < 0 {
        days := "00";
        hours := "00";
        minutes := "00";
        seconds := "00";
      } else {
        var r := Split(distance);
        assert SlotsFor(distance) == SlotsOf(r);
        days := Pad2(r.days);
        hours := Pad2(r.hours);
        minutes := Pad2(r.minutes);
        seconds := Pad2(r.seconds);
      }
    }
  }
}
