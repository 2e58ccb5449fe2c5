/** java.time values at whole-second precision. A LocalDate is a day number
    (calendar fields are not modelled); LocalDate.toString/parse are identities
    on it. */
module Times {
  import opened Wrappers
  import opened Text

  type LocalDate = int
  type Hour = h: nat | h < 24
  type Sixty = n: nat | n < 60

  /** java.time.LocalTime without nanoseconds. */
  datatype LocalTime = LocalTime(hour: Hour, minute: Sixty, second: Sixty) {
    function SecondOfDay(): (r: nat)
      ensures r < 86400
    {
      hour * 3600 + minute * 60 + second
    }
  }

  /** java.time.LocalDateTime: a date and a time of day. */
  datatype LocalDateTime = LocalDateTime(date: LocalDate, time: LocalTime) {
    /** Seconds since day 0 at midnight: the order LocalDateTime.compareTo uses. */
    function EpochSecond(): int {
      date * 86400 + time.SecondOfDay()
    }
  }

  predicate IsBefore(a: LocalDateTime, b: LocalDateTime) {
    a.EpochSecond() < b.EpochSecond()
  }

  predicate NotAfter(a: LocalDateTime, b: LocalDateTime) {
    a.EpochSecond() <= b.EpochSecond()
  }

  /** SQL `t BETWEEN lo AND hi`: both ends included. */
  predicate Between(t: LocalDateTime, lo: LocalDateTime, hi: LocalDateTime) {
    NotAfter(lo, t) && NotAfter(t, hi)
  }

  /** LocalDate.atStartOfDay(). */
  function StartOfDay(d: LocalDate): LocalDateTime {
    LocalDateTime(d, LocalTime(0, 0, 0))
  }

  /** LocalDate.atTime(LocalTime.MAX), at whole-second precision. */
  function EndOfDay(d: LocalDate): LocalDateTime {
    LocalDateTime(d, LocalTime(23, 59, 59))
  }

  /** The inclusive day window [d 00:00, d at LocalTime.MAX] holds exactly the
      date-times whose date is d. */
  lemma InDayWindowIff(t: LocalDateTime, d: LocalDate)
    ensures Between(t, StartOfDay(d), EndOfDay(d)) <==> t.date == d
  {
    var sod := t.time.SecondOfDay();
    assert t.EpochSecond() == t.date * 86400 + sod;
    if t.date < d {
      assert t.date * 86400 <= d * 86400 - 86400;
    } else if t.date > d {
      assert t.date * 86400 >= d * 86400 + 86400;
    }
  }

  /** LocalDateTime.plusHours(1): the instant one hour (3600 s) later. */
  function PlusOneHour(t: LocalDateTime): (r: LocalDateTime)
    ensures r.EpochSecond() == t.EpochSecond() + 3600
    ensures r.time.minute == t.time.minute && r.time.second == t.time.second
  {
    if t.time.hour < 23 then LocalDateTime(t.date, t.time.(hour := t.time.hour + 1))
    else LocalDateTime(t.date + 1, t.time.(hour := 0))
  }

  function Digit(d: nat): (c: char)
    requires d < 10
    ensures IsDigit(c)
  {
    ('0' as int + d) as char
  }

  /** A number below 100 with two digits, zero-padded. */
  function TwoDigits(n: nat): (r: string)
    requires n < 100
    ensures |r| == 2 && AllDigits(r)
  {
    [Digit(n / 10), Digit(n % 10)]
  }

  /** LocalTime.toString() at whole-second precision: "HH:mm" when the seconds
      are zero, "HH:mm:ss" otherwise. */
  function Label(t: LocalTime): (r: string)
    ensures |r| == if t.second == 0 then 5 else 8
    ensures r[..2] == TwoDigits(t.hour) && r[2] == ':' && r[3..5] == TwoDigits(t.minute)
    ensures t.second != 0 ==> r[5] == ':' && r[6..] == TwoDigits(t.second)
  {
    TwoDigits(t.hour) + ":" + TwoDigits(t.minute) + if t.second == 0 then "" else ":" + TwoDigits(t.second)
  }

  lemma TwoDigitsInjective(a: nat, b: nat)
    requires a < 100 && b < 100 && TwoDigits(a) == TwoDigits(b)
    ensures a == b
  {
    assert TwoDigits(a)[0] == TwoDigits(b)[0] && TwoDigits(a)[1] == TwoDigits(b)[1];
    assert a / 10 == b / 10 && a % 10 == b % 10;
  }

  /** Two time-of-day labels are equal only for equal times. */
  lemma LabelInjective(t: LocalTime, u: LocalTime)
    requires Label(t) == Label(u)
    ensures t == u
  {
    TwoDigitsInjective(t.hour, u.hour);
    TwoDigitsInjective(t.minute, u.minute);
    if t.second != 0 {
      assert Label(t)[6..] == Label(u)[6..];
      TwoDigitsInjective(t.second, u.second);
    }
  }

  /** `Label(u).startsWith(Label(t))` holds for the same hour and minute when t
      has no seconds, and only for u == t otherwise. */
  lemma LabelStartsWithIff(t: LocalTime, u: LocalTime)
    ensures StartsWith(Label(u), Label(t)) <==>
      t.hour == u.hour && t.minute == u.minute && (t.second == 0 || t.second == u.second)
  {
    var lt, lu := Label(t), Label(u);
    if StartsWith(lu, lt) {
      assert lu[..2] == lt[..2] && lu[3..5] == lt[3..5];
      TwoDigitsInjective(t.hour, u.hour);
      TwoDigitsInjective(t.minute, u.minute);
      if t.second != 0 {
        assert lu[6..8] == lt[6..8];
        TwoDigitsInjective(t.second, u.second);
      }
    }
    if t.hour == u.hour && t.minute == u.minute && (t.second == 0 || t.second == u.second) {
      assert lu[..|lt|] == lt;
    }
  }

  /** The digits of a label before its first ':' parse back to the hour. */
  lemma LabelHourParses(t: LocalTime)
    ensures SplitColonFirst(Label(t)) == Returns(TwoDigits(t.hour))
    ensures ParseInt(TwoDigits(t.hour)) == Returns(t.hour)
  {
    var l := Label(t);
    assert l[0] != ':';
    assert BeforeColon(l[2..]) == [];
    assert BeforeColon(l[1..]) == [l[1]] + BeforeColon(l[2..]);
    assert BeforeColon(l) == [l[0], l[1]];
    var h := TwoDigits(t.hour);
    assert h[..1] == [h[0]];
    assert DigitsValue(h[..1]) == 10 * DigitsValue([]) + (h[0] as int - '0' as int);
  }
}
