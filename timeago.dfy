/**
 * forum/templatetags/timeago.py: `naturaltime`, which describes an instant
 * relative to now, in English (the untranslated message ids).
 *
 * Instants are microseconds on one clock; the current time and Django's
 * `timeuntil` are parameters.
 */
module TimeAgo {

  const MICROS_PER_SECOND := 1000000
  const SECONDS_PER_DAY := 86400

  /** A `datetime.timedelta`: days, then seconds and microseconds within the day. */
  datatype Delta = Delta(days: int, seconds: int, microseconds: int)

  /** `timedelta(microseconds=us)`, normalised as Python does, rounding the day count down. */
  function ToDelta(us: int): (d: Delta)
    ensures 0 <= d.seconds < SECONDS_PER_DAY && 0 <= d.microseconds < MICROS_PER_SECOND
    ensures (d.days * SECONDS_PER_DAY + d.seconds) * MICROS_PER_SECOND + d.microseconds == us
  {
    var totalSeconds := us / MICROS_PER_SECOND;
    Delta(totalSeconds / SECONDS_PER_DAY, totalSeconds % SECONDS_PER_DAY, us % MICROS_PER_SECOND)
  }

  /** A non-negative span has a non-negative day count, and zero days exactly when it is under a day. */
  lemma DeltaDays(us: int)
    requires us >= 0
    ensures ToDelta(us).days >= 0
    ensures ToDelta(us).days == 0 <==> us < SECONDS_PER_DAY * MICROS_PER_SECOND
  {
  }

  /** The unit `naturaltime` picks, with its count. */
  datatype Bucket = Days(count: int) | Now | Seconds(count: int) | Minutes(count: int) | Hours(count: int)

  /**
   * The if/elif chain over `delta.days` and `delta.seconds`: tested in the
   * order days, zero, under a minute, under an hour, hours.
   */
  function BucketOf(d: Delta): (b: Bucket)
    requires 0 <= d.seconds < SECONDS_PER_DAY
    ensures b.Days? <==> d.days != 0
    ensures b.Days? ==> b.count == d.days
    ensures b == Now <==> d.days == 0 && d.seconds == 0
    ensures b.Seconds? <==> d.days == 0 && 1 <= d.seconds < 60
    ensures b.Seconds? ==> b.count == d.seconds
    ensures b.Minutes? <==> d.days == 0 && 60 <= d.seconds < 3600
    ensures b.Minutes? ==> 1 <= b.count <= 59 && b.count * 60 <= d.seconds < b.count * 60 + 60
    ensures b.Hours? <==> d.days == 0 && d.seconds >= 3600
    ensures b.Hours? ==> 1 <= b.count <= 23 && b.count * 3600 <= d.seconds < b.count * 3600 + 3600
  {
    if d.days != 0 then Days(d.days)
    else if d.seconds == 0 then Now
    else if d.seconds < 60 then Seconds(d.seconds)
    else if d.seconds / 60 < 60 then Minutes(d.seconds / 60)
    else Hours(d.seconds / 60 / 60)
  }

  /** A template value: a datetime, or anything else. */
  datatype Value = NotADate(repr: string) | DateTime(micros: int)

  /** Which way the instant lies from now, and the bucket of the distance. */
  datatype Reading = Unchanged(value: Value) | Past(bucket: Bucket) | Future(bucket: Bucket)

  /** `value < now` reads the past; an instant equal to now or later reads the future. */
  function Classify(value: Value, now: int): (r: Reading)
    ensures value.NotADate? ==> r == Unchanged(value)
    ensures value.DateTime? && value.micros < now ==> r.Past? && r.bucket == BucketOf(ToDelta(now - value.micros))
    ensures value.DateTime? && value.micros >= now ==> r.Future? && r.bucket == BucketOf(ToDelta(value.micros - now))
  {
    match value
    case NotADate(_) => Unchanged(value)
    case DateTime(t) =>
      if t < now then Past(BucketOf(ToDelta(now - t))) else Future(BucketOf(ToDelta(t - now)))
  }

  /** In the past, a day count is at least one: the delta is positive. */
  lemma PastDaysPositive(value: Value, now: int)
    requires Classify(value, now).Past? && Classify(value, now).bucket.Days?
    ensures Classify(value, now).bucket.count >= 1
  {
    DeltaDays(now - value.micros);
  }

  /** Less than a day away, on either side, never reads as days. */
  lemma WithinADayIsNotDays(value: Value, now: int)
    requires value.DateTime?
    requires -SECONDS_PER_DAY * MICROS_PER_SECOND < value.micros - now < SECONDS_PER_DAY * MICROS_PER_SECOND
    ensures !Classify(value, now).bucket.Days?
  {
    if value.micros < now {
      DeltaDays(now - value.micros);
    } else {
      DeltaDays(value.micros - now);
    }
  }

  function Digit(n: nat): char
    requires n < 10
  {
    "0123456789"[n]
  }

  /** `'%s' % n` for a natural number. */
  function Decimal(n: nat): (s: string)
    ensures |s| >= 1 && forall k :: 0 <= k < |s| ==> '0' <= s[k] <= '9'
  {
    if n < 10 then [Digit(n)] else Decimal(n / 10) + [Digit(n % 10)]
  }

  function DigitsValue(s: string): int
  {
    if s == [] then 0 else DigitsValue(s[..|s| - 1]) * 10 + (s[|s| - 1] as int - '0' as int)
  }

  /** The count printed in a message reads back as the count. */
  lemma {:induction false} DecimalRoundTrip(n: nat)
    ensures DigitsValue(Decimal(n)) == n
  {
    if n >= 10 {
      DecimalRoundTrip(n / 10);
      var s := Decimal(n);
      assert s[..|s| - 1] == Decimal(n / 10);
    }
  }

  function IntString(n: int): string
  {
    if n >= 0 then Decimal(n) else "-" + Decimal(-n)
  }

  /**
   * `ungettext(singular, plural, n) % {'count': n}` in English: the
   * singular message for exactly one, the count and the plural otherwise.
   */
  function Counted(n: int, singular: string, pluralTail: string): (s: string)
    ensures n == 1 ==> s == singular
    ensures n != 1 ==> s == IntString(n) + pluralTail
  {
    if n == 1 then singular else IntString(n) + pluralTail
  }

  /** What `naturaltime` returns: the value itself, or a text. */
  datatype Output = Same(value: Value) | Text(text: string)

  /**
   * `naturaltime`: a past instant counts back in its bucket's unit; a future
   * one counts forward, except that a day or more away defers to
   * `timeuntil`; the instant itself reads "now".
   */
  function NaturalTime(value: Value, now: int, timeuntil: (int, int) -> string): (out: Output)
    ensures value.NotADate? <==> out == Same(value)
    ensures Classify(value, now) == Future(Now) || Classify(value, now) == Past(Now) ==> out == Text("now")
    ensures value.DateTime? && Classify(value, now).Future? && Classify(value, now).bucket.Days? ==>
      out == Text(timeuntil(value.micros, now) + " from now")
  {
    match Classify(value, now)
    case Unchanged(v) => Same(v)
    case Past(b) =>
      Text(match b
        case Days(n) => Counted(n, "a day ago", " days ago")
        case Now => "now"
        case Seconds(n) => Counted(n, "a second ago", " seconds ago")
        case Minutes(n) => Counted(n, "a minute ago", " minutes ago")
        case Hours(n) => Counted(n, "an hour ago", " hours ago"))
    case Future(b) =>
      Text(match b
        case Days(_) => timeuntil(value.micros, now) + " from now"
        case Now => "now"
        case Seconds(n) => Counted(n, "a second from now", " seconds from now")
        case Minutes(n) => Counted(n, "a minute from now", " minutes from now")
        case Hours(n) => Counted(n, "an hour from now", " hours from now"))
  }

  /** An instant equal to now is not before now: it takes the future branch and reads "now". */
  lemma SameInstantIsNow(t: int, timeuntil: (int, int) -> string)
    ensures Classify(DateTime(t), t) == Future(Now)
    ensures NaturalTime(DateTime(t), t, timeuntil) == Text("now")
  {
  }

  /** Whole seconds under a day make a delta of zero days and those seconds. */
  lemma WholeSeconds(secs: int)
    requires 0 <= secs < SECONDS_PER_DAY
    ensures ToDelta(secs * MICROS_PER_SECOND) == Delta(0, secs, 0)
  {
  }

  /** What each bucket reads, once the direction is known. */
  lemma PastText(value: Value, now: int, timeuntil: (int, int) -> string, b: Bucket)
    requires Classify(value, now) == Past(b)
    ensures b.Minutes? ==> NaturalTime(value, now, timeuntil) == Text(Counted(b.count, "a minute ago", " minutes ago"))
    ensures b.Days? ==> NaturalTime(value, now, timeuntil) == Text(Counted(b.count, "a day ago", " days ago"))
    ensures b.Hours? ==> NaturalTime(value, now, timeuntil) == Text(Counted(b.count, "an hour ago", " hours ago"))
    ensures b.Seconds? ==> NaturalTime(value, now, timeuntil) == Text(Counted(b.count, "a second ago", " seconds ago"))
  {
  }

  lemma FutureText(value: Value, now: int, timeuntil: (int, int) -> string, b: Bucket)
    requires Classify(value, now) == Future(b)
    ensures b.Hours? ==> NaturalTime(value, now, timeuntil) == Text(Counted(b.count, "an hour from now", " hours from now"))
    ensures b.Minutes? ==> NaturalTime(value, now, timeuntil) == Text(Counted(b.count, "a minute from now", " minutes from now"))
    ensures b.Seconds? ==> NaturalTime(value, now, timeuntil) == Text(Counted(b.count, "a second from now", " seconds from now"))
  {
  }

  /** Ninety seconds ago reads "a minute ago". */
  lemma MinuteAgoExample(timeuntil: (int, int) -> string)
    ensures NaturalTime(DateTime(0), 90 * MICROS_PER_SECOND, timeuntil) == Text("a minute ago")
  {
    WholeSeconds(90);
    assert Classify(DateTime(0), 90 * MICROS_PER_SECOND) == Past(Minutes(1));
    PastText(DateTime(0), 90 * MICROS_PER_SECOND, timeuntil, Minutes(1));
  }

  /** Five seconds ago reads "5 seconds ago". */
  lemma SecondsAgoExample(timeuntil: (int, int) -> string)
    ensures NaturalTime(DateTime(0), 5 * MICROS_PER_SECOND, timeuntil) == Text("5 seconds ago")
  {
    WholeSeconds(5);
    assert Classify(DateTime(0), 5 * MICROS_PER_SECOND) == Past(Seconds(5));
    PastText(DateTime(0), 5 * MICROS_PER_SECOND, timeuntil, Seconds(5));
    assert Decimal(5) == "5";
  }

  /** Two hours and a bit ahead reads "2 hours from now". */
  lemma HoursFromNowExample(timeuntil: (int, int) -> string)
    ensures NaturalTime(DateTime(7300 * MICROS_PER_SECOND), 0, timeuntil) == Text("2 hours from now")
  {
    WholeSeconds(7300);
    assert BucketOf(Delta(0, 7300, 0)) == Hours(2);
    FutureText(DateTime(7300 * MICROS_PER_SECOND), 0, timeuntil, Hours(2));
    assert Decimal(2) == "2";
  }
}
