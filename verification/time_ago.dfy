/**
  The history panel's `getTimeAgo(timestamp)`: whole elapsed seconds by floor division of the
  millisecond difference, then successive floor divisions into minutes, hours and days. The
  current time is a parameter. A timestamp outside the range a `Date` can hold makes
  `new Date(timestamp)` invalid, its time `NaN`, and every comparison false.
 */
module HistoryTimeAgo {
  import Decimal

  /** The largest magnitude of a valid `Date` time value, in milliseconds. */
  const MaxTimeValue: int := 8_640_000_000_000_000

  datatype Ago =
    | JustNow
    | MinutesAgo(minutes: nat)
    | HoursAgo(hours: nat)
    | DaysAgo(days: nat)
    | InvalidDays            // the `NaN` path: `${NaN}d ago`

  /**
    `Math.floor((now.getTime() - past.getTime()) / 1000)`; Dafny's `/` by a positive divisor is floor
    division. The difference is exact here; the code's double subtraction rounds beyond 2^53 ms.
   */
  function ElapsedSeconds(now: int, timestamp: int): int
  {
    (now - timestamp) / 1000
  }

  /** Whole minutes of whole seconds are whole hours, sixty at a time. */
  lemma MinutesToHours(s: int)
    requires s >= 0
    ensures (s / 60) / 60 == s / 3600
  {
    var q := s / 3600;
    var r := s % 3600;
    assert s == 3600 * q + r && 0 <= r < 3600;
    assert s / 60 == 60 * q + r / 60;
  }

  lemma HoursToDays(s: int)
    requires s >= 0
    ensures (s / 3600) / 24 == s / 86400
  {
    var q := s / 86400;
    var r := s % 86400;
    assert s == 86400 * q + r && 0 <= r < 86400;
    assert s / 3600 == 24 * q + r / 3600;
  }

  /** The bucket `getTimeAgo` picks. */
  function Classify(now: int, timestamp: int): (a: Ago)
    requires -MaxTimeValue <= now <= MaxTimeValue
    ensures -MaxTimeValue <= timestamp <= MaxTimeValue ==>
      var s := ElapsedSeconds(now, timestamp);
      && (a == JustNow <==> s < 60)
      && (a.MinutesAgo? <==> 60 <= s < 3600)
      && (a.HoursAgo? <==> 3600 <= s < 86400)
      && (a.DaysAgo? <==> 86400 <= s)
      && (a.MinutesAgo? ==> 1 <= a.minutes <= 59 && a.minutes == s / 60)
      && (a.HoursAgo? ==> 1 <= a.hours <= 23 && a.hours == s / 3600)
      && (a.DaysAgo? ==> 1 <= a.days && a.days == s / 86400)
    ensures !(-MaxTimeValue <= timestamp <= MaxTimeValue) ==> a == InvalidDays
  {
    if !(-MaxTimeValue <= timestamp <= MaxTimeValue) then InvalidDays
    else
      var diffInSeconds := ElapsedSeconds(now, timestamp);
      if diffInSeconds < 60 then JustNow
      else
        var diffInMinutes := diffInSeconds / 60;
        if diffInMinutes < 60 then MinutesAgo(diffInMinutes)
        else
          var diffInHours := diffInMinutes / 60;
          MinutesToHours(diffInSeconds);
          if diffInHours < 24 then HoursAgo(diffInHours)
          else
            HoursToDays(diffInSeconds);
            DaysAgo(diffInHours / 24)
  }

  /** The text shown. */
  function Render(a: Ago): (text: string)
    ensures a == JustNow <==> text == "Just now"
    ensures a == InvalidDays <==> text == "NaNd ago"
    ensures a.MinutesAgo? ==> Decimal.ShowsCount(text, "m ago", a.minutes)
    ensures a.HoursAgo? ==> Decimal.ShowsCount(text, "h ago", a.hours)
    ensures a.DaysAgo? ==> Decimal.ShowsCount(text, "d ago", a.days)
  {
    match a
    case JustNow => "Just now"
    case MinutesAgo(m) => Decimal.WithSuffix(m, "m ago")
    case HoursAgo(h) => Decimal.WithSuffix(h, "h ago")
    case DaysAgo(d) => Decimal.WithSuffix(d, "d ago")
    case InvalidDays => "NaNd ago"
  }

  /** `getTimeAgo(timestamp)` at time `now`. */
  function GetTimeAgo(now: int, timestamp: int): (text: string)
    requires -MaxTimeValue <= now <= MaxTimeValue
    ensures text == "NaNd ago" <==> !(-MaxTimeValue <= timestamp <= MaxTimeValue)
    ensures -MaxTimeValue <= timestamp <= MaxTimeValue ==>
      var s := ElapsedSeconds(now, timestamp);
      && (text == "Just now" <==> s < 60)
      && (60 <= s < 3600 ==> Decimal.ShowsCount(text, "m ago", s / 60))
      && (3600 <= s < 86400 ==> Decimal.ShowsCount(text, "h ago", s / 3600))
      && (86400 <= s ==> Decimal.ShowsCount(text, "d ago", s / 86400))
  {
    Render(Classify(now, timestamp))
  }

  /** A timestamp in the future reads as "Just now". */
  lemma FutureIsJustNow(now: int, timestamp: int)
    requires -MaxTimeValue <= now <= MaxTimeValue && now <= timestamp <= MaxTimeValue
    ensures GetTimeAgo(now, timestamp) == "Just now"
  {
  }
}

/**
  The news result's `getTimeAgo(dateString)`: threshold buckets on whole elapsed seconds,
  years over months over days over hours over minutes, each chosen only when the elapsed time
  is STRICTLY more than one unit. Parsing the date string is outside the model: the caller
  passes the parsed time value, `None` when `new Date(dateString)` is invalid.
 */
module NewsTimeAgo {
  import opened Wrappers
  import Decimal

  const SecondsPerYear: nat := 31536000
  const SecondsPerMonth: nat := 2592000
  const SecondsPerDay: nat := 86400
  const SecondsPerHour: nat := 3600
  const SecondsPerMinute: nat := 60

  datatype NewsAgo =
    | NoDate                 // missing or empty date string
    | Years(years: nat)
    | Months(months: nat)
    | Days(days: nat)
    | Hours(hours: nat)
    | Minutes(minutes: nat)
    | Seconds(seconds: int)  // at most a minute, possibly negative
    | InvalidSeconds         // an unparsable date: `NaN seconds ago`

  /** The unit picked for `seconds` elapsed, and its count. */
  function Bucket(seconds: int): (a: NewsAgo)
    ensures a.Years? <==> seconds > SecondsPerYear
    ensures a.Months? <==> SecondsPerMonth < seconds <= SecondsPerYear
    ensures a.Days? <==> SecondsPerDay < seconds <= SecondsPerMonth
    ensures a.Hours? <==> SecondsPerHour < seconds <= SecondsPerDay
    ensures a.Minutes? <==> SecondsPerMinute < seconds <= SecondsPerHour
    ensures a.Seconds? <==> seconds <= SecondsPerMinute
    ensures a.Years? ==> a.years >= 1 && a.years * SecondsPerYear <= seconds < (a.years + 1) * SecondsPerYear
    ensures a.Months? ==> 1 <= a.months <= 12 && a.months * SecondsPerMonth <= seconds < (a.months + 1) * SecondsPerMonth
    ensures a.Days? ==> 1 <= a.days <= 30 && a.days * SecondsPerDay <= seconds < (a.days + 1) * SecondsPerDay
    ensures a.Hours? ==> 1 <= a.hours <= 24 && a.hours * SecondsPerHour <= seconds < (a.hours + 1) * SecondsPerHour
    ensures a.Minutes? ==> 1 <= a.minutes <= 60 && a.minutes * SecondsPerMinute <= seconds < (a.minutes + 1) * SecondsPerMinute
    ensures a.Seconds? ==> a.seconds == seconds
  {
    if seconds > SecondsPerYear then Years(seconds / SecondsPerYear)
    else if seconds > SecondsPerMonth then Months(seconds / SecondsPerMonth)
    else if seconds > SecondsPerDay then Days(seconds / SecondsPerDay)
    else if seconds > SecondsPerHour then Hours(seconds / SecondsPerHour)
    else if seconds > SecondsPerMinute then Minutes(seconds / SecondsPerMinute)
    else Seconds(seconds)
  }

  /** `getTimeAgo(dateString)` at time `nowMs`, given the parse of the date string. */
  function Classify(dateString: Option<string>, nowMs: int, parsedMs: Option<int>): (a: NewsAgo)
    ensures dateString.None? || dateString == Some("") <==> a == NoDate
    ensures a != NoDate && parsedMs.None? ==> a == InvalidSeconds
    ensures a != NoDate && parsedMs.Some? ==> a == Bucket((nowMs - parsedMs.value) / 1000)
  {
    if dateString.None? || dateString.value == "" then NoDate
    else if parsedMs.None? then InvalidSeconds
    else Bucket((nowMs - parsedMs.value) / 1000)
  }

  /** The text shown. */
  function Render(a: NewsAgo): (text: string)
    ensures a == NoDate <==> text == ""
    ensures a == InvalidSeconds <==> text == "NaN seconds ago"
    ensures a.Years? ==> Decimal.ShowsCount(text, " years ago", a.years)
    ensures a.Months? ==> Decimal.ShowsCount(text, " months ago", a.months)
    ensures a.Days? ==> Decimal.ShowsCount(text, " days ago", a.days)
    ensures a.Hours? ==> Decimal.ShowsCount(text, " hours ago", a.hours)
    ensures a.Minutes? ==> Decimal.ShowsCount(text, " minutes ago", a.minutes)
    ensures a.Seconds? ==> Decimal.ShowsCount(text, " seconds ago", a.seconds)
  {
    match a
    case NoDate => ""
    case Years(n) => Decimal.WithSuffix(n, " years ago")
    case Months(n) => Decimal.WithSuffix(n, " months ago")
    case Days(n) => Decimal.WithSuffix(n, " days ago")
    case Hours(n) => Decimal.WithSuffix(n, " hours ago")
    case Minutes(n) => Decimal.WithSuffix(n, " minutes ago")
    case Seconds(n) => Decimal.WithSuffix(n, " seconds ago")
    case InvalidSeconds => "NaN seconds ago"
  }

  /** Exactly one year is reported as twelve months: the thresholds are strict. */
  lemma ExactlyOneYearIsMonths()
    ensures Bucket(SecondsPerYear) == Months(12)
    ensures Bucket(SecondsPerYear + 1) == Years(1)
    ensures Bucket(SecondsPerMinute) == Seconds(60)
  {
  }

  /** More elapsed time never moves to a smaller unit. */
  function UnitRank(a: NewsAgo): nat
  {
    match a
    case Years(_) => 5
    case Months(_) => 4
    case Days(_) => 3
    case Hours(_) => 2
    case Minutes(_) => 1
    case _ => 0
  }

  lemma BucketMonotone(s: int, t: int)
    requires s <= t
    ensures UnitRank(Bucket(s)) <= UnitRank(Bucket(t))
  {
  }
}
