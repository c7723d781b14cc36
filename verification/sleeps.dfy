/** The `Sleeps` constructor: after normalising its records like `Data`, it
    re-wraps "Start Time" and "End Time" as Dates and adds "Mid Time" (the
    midpoint of the sleep) and "Nap" (whether the midpoint falls in the
    12-hour day window that starts at `dayNightHour`). */
module SleepAnnotator {
  import opened JsValues
  import opened Keys
  import opened Normaliser

  const StartTime: string := "Start Time"
  const EndTime: string := "End Time"
  const MidTime: string := "Mid Time"
  const Nap: string := "Nap"

  /** The exception the annotation loop can throw: `.getTime()` or
      `.getHours()` called on a value that is not a Date (after
      normalisation, an `undefined` Start Time). */
  datatype TypeError =
    | GetTimeOnNonDate   // `.getTime()` at js/data.js line 30
    | GetHoursOnNonDate  // `.getHours()` at js/data.js line 35

  /** `obj[key]`: `undefined` for a missing property. */
  function Get(m: Record, k: string): Value
  {
    if k in m then m[k] else Undefined
  }

  /** `dayNightHour || 8`: an absent or zero argument gives 8. The argument
      is absent when it is `None`. */
  function DayNightHour(arg: Option<int>): (h: int)
    ensures arg.None? || arg == Some(0) ==> h == 8
    ensures arg.Some? && arg.value != 0 ==> h == arg.value
  {
    match arg
    case None => 8
    case Some(n) => if n != 0 then n else 8
  }

  /** `v && new Date(v)`: a falsy value is kept as it is, any other becomes
      a Date; a Date keeps its time value. */
  function Rewrap(v: Value, parse: string -> TimeValue): (r: Value)
    ensures !Truthy(v) ==> r == v
    ensures Truthy(v) ==> r.Date?
    ensures v.Date? ==> r == v
  {
    if Truthy(v) then Date(ToDate(v, parse)) else v
  }

  /** Integer division by two truncating toward zero. */
  function TruncHalf(n: int): int
  {
    if n >= 0 then n / 2 else -((-n) / 2)
  }

  lemma TruncOfHalf(n: int)
    ensures Trunc(n as real / 2.0) == TruncHalf(n)
  {
  }

  /** The time value of `new Date((start.getTime() + end.getTime()) / 2)`. */
  function Midpoint(s: DateTime, e: DateTime): (m: DateTime)
    ensures s.NaN? || e.NaN? ==> m == NaN
    ensures s.Ms? && e.Ms? ==> m == Ms(TruncHalf(s.ms + e.ms))
    ensures s.Ms? && e.Ms? && s.ms <= e.ms ==> s.ms <= m.ms <= e.ms
  {
    if s.Ms? && e.Ms? then
      TruncOfHalf(s.ms + e.ms);
      TimeClip((s.ms + e.ms) as real / 2.0)
    else NaN
  }

  /** The day window: `h >= dayNightHour && h < dayNightHour + 12`. */
  predicate IsNapHour(h: int, dayNightHour: int)
  {
    dayNightHour <= h < dayNightHour + 12
  }

  /** The value stored under "Nap" for a midpoint: the local hour of an
      Invalid Date is NaN, and every comparison with NaN is false. */
  function NapOf(mid: TimeValue, dayNightHour: int, hourOf: int -> Hour): (nap: bool)
    ensures nap <==> mid.Ms? && IsNapHour(hourOf(mid.ms), dayNightHour)
  {
    match mid
    case NaN => false
    case Ms(t) => IsNapHour(hourOf(t), dayNightHour)
  }

  /** One pass of the loop body of js/data.js lines 26-35 on one record: the
      annotated record, or the TypeError the body throws. */
  function AnnotateSleep(m: Record, dayNightHour: int, host: Host): (r: Result<Record, TypeError>)
    // it throws exactly when the record has no truthy Start Time
    ensures r.Success? <==> Truthy(Get(m, StartTime))
    // four fields are written, every other one is left alone
    ensures r.Success? ==> r.value.Keys == m.Keys + {StartTime, EndTime, MidTime, Nap}
    ensures r.Success? ==> forall k :: k in m && k !in {StartTime, EndTime, MidTime, Nap} ==> r.value[k] == m[k]
    // Start Time becomes a Date; one that already was keeps its time value
    ensures r.Success? ==> r.value[StartTime] == Rewrap(Get(m, StartTime), host.parse)
    ensures r.Success? ==> r.value[EndTime] == Rewrap(Get(m, EndTime), host.parse)
    // Mid Time is the midpoint of a truthy End Time and Start Time, else Start Time
    ensures r.Success? ==> r.value[MidTime].Date?
    ensures r.Success? ==>
              (r.value[MidTime] == if Truthy(Get(m, EndTime))
                                   then Date(Midpoint(r.value[StartTime].time, r.value[EndTime].time))
                                   else r.value[StartTime])
    // Nap holds exactly when the local hour of a valid Mid Time is in the day window
    ensures r.Success? ==> r.value[Nap] == Bool(NapOf(r.value[MidTime].time, dayNightHour, host.hourOf))
  {
    var start := Rewrap(Get(m, StartTime), host.parse);
    var end := Rewrap(Get(m, EndTime), host.parse);
    if Truthy(end) && !(start.Date? && end.Date?) then Failure(GetTimeOnNonDate)
    else
      var mid := if Truthy(end) then Date(Midpoint(start.time, end.time)) else start;
      if !mid.Date? then Failure(GetHoursOnNonDate)
      else
        Success(m[StartTime := start][EndTime := end][MidTime := mid]
                 [Nap := Bool(NapOf(mid.time, dayNightHour, host.hourOf))])
  }

  /** A sleep whose Start Time and End Time are valid Dates, the start no
      later than the end, has its Mid Time between them, at the truncated half
      of their sum; a sleep without an End Time has its Mid Time at its Start
      Time. */
  lemma MidTimeBetween(m: Record, dayNightHour: int, host: Host)
    requires Truthy(Get(m, StartTime))
    ensures AnnotateSleep(m, dayNightHour, host).Success?
    ensures var a := AnnotateSleep(m, dayNightHour, host).value;
            var s := a[StartTime].time;
            var e := Get(m, EndTime);
            (e.Date? && s.Ms? && e.time.Ms? && s.ms <= e.time.ms ==>
               s.ms <= a[MidTime].time.ms <= e.time.ms &&
               a[MidTime] == Date(Ms(TruncHalf(s.ms + e.time.ms)))) &&
            (!Truthy(e) ==> a[MidTime] == a[StartTime])
  {
  }

  /** With a day/night hour in the asserted range, a valid midpoint is a
      night sleep exactly when its local hour lies in [dayNightHour + 12, 24)
      or [0, dayNightHour): the complement of the day window within the day. */
  lemma NightSleepHours(mid: TimeValue, dayNightHour: int, hourOf: int -> Hour)
    requires 0 <= dayNightHour < 12 && mid.Ms?
    ensures !NapOf(mid, dayNightHour, hourOf) <==>
              (dayNightHour + 12 <= hourOf(mid.ms) < 24 || 0 <= hourOf(mid.ms) < dayNightHour)
  {
  }

  /** The number of hours in [0, n) inside the day window. */
  function NapHourCount(dayNightHour: int, n: nat): nat
  {
    if n == 0 then 0
    else NapHourCount(dayNightHour, n - 1) + if IsNapHour(n - 1, dayNightHour) then 1 else 0
  }

  function Max(a: int, b: int): int { if a < b then b else a }
  function Min(a: int, b: int): int { if a < b then a else b }

  /** The window covers the hours of [0, n) from max(0, dayNightHour) up to
      min(n, dayNightHour + 12). */
  lemma {:induction false} NapHourCountClosed(dayNightHour: int, n: nat)
    ensures NapHourCount(dayNightHour, n) ==
              Max(0, Min(n, dayNightHour + 12) - Max(0, dayNightHour))
  {
    if n > 0 {
      NapHourCountClosed(dayNightHour, n - 1);
    }
  }

  /** For a day/night hour in [0, 12), the range the source asserts, the
      day window lies inside the day and holds exactly 12 of its 24 hours, so
      sleeps split into naps and night sleeps by half-days. Only 12 shares
      that property; any other value leaves fewer than 12 nap hours. */
  lemma NapHalfDay(dayNightHour: int)
    ensures 0 <= dayNightHour <= 12 <==> NapHourCount(dayNightHour, 24) == 12
    ensures NapHourCount(dayNightHour, 24) <= 12
  {
    NapHourCountClosed(dayNightHour, 24);
  }

  class Sleeps {
    var data: seq<Record>
    var dayNightHour: int

    /** js/data.js lines 21-24: normalise like `Data`, then settle the
        day/night hour. `console.assert` only logs, so the constructor goes
        on whatever the hour is. */
    constructor (raw: seq<RawRecord>, dayNightHourArg: Option<int>, parse: string -> TimeValue)
      ensures |data| == |raw|
      ensures forall i :: 0 <= i < |raw| ==> data[i] == Cleanse(raw[i], parse)
      ensures dayNightHour == DayNightHour(dayNightHourArg)
    {
      var cleansed := Normalise(raw, parse);
      data := cleansed;
      dayNightHour := DayNightHour(dayNightHourArg);
    }

    /** js/data.js lines 25-36: update every sleep in place, stopping at the
        first one whose body throws. */
    method AnnotateAll(host: Host) returns (thrown: Option<TypeError>)
      modifies this
      ensures dayNightHour == old(dayNightHour) && |data| == |old(data)|
      ensures thrown.None? <==> forall i :: 0 <= i < |data| ==> Truthy(Get(old(data)[i], StartTime))
      ensures thrown.None? ==> forall i :: 0 <= i < |data| ==>
                AnnotateSleep(old(data)[i], dayNightHour, host) == Success(data[i])
      ensures thrown.Some? ==> exists k :: (0 <= k < |data| &&
                AnnotateSleep(old(data)[k], dayNightHour, host) == Failure(thrown.value) &&
                (forall i :: 0 <= i < k ==> AnnotateSleep(old(data)[i], dayNightHour, host) == Success(data[i])) &&
                data[k..] == old(data)[k..])
    {
      var i := 0;
      while i < |data|
        invariant 0 <= i <= |data| == |old(data)|
        invariant dayNightHour == old(dayNightHour)
        invariant forall j :: 0 <= j < i ==> Truthy(Get(old(data)[j], StartTime))
        invariant forall j :: 0 <= j < i ==> AnnotateSleep(old(data)[j], dayNightHour, host) == Success(data[j])
        invariant data[i..] == old(data)[i..]
      {
        assert data[i] == old(data)[i];
        var sleep := data[i];
        sleep := sleep[StartTime := Rewrap(Get(sleep, StartTime), host.parse)];
        sleep := sleep[EndTime := Rewrap(Get(sleep, EndTime), host.parse)];
        var start, end := sleep[StartTime], sleep[EndTime];
        if Truthy(end) {
          if !start.Date? || !end.Date? {
            thrown := Some(GetTimeOnNonDate);
            return;
          }
          sleep := sleep[MidTime := Date(Midpoint(start.time, end.time))];
        } else {
          sleep := sleep[MidTime := start];
        }
        var mid := sleep[MidTime];
        if !mid.Date? {
          thrown := Some(GetHoursOnNonDate);
          return;
        }
        sleep := sleep[Nap := Bool(NapOf(mid.time, dayNightHour, host.hourOf))];
        assert AnnotateSleep(old(data)[i], dayNightHour, host) == Success(sleep);
        data := data[i := sleep];
        i := i + 1;
      }
      thrown := None;
    }
  }

  /** The whole `new Sleeps(data, dayNightHour)`: a Sleeps object whose
      records are the annotated cleansed records, or the TypeError the
      constructor throws. */
  method NewSleeps(raw: seq<RawRecord>, dayNightHourArg: Option<int>, host: Host)
    returns (r: Result<Sleeps, TypeError>)
    ensures r.Success? <==> forall i :: 0 <= i < |raw| ==> StartTime in Cleanse(raw[i], host.parse)
    ensures r.Success? ==> fresh(r.value) && r.value.dayNightHour == DayNightHour(dayNightHourArg)
    ensures r.Success? ==> |r.value.data| == |raw| && forall i :: 0 <= i < |raw| ==>
              AnnotateSleep(Cleanse(raw[i], host.parse), r.value.dayNightHour, host) == Success(r.value.data[i])
    ensures r.Failure? ==> exists k :: (0 <= k < |raw| &&
              AnnotateSleep(Cleanse(raw[k], host.parse), DayNightHour(dayNightHourArg), host) == Failure(r.error) &&
              forall i :: 0 <= i < k ==> StartTime in Cleanse(raw[i], host.parse))
  {
    var sleeps := new Sleeps(raw, dayNightHourArg, host.parse);
    var thrown := sleeps.AnnotateAll(host);
    forall i | 0 <= i < |raw|
      ensures Truthy(Get(Cleanse(raw[i], host.parse), StartTime)) <==> StartTime in Cleanse(raw[i], host.parse)
    {
      StartTimeIsDate(raw[i], host.parse);
    }
    match thrown
    case None => r := Success(sleeps);
    case Some(e) => r := Failure(e);
  }

  /** After normalisation, a sleep's "Start Time" is truthy exactly when the
      field is there: such a field always holds a Date. */
  lemma StartTimeIsDate(raw: RawRecord, parse: string -> TimeValue)
    ensures Truthy(Get(Cleanse(raw, parse), StartTime)) <==> StartTime in Cleanse(raw, parse)
  {
    if StartTime in Cleanse(raw, parse) {
      StartTimeNamesTime();
      CleansedDateField(raw, parse, StartTime);
    }
  }

  /** The "Start Time" field is there exactly when a raw key trims to it. */
  lemma StartTimeFromRawKey(raw: RawRecord, parse: string -> TimeValue)
    ensures StartTime in Cleanse(raw, parse) <==> exists i :: 0 <= i < |raw| && Trim(raw[i].0) == StartTime
  {
    CleanseKeys(raw, parse);
  }

  lemma StartTimeNamesTime()
    ensures MatchesDateTime(StartTime)
  {
    assert MatchesAt(StartTime, 6);
  }
}
