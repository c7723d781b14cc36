/** The slice of JavaScript's value and Date semantics that the record
    normaliser and the sleep annotator rely on: the values a record field can
    hold, truthiness (used by `||` and `&&`), and what `new Date(value)` makes
    of each kind of value. */
module JsValues {

  /** Success or failure; failure carries the exception the source throws. */
  datatype Result<+T, +E> = Success(value: T) | Failure(error: E)

  datatype Option<+T> = None | Some(value: T)

  /** A time value: milliseconds since the epoch, or NaN. */
  datatype TimeValue = NaN | Ms(ms: int)

  /** Largest absolute time value a Date can hold (8.64e15 ms). */
  const MaxTime: int := 8_640_000_000_000_000

  /** NaN, or a time within the Date range. */
  predicate IsClipped(t: TimeValue)
  {
    t.NaN? || -MaxTime <= t.ms <= MaxTime
  }

  /** The time value inside a Date object: every Date is built through
      TimeClip, so it holds NaN (an "Invalid Date") or a time in range. */
  type DateTime = t: TimeValue | IsClipped(t) witness NaN

  /** A field value. Raw export records hold strings and numbers; the
      normaliser adds Dates, the sleep annotator adds Booleans and can store
      `undefined`. Numbers are the finite ones (see README). */
  datatype Value =
    | Str(s: string)
    | Num(x: real)
    | Bool(b: bool)
    | Date(time: DateTime)
    | Undefined
    | Null

  /** An hour of the day, as `Date.prototype.getHours` returns. */
  type Hour = h: int | 0 <= h < 24

  /** A host-supplied behaviour the model does not interpret: how the host
      parses a date string (the parse step of `new Date(string)`, before
      TimeClip), and the local-time hour of a time value
      (`Date.prototype.getHours`), which depends on the time zone. */
  datatype Host = Host(parse: string -> TimeValue, hourOf: int -> Hour)

  /** ToBoolean: the falsy values are "", 0, false, undefined and null; every
      object, an Invalid Date included, is truthy. */
  predicate Truthy(v: Value)
  {
    match v
    case Str(s) => s != ""
    case Num(x) => x != 0.0
    case Bool(b) => b
    case Date(_) => true
    case Undefined => false
    case Null => false
  }

  /** Truncation toward zero of a real, as ToIntegerOrInfinity does. */
  function Trunc(x: real): (n: int)
    ensures x >= 0.0 ==> 0 <= n && n as real <= x < n as real + 1.0
    ensures x < 0.0 ==> n <= 0 && n as real - 1.0 < x <= n as real
  {
    if x >= 0.0 then x.Floor else -((-x).Floor)
  }

  /** TimeClip: a number outside the Date range becomes NaN, any other is
      truncated toward zero. */
  function TimeClip(x: real): (t: DateTime)
    ensures t.Ms? <==> -(MaxTime as real) <= x <= MaxTime as real
    ensures t.Ms? ==> -MaxTime <= t.ms <= MaxTime && t.ms == Trunc(x)
  {
    if x < -(MaxTime as real) || x > MaxTime as real then NaN else Ms(Trunc(x))
  }

  /** The time value of `new Date(v)` for a single argument `v`. */
  function ToDate(v: Value, parse: string -> TimeValue): (t: DateTime)
    // re-wrapping a Date keeps its time value
    ensures v.Date? ==> t == v.time
    // a parsed string goes through TimeClip like any number
    ensures v.Str? && parse(v.s).Ms? ==> t == TimeClip(parse(v.s).ms as real)
    ensures v.Str? && parse(v.s).NaN? ==> t == NaN
  {
    match v
    case Date(t) => t
    case Str(s) => (match parse(s) case NaN => NaN case Ms(x) => TimeClip(x as real))
    case Num(x) => TimeClip(x)
    case Bool(b) => if b then Ms(1) else Ms(0)
    case Undefined => NaN
    case Null => Ms(0)
  }
}
