/** Optional values, used wherever a Go function returns a value together with an error. */
module Optional {
  datatype Option<+T> = None | Some(value: T)
}

/** Go's time.Time and time.Duration, reduced to integers.
    An Instant counts nanoseconds from Go's zero time, January 1 of year 1, 00:00:00 UTC,
    so the zero value `time.Time{}` -- the "no time" sentinel the program relies on
    throughout -- is the integer 0. A Duration is a signed count of nanoseconds. */
module Clock {
  import opened Optional

  type Instant = int
  type Duration = int

  const ZeroTime: Instant := 0
  const Second: Duration := 1_000_000_000
  const Minute: Duration := 60 * Second

  /** Seconds from Go's zero time to the Unix epoch (1970-01-01 00:00:00 UTC). */
  const UnixToInternal: int := 62_135_596_800

  predicate IsZero(t: Instant) {
    t == ZeroTime
  }

  /** The magnitude of a duration, as `if d < 0 { d = -d }` computes it. */
  function Abs(d: Duration): (r: Duration)
    ensures r >= 0 && (r == d || r == -d)
  {
    if d < 0 then -d else d
  }

  /** time.UnixMicro: microseconds since the Unix epoch, as an Instant. */
  function UnixMicro(us: int): Instant {
    UnixToInternal * Second + us * 1000
  }

  /** time.Parse with one fixed layout. `parse` is the layout's behaviour on non-empty
      text; none of the layouts the program uses accepts the empty string. */
  function ParseWith(parse: string -> Option<Instant>, s: string): Option<Instant> {
    if s == "" then None else parse(s)
  }
}
