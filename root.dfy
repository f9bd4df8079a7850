/** cmd/root.go: the root command. Its walk callback is the per-file logic of cmd/updatemedia.go
    (same calls, same early returns), but `gpsOld` is a local variable of Execute captured by the
    callback, and its compareDates drops the time zone before comparing. */
module Root {
  import opened Clock
  import opened Gpx
  import opened UpdateMedia

  /** A time.Time as the formatting sees it: an instant and the offset in seconds of its zone. */
  datatype Zoned = Zoned(at: Instant, offset: int)

  /** Format with "2006-01-02 15:04:05" and Parse back: the wall-clock reading in whole seconds,
      now taken as UTC. */
  function WallSeconds(t: Zoned): int {
    (t.at + t.offset * Second) / Second
  }

  /** compareDates of cmd/root.go: highlight when the wall-clock readings differ by more than
      `sec` seconds. */
  predicate CompareDates(t1: Zoned, t2: Zoned, sec: int) {
    Abs(WallSeconds(t1) - WallSeconds(t2)) > sec
  }

  /** Two different instants showing the same wall-clock time in different zones compare as
      equal; the zone-aware comparison of cmd/updatemedia.go can still highlight them. */
  lemma ZoneIsDropped(a: Instant, b: Instant, o1: int, o2: int, sec: nat)
    requires a + o1 * Second == b + o2 * Second
    ensures !CompareDates(Zoned(a, o1), Zoned(b, o2), sec)
    ensures (o1 - o2) > sec ==> Highlight(a, b, sec)
  {
  }

  /** The threshold is strict, in whole seconds; fractions of a second inside the same second
      of the wall clock are ignored. */
  lemma CompareDatesThreshold(t: Zoned, sec: nat, frac: int)
    requires 0 <= frac < Second && (t.at + t.offset * Second) % Second == 0
    ensures !CompareDates(t, t.(at := t.at + sec * Second + frac), sec)
    ensures CompareDates(t, t.(at := t.at + (sec + 1) * Second), sec)
  {
    var w := t.at + t.offset * Second;
    assert (w + sec * Second + frac) / Second == w / Second + sec;
    assert (w + (sec + 1) * Second) / Second == w / Second + sec + 1;
  }

  /** compareDates2: no comparison when gtime is zero, otherwise compareDates at 80 s. */
  function CompareDates2(t: Zoned, gtime: Zoned): (h: Optional.Option<bool>)
    ensures h.None? <==> IsZero(gtime.at)
  {
    if IsZero(gtime.at) then Optional.None else Optional.Some(CompareDates(t, gtime, 80))
  }

  /** Execute once the tracks are loaded: log.Fatal when none was processed, then the walk, with
      `gpsOld` starting as the zero Trkpt and carried from one callback to the next. */
  method Execute(env: Env, trackCount: nat, entries: seq<Entry>) returns (final: RunState, fatal: bool)
    ensures trackCount == 0 ==> fatal && final == RunState(ZeroTrkpt, [])
    ensures trackCount > 0 ==> final == WalkSpec(env, RunState(ZeroTrkpt, []), entries).0 &&
                               (fatal <==> WalkSpec(env, RunState(ZeroTrkpt, []), entries).1 == Halt)
  {
    var gpsOld := ZeroTrkpt;
    var writes: seq<(string, Exif.GpsTags)> := [];
    if trackCount == 0 {
      return RunState(gpsOld, writes), true;
    }
    var i := 0;
    while i < |entries|
      invariant 0 <= i <= |entries|
      invariant WalkSpec(env, RunState(ZeroTrkpt, []), entries) == WalkSpec(env, RunState(gpsOld, writes), entries[i..])
    {
      assert entries[i..][0] == entries[i] && entries[i..][1..] == entries[i + 1..];
      var (st, sig) := FileStep(env, RunState(gpsOld, writes), entries[i]);
      gpsOld, writes := st.gpsOld, st.writes;
      if sig != Next {
        return st, sig == Halt;
      }
      i := i + 1;
    }
    return RunState(gpsOld, writes), false;
  }
}
