/** The per-file logic the media drivers share: the choice of the reference time (bestDate, written
    identically in cmd/updatemedia.go and cmd/root.go), which pairs of times are compared for
    display, and the decision to write a position. */
module Decision {
  import opened Clock
  import opened Exif

  /** bestDate: the GPS time, else the embedded time, else the file time. */
  function BestDate(atime: Instant, etime: Instant, gtime: Instant): (d: Instant)
    ensures d == atime || d == etime || d == gtime
    ensures IsZero(d) <==> IsZero(atime) && IsZero(etime) && IsZero(gtime)
  {
    if !IsZero(gtime) then gtime
    else if !IsZero(etime) then etime
    else atime
  }

  /** The first non-zero time of `ts`, or `fallback`. */
  function FirstNonZero(ts: seq<Instant>, fallback: Instant): Instant {
    if ts == [] then fallback else if !IsZero(ts[0]) then ts[0] else FirstNonZero(ts[1..], fallback)
  }

  /** The precedence gtime, etime, atime: a non-zero later source never beats an earlier one. */
  lemma BestDatePrecedence(atime: Instant, etime: Instant, gtime: Instant)
    ensures BestDate(atime, etime, gtime) == FirstNonZero([gtime, etime], atime)
    ensures !IsZero(gtime) ==> BestDate(atime, etime, gtime) == gtime
    ensures IsZero(gtime) && !IsZero(etime) ==> BestDate(atime, etime, gtime) == etime
  {
    assert [gtime, etime][1..] == [etime];
    assert [etime][1..] == [];
    assert FirstNonZero([etime], atime) == if !IsZero(etime) then etime else FirstNonZero([], atime);
  }

  /** The comparisons printed for one file, as (shown time, reference time, threshold in
      seconds): atime against etime at 30 s only when etime is set, then the time in use
      (etime if set, else atime) against gtime at 80 s only when gtime is set. */
  function Comparisons(d: MediaDates): seq<(Instant, Instant, int)> {
    var againstG := (t: Instant) => if IsZero(d.gtime) then [] else [(t, d.gtime, 80)];
    if IsZero(d.etime) then againstG(d.atime) else [(d.atime, d.etime, 30)] + againstG(d.etime)
  }

  lemma ComparisonPlan(d: MediaDates)
    ensures |Comparisons(d)| == (if IsZero(d.etime) then 0 else 1) + (if IsZero(d.gtime) then 0 else 1)
    ensures forall k :: 0 <= k < |Comparisons(d)| ==>
              var (t1, t2, sec) := Comparisons(d)[k];
              (sec == 30 && t1 == d.atime && t2 == d.etime && !IsZero(d.etime)) ||
              (sec == 80 && t2 == d.gtime && !IsZero(d.gtime) && t1 == (if IsZero(d.etime) then d.atime else d.etime))
  {
  }

  /** What the driver does with a file whose dates were read. */
  datatype Verdict =
    | NotNecessary  // no match and a position is already there: "Update not necessary"
    | NoClose       // no match and no position: "There is no close time ..."
    | NoUpdate      // a match, but a position is there and no --force: "(no update)"
    | DryRun        // would write, but --dry-run
    | Write         // WriteGPS is called

  /** The sequence of early returns after the match (cmd/updatemedia.go:103-132). */
  function Decide(matched: bool, lat: real, lon: real, force: bool, dryRun: bool): Verdict {
    if !matched then (if lat != 0.0 && lon != 0.0 then NotNecessary else NoClose)
    else if !force && lat != 0.0 && lon != 0.0 then NoUpdate
    else if dryRun then DryRun
    else Write
  }

  /** A write happens exactly for a match, with --force or a missing coordinate, outside
      --dry-run; "Update not necessary" is printed exactly when there is no match and both
      coordinates are present. */
  lemma DecideRule(matched: bool, lat: real, lon: real, force: bool, dryRun: bool)
    ensures Decide(matched, lat, lon, force, dryRun) == Write <==>
              matched && (force || lat == 0.0 || lon == 0.0) && !dryRun
    ensures !matched ==> (Decide(matched, lat, lon, force, dryRun) == NotNecessary <==> lat != 0.0 && lon != 0.0)
    ensures Decide(matched, lat, lon, force, dryRun) in {NotNecessary, NoClose} <==> !matched
    ensures Decide(matched, lat, lon, force, dryRun) == DryRun ==> dryRun
  {
  }
}
