/** cmd/updatemedia.go: the `updatemedia` command. For every media file of the walk it reads the
    three times and the embedded position into the package-level `gpsOld`, picks the reference
    time, asks the matcher for a track position and decides whether to write it. */
module UpdateMedia {
  import opened Optional
  import opened Clock
  import opened Gpx
  import opened Exif
  import opened Decision

  /** compareDates: the shown time is highlighted when the two times are more than `sec` seconds
      apart, in either direction. */
  predicate Highlight(t1: Instant, t2: Instant, sec: int) {
    Abs(t1 - t2) > sec * Second
  }

  /** The comparison is symmetric and strict: exactly `sec` seconds apart is not highlighted,
      one nanosecond more is. */
  lemma HighlightThreshold(t1: Instant, t2: Instant, sec: nat)
    ensures Highlight(t1, t2, sec) == Highlight(t2, t1, sec)
    ensures !Highlight(t1, t1 + sec * Second, sec) && !Highlight(t1 + sec * Second, t1, sec)
    ensures Highlight(t1, t1 + sec * Second + 1, sec)
  {
  }

  /** The matcher the driver calls as `GetClosesGPS(date, &location)`: whether a position was
      found for the time, and the position. */
  type Matcher = Instant -> (bool, Trkpt)

  /** Everything outside the callback: the time sources, the WriteGPS time layout, the matcher,
      whether exiftool can write a given path, and the --force and --dry-run flags. */
  datatype Env = Env(xenv: ExifEnv, fill: Filler, parse: string -> Option<Instant>, matcher: Matcher,
                     toolOk: string -> bool, force: bool, dryRun: bool)

  /** One entry of the directory walk. */
  datatype Entry = DirEntry | NotMedia | RelError | MediaFile(path: string, m: MediaInput)

  /** The state that survives from one file to the next: `gpsOld`, and the GPS tags written so far. */
  datatype RunState = RunState(gpsOld: Trkpt, writes: seq<(string, GpsTags)>)

  /** How the callback ends: return nil, return an error (the walk stops), or log.Fatal. */
  datatype Signal = Next | WalkError | Halt

  /** The callback of lines 61-139 on one entry. */
  function FileStep(env: Env, st: RunState, e: Entry): (RunState, Signal) {
    match e
    case DirEntry => (st, Next)
    case NotMedia => (st, Next)
    case RelError => (st, WalkError)
    case MediaFile(path, m) =>
      var (dates, failed) := DatesOf(env.xenv, env.fill, m);
      var g := GpsAfter(env.fill, m, st.gpsOld);
      if failed then (st.(gpsOld := g), Next)
      else
        var (matched, location) := env.matcher(BestDate(dates.atime, dates.etime, dates.gtime));
        if Decide(matched, g.Lat, g.Lon, env.force, env.dryRun) != Write then (st.(gpsOld := g), Next)
        else match WriteGPS(env.parse, location, env.toolOk(path))
          case Fatal => (st.(gpsOld := g), Halt)
          case ToolError => (st.(gpsOld := g), Next)
          case Written(tags) => (RunState(g, st.writes + [(path, tags)]), Next)
  }

  /** The walk from state `st`: entries in order until one does not return nil. */
  function WalkSpec(env: Env, st: RunState, entries: seq<Entry>): (RunState, Signal)
    decreases |entries|
  {
    if entries == [] then (st, Next)
    else
      var (st', sig) := FileStep(env, st, entries[0]);
      if sig != Next then (st', sig) else WalkSpec(env, st', entries[1..])
  }

  class MediaRun {
    var gpsOld: Trkpt
    var writes: seq<(string, GpsTags)>

    function State(): RunState
      reads this
    {
      RunState(gpsOld, writes)
    }

    constructor ()
      ensures State() == RunState(ZeroTrkpt, [])
    {
      gpsOld := ZeroTrkpt;
      writes := [];
    }

    /** The walk callback on one entry. */
    method ProcessFile(env: Env, e: Entry) returns (sig: Signal)
      modifies this
      ensures (State(), sig) == FileStep(env, old(State()), e)
    {
      match e
      case DirEntry => return Next;
      case NotMedia => return Next;
      case RelError => return WalkError;
      case MediaFile(path, m) =>
        var dates, failed, g := GetMediaDate(env.xenv, env.fill, m, gpsOld);
        gpsOld := g;
        if failed {
          return Next;
        }
        var date := BestDate(dates.atime, dates.etime, dates.gtime);
        var (matched, location) := env.matcher(date);
        if !matched {
          return Next;
        }
        if !env.force && gpsOld.Lat != 0.0 && gpsOld.Lon != 0.0 {
          return Next;
        }
        if env.dryRun {
          return Next;
        }
        var r := WriteGPS(env.parse, location, env.toolOk(path));
        if r.Fatal? {
          return Halt;
        }
        if r.Written? {
          writes := writes + [(path, r.tags)];
        }
        return Next;
    }

    /** MExecute once the tracks are loaded: log.Fatal when none was processed, then the walk.
        A walk error is printed and MExecute returns; `fatal` reports log.Fatal. */
    method MExecute(env: Env, trackCount: nat, entries: seq<Entry>) returns (fatal: bool)
      modifies this
      ensures trackCount == 0 ==> fatal && State() == old(State())
      ensures trackCount > 0 ==> State() == WalkSpec(env, old(State()), entries).0 &&
                                 (fatal <==> WalkSpec(env, old(State()), entries).1 == Halt)
    {
      if trackCount == 0 {
        return true;
      }
      var i := 0;
      while i < |entries|
        invariant 0 <= i <= |entries|
        invariant WalkSpec(env, old(State()), entries) == WalkSpec(env, State(), entries[i..])
      {
        assert entries[i..][0] == entries[i] && entries[i..][1..] == entries[i + 1..];
        var sig := ProcessFile(env, entries[i]);
        if sig != Next {
          return sig == Halt;
        }
        i := i + 1;
      }
      return false;
    }
  }

  /** A file gets new GPS tags exactly when its dates were read, the decision on the position now
      in `gpsOld` is Write, and WriteGPS succeeds; the tags are those WriteGPS computes for the
      matched location. */
  lemma WriteRule(env: Env, st: RunState, path: string, m: MediaInput)
    ensures var (st', sig) := FileStep(env, st, MediaFile(path, m));
      var (dates, failed) := DatesOf(env.xenv, env.fill, m);
      var g := GpsAfter(env.fill, m, st.gpsOld);
      var (matched, location) := env.matcher(BestDate(dates.atime, dates.etime, dates.gtime));
      && st'.gpsOld == g
      && (st'.writes != st.writes <==>
            !failed && matched && (env.force || g.Lat == 0.0 || g.Lon == 0.0) && !env.dryRun &&
            WriteGPS(env.parse, location, env.toolOk(path)).Written?)
      && (st'.writes == st.writes ||
            st'.writes == st.writes + [(path, WriteGPS(env.parse, location, env.toolOk(path)).tags)])
      && (sig == Halt ==> location.Time == "" || env.parse(location.Time).None?)
  {
    var (dates, failed) := DatesOf(env.xenv, env.fill, m);
    var g := GpsAfter(env.fill, m, st.gpsOld);
    var (matched, location) := env.matcher(BestDate(dates.atime, dates.etime, dates.gtime));
    DecideRule(matched, g.Lat, g.Lon, env.force, env.dryRun);
  }

  /** `gpsOld` is never reset: a file that does not reach the metadata (a video with a
      telemetry fix, or an error) leaves the previous file's position in place, and a file
      without a readable altitude keeps the previous file's elevation. */
  lemma PositionCarriedOver(env: Env, st: RunState, path: string, m: MediaInput)
    ensures var st' := FileStep(env, st, MediaFile(path, m)).0;
      && (!ReachesMetadata(env.fill, m) ==> st'.gpsOld == st.gpsOld)
      && (ReachesMetadata(env.fill, m) ==>
            st'.gpsOld.Lat == m.meta.GPSLatitude && st'.gpsOld.Lon == m.meta.GPSLongitude &&
            st'.gpsOld.Time == st.gpsOld.Time &&
            ("GPSAltitude" !in m.meta.tags ==> st'.gpsOld.Ele == st.gpsOld.Ele))
  {
  }

  /** Hence a video with a telemetry fix that follows a file with a position is never written
      without --force, whatever the matcher finds. */
  lemma PreviousPositionBlocksVideo(env: Env, st: RunState, path: string, m: MediaInput)
    requires m.statOk && VideoFix(env.fill, m) && !env.force
    requires st.gpsOld.Lat != 0.0 && st.gpsOld.Lon != 0.0
    ensures FileStep(env, st, MediaFile(path, m)) == (st, Next)
  {
  }

  /** The walk only appends to the written tags, and each entry is the path of a media file. */
  lemma {:induction false} WritesOnlyAppended(env: Env, st: RunState, entries: seq<Entry>)
    ensures var w := WalkSpec(env, st, entries).0.writes;
      && |st.writes| <= |w| && w[..|st.writes|] == st.writes
      && forall k :: |st.writes| <= k < |w| ==> exists j :: 0 <= j < |entries| && entries[j].MediaFile? && entries[j].path == w[k].0
    decreases |entries|
  {
    if entries != [] {
      var (st', sig) := FileStep(env, st, entries[0]);
      assert |st.writes| <= |st'.writes| && st'.writes[..|st.writes|] == st.writes;
      assert forall k :: |st.writes| <= k < |st'.writes| ==> entries[0].MediaFile? && entries[0].path == st'.writes[k].0;
      if sig == Next {
        WritesOnlyAppended(env, st', entries[1..]);
        var w := WalkSpec(env, st, entries).0.writes;
        assert w[..|st'.writes|] == st'.writes;
        assert w[..|st.writes|] == st'.writes[..|st.writes|];
        forall k | |st'.writes| <= k < |w|
          ensures exists j :: 0 <= j < |entries| && entries[j].MediaFile? && entries[j].path == w[k].0
        {
          var j :| 0 <= j < |entries[1..]| && entries[1..][j].MediaFile? && entries[1..][j].path == w[k].0;
          assert entries[j + 1] == entries[1..][j];
        }
        forall k | |st.writes| <= k < |st'.writes|
          ensures exists j :: 0 <= j < |entries| && entries[j].MediaFile? && entries[j].path == w[k].0
        {
          assert w[k] == st'.writes[k];
          assert entries[0].MediaFile? && entries[0].path == w[k].0;
        }
      }
    }
  }

  /** A walk error or a log.Fatal ends the walk: the entries after it are not visited. */
  lemma {:induction false} WalkStops(env: Env, st: RunState, entries: seq<Entry>, later: seq<Entry>)
    requires WalkSpec(env, st, entries).1 != Next
    ensures WalkSpec(env, st, entries + later) == WalkSpec(env, st, entries)
    decreases |entries|
  {
    assert (entries + later)[0] == entries[0];
    assert (entries + later)[1..] == entries[1..] + later;
    var (st', sig) := FileStep(env, st, entries[0]);
    if sig == Next {
      WalkStops(env, st', entries[1..], later);
    }
  }
}
