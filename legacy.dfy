/** SyncMediaTrack.go: the original single-file program. Tracks are kept in a slice, the matcher
    treats any unparsable point time as fatal, the date falls back to the file time, the
    elevation is an integer, and `main` walks the media directory with `gpsOld` carried from one
    file to the next. */
module Legacy {
  import opened Optional
  import opened Clock
  import opened Nearest
  import Exif

  datatype Trkpt = Trkpt(Lat: real, Lon: real, Time: string, Ele: int)

  datatype Gpx = Gpx(Trkpt: seq<Trkpt>)

  const ZeroTrkpt: Trkpt := Trkpt(0.0, 0.0, "", 0)

  // ===== readGPX and readGPXDir (lines 69-114) =====

  /** What reading one track file meets: MIME detection failing (log.Fatal), another MIME type,
      os.Open failing (os.Exit(1)), the XML decoder failing, or the decoded track. */
  datatype Source = MimeError | NotGpxMime | OpenError | DecodeError | Decoded(gpx: Gpx)

  predicate Exits(src: Source) {
    src.MimeError? || src.OpenError?
  }

  /** `dataGPX` after readGPX, and whether the process exits. */
  function ReadGPXSpec(data: seq<Gpx>, src: Source): (seq<Gpx>, bool) {
    match src
    case Decoded(g) => (data + [g], false)
    case _ => (data, Exits(src))
  }

  /** readGPXDir over the files of the walk, in walk order, until the process exits. */
  function ReadDirSpec(data: seq<Gpx>, files: seq<Source>): (seq<Gpx>, bool)
    decreases |files|
  {
    if files == [] then (data, false)
    else
      var (data', exit) := ReadGPXSpec(data, files[0]);
      if exit then (data', true) else ReadDirSpec(data', files[1..])
  }

  /** The decoded tracks among `files`, in order. */
  function DecodedOf(files: seq<Source>): seq<Gpx>
    decreases |files|
  {
    if files == [] then [] else (if files[0].Decoded? then [files[0].gpx] else []) + DecodedOf(files[1..])
  }

  /** The --track argument: os.Stat failing, a single file, or a directory's files. */
  datatype TrackArg = StatError | SingleFile(src: Source) | Directory(files: seq<Source>)

  /** The loading part of main: `dataGPX` and whether the process has stopped (log.Fatal for a
      failed Stat or an empty slice, or an exit inside readGPX). */
  function LoadSpec(data: seq<Gpx>, track: TrackArg): (seq<Gpx>, bool) {
    var (data', exit) := match track
      case StatError => (data, true)
      case SingleFile(src) => ReadGPXSpec(data, src)
      case Directory(files) => ReadDirSpec(data, files);
    (data', exit || |data'| == 0)
  }

  /** readGPX appends exactly the decoded track of a GPX file and otherwise leaves the slice
      alone; only a MIME detection or open failure ends the process. */
  lemma ReadGPXRule(data: seq<Gpx>, src: Source)
    ensures var (data', exit) := ReadGPXSpec(data, src);
      && (src.Decoded? ==> data' == data + [src.gpx])
      && (!src.Decoded? ==> data' == data)
      && (exit <==> src.MimeError? || src.OpenError?)
  {
  }

  /** A directory without an exit contributes its decoded tracks, in walk order, and nothing else. */
  lemma {:induction false} ReadDirAppendsDecoded(data: seq<Gpx>, files: seq<Source>)
    requires forall i :: 0 <= i < |files| ==> !Exits(files[i])
    ensures ReadDirSpec(data, files) == (data + DecodedOf(files), false)
    decreases |files|
  {
    if files != [] {
      var head := if files[0].Decoded? then [files[0].gpx] else [];
      assert !Exits(files[0]);
      if files[0].Decoded? {
        assert ReadGPXSpec(data, files[0]) == (data + head, false);
      } else {
        assert data + head == data;
        assert ReadGPXSpec(data, files[0]) == (data + head, false);
      }
      assert ReadDirSpec(data, files) == ReadDirSpec(data + head, files[1..]);
      assert forall i :: 0 <= i < |files[1..]| ==> files[1..][i] == files[i + 1];
      ReadDirAppendsDecoded(data + head, files[1..]);
      assert DecodedOf(files) == head + DecodedOf(files[1..]);
      assert (data + head) + DecodedOf(files[1..]) == data + DecodedOf(files);
    } else {
      assert data + DecodedOf(files) == data;
    }
  }

  // ===== GetClosesGPS (lines 169-197) =====

  /** Every point of a track with its distance in time to `imageTime`, or None when some point's
      Time does not parse (an empty Time included), which is log.Fatal. */
  function Timed(parse: string -> Option<Instant>, imageTime: Instant, pts: seq<Trkpt>): (r: Option<seq<Cand<Trkpt>>>)
    ensures r.Some? ==> |r.value| == |pts|
    ensures r.Some? <==> forall i :: 0 <= i < |pts| ==> ParseWith(parse, pts[i].Time).Some?
    ensures r.Some? ==> forall i :: 0 <= i < |pts| ==>
              r.value[i] == Cand(pts[i], Abs(imageTime - ParseWith(parse, pts[i].Time).value))
  {
    if pts == [] then Some([])
    else
      var n := |pts| - 1;
      var prefix := Timed(parse, imageTime, pts[..n]);
      match ParseWith(parse, pts[n].Time)
      case None => None
      case Some(t) =>
        if prefix.None? then None else Some(prefix.value + [Cand(pts[n], Abs(imageTime - t))])
  }

  /** The outcome of the scan: log.Fatal, or the final candidate and whether the error is returned. */
  datatype Outcome = Halted | Closest(c: Cand<Trkpt>, err: bool)

  function MatchFrom(parse: string -> Option<Instant>, imageTime: Instant, c: Cand<Trkpt>, tracks: seq<Gpx>): Outcome
    decreases |tracks|
  {
    if tracks == [] then Closest(c, false)
    else match Timed(parse, imageTime, tracks[0].Trkpt)
      case None => Halted
      case Some(xs) =>
        var c' := Scan(c, xs);
        if c'.dur > Exif.Tolerance then Closest(c', true) else MatchFrom(parse, imageTime, c', tracks[1..])
  }

  /** The inner loop over one track's points; `halted` is log.Fatal. */
  method ScanTrack(parse: string -> Option<Instant>, imageTime: Instant, pts: seq<Trkpt>, point: Trkpt, dur: Duration)
    returns (halted: bool, closestPoint: Trkpt, closestDuration: Duration)
    ensures halted <==> Timed(parse, imageTime, pts).None?
    ensures !halted ==> Cand(closestPoint, closestDuration) == Scan(Cand(point, dur), Timed(parse, imageTime, pts).value)
  {
    closestPoint, closestDuration := point, dur;
    var i := 0;
    while i < |pts|
      invariant 0 <= i <= |pts|
      invariant Timed(parse, imageTime, pts[..i]).Some?
      invariant Cand(closestPoint, closestDuration) == Scan(Cand(point, dur), Timed(parse, imageTime, pts[..i]).value)
    {
      var trkpt := pts[i];
      assert pts[..i + 1][..i] == pts[..i];
      var trkptTime := ParseWith(parse, trkpt.Time);
      if trkptTime.None? {
        assert Timed(parse, imageTime, pts[..i + 1]).None?;
        assert !(ParseWith(parse, pts[i].Time).Some?);
        return true, closestPoint, closestDuration;
      }
      var duration := imageTime - trkptTime.value;
      if duration < 0 {
        duration := -duration;
      }
      if closestDuration == 0 || duration < closestDuration {
        closestPoint := trkpt;
        closestDuration := duration;
      }
      i := i + 1;
    }
    assert pts[..i] == pts;
    halted := false;
  }

  method GetClosesGPS(parse: string -> Option<Instant>, imageTime: Instant, tracks: seq<Gpx>)
    returns (halted: bool, closestPoint: Trkpt, err: bool)
    ensures halted <==> MatchFrom(parse, imageTime, Cand(ZeroTrkpt, 0), tracks).Halted?
    ensures !halted ==> MatchFrom(parse, imageTime, Cand(ZeroTrkpt, 0), tracks).c.point == closestPoint &&
                        MatchFrom(parse, imageTime, Cand(ZeroTrkpt, 0), tracks).err == err
  {
    closestPoint := ZeroTrkpt;
    var closestDuration: Duration := 0;
    var j := 0;
    while j < |tracks|
      invariant 0 <= j <= |tracks|
      invariant MatchFrom(parse, imageTime, Cand(ZeroTrkpt, 0), tracks) ==
                MatchFrom(parse, imageTime, Cand(closestPoint, closestDuration), tracks[j..])
    {
      assert tracks[j..][0] == tracks[j] && tracks[j..][1..] == tracks[j + 1..];
      halted, closestPoint, closestDuration := ScanTrack(parse, imageTime, tracks[j].Trkpt, closestPoint, closestDuration);
      if halted {
        return true, closestPoint, false;
      }
      if closestDuration > Exif.Tolerance {
        return false, closestPoint, true;
      }
      j := j + 1;
    }
    return false, closestPoint, false;
  }

  /** A point without a time in a track the scan reaches is fatal: the old matcher does not skip
      empty times. */
  lemma UntimedPointIsFatal(parse: string -> Option<Instant>, imageTime: Instant, c: Cand<Trkpt>, tracks: seq<Gpx>, i: nat)
    requires tracks != [] && i < |tracks[0].Trkpt| && tracks[0].Trkpt[i].Time == ""
    ensures MatchFrom(parse, imageTime, c, tracks) == Halted
  {
  }

  /** The same per-track 30 s rule as the library matcher: the error comes exactly with a candidate
      more than 30 s away, and without it every point of every track parsed and was offered in
      turn to the zero-sentinel rule. */
  lemma {:induction false} MatchRules(parse: string -> Option<Instant>, imageTime: Instant, c: Cand<Trkpt>, tracks: seq<Gpx>)
    requires c.dur <= Exif.Tolerance
    ensures var r := MatchFrom(parse, imageTime, c, tracks);
      && (r.Closest? ==> (r.err <==> r.c.dur > Exif.Tolerance))
      && (r.Closest? && !r.err ==>
            (forall k, i :: 0 <= k < |tracks| && 0 <= i < |tracks[k].Trkpt| ==> ParseWith(parse, tracks[k].Trkpt[i].Time).Some?) &&
            r.c == Scan(c, AllCands(parse, imageTime, tracks)))
    decreases |tracks|
  {
    if tracks != [] {
      var t := Timed(parse, imageTime, tracks[0].Trkpt);
      if t.Some? {
        var c' := Scan(c, t.value);
        if c'.dur <= Exif.Tolerance {
          MatchRules(parse, imageTime, c', tracks[1..]);
          var r := MatchFrom(parse, imageTime, c', tracks[1..]);
          if r.Closest? && !r.err {
            ScanConcat(c, t.value, AllCands(parse, imageTime, tracks[1..]));
            AllParseCons(parse, imageTime, tracks);
          }
        }
      }
    }
  }

  /** Every point parses when those of the first track do and those of the others do. */
  lemma AllParseCons(parse: string -> Option<Instant>, imageTime: Instant, tracks: seq<Gpx>)
    requires tracks != [] && Timed(parse, imageTime, tracks[0].Trkpt).Some?
    requires forall k, i :: 0 <= k < |tracks[1..]| && 0 <= i < |tracks[1..][k].Trkpt| ==>
               ParseWith(parse, tracks[1..][k].Trkpt[i].Time).Some?
    ensures forall k, i :: 0 <= k < |tracks| && 0 <= i < |tracks[k].Trkpt| ==>
              ParseWith(parse, tracks[k].Trkpt[i].Time).Some?
  {
    forall k, i | 0 <= k < |tracks| && 0 <= i < |tracks[k].Trkpt|
      ensures ParseWith(parse, tracks[k].Trkpt[i].Time).Some?
    {
      if k > 0 {
        assert tracks[k] == tracks[1..][k - 1];
      }
    }
  }

  /** Every point of every track, for tracks that all parse (empty where one does not). */
  function AllCands(parse: string -> Option<Instant>, imageTime: Instant, tracks: seq<Gpx>): seq<Cand<Trkpt>>
    decreases |tracks|
  {
    if tracks == [] then []
    else
      var t := Timed(parse, imageTime, tracks[0].Trkpt);
      (if t.Some? then t.value else []) + AllCands(parse, imageTime, tracks[1..])
  }

  // ===== GetMediaDate (lines 116-167) =====

  /** What the old GetMediaDate learns about one file. */
  datatype MediaInput = MediaInput(statOk: bool, modTime: Instant, exiftoolOk: bool, meta: Exif.Meta)

  /** The returned date: the first date tag that parses, else the modification time. */
  function MediaDate(parseDate: string -> Option<Instant>, m: MediaInput): Instant {
    match Exif.FirstDate(parseDate, m.meta.tags, Exif.DateTags)
    case Some(t) => t
    case None => m.modTime
  }

  /** The position after the call: untouched on an error, otherwise the coordinates read and the
      altitude digits before " m" when they parse as an int. */
  function GpsAfter(m: MediaInput, gps: Trkpt): Trkpt {
    if !m.statOk || !m.exiftoolOk then gps
    else
      var ele := if "GPSAltitude" in m.meta.tags && Exif.ParseAltitude(m.meta.tags["GPSAltitude"]).Some?
                 then Exif.ParseAltitude(m.meta.tags["GPSAltitude"]).value else gps.Ele;
      gps.(Lon := m.meta.GPSLongitude, Lat := m.meta.GPSLatitude, Ele := ele)
  }

  /** `failed` is the returned error, `t` the value left in `*t`. */
  method GetMediaDate(parseDate: string -> Option<Instant>, m: MediaInput, t: Instant, gps: Trkpt)
    returns (failed: bool, tOut: Instant, gpsOut: Trkpt)
    ensures failed <==> !m.statOk || !m.exiftoolOk
    ensures !failed ==> tOut == MediaDate(parseDate, m)
    ensures gpsOut == GpsAfter(m, gps)
  {
    tOut, gpsOut := t, gps;
    if !m.statOk {
      return true, tOut, gpsOut;
    }
    tOut := m.modTime;
    if !m.exiftoolOk {
      return true, tOut, gpsOut;
    }
    var metas := m.meta;
    gpsOut := gpsOut.(Lon := metas.GPSLongitude, Lat := metas.GPSLatitude);
    if "GPSAltitude" in metas.tags {
      var alt := Exif.ParseAltitude(metas.tags["GPSAltitude"]);
      if alt.Some? {
        gpsOut := gpsOut.(Ele := alt.value);
      }
    }
    var k := 0;
    while k < |Exif.DateTags|
      invariant 0 <= k <= |Exif.DateTags|
      invariant Exif.FirstDate(parseDate, metas.tags, Exif.DateTags) == Exif.FirstDate(parseDate, metas.tags, Exif.DateTags[k..])
      invariant tOut == m.modTime
    {
      assert Exif.DateTags[k..][1..] == Exif.DateTags[k + 1..];
      var tag := Exif.DateTags[k];
      k := k + 1;
      if tag !in metas.tags {
        continue;
      }
      var val := metas.tags[tag];
      if val != "" {
        var date := parseDate(val);
        if date.None? {
          continue;
        }
        tOut := date.value;
        return false, tOut, gpsOut;
      }
    }
    return false, tOut, gpsOut;
  }

  /** When no date tag is present, non-empty and parseable the date is the modification time;
      otherwise it is the first such tag in the order DateTimeOriginal, DateTime,
      DateTimeDigitized. */
  lemma MediaDatePrecedence(parseDate: string -> Option<Instant>, m: MediaInput)
    ensures (forall k :: 0 <= k < |Exif.DateTags| ==> Exif.DateIn(parseDate, m.meta.tags, Exif.DateTags[k]).None?) ==>
              MediaDate(parseDate, m) == m.modTime
    ensures Exif.DateIn(parseDate, m.meta.tags, "DateTimeOriginal").Some? ==>
              MediaDate(parseDate, m) == Exif.DateIn(parseDate, m.meta.tags, "DateTimeOriginal").value
    ensures Exif.DateIn(parseDate, m.meta.tags, "DateTimeOriginal").None? && Exif.DateIn(parseDate, m.meta.tags, "DateTime").Some? ==>
              MediaDate(parseDate, m) == Exif.DateIn(parseDate, m.meta.tags, "DateTime").value
    ensures Exif.DateIn(parseDate, m.meta.tags, "DateTimeOriginal").None? && Exif.DateIn(parseDate, m.meta.tags, "DateTime").None? &&
            Exif.DateIn(parseDate, m.meta.tags, "DateTimeDigitized").Some? ==>
              MediaDate(parseDate, m) == Exif.DateIn(parseDate, m.meta.tags, "DateTimeDigitized").value
  {
    Exif.FirstDatePrecedence(parseDate, m.meta.tags, Exif.DateTags);
    assert Exif.DateTags[0] == "DateTimeOriginal" && Exif.DateTags[1..][0] == "DateTime";
    assert Exif.DateTags[1..][1..] == ["DateTimeDigitized"];
  }

  // ===== WriteGPS (lines 199-246) =====

  /** exiftool failing to start or to read the file returns an error; then the letters are chosen,
      and an unparsable Time is log.Fatal; the elevation is written as it is. */
  function WriteGPS(parse: string -> Option<Instant>, gps: Trkpt, toolOk: bool): (r: Exif.WriteResult)
    ensures r.Written? ==> (r.tags.GPSLatitudeRef == "S" <==> gps.Lat >= 0.0) && (r.tags.GPSLongitudeRef == "W" <==> gps.Lon >= 0.0)
  {
    if !toolOk then Exif.ToolError
    else
      var (latRef, lonRef) := Exif.RefLetters(gps.Lat, gps.Lon);
      match ParseWith(parse, gps.Time)
      case None => Exif.Fatal
      case Some(t) => Exif.Written(Exif.GpsTags(t, gps.Lat, gps.Lon, gps.Ele, "above sea level", latRef, lonRef))
  }

  // ===== main (lines 259-339) =====

  /** The layouts, exiftool's usability for writing each path, and the flags. */
  datatype Env = Env(parseTrack: string -> Option<Instant>, parseDate: string -> Option<Instant>,
                     toolOk: string -> bool, force: bool, dryRun: bool)

  datatype Entry = DirEntry | NotMedia | RelError | MediaFile(path: string, m: MediaInput)

  datatype RunState = RunState(gpsOld: Trkpt, writes: seq<(string, Exif.GpsTags)>)

  datatype Signal = Next | WalkError | Halt

  /** The walk callback on one entry, against the loaded tracks. */
  function FileStep(env: Env, data: seq<Gpx>, st: RunState, e: Entry): (RunState, Signal) {
    match e
    case DirEntry => (st, Next)
    case NotMedia => (st, Next)
    case RelError => (st, WalkError)
    case MediaFile(path, m) =>
      var g := GpsAfter(m, st.gpsOld);
      var st1 := st.(gpsOld := g);
      if !m.statOk || !m.exiftoolOk then (st1, Next)
      else match MatchFrom(env.parseTrack, MediaDate(env.parseDate, m), Cand(ZeroTrkpt, 0), data)
        case Halted => (st1, Halt)
        case Closest(c, err) =>
          if err then (st1, Next)
          else if !env.force && g.Lat != 0.0 && g.Lon != 0.0 then (st1, Next)
          else if env.dryRun then (st1, Next)
          else match WriteGPS(env.parseTrack, c.point, env.toolOk(path))
            case Fatal => (st1, Halt)
            case ToolError => (st1, Next)
            case Written(tags) => (RunState(g, st.writes + [(path, tags)]), Next)
  }

  function WalkSpec(env: Env, data: seq<Gpx>, st: RunState, entries: seq<Entry>): (RunState, Signal)
    decreases |entries|
  {
    if entries == [] then (st, Next)
    else
      var (st', sig) := FileStep(env, data, st, entries[0]);
      if sig != Next then (st', sig) else WalkSpec(env, data, st', entries[1..])
  }

  class SyncRun {
    var dataGPX: seq<Gpx>
    var gpsOld: Trkpt
    var writes: seq<(string, Exif.GpsTags)>

    function State(): RunState
      reads this
    {
      RunState(gpsOld, writes)
    }

    constructor ()
      ensures dataGPX == [] && State() == RunState(ZeroTrkpt, [])
    {
      dataGPX := [];
      gpsOld := ZeroTrkpt;
      writes := [];
    }

    /** readGPX; `exit` is log.Fatal or os.Exit(1). */
    method ReadGPX(src: Source) returns (exit: bool)
      modifies this
      ensures (dataGPX, exit) == ReadGPXSpec(old(dataGPX), src)
      ensures State() == old(State())
    {
      match src
      case MimeError => return true;
      case NotGpxMime => return false;
      case OpenError => return true;
      case DecodeError => return false;
      case Decoded(g) =>
        dataGPX := dataGPX + [g];
        return false;
    }

    method ReadGPXDir(files: seq<Source>) returns (exit: bool)
      modifies this
      ensures (dataGPX, exit) == ReadDirSpec(old(dataGPX), files)
      ensures State() == old(State())
    {
      var i := 0;
      while i < |files|
        invariant 0 <= i <= |files|
        invariant ReadDirSpec(old(dataGPX), files) == ReadDirSpec(dataGPX, files[i..])
        invariant State() == old(State())
      {
        assert files[i..][0] == files[i] && files[i..][1..] == files[i + 1..];
        exit := ReadGPX(files[i]);
        if exit {
          return;
        }
        i := i + 1;
      }
      return false;
    }

    /** The walk callback on one entry. */
    method ProcessFile(env: Env, e: Entry) returns (sig: Signal)
      modifies this
      ensures (State(), sig) == FileStep(env, old(dataGPX), old(State()), e)
      ensures dataGPX == old(dataGPX)
    {
      match e
      case DirEntry => return Next;
      case NotMedia => return Next;
      case RelError => return WalkError;
      case MediaFile(path, m) =>
        var date := ZeroTime;
        var failed;
        failed, date, gpsOld := GetMediaDate(env.parseDate, m, date, gpsOld);
        if failed {
          return Next;
        }
        var halted, location, err := GetClosesGPS(env.parseTrack, date, dataGPX);
        if halted {
          return Halt;
        }
        if err {
          return Next;
        }
        if !env.force && gpsOld.Lat != 0.0 && gpsOld.Lon != 0.0 {
          return Next;
        }
        if env.dryRun {
          return Next;
        }
        var r := WriteGPS(env.parseTrack, location, env.toolOk(path));
        if r.Fatal? {
          return Halt;
        }
        if r.Written? {
          writes := writes + [(path, r.tags)];
        }
        return Next;
    }

    /** main after the command line is parsed: load the tracks, stop when none was loaded, then
        walk the media directory. `stopped` is any log.Fatal or exit. */
    method Run(env: Env, track: TrackArg, entries: seq<Entry>) returns (stopped: bool)
      requires dataGPX == [] && State() == RunState(ZeroTrkpt, [])
      modifies this
      ensures dataGPX == LoadSpec([], track).0
      ensures LoadSpec([], track).1 ==> stopped && State() == RunState(ZeroTrkpt, [])
      ensures !LoadSpec([], track).1 ==>
                State() == WalkSpec(env, dataGPX, RunState(ZeroTrkpt, []), entries).0 &&
                (stopped <==> WalkSpec(env, dataGPX, RunState(ZeroTrkpt, []), entries).1 == Halt)
    {
      var exit := false;
      match track {
        case StatError => return true;
        case SingleFile(src) => exit := ReadGPX(src);
        case Directory(files) => exit := ReadGPXDir(files);
      }
      if exit || |dataGPX| == 0 {
        return true;
      }
      var i := 0;
      while i < |entries|
        invariant 0 <= i <= |entries|
        invariant dataGPX == LoadSpec([], track).0
        invariant WalkSpec(env, dataGPX, RunState(ZeroTrkpt, []), entries) == WalkSpec(env, dataGPX, State(), entries[i..])
      {
        assert entries[i..][0] == entries[i] && entries[i..][1..] == entries[i + 1..];
        var sig := ProcessFile(env, entries[i]);
        if sig != Next {
          return sig == Halt;
        }
        i := i + 1;
      }
      return false;
    }
  }

  /** A file gets new tags exactly when its dates were read, the scan neither halted nor erred,
      the position now in `gpsOld` lacks a coordinate or --force is set, --dry-run is off and
      WriteGPS succeeds; `gpsOld` is what GetMediaDate left, even on an error. */
  lemma WriteRule(env: Env, data: seq<Gpx>, st: RunState, path: string, m: MediaInput)
    ensures var (st', sig) := FileStep(env, data, st, MediaFile(path, m));
      var g := GpsAfter(m, st.gpsOld);
      var r := MatchFrom(env.parseTrack, MediaDate(env.parseDate, m), Cand(ZeroTrkpt, 0), data);
      && st'.gpsOld == g
      && (st'.writes != st.writes <==>
            m.statOk && m.exiftoolOk && r.Closest? && !r.err && (env.force || g.Lat == 0.0 || g.Lon == 0.0) &&
            !env.dryRun && WriteGPS(env.parseTrack, r.c.point, env.toolOk(path)).Written?)
      && (st'.writes == st.writes ||
            st'.writes == st.writes + [(path, WriteGPS(env.parseTrack, r.c.point, env.toolOk(path)).tags)])
  {
  }
}
