/** lib/gpx.go: the GPX track model, the single-file loader ReadGPX with its one-pass
    validation of the track points, GetTimeFromTrkpt and the ReadTracks driver. */
module Gpx {
  import opened Optional
  import opened Clock

  /** One `trkpt` element. Time is the raw text of its `time` child ("" when absent). */
  datatype Trkpt = Trkpt(Lat: real, Lon: real, Time: string, Ele: real)

  /** A decoded file, `gpx/trk/trkseg/trkpt`, with the single track and segment flattened. */
  datatype Gpx = Gpx(Trkpt: seq<Trkpt>)

  /** The zero value `Trkpt{}`. */
  const ZeroTrkpt: Trkpt := Trkpt(0.0, 0.0, "", 0.0)

  /** The collaborators the loader calls but this model does not contain:
      `parse` is time.Parse with layout "2006-01-02T15:04:05Z" (on non-empty text) and
      `correct` is UpdateGPSDateTime, the time-zone correction at a coordinate. */
  datatype TimeEnv = TimeEnv(parse: string -> Option<Instant>, correct: (Instant, real, real) -> Instant)

  /** distancePoints: the haversine distance in metres between (lat1, lon1) and (lat2, lon2). */
  type Distance = (real, real, real, real) -> real

  /** The jump, in metres, between consecutive points that rejects a track. */
  const MaxJump: real := 21000.0

  function GetTimeFromTrkpt(env: TimeEnv, p: Trkpt): (t: Instant)
    ensures (|p.Time| == 0 || env.parse(p.Time).None?) ==> IsZero(t)
    ensures |p.Time| > 0 && env.parse(p.Time).Some? ==>
              t == env.correct(env.parse(p.Time).value, p.Lat, p.Lon)
  {
    if |p.Time| == 0 then ZeroTime
    else match env.parse(p.Time)
      case None => ZeroTime
      case Some(u) => env.correct(u, p.Lat, p.Lon)
  }

  /** A point the validation loop counts: its corrected time and its coordinates. */
  datatype Fix = Fix(t: Instant, lat: real, lon: real)

  /** The point as the loop sees it: skipped (no Fix) exactly when its corrected time is zero. */
  function Counted(env: TimeEnv, p: Trkpt): seq<Fix> {
    var t := GetTimeFromTrkpt(env, p);
    if IsZero(t) then [] else [Fix(t, p.Lat, p.Lon)]
  }

  /** The points the loop counts, in track order. */
  function Survivors(env: TimeEnv, pts: seq<Trkpt>): seq<Fix> {
    if pts == [] then [] else Survivors(env, pts[..|pts| - 1]) + Counted(env, pts[|pts| - 1])
  }

  /** A consecutive pair of counted points that ends the loop with trackError++:
      time going backwards, a jump over MaxJump, or any second point when `valid` is off. */
  predicate Rejects(dist: Distance, valid: bool, prev: Fix, cur: Fix) {
    cur.t < prev.t || dist(prev.lat, prev.lon, cur.lat, cur.lon) > MaxJump || !valid
  }

  predicate PassesChecks(dist: Distance, valid: bool, s: seq<Fix>) {
    forall i :: 0 < i < |s| ==> !Rejects(dist, valid, s[i - 1], s[i])
  }

  /** Whether ReadGPX stores a decoded track. */
  predicate Accepted(env: TimeEnv, dist: Distance, valid: bool, pts: seq<Trkpt>) {
    var s := Survivors(env, pts);
    PassesChecks(dist, valid, s) && (|s| > 0 || !valid)
  }

  lemma {:induction false} SurvivorsAppend(env: TimeEnv, a: seq<Trkpt>, b: seq<Trkpt>)
    ensures Survivors(env, a + b) == Survivors(env, a) + Survivors(env, b)
    decreases |b|
  {
    if b == [] {
      assert a + b == a;
    } else {
      var n := |b| - 1;
      assert (a + b)[..|a + b| - 1] == a + b[..n];
      assert (a + b)[|a + b| - 1] == b[n];
      SurvivorsAppend(env, a, b[..n]);
    }
  }

  lemma PassesChecksPrefix(dist: Distance, valid: bool, p: seq<Fix>, q: seq<Fix>)
    requires PassesChecks(dist, valid, p + q)
    ensures PassesChecks(dist, valid, p)
  {
    forall i | 0 < i < |p| ensures !Rejects(dist, valid, p[i - 1], p[i]) {
      assert (p + q)[i - 1] == p[i - 1] && (p + q)[i] == p[i];
    }
  }

  /** The validation loop of lines 71-110. It reports whether the loop returned early with
      trackError++ and, when it did not, how many points it counted (`num`). */
  method ScanPoints(env: TimeEnv, dist: Distance, valid: bool, pts: seq<Trkpt>) returns (rejected: bool, num: nat)
    ensures rejected <==> !PassesChecks(dist, valid, Survivors(env, pts))
    ensures !rejected ==> num == |Survivors(env, pts)|
  {
    var oldtrkptTime: Instant := ZeroTime;
    var oldlat, oldlon := 0.0, 0.0;
    num := 0;
    ghost var counted: seq<Fix> := [];
    var i := 0;
    while i < |pts|
      invariant 0 <= i <= |pts|
      invariant counted == Survivors(env, pts[..i])
      invariant num == |counted| && PassesChecks(dist, valid, counted)
      invariant num == 0 <==> IsZero(oldtrkptTime)
      invariant num > 0 ==> counted[num - 1] == Fix(oldtrkptTime, oldlat, oldlon)
    {
      var trkpt := pts[i];
      SurvivorsStep(env, pts, i);
      i := i + 1;
      var trkptTime := PointTime(env, trkpt);
      if IsZero(trkptTime) {
        assert counted + [] == counted;
        continue;
      }
      ghost var fix := Fix(trkptTime, trkpt.Lat, trkpt.Lon);
      var bad := CheckPair(dist, valid, num, oldtrkptTime, oldlat, oldlon, trkptTime, trkpt.Lat, trkpt.Lon);
      if bad {
        rejected := true;
        LastPairRejects(dist, valid, counted, fix);
        RejectionIsFinal(env, dist, valid, pts, i);
        return;
      }
      PassesChecksExtend(dist, valid, counted, fix);
      counted := counted + [fix];
      oldtrkptTime := trkptTime;
      oldlat := trkpt.Lat;
      oldlon := trkpt.Lon;
      num := num + 1;
    }
    assert pts[..i] == pts;
    rejected := false;
  }

  /** Lines 76-87: the point's time, or the zero time (`continue`) when it is empty, does not
      parse, or corrects to zero; the same steps as GetTimeFromTrkpt. */
  method PointTime(env: TimeEnv, trkpt: Trkpt) returns (trkptTime: Instant)
    ensures trkptTime == GetTimeFromTrkpt(env, trkpt)
  {
    if |trkpt.Time| == 0 {
      return ZeroTime;
    }
    var parsed := env.parse(trkpt.Time);
    if parsed.None? {
      return ZeroTime;
    }
    trkptTime := env.correct(parsed.value, trkpt.Lat, trkpt.Lon);
  }

  lemma LastPairRejects(dist: Distance, valid: bool, prev: seq<Fix>, fix: Fix)
    requires |prev| > 0 && Rejects(dist, valid, prev[|prev| - 1], fix)
    ensures !PassesChecks(dist, valid, prev + [fix])
  {
    assert (prev + [fix])[|prev| - 1] == prev[|prev| - 1] && (prev + [fix])[|prev|] == fix;
  }

  /** The two checks of lines 89-103 on the new point, against the last counted one. */
  method CheckPair(dist: Distance, valid: bool, num: nat, oldtrkptTime: Instant, oldlat: real, oldlon: real,
             trkptTime: Instant, lat: real, lon: real) returns (bad: bool)
    requires num == 0 <==> IsZero(oldtrkptTime)
    ensures bad <==> num > 0 && Rejects(dist, valid, Fix(oldtrkptTime, oldlat, oldlon), Fix(trkptTime, lat, lon))
  {
    if num > 0 && trkptTime < oldtrkptTime {
      return true;
    }
    if !IsZero(oldtrkptTime) {
      if dist(oldlat, oldlon, lat, lon) > MaxJump || !valid {
        return true;
      }
    }
    return false;
  }

  lemma SurvivorsStep(env: TimeEnv, pts: seq<Trkpt>, i: nat)
    requires i < |pts|
    ensures Survivors(env, pts[..i + 1]) == Survivors(env, pts[..i]) + Counted(env, pts[i])
  {
    assert pts[..i + 1][..i] == pts[..i];
  }

  lemma PassesChecksExtend(dist: Distance, valid: bool, s: seq<Fix>, f: Fix)
    requires PassesChecks(dist, valid, s)
    requires |s| > 0 ==> !Rejects(dist, valid, s[|s| - 1], f)
    ensures PassesChecks(dist, valid, s + [f])
  {
    var t := s + [f];
    forall i | 0 < i < |t| ensures !Rejects(dist, valid, t[i - 1], t[i]) {
      if i < |s| {
        assert t[i - 1] == s[i - 1] && t[i] == s[i];
      }
    }
  }

  lemma RejectionIsFinal(env: TimeEnv, dist: Distance, valid: bool, pts: seq<Trkpt>, i: nat)
    requires i <= |pts|
    requires !PassesChecks(dist, valid, Survivors(env, pts[..i]))
    ensures !PassesChecks(dist, valid, Survivors(env, pts))
  {
    assert pts == pts[..i] + pts[i..];
    SurvivorsAppend(env, pts[..i], pts[i..]);
    if PassesChecks(dist, valid, Survivors(env, pts)) {
      PassesChecksPrefix(dist, valid, Survivors(env, pts[..i]), Survivors(env, pts[i..]));
    }
  }

  /** What the track source yields for one path: a failing MIME sniff (log.Fatal), a MIME type
      that is neither application/gpx+xml nor text/xml, a failing open (os.Exit), an XML decode
      error, or the decoded file. */
  datatype Source = MimeError | NotGpxMime | OpenError | DecodeError | Decoded(gpx: Gpx)

  predicate IsFatal(src: Source) {
    src.MimeError? || src.OpenError?
  }

  /** The package state ReadGPX updates. */
  datatype LoadState = LoadState(DataGPX: map<string, Gpx>, trackValid: int, trackError: int)

  /** The state ReadGPX leaves behind (lines 45-122). */
  function ReadGPXSpec(env: TimeEnv, dist: Distance, st: LoadState, filename: string, src: Source, valid: bool): LoadState {
    match src
    case Decoded(gpx) =>
      if Accepted(env, dist, valid, gpx.Trkpt)
      then st.(DataGPX := st.DataGPX[filename := gpx], trackValid := st.trackValid + 1)
      else st.(trackError := st.trackError + 1)
    case _ => st
  }

  /** ReadGPXDir's walk: ReadGPX on every regular file in walk order; a fatal file ends the process. */
  function ReadAllSpec(env: TimeEnv, dist: Distance, st: LoadState, files: seq<(string, Source)>, valid: bool): (LoadState, bool)
    decreases |files|
  {
    if files == [] then (st, false)
    else if IsFatal(files[0].1) then (st, true)
    else ReadAllSpec(env, dist, ReadGPXSpec(env, dist, st, files[0].0, files[0].1, valid), files[1..], valid)
  }

  /** The `track` argument of ReadTracks, as os.Stat sees it. */
  datatype TrackArg = StatError | SingleFile(name: string, src: Source) | Directory(files: seq<(string, Source)>)

  class TrackStore {
    var DataGPX: map<string, Gpx>
    var trackValid: int
    var trackError: int

    function State(): LoadState
      reads this
    {
      LoadState(DataGPX, trackValid, trackError)
    }

    /** The package's init(): an empty track map and zero counters. */
    constructor ()
      ensures State() == LoadState(map[], 0, 0)
    {
      DataGPX := map[];
      trackValid := 0;
      trackError := 0;
    }

    method ReadGPX(env: TimeEnv, dist: Distance, filename: string, src: Source, valid: bool) returns (fatal: bool)
      modifies this
      ensures fatal <==> IsFatal(src)
      ensures State() == ReadGPXSpec(env, dist, old(State()), filename, src, valid)
    {
      if src.MimeError? {
        return true;
      }
      if src.NotGpxMime? {
        return false;
      }
      if src.OpenError? {
        return true;
      }
      if src.DecodeError? {
        return false;
      }
      var gpx := src.gpx;
      var rejected, num := ScanPoints(env, dist, valid, gpx.Trkpt);
      if rejected {
        trackError := trackError + 1;
        return false;
      }
      if num > 0 || !valid {
        trackValid := trackValid + 1;
        DataGPX := DataGPX[filename := gpx];
        return false;
      }
      trackError := trackError + 1;
      return false;
    }

    method ReadGPXDir(env: TimeEnv, dist: Distance, files: seq<(string, Source)>, valid: bool) returns (fatal: bool)
      modifies this
      ensures (State(), fatal) == ReadAllSpec(env, dist, old(State()), files, valid)
    {
      var i := 0;
      while i < |files|
        invariant 0 <= i <= |files|
        invariant ReadAllSpec(env, dist, old(State()), files, valid) == ReadAllSpec(env, dist, State(), files[i..], valid)
      {
        assert files[i..][1..] == files[i + 1..];
        fatal := ReadGPX(env, dist, files[i].0, files[i].1, valid);
        if fatal {
          return;
        }
        i := i + 1;
      }
      fatal := false;
    }

    /** ReadTracks: a missing path is fatal, and so is an empty track map afterwards. */
    method ReadTracks(env: TimeEnv, dist: Distance, track: TrackArg, valid: bool) returns (fatal: bool)
      modifies this
      ensures !fatal ==> |DataGPX| > 0
      ensures track.StatError? ==> fatal && State() == old(State())
      ensures track.SingleFile? ==>
                State() == ReadGPXSpec(env, dist, old(State()), track.name, track.src, valid) &&
                (fatal <==> IsFatal(track.src) || |DataGPX| == 0)
      ensures track.Directory? ==>
                var (st, f) := ReadAllSpec(env, dist, old(State()), track.files, valid);
                State() == st && (fatal <==> f || |DataGPX| == 0)
    {
      match track {
        case StatError =>
          return true;
        case SingleFile(name, src) =>
          fatal := ReadGPX(env, dist, name, src, valid);
        case Directory(files) =>
          fatal := ReadGPXDir(env, dist, files, valid);
      }
      if fatal {
        return;
      }
      if |DataGPX| == 0 {
        return true;
      }
    }
  }

  // ----- Properties of the loader -----

  /** A point is skipped exactly when GetTimeFromTrkpt gives the zero time, and then it leaves
      `num` and the `old*` variables alone; otherwise it is counted with that time. */
  lemma {:induction false} SkippedPointsChangeNothing(env: TimeEnv, pts: seq<Trkpt>, p: Trkpt)
    ensures IsZero(GetTimeFromTrkpt(env, p)) ==> Survivors(env, pts + [p]) == Survivors(env, pts)
    ensures !IsZero(GetTimeFromTrkpt(env, p)) ==>
              Survivors(env, pts + [p]) == Survivors(env, pts) + [Fix(GetTimeFromTrkpt(env, p), p.Lat, p.Lon)]
  {
    assert (pts + [p])[..|pts + [p]| - 1] == pts;
  }

  /** Time going backwards between counted points rejects the track; equal times do not. */
  lemma {:induction false} OrderRule(env: TimeEnv, dist: Distance, valid: bool, pts: seq<Trkpt>, i: nat)
    requires 0 < i < |Survivors(env, pts)|
    ensures Survivors(env, pts)[i].t < Survivors(env, pts)[i - 1].t ==> !Accepted(env, dist, valid, pts)
    ensures Accepted(env, dist, valid, pts) ==> Survivors(env, pts)[i - 1].t <= Survivors(env, pts)[i].t
  {
    var s := Survivors(env, pts);
    if Accepted(env, dist, valid, pts) {
      assert !Rejects(dist, valid, s[i - 1], s[i]);
    }
  }

  /** With `valid` off a track is stored iff at most one point survives the filter:
      the second counted point always takes the rejection branch. */
  lemma {:induction false} ValidOffKeepsAtMostOnePoint(env: TimeEnv, dist: Distance, pts: seq<Trkpt>)
    ensures Accepted(env, dist, false, pts) <==> |Survivors(env, pts)| <= 1
  {
    var s := Survivors(env, pts);
    if |s| >= 2 {
      assert Rejects(dist, false, s[0], s[1]);
    }
  }

  /** With `valid` on a track is stored iff some point survives, the counted times never go
      backwards and no consecutive counted points are more than MaxJump apart. */
  lemma {:induction false} ValidOnAcceptance(env: TimeEnv, dist: Distance, pts: seq<Trkpt>)
    ensures Accepted(env, dist, true, pts) <==>
              var s := Survivors(env, pts);
              |s| > 0 &&
              (forall i :: 0 < i < |s| ==> s[i - 1].t <= s[i].t) &&
              (forall i :: 0 < i < |s| ==> dist(s[i - 1].lat, s[i - 1].lon, s[i].lat, s[i].lon) <= MaxJump)
  {
    var s := Survivors(env, pts);
    if Accepted(env, dist, true, pts) {
      forall i | 0 < i < |s| ensures s[i - 1].t <= s[i].t {
        assert !Rejects(dist, true, s[i - 1], s[i]);
      }
      forall i | 0 < i < |s| ensures dist(s[i - 1].lat, s[i - 1].lon, s[i].lat, s[i].lon) <= MaxJump {
        assert !Rejects(dist, true, s[i - 1], s[i]);
      }
    }
  }

  /** A decoded file bumps exactly one of trackValid and trackError, stores the whole decoded
      file (skipped points included) under its own name iff it is accepted, and leaves every
      other entry alone; any other source changes nothing. */
  lemma ReadGPXEffect(env: TimeEnv, dist: Distance, st: LoadState, filename: string, src: Source, valid: bool)
    ensures var r := ReadGPXSpec(env, dist, st, filename, src, valid);
      && (src.Decoded? ==> r.trackValid + r.trackError == st.trackValid + st.trackError + 1)
      && r.trackValid >= st.trackValid && r.trackError >= st.trackError
      && (!src.Decoded? ==> r == st)
      && (src.Decoded? && Accepted(env, dist, valid, src.gpx.Trkpt) ==>
            filename in r.DataGPX && r.DataGPX[filename] == src.gpx && r.trackValid == st.trackValid + 1)
      && (src.Decoded? && !Accepted(env, dist, valid, src.gpx.Trkpt) ==>
            r.DataGPX == st.DataGPX && r.trackError == st.trackError + 1)
      && (forall k :: k != filename ==> (k in r.DataGPX <==> k in st.DataGPX))
      && (forall k :: k != filename && k in st.DataGPX ==> r.DataGPX[k] == st.DataGPX[k])
  {
  }

  /** After a walk every stored key is an old key or the name of a file that was decoded and
      accepted, and the counters grew by at most the number of files read. */
  lemma {:induction false} ReadAllStoresOnlyAccepted(env: TimeEnv, dist: Distance, st: LoadState, files: seq<(string, Source)>, valid: bool)
    ensures var (r, _) := ReadAllSpec(env, dist, st, files, valid);
      && (forall k :: k in r.DataGPX ==>
            k in st.DataGPX ||
            exists j :: 0 <= j < |files| && files[j].0 == k && files[j].1.Decoded? &&
                        Accepted(env, dist, valid, files[j].1.gpx.Trkpt))
      && st.trackValid + st.trackError <= r.trackValid + r.trackError <= st.trackValid + st.trackError + |files|
    decreases |files|
  {
    if files != [] && !IsFatal(files[0].1) {
      var st' := ReadGPXSpec(env, dist, st, files[0].0, files[0].1, valid);
      ReadAllStoresOnlyAccepted(env, dist, st', files[1..], valid);
      var (r, _) := ReadAllSpec(env, dist, st, files, valid);
      forall k | k in r.DataGPX
        ensures k in st.DataGPX ||
                exists j :: 0 <= j < |files| && files[j].0 == k && files[j].1.Decoded? &&
                            Accepted(env, dist, valid, files[j].1.gpx.Trkpt)
      {
        if k !in st'.DataGPX {
          var j :| 0 <= j < |files[1..]| && files[1..][j].0 == k && files[1..][j].1.Decoded? &&
                   Accepted(env, dist, valid, files[1..][j].1.gpx.Trkpt);
          assert files[j + 1] == files[1..][j];
        } else if k !in st.DataGPX {
          assert files[0].0 == k;
        }
      }
    }
  }
}
