/** lib/exif.go: the nearest-point matcher GetClosesGPS, the time sources of GetMediaDate
    (telemetry fix, GPS time stamp, date-tag precedence, altitude digits), the reference
    letters and tag values of WriteGPS, and the first-fix search of getTimeFromMP4. */
module Exif {
  import opened Optional
  import opened Clock
  import opened Gpx
  import opened Nearest

  // ===== GetClosesGPS (lines 84-116) =====

  /** The tolerance checked after each track: `closestDuration.Seconds() > 30`. */
  const Tolerance: Duration := 30 * Second

  /** The zero `closestPoint` and zero `closestDuration` the scan starts from. */
  const NoCandidate: Cand<Trkpt> := Cand(ZeroTrkpt, 0)

  /** The points of one track the scan looks at -- those whose Time is non-empty and parses --
      each with its absolute distance in time to `imageTime`, in track order. */
  function Timed(parse: string -> Option<Instant>, imageTime: Instant, pts: seq<Trkpt>): (xs: seq<Cand<Trkpt>>)
    ensures forall i :: 0 <= i < |xs| ==>
              xs[i].point in pts && |xs[i].point.Time| > 0 && parse(xs[i].point.Time).Some? &&
              xs[i].dur == Abs(imageTime - parse(xs[i].point.Time).value)
    ensures forall i :: 0 <= i < |pts| && |pts[i].Time| > 0 && parse(pts[i].Time).Some? ==>
              Cand(pts[i], Abs(imageTime - parse(pts[i].Time).value)) in xs
    ensures |xs| <= |pts|
  {
    if pts == [] then []
    else
      var p := pts[|pts| - 1];
      Timed(parse, imageTime, pts[..|pts| - 1]) + TimedOne(parse, imageTime, p)
  }

  /** What the scan over `tracks` returns when it starts from candidate `c`: the final candidate
      and whether the per-track tolerance check returned the error. */
  function MatchFrom(parse: string -> Option<Instant>, imageTime: Instant, c: Cand<Trkpt>, tracks: seq<Gpx>): (Cand<Trkpt>, bool)
    decreases |tracks|
  {
    if tracks == [] then (c, false)
    else
      var c' := Scan(c, Timed(parse, imageTime, tracks[0].Trkpt));
      if c'.dur > Tolerance then (c', true) else MatchFrom(parse, imageTime, c', tracks[1..])
  }

  /** Every timed point of every track, in scan order. */
  function AllTimed(parse: string -> Option<Instant>, imageTime: Instant, tracks: seq<Gpx>): seq<Cand<Trkpt>>
    decreases |tracks|
  {
    if tracks == [] then [] else Timed(parse, imageTime, tracks[0].Trkpt) + AllTimed(parse, imageTime, tracks[1..])
  }

  /** One more point extends the timed list by that point or by nothing. */
  function TimedOne(parse: string -> Option<Instant>, imageTime: Instant, p: Trkpt): seq<Cand<Trkpt>> {
    if |p.Time| == 0 || parse(p.Time).None? then [] else [Cand(p, Abs(imageTime - parse(p.Time).value))]
  }

  lemma TimedStep(parse: string -> Option<Instant>, imageTime: Instant, pts: seq<Trkpt>, i: nat)
    requires i < |pts|
    ensures Timed(parse, imageTime, pts[..i + 1]) == Timed(parse, imageTime, pts[..i]) + TimedOne(parse, imageTime, pts[i])
  {
    assert pts[..i + 1][..i] == pts[..i];
  }

  /** Scanning the timed form of one point offers it, or leaves the candidate when it is untimed. */
  lemma OfferTimed(parse: string -> Option<Instant>, imageTime: Instant, c: Cand<Trkpt>, p: Trkpt)
    ensures Scan(c, TimedOne(parse, imageTime, p)) ==
      if |p.Time| == 0 || parse(p.Time).None? then c else Offer(c, Cand(p, Abs(imageTime - parse(p.Time).value)))
  {
    if !(|p.Time| == 0 || parse(p.Time).None?) {
      var x := Cand(p, Abs(imageTime - parse(p.Time).value));
      assert [x][..0] == [];
    }
  }

  /** The inner loop of GetClosesGPS over one track's points. */
  method ScanTrack(parse: string -> Option<Instant>, imageTime: Instant, pts: seq<Trkpt>, point: Trkpt, dur: Duration)
    returns (closestPoint: Trkpt, closestDuration: Duration)
    ensures Cand(closestPoint, closestDuration) == Scan(Cand(point, dur), Timed(parse, imageTime, pts))
  {
    closestPoint, closestDuration := point, dur;
    var i := 0;
    while i < |pts|
      invariant 0 <= i <= |pts|
      invariant Cand(closestPoint, closestDuration) == Scan(Cand(point, dur), Timed(parse, imageTime, pts[..i]))
    {
      ScanStep(parse, imageTime, Cand(point, dur), pts, i);
      closestPoint, closestDuration := ConsiderPoint(parse, imageTime, pts[i], closestPoint, closestDuration);
      i := i + 1;
    }
    assert pts[..i] == pts;
  }

  /** One pass of the loop body of lines 86-108: untimed or unparsable points are skipped, any
      other is offered to the candidate. */
  method ConsiderPoint(parse: string -> Option<Instant>, imageTime: Instant, trkpt: Trkpt, point: Trkpt, dur: Duration)
    returns (closestPoint: Trkpt, closestDuration: Duration)
    ensures Cand(closestPoint, closestDuration) == Scan(Cand(point, dur), TimedOne(parse, imageTime, trkpt))
  {
    OfferTimed(parse, imageTime, Cand(point, dur), trkpt);
    closestPoint, closestDuration := point, dur;
    if |trkpt.Time| == 0 {
      return;
    }
    var trkptTime := parse(trkpt.Time);
    if trkptTime.None? {
      return;
    }
    var duration := imageTime - trkptTime.value;
    if duration < 0 {
      duration := -duration;
    }
    if closestDuration == 0 || duration < closestDuration {
      closestPoint := trkpt;
      closestDuration := duration;
    }
  }

  /** Scanning a prefix one point longer offers that point's timed form last. */
  lemma ScanStep(parse: string -> Option<Instant>, imageTime: Instant, c: Cand<Trkpt>, pts: seq<Trkpt>, i: nat)
    requires i < |pts|
    ensures Scan(c, Timed(parse, imageTime, pts[..i + 1])) ==
            Scan(Scan(c, Timed(parse, imageTime, pts[..i])), TimedOne(parse, imageTime, pts[i]))
  {
    TimedStep(parse, imageTime, pts, i);
    ScanConcat(c, Timed(parse, imageTime, pts[..i]), TimedOne(parse, imageTime, pts[i]));
  }

  /** GetClosesGPS over the loaded tracks, in the order the map iteration yields them.
      `err` is the returned error "There is no close time to obtain the GPS position". */
  method GetClosesGPS(parse: string -> Option<Instant>, imageTime: Instant, tracks: seq<Gpx>) returns (closestPoint: Trkpt, err: bool)
    ensures var (c, e) := MatchFrom(parse, imageTime, NoCandidate, tracks); closestPoint == c.point && err == e
  {
    closestPoint := ZeroTrkpt;
    var closestDuration: Duration := 0;
    var j := 0;
    while j < |tracks|
      invariant 0 <= j <= |tracks|
      invariant MatchFrom(parse, imageTime, NoCandidate, tracks) ==
                MatchFrom(parse, imageTime, Cand(closestPoint, closestDuration), tracks[j..])
    {
      assert tracks[j..][0] == tracks[j] && tracks[j..][1..] == tracks[j + 1..];
      closestPoint, closestDuration := ScanTrack(parse, imageTime, tracks[j].Trkpt, closestPoint, closestDuration);
      if closestDuration > Tolerance {
        return closestPoint, true;
      }
      j := j + 1;
    }
    err := false;
  }

  /** The error is returned exactly when the candidate is more than 30 s away; without it
      the returned point is within 30 s or is the zero point. */
  lemma {:induction false} MatchTolerance(parse: string -> Option<Instant>, imageTime: Instant, c: Cand<Trkpt>, tracks: seq<Gpx>)
    requires c.dur <= Tolerance
    ensures var (r, err) := MatchFrom(parse, imageTime, c, tracks); err <==> r.dur > Tolerance
    decreases |tracks|
  {
    if tracks != [] {
      var c' := Scan(c, Timed(parse, imageTime, tracks[0].Trkpt));
      if c'.dur <= Tolerance {
        MatchTolerance(parse, imageTime, c', tracks[1..]);
      }
    }
  }

  /** Once the tolerance check fails the scan stops: later tracks are never looked at. */
  lemma {:induction false} LaterTracksNotScanned(parse: string -> Option<Instant>, imageTime: Instant, c: Cand<Trkpt>, tracks: seq<Gpx>, later: seq<Gpx>)
    requires MatchFrom(parse, imageTime, c, tracks).1
    ensures MatchFrom(parse, imageTime, c, tracks + later) == MatchFrom(parse, imageTime, c, tracks)
    decreases |tracks|
  {
    assert (tracks + later)[0] == tracks[0];
    assert (tracks + later)[1..] == tracks[1..] + later;
    var c' := Scan(c, Timed(parse, imageTime, tracks[0].Trkpt));
    if c'.dur <= Tolerance {
      LaterTracksNotScanned(parse, imageTime, c', tracks[1..], later);
    }
  }

  /** Without the error, the result is the candidate rule applied to every timed point of
      every track in turn. */
  lemma {:induction false} NoErrorScansEverything(parse: string -> Option<Instant>, imageTime: Instant, c: Cand<Trkpt>, tracks: seq<Gpx>)
    requires !MatchFrom(parse, imageTime, c, tracks).1
    ensures MatchFrom(parse, imageTime, c, tracks).0 == Scan(c, AllTimed(parse, imageTime, tracks))
    decreases |tracks|
  {
    if tracks != [] {
      var xs := Timed(parse, imageTime, tracks[0].Trkpt);
      ScanConcat(c, xs, AllTimed(parse, imageTime, tracks[1..]));
      NoErrorScansEverything(parse, imageTime, Scan(c, xs), tracks[1..]);
    }
  }

  /** The returned candidate is the starting one or a timed point of some track. */
  lemma {:induction false} MatchPicksTimedPoint(parse: string -> Option<Instant>, imageTime: Instant, c: Cand<Trkpt>, tracks: seq<Gpx>)
    ensures var r := MatchFrom(parse, imageTime, c, tracks).0; r == c || r in AllTimed(parse, imageTime, tracks)
    decreases |tracks|
  {
    if tracks != [] {
      var xs := Timed(parse, imageTime, tracks[0].Trkpt);
      var rest := AllTimed(parse, imageTime, tracks[1..]);
      var c' := Scan(c, xs);
      ScanPicksScanned(c, xs);
      if c'.dur <= Tolerance {
        MatchPicksTimedPoint(parse, imageTime, c', tracks[1..]);
      }
    }
  }

  /** With no timed point in any track, GetClosesGPS returns the zero Trkpt and no error. */
  lemma {:induction false} NoTimedPointsGivesZero(parse: string -> Option<Instant>, imageTime: Instant, tracks: seq<Gpx>)
    requires AllTimed(parse, imageTime, tracks) == []
    ensures MatchFrom(parse, imageTime, NoCandidate, tracks) == (NoCandidate, false)
    decreases |tracks|
  {
    if tracks != [] {
      assert Timed(parse, imageTime, tracks[0].Trkpt) == [];
      NoTimedPointsGivesZero(parse, imageTime, tracks[1..]);
    }
  }

  /** When the scan ends without error and no timed point lies at exactly the target time, the
      point returned is the first one scanned at the minimal distance. */
  lemma ClosestIsFirstMinimum(parse: string -> Option<Instant>, imageTime: Instant, tracks: seq<Gpx>) returns (k: nat)
    requires !MatchFrom(parse, imageTime, NoCandidate, tracks).1
    requires AllTimed(parse, imageTime, tracks) != [] && AllPositive(AllTimed(parse, imageTime, tracks))
    ensures var xs := AllTimed(parse, imageTime, tracks);
      && k < |xs| && MatchFrom(parse, imageTime, NoCandidate, tracks).0 == xs[k]
      && (forall j :: 0 <= j < k ==> xs[k].dur < xs[j].dur)
      && (forall j :: k < j < |xs| ==> xs[k].dur <= xs[j].dur)
  {
    NoErrorScansEverything(parse, imageTime, NoCandidate, tracks);
    k := FirstMinimum(NoCandidate, AllTimed(parse, imageTime, tracks));
  }

  // ===== getTimeFromMP4 (lines 167-209) =====

  /** One GPS sample of the GoPro telemetry, with its time stamp in microseconds (Unix). */
  datatype Sample = Sample(Latitude: real, Longitude: real, TS: int)

  /** A telemetry event as telemetry.Read yields it: whether TELEM.IsZero holds, its time,
      and whatever else it carries. */
  datatype Telem = Telem(zero: bool, time: Instant, gps: seq<Sample>)

  /** The zero TELEM that `lastEvent` starts as. */
  const EmptyTelem: Telem := Telem(true, ZeroTime, [])

  /** FillTimes(until) followed by ShitJson: the samples of an event with their time stamps
      filled in up to the next event's time, or None when FillTimes fails. */
  type Filler = (Telem, Instant) -> Option<seq<Sample>>

  /** One call of telemetry.Read: an event or an error other than io.EOF. */
  datatype ReadResult = Event(e: Telem) | ReadFailure

  /** What ExtractGPMF gives: no stream (an error), or the reads up to io.EOF or a nil event. */
  datatype Telemetry = NoGPMF | GPMF(stream: seq<ReadResult>)

  predicate HasFix(s: Sample) {
    s.Latitude != 0.0 && s.Longitude != 0.0
  }

  /** The first sample with latitude and longitude both non-zero. */
  function FirstFix(ss: seq<Sample>): (r: Option<Sample>)
    ensures r.None? <==> forall i :: 0 <= i < |ss| ==> !HasFix(ss[i])
    ensures r.Some? ==> exists i :: 0 <= i < |ss| && ss[i] == r.value && HasFix(ss[i]) &&
                                    forall j :: 0 <= j < i ==> !HasFix(ss[j])
  {
    if ss == [] then None
    else if HasFix(ss[0]) then Some(ss[0])
    else
      var r := FirstFix(ss[1..]);
      assert forall i :: 0 < i < |ss| ==> ss[i] == ss[1..][i - 1];
      r
  }

  /** The loop of lines 178-206 from buffered event `last` on. */
  function Mp4Scan(fill: Filler, last: Telem, rs: seq<ReadResult>): Option<Instant>
    decreases |rs|
  {
    if rs == [] then None
    else match rs[0]
      case ReadFailure => None
      case Event(e) =>
        if last.zero then Mp4Scan(fill, e, rs[1..])
        else match fill(last, e.time)
          case None => None
          case Some(samples) =>
            match FirstFix(samples)
            case Some(s) => Some(UnixMicro(s.TS))
            case None => Mp4Scan(fill, e, rs[1..])
  }

  function Mp4Date(fill: Filler, tel: Telemetry): Option<Instant> {
    match tel
    case NoGPMF => None
    case GPMF(stream) => Mp4Scan(fill, EmptyTelem, stream)
  }

  /** getTimeFromMP4: `*date` is written only when a fix is found. */
  method GetTimeFromMP4(fill: Filler, tel: Telemetry, date: Instant) returns (found: bool, dateOut: Instant)
    ensures found <==> Mp4Date(fill, tel).Some?
    ensures found ==> dateOut == Mp4Date(fill, tel).value
    ensures !found ==> dateOut == date
  {
    dateOut := date;
    if tel.NoGPMF? {
      return false, date;
    }
    var rs := tel.stream;
    var lastEvent := EmptyTelem;
    var i := 0;
    while i < |rs|
      invariant 0 <= i <= |rs|
      invariant Mp4Date(fill, tel) == Mp4Scan(fill, lastEvent, rs[i..])
    {
      assert rs[i..][1..] == rs[i + 1..];
      var r := rs[i];
      if r.ReadFailure? {
        return false, date;
      }
      var event := r.e;
      i := i + 1;
      if lastEvent.zero {
        lastEvent := event;
        continue;
      }
      var telems := fill(lastEvent, event.time);
      if telems.None? {
        return false, date;
      }
      var ss := telems.value;
      var j := 0;
      while j < |ss|
        invariant 0 <= j <= |ss|
        invariant forall k :: 0 <= k < j ==> !HasFix(ss[k])
      {
        if ss[j].Latitude != 0.0 && ss[j].Longitude != 0.0 {
          assert FirstFix(ss) == Some(ss[j]);
          return true, UnixMicro(ss[j].TS);
        }
        j := j + 1;
      }
      lastEvent := event;
    }
    return false, date;
  }

  /** The samples of the last event read are never examined: that event is only buffered,
      and only its time matters (it closes the previous event). */
  lemma {:induction false} LastEventOnlyBuffered(fill: Filler, last: Telem, rs: seq<ReadResult>, e1: Telem, e2: Telem)
    requires e1.time == e2.time
    ensures Mp4Scan(fill, last, rs + [Event(e1)]) == Mp4Scan(fill, last, rs + [Event(e2)])
    decreases |rs|
  {
    if rs == [] {
      assert [Event(e1)][1..] == [] && [Event(e2)][1..] == [];
    } else {
      assert (rs + [Event(e1)])[0] == rs[0] && (rs + [Event(e1)])[1..] == rs[1..] + [Event(e1)];
      assert (rs + [Event(e2)])[0] == rs[0] && (rs + [Event(e2)])[1..] == rs[1..] + [Event(e2)];
      if rs[0].Event? {
        LastEventOnlyBuffered(fill, rs[0].e, rs[1..], e1, e2);
      }
    }
  }

  /** A date found is the time stamp of the first fixed sample of some event k >= 1, after k+1
      successful reads: the first event is only buffered. */
  lemma {:induction false} Mp4DateIsFirstFix(fill: Filler, last: Telem, rs: seq<ReadResult>) returns (k: nat, s: Sample)
    requires Mp4Scan(fill, last, rs).Some?
    ensures k < |rs| && forall j :: 0 <= j <= k ==> rs[j].Event?
    ensures var prev := if k == 0 then last else rs[k - 1].e;
      && !prev.zero
      && fill(prev, rs[k].e.time).Some?
      && FirstFix(fill(prev, rs[k].e.time).value) == Some(s)
      && HasFix(s)
      && Mp4Scan(fill, last, rs) == Some(UnixMicro(s.TS))
    ensures last.zero ==> k >= 1
    decreases |rs|
  {
    var e := rs[0].e;
    if !last.zero && fill(last, e.time).Some? && FirstFix(fill(last, e.time).value).Some? {
      k, s := 0, FirstFix(fill(last, e.time).value).value;
    } else {
      var k', s' := Mp4DateIsFirstFix(fill, e, rs[1..]);
      k, s := k' + 1, s';
      assert forall j :: 0 < j <= k ==> rs[j] == rs[1..][j - 1];
    }
  }

  // ===== GetMediaDate (lines 19-82) =====

  /** What exiftool extracts from a file: its string tags, and GetFloat's reading of
      GPSLongitude and GPSLatitude (0 when missing, the error being discarded). */
  datatype Meta = Meta(tags: map<string, string>, GPSLongitude: real, GPSLatitude: real)

  /** time.Parse with layouts "2006:01:02 15:04:05Z" (GPSDateTime) and "2006:01:02 15:04:05"
      (the date tags), on non-empty text. */
  datatype ExifEnv = ExifEnv(parseGPSDateTime: string -> Option<Instant>, parseDate: string -> Option<Instant>)

  /** Everything GetMediaDate learns from the outside world about one file. */
  datatype MediaInput = MediaInput(statOk: bool, modTime: Instant, isVideo: bool, telemetry: Telemetry, exiftoolOk: bool, meta: Meta)

  /** The three time sources: file modification time, embedded capture time, GPS time. */
  datatype MediaDates = MediaDates(atime: Instant, etime: Instant, gtime: Instant)

  const DateTags: seq<string> := ["DateTimeOriginal", "DateTime", "DateTimeDigitized"]

  /** A date tag's time: present (GetString succeeds), non-empty and parseable. */
  function DateIn(parseDate: string -> Option<Instant>, tags: map<string, string>, name: string): Option<Instant> {
    if name in tags && tags[name] != "" then parseDate(tags[name]) else None
  }

  function FirstDate(parseDate: string -> Option<Instant>, tags: map<string, string>, names: seq<string>): Option<Instant>
    decreases |names|
  {
    if names == [] then None
    else match DateIn(parseDate, tags, names[0])
      case Some(t) => Some(t)
      case None => FirstDate(parseDate, tags, names[1..])
  }

  /** The date chosen is the first tag, in list order, that is present, non-empty and parses. */
  lemma {:induction false} FirstDatePrecedence(parseDate: string -> Option<Instant>, tags: map<string, string>, names: seq<string>)
    ensures FirstDate(parseDate, tags, names).None? <==>
              forall k :: 0 <= k < |names| ==> DateIn(parseDate, tags, names[k]).None?
    ensures FirstDate(parseDate, tags, names).Some? ==>
              exists k :: 0 <= k < |names| && FirstDate(parseDate, tags, names) == DateIn(parseDate, tags, names[k]) &&
                          forall j :: 0 <= j < k ==> DateIn(parseDate, tags, names[j]).None?
    decreases |names|
  {
    if names != [] {
      FirstDatePrecedence(parseDate, tags, names[1..]);
      assert forall k :: 0 < k < |names| ==> names[k] == names[1..][k - 1];
      if DateIn(parseDate, tags, names[0]).None? && FirstDate(parseDate, tags, names).Some? {
        var k :| 0 <= k < |names[1..]| && FirstDate(parseDate, tags, names[1..]) == DateIn(parseDate, tags, names[1..][k]) &&
                 forall j :: 0 <= j < k ==> DateIn(parseDate, tags, names[1..][j]).None?;
        assert FirstDate(parseDate, tags, names) == DateIn(parseDate, tags, names[k + 1]);
      }
    }
  }

  predicate IsDigit(c: char) {
    '0' <= c <= '9'
  }

  /** The end of the run of digits starting at i. */
  function RunEnd(s: string, i: nat): (e: nat)
    requires i <= |s|
    ensures i <= e <= |s| && (e == |s| || !IsDigit(s[e]))
    ensures forall k :: i <= k < e ==> IsDigit(s[k])
    decreases |s| - i
  {
    if i < |s| && IsDigit(s[i]) then RunEnd(s, i + 1) else i
  }

  /** Whether `(\d+) m` matches at position i: the digit run from i is followed by " m". */
  predicate MatchAt(s: string, i: nat) {
    i < |s| && IsDigit(s[i]) && RunEnd(s, i) + 1 < |s| && s[RunEnd(s, i)] == ' ' && s[RunEnd(s, i) + 1] == 'm'
  }

  /** The first submatch of the regular expression `(\d+) m.*` under Go's leftmost-first
      semantics, searching from position i. */
  function AltitudeMatch(s: string, i: nat): Option<string>
    requires i <= |s|
    decreases |s| - i
  {
    if i == |s| then None
    else if MatchAt(s, i) then Some(s[i..RunEnd(s, i)])
    else AltitudeMatch(s, i + 1)
  }

  /** The match is the first maximal digit run that is immediately followed by " m". */
  lemma {:induction false} AltitudeIsFirstRunBeforeM(s: string, from: nat) returns (i: nat)
    requires from <= |s| && AltitudeMatch(s, from).Some?
    ensures from <= i && MatchAt(s, i) && AltitudeMatch(s, from) == Some(s[i..RunEnd(s, i)])
    ensures forall j :: from <= j < i ==> !MatchAt(s, j)
    ensures i == from || !IsDigit(s[i - 1])
    decreases |s| - from
  {
    if MatchAt(s, from) {
      i := from;
    } else {
      i := AltitudeIsFirstRunBeforeM(s, from + 1);
    }
  }

  const MaxInt64: int := 0x7fff_ffff_ffff_ffff

  /** The decimal value of a string of digits. */
  function DigitsValue(ds: string): nat
    decreases |ds|
  {
    if ds == [] then 0
    else
      var c := ds[|ds| - 1];
      DigitsValue(ds[..|ds| - 1]) * 10 + (if IsDigit(c) then c as int - '0' as int else 0)
  }

  /** The altitude in whole metres read from GPSAltitude: the regular expression's digits
      through strconv.Atoi, which fails beyond the int range. */
  function ParseAltitude(s: string): Option<int> {
    match AltitudeMatch(s, 0)
    case None => None
    case Some(ds) => if DigitsValue(ds) <= MaxInt64 then Some(DigitsValue(ds)) else None
  }

  /** A decimal altitude keeps only the digits after the point: "123.4 m" reads as 4 metres. */
  lemma FractionalAltitude()
    ensures ParseAltitude("123.4 m") == Some(4)
    ensures ParseAltitude("123 m Above Sea Level") == Some(123)
  {
    DecimalAltitude();
    SuffixedAltitude();
  }

  lemma DecimalAltitude()
    ensures ParseAltitude("123.4 m") == Some(4)
  {
    var a := "123.4 m";
    assert !MatchAt(a, 0) && !MatchAt(a, 1) && !MatchAt(a, 2) && !MatchAt(a, 3);
    assert MatchAt(a, 4) && RunEnd(a, 4) == 5;
    assert AltitudeMatch(a, 4) == Some(a[4..5]);
    assert a[4..5] == "4";
    assert DigitsValue("4") == 4 by {
      assert "4"[..0] == "";
    }
  }

  lemma SuffixedAltitude()
    ensures ParseAltitude("123 m Above Sea Level") == Some(123)
  {
    var b := "123 m Above Sea Level";
    assert RunEnd(b, 0) == 3 && MatchAt(b, 0);
    assert b[0..3] == "123";
    assert DigitsValue("123") == 123 by {
      assert "123"[..2] == "12" && "12"[..1] == "1" && "1"[..0] == "";
    }
  }

  /** The new `gps.Ele`: the altitude when GPSAltitude is present and yields digits, else unchanged. */
  function NewEle(meta: Meta, prior: real): real {
    if "GPSAltitude" in meta.tags && ParseAltitude(meta.tags["GPSAltitude"]).Some?
    then ParseAltitude(meta.tags["GPSAltitude"]).value as real
    else prior
  }

  /** The GPS time of lines 57-62 (gtime is still zero there): read from GPSDateTime only when
      both coordinates are non-zero; a parse error leaves the zero time. */
  function GpsTimeOf(xenv: ExifEnv, meta: Meta): Instant {
    if meta.GPSLongitude != 0.0 && meta.GPSLatitude != 0.0 && "GPSDateTime" in meta.tags
    then
      match ParseWith(xenv.parseGPSDateTime, meta.tags["GPSDateTime"])
      case Some(t) => t
      case None => ZeroTime
    else ZeroTime
  }

  predicate VideoFix(fill: Filler, m: MediaInput) {
    m.isVideo && Mp4Date(fill, m.telemetry).Some?
  }

  /** Whether GetMediaDate gets as far as reading the exiftool metadata. */
  predicate ReachesMetadata(fill: Filler, m: MediaInput) {
    m.statOk && !VideoFix(fill, m) && m.exiftoolOk
  }

  /** The three times GetMediaDate returns and whether it returns an error. */
  function DatesOf(xenv: ExifEnv, fill: Filler, m: MediaInput): (MediaDates, bool) {
    if !m.statOk then (MediaDates(ZeroTime, ZeroTime, ZeroTime), true)
    else if VideoFix(fill, m) then (MediaDates(m.modTime, ZeroTime, Mp4Date(fill, m.telemetry).value), false)
    else if !m.exiftoolOk then (MediaDates(m.modTime, ZeroTime, ZeroTime), true)
    else
      var e := FirstDate(xenv.parseDate, m.meta.tags, DateTags);
      (MediaDates(m.modTime, if e.Some? then e.value else ZeroTime, GpsTimeOf(xenv, m.meta)), false)
  }

  /** The position GetMediaDate leaves in `*gps`: overwritten only once the metadata is read. */
  function GpsAfter(fill: Filler, m: MediaInput, gps: Trkpt): Trkpt {
    if ReachesMetadata(fill, m)
    then gps.(Lon := m.meta.GPSLongitude, Lat := m.meta.GPSLatitude, Ele := NewEle(m.meta, gps.Ele))
    else gps
  }

  method GetMediaDate(xenv: ExifEnv, fill: Filler, m: MediaInput, gps: Trkpt) returns (dates: MediaDates, failed: bool, gpsOut: Trkpt)
    ensures (dates, failed) == DatesOf(xenv, fill, m)
    ensures gpsOut == GpsAfter(fill, m, gps)
  {
    var atime, etime, gtime := ZeroTime, ZeroTime, ZeroTime;
    gpsOut := gps;
    if !m.statOk {
      return MediaDates(atime, etime, gtime), true, gpsOut;
    }
    atime := m.modTime;
    if m.isVideo {
      var found;
      found, gtime := GetTimeFromMP4(fill, m.telemetry, gtime);
      if found {
        return MediaDates(atime, etime, gtime), false, gpsOut;
      }
    }
    if !m.exiftoolOk {
      return MediaDates(atime, etime, gtime), true, gpsOut;
    }
    var metas := m.meta;
    gpsOut := gpsOut.(Lon := metas.GPSLongitude, Lat := metas.GPSLatitude);
    if "GPSAltitude" in metas.tags {
      var alt := ParseAltitude(metas.tags["GPSAltitude"]);
      if alt.Some? {
        gpsOut := gpsOut.(Ele := alt.value as real);
      }
    }
    if gpsOut.Lon != 0.0 && gpsOut.Lat != 0.0 && IsZero(gtime) {
      if "GPSDateTime" in metas.tags {
        var t := ParseWith(xenv.parseGPSDateTime, metas.tags["GPSDateTime"]);
        gtime := if t.Some? then t.value else ZeroTime;
      }
    }
    var k := 0;
    while k < |DateTags|
      invariant 0 <= k <= |DateTags|
      invariant FirstDate(xenv.parseDate, metas.tags, DateTags) == FirstDate(xenv.parseDate, metas.tags, DateTags[k..])
    {
      assert DateTags[k..][1..] == DateTags[k + 1..];
      var tag := DateTags[k];
      k := k + 1;
      if tag !in metas.tags {
        continue;
      }
      var val := metas.tags[tag];
      if val != "" {
        var t := xenv.parseDate(val);
        if t.Some? {
          return MediaDates(atime, t.value, gtime), false, gpsOut;
        }
      }
    }
    return MediaDates(atime, etime, gtime), false, gpsOut;
  }

  /** The early exits of GetMediaDate: a video with a telemetry fix returns at once with etime zero
      and `*gps` untouched, as does every error; gtime comes from GPSDateTime only when both
      coordinates are non-zero. */
  lemma MediaDateExits(xenv: ExifEnv, fill: Filler, m: MediaInput, gps: Trkpt)
    ensures VideoFix(fill, m) && m.statOk ==>
              DatesOf(xenv, fill, m) == (MediaDates(m.modTime, ZeroTime, Mp4Date(fill, m.telemetry).value), false) &&
              GpsAfter(fill, m, gps) == gps
    ensures DatesOf(xenv, fill, m).1 ==> GpsAfter(fill, m, gps) == gps
    ensures ReachesMetadata(fill, m) && !IsZero(DatesOf(xenv, fill, m).0.gtime) ==>
              m.meta.GPSLatitude != 0.0 && m.meta.GPSLongitude != 0.0
  {
  }

  // ===== WriteGPS (lines 118-165) =====

  /** The tag values handed to exiftool. GPSTime stands for GPSDateStamp and GPSTimeStamp,
      both formatted from it. */
  datatype GpsTags = GpsTags(GPSTime: Instant, GPSLatitude: real, GPSLongitude: real, GPSAltitude: int,
                             GPSAltitudeRef: string, GPSLatitudeRef: string, GPSLongitudeRef: string)

  /** An exiftool failure (returned as an error), log.Fatal on an unparsable Time, or the write. */
  datatype WriteResult = ToolError | Fatal | Written(tags: GpsTags)

  /** The reference letters as the code chooses them. */
  function RefLetters(lat: real, lon: real): (string, string) {
    (if lat >= 0.0 then "S" else "N", if lon >= 0.0 then "W" else "E")
  }

  /** The usual convention: north and east for non-negative coordinates. */
  function ConventionalRefs(lat: real, lon: real): (string, string) {
    (if lat >= 0.0 then "N" else "S", if lon >= 0.0 then "E" else "W")
  }

  function Opposite(letter: string): string {
    if letter == "N" then "S" else if letter == "S" then "N" else if letter == "E" then "W" else "E"
  }

  /** The conversion int64(f) of a float: truncation toward zero. */
  function Trunc(r: real): int {
    if r >= 0.0 then r.Floor else -((-r).Floor)
  }

  function WriteGPS(parse: string -> Option<Instant>, gps: Trkpt, toolOk: bool): WriteResult {
    if !toolOk then ToolError
    else
      var (latRef, lonRef) := RefLetters(gps.Lat, gps.Lon);
      match ParseWith(parse, gps.Time)
      case None => Fatal
      case Some(t) => Written(GpsTags(t, gps.Lat, gps.Lon, Trunc(gps.Ele), "above sea level", latRef, lonRef))
  }

  /** Both letters are the opposite of the convention, for every coordinate. */
  lemma RefLettersInverted(lat: real, lon: real)
    ensures RefLetters(lat, lon).0 == Opposite(ConventionalRefs(lat, lon).0)
    ensures RefLetters(lat, lon).1 == Opposite(ConventionalRefs(lat, lon).1)
    ensures RefLetters(lat, lon).0 == "S" <==> lat >= 0.0
    ensures RefLetters(lat, lon).1 == "W" <==> lon >= 0.0
  {
  }

  /** What exiftool is asked to write: the point's coordinates, its parsed time, its elevation
      truncated toward zero and the letters above. The zero Trkpt (empty Time) is fatal. */
  lemma WriteGPSTags(parse: string -> Option<Instant>, gps: Trkpt)
    ensures WriteGPS(parse, ZeroTrkpt, true) == Fatal
    ensures WriteGPS(parse, gps, true).Written? ==>
              var w := WriteGPS(parse, gps, true).tags;
              && ParseWith(parse, gps.Time) == Some(w.GPSTime)
              && w.GPSLatitude == gps.Lat && w.GPSLongitude == gps.Lon
              && (w.GPSLatitudeRef, w.GPSLongitudeRef) == RefLetters(gps.Lat, gps.Lon)
              && w.GPSAltitude == Trunc(gps.Ele) && w.GPSAltitudeRef == "above sea level"
  {
  }

  /** int64 of a float drops the fraction toward zero: the integer keeps the sign and lies
      less than one away from the value, on the side of zero. */
  lemma TruncTowardZero(r: real)
    ensures r >= 0.0 ==> 0 <= Trunc(r) && Trunc(r) as real <= r < Trunc(r) as real + 1.0
    ensures r < 0.0 ==> Trunc(r) <= 0 && Trunc(r) as real - 1.0 < r <= Trunc(r) as real
  {
  }
}
