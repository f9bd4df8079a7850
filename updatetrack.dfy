/** cmd/updatetrack.go: the `updatetrack` command. Every loaded track is renamed after the
    corrected time of its first timed point (and, with the geocoding service on, the cleaned
    place name), then its file times are set to that time. */
module UpdateTrack {
  import opened Optional
  import opened Clock
  import opened Gpx
  import opened Exif
  import opened Geo
  import opened FilePath

  // ===== GetPosFromGPX (lines 117-127) =====

  /** The index of the first point with a non-empty Time, or |pts|. */
  function FirstTimedIndex(pts: seq<Trkpt>): (k: nat)
    ensures k <= |pts| && (k < |pts| ==> pts[k].Time != "")
    ensures forall i :: 0 <= i < k ==> pts[i].Time == ""
  {
    if pts == [] then 0 else if pts[0].Time != "" then 0 else 1 + FirstTimedIndex(pts[1..])
  }

  function GetPosFromGPX(g: Gpx): (p: Trkpt)
    ensures p.Time == "" <==> forall i :: 0 <= i < |g.Trkpt| ==> g.Trkpt[i].Time == ""
    ensures p.Time == "" ==> p == ZeroTrkpt
  {
    var k := FirstTimedIndex(g.Trkpt);
    if k < |g.Trkpt| then g.Trkpt[k] else ZeroTrkpt
  }

  /** The point chosen is the first one with a time: every point before it has none. */
  lemma GetPosIsFirstTimed(g: Gpx) returns (k: nat)
    requires GetPosFromGPX(g).Time != ""
    ensures k < |g.Trkpt| && g.Trkpt[k] == GetPosFromGPX(g)
    ensures forall i :: 0 <= i < k ==> g.Trkpt[i].Time == ""
  {
    k := FirstTimedIndex(g.Trkpt);
  }

  // ===== The new file name (lines 71-85) =====

  function DigitChar(d: int): (c: char)
    requires 0 <= d < 10
    ensures IsDigit(c) && c as int - '0' as int == d
  {
    ('0' as int + d) as char
  }

  /** The decimal digits of n, without leading zeros; reading them back gives n. */
  function Decimal(n: nat): (s: string)
    ensures |s| >= 1 && (forall i :: 0 <= i < |s| ==> IsDigit(s[i])) && DigitsValue(s) == n
  {
    if n < 10 then
      var s := [DigitChar(n)];
      assert s[..0] == [];
      s
    else
      var s := Decimal(n / 10) + [DigitChar(n % 10)];
      assert s[..|s| - 1] == Decimal(n / 10);
      s
  }

  function Pow10(w: nat): (p: nat)
    ensures p >= 1
  {
    if w == 0 then 1 else 10 * Pow10(w - 1)
  }

  /** A number below 10^w has at most w digits. */
  lemma {:induction false} DecimalLength(n: nat, w: nat)
    requires w >= 1 && n < Pow10(w)
    ensures |Decimal(n)| <= w
    decreases w
  {
    if n >= 10 {
      DecimalLength(n / 10, w - 1);
    }
  }

  function Zeros(n: nat): (s: string)
    ensures |s| == n && forall i :: 0 <= i < n ==> s[i] == '0'
  {
    if n == 0 then [] else Zeros(n - 1) + ['0']
  }

  /** Leading zeros do not change the value of a digit string. */
  lemma {:induction false} LeadingZeros(z: nat, s: string)
    ensures DigitsValue(Zeros(z) + s) == DigitsValue(s)
    decreases |s| + z
  {
    if s == [] {
      if z > 0 {
        assert (Zeros(z) + s)[..z - 1] == Zeros(z - 1) + [];
        LeadingZeros(z - 1, []);
        assert Zeros(z - 1) + [] == Zeros(z - 1);
      } else {
        assert Zeros(z) + s == [];
      }
    } else {
      var n := |s| - 1;
      assert (Zeros(z) + s)[..z + n] == Zeros(z) + s[..n];
      LeadingZeros(z, s[..n]);
    }
  }

  /** appendInt of Go's time package: a '-' for a negative value, then the decimal digits of
      its magnitude, padded on the left with zeros to `width`. */
  function AppendInt(x: int, width: nat): string {
    var ds := Decimal(if x < 0 then -x else x);
    (if x < 0 then "-" else "") + Zeros(if |ds| < width then width - |ds| else 0) + ds
  }

  /** Below 10^width no '-' is written and the padding fills the field exactly. */
  lemma PaddedForm(x: nat, width: nat)
    requires width >= 1 && x < Pow10(width)
    ensures |Decimal(x)| <= width
    ensures AppendInt(x, width) == Zeros(width - |Decimal(x)|) + Decimal(x)
  {
    DecimalLength(x, width);
  }

  /** Two digit strings joined are a digit string. */
  lemma DigitsJoin(a: string, b: string)
    requires forall i :: 0 <= i < |a| ==> IsDigit(a[i])
    requires forall i :: 0 <= i < |b| ==> IsDigit(b[i])
    ensures forall i :: 0 <= i < |a + b| ==> IsDigit((a + b)[i])
  {
    forall i | 0 <= i < |a + b|
      ensures IsDigit((a + b)[i])
    {
      if i >= |a| {
        assert (a + b)[i] == b[i - |a|];
      }
    }
  }

  /** A non-negative field below 10^width is written with exactly `width` digits, which read
      back as the field. */
  lemma AppendIntReadsBack(x: nat, width: nat)
    requires width >= 1 && x < Pow10(width)
    ensures var s := AppendInt(x, width);
      && |s| == width
      && (forall i :: 0 <= i < |s| ==> IsDigit(s[i]))
      && DigitsValue(s) == x
  {
    PaddedForm(x, width);
    var ds := Decimal(x);
    var z := Zeros(width - |ds|);
    LeadingZeros(width - |ds|, ds);
    DigitsJoin(z, ds);
  }

  /** The calendar fields the layout prints, as time.Time computes them in the time's zone. */
  datatype Civil = Civil(year: int, month: int, day: int, hour: int, minute: int)

  /** Format with "2006_01_02_15_04_mon": year, zero-padded month, day, hour and minute, and then
      "_mon" verbatim, since a lower-case "mon" is not a layout element. */
  function Stamp(c: Civil): string {
    AppendInt(c.year, 4) + "_" + AppendInt(c.month, 2) + "_" + AppendInt(c.day, 2) + "_" +
    AppendInt(c.hour, 2) + "_" + AppendInt(c.minute, 2) + "_mon"
  }

  predicate InRange(c: Civil) {
    0 <= c.year <= 9999 && 1 <= c.month <= 12 && 1 <= c.day <= 31 && 0 <= c.hour <= 23 && 0 <= c.minute <= 59
  }

  /** Where the fields sit in the stamp, whatever their text. */
  lemma StampLayout(y: string, mo: string, d: string, h: string, mi: string)
    requires |y| == 4 && |mo| == 2 && |d| == 2 && |h| == 2 && |mi| == 2
    ensures var s := y + "_" + mo + "_" + d + "_" + h + "_" + mi + "_mon";
      && |s| == 20 && s[16..] == "_mon"
      && s[4] == '_' && s[7] == '_' && s[10] == '_' && s[13] == '_'
      && s[..4] == y && s[5..7] == mo && s[8..10] == d && s[11..13] == h && s[14..16] == mi
  {
    var s1 := y + "_";
    var s2 := s1 + mo + "_";
    var s3 := s2 + d + "_";
    var s4 := s3 + h + "_";
    var s5 := s4 + mi;
    var s := s5 + "_mon";
    assert s[..16] == s5 && s[16..] == "_mon";
    assert s5[..14] == s4 && s5[14..] == mi;
    assert s4[..11] == s3 && s4[11..] == h + "_";
    assert s3[..8] == s2 && s3[8..] == d + "_";
    assert s2[..5] == s1 && s2[5..] == mo + "_";
  }

  /** For a time in years 0 to 9999 the stamp is 20 characters, "_mon" comes after the minute,
      and each field reads back from its fixed position. */
  lemma StampReadsBack(c: Civil)
    requires InRange(c)
    ensures var s := Stamp(c);
      && |s| == 20 && s[16..] == "_mon"
      && s[4] == '_' && s[7] == '_' && s[10] == '_' && s[13] == '_'
      && DigitsValue(s[..4]) == c.year && DigitsValue(s[5..7]) == c.month && DigitsValue(s[8..10]) == c.day
      && DigitsValue(s[11..13]) == c.hour && DigitsValue(s[14..16]) == c.minute
  {
    assert Pow10(2) == 100 && Pow10(4) == 10000;
    AppendIntReadsBack(c.year, 4);
    AppendIntReadsBack(c.month, 2);
    AppendIntReadsBack(c.day, 2);
    AppendIntReadsBack(c.hour, 2);
    AppendIntReadsBack(c.minute, 2);
    StampLayout(AppendInt(c.year, 4), AppendInt(c.month, 2), AppendInt(c.day, 2), AppendInt(c.hour, 2), AppendInt(c.minute, 2));
  }

  predicate NoSlash(s: string) {
    forall i :: 0 <= i < |s| ==> s[i] != '/'
  }

  lemma AppendIntNoSlash(x: int, width: nat)
    ensures NoSlash(AppendInt(x, width))
  {
  }

  lemma StampNoSlash(c: Civil)
    ensures NoSlash(Stamp(c))
  {
    AppendIntNoSlash(c.year, 4);
    AppendIntNoSlash(c.month, 2);
    AppendIntNoSlash(c.day, 2);
    AppendIntNoSlash(c.hour, 2);
    AppendIntNoSlash(c.minute, 2);
  }

  /** The new base name: the stamp, "_" and the cleaned place name when the geocoding service is
      on and found a place, and ".gpx". */
  function NewFileName(stamp: string, geoservice: bool, loc: string): string {
    (if geoservice && |loc| != 0 then stamp + "_" + GeonameCleanup(loc) else stamp) + ".gpx"
  }

  /** The name starts with the stamp and ends with ".gpx"; without a place it is nothing else,
      with one the cleaned place sits between them after a '_'; the name never has a '/'. */
  lemma NewFileNameShape(stamp: string, geoservice: bool, loc: string)
    requires NoSlash(stamp)
    ensures var n := NewFileName(stamp, geoservice, loc);
      && |n| >= |stamp| + 4 && n[..|stamp|] == stamp && n[|n| - 4..] == ".gpx"
      && (!geoservice || |loc| == 0 ==> |n| == |stamp| + 4)
      && (geoservice && |loc| != 0 ==> n[|stamp|] == '_' && n[|stamp| + 1..|n| - 4] == GeonameCleanup(loc))
      && NoSlash(n)
  {
    if geoservice && |loc| != 0 {
      CleanNoSlash(loc);
      PlacedName(stamp, GeonameCleanup(loc));
    } else {
      PlainName(stamp);
    }
  }

  lemma CleanNoSlash(loc: string)
    ensures NoSlash(GeonameCleanup(loc))
  {
    CleanupProperties(loc);
  }

  /** `stamp + "_" + c + ".gpx"`, with the place text c. */
  lemma PlacedName(stamp: string, c: string)
    requires NoSlash(stamp) && NoSlash(c)
    ensures var n := stamp + "_" + c + ".gpx";
      && |n| == |stamp| + |c| + 5 && n[..|stamp|] == stamp && n[|n| - 4..] == ".gpx"
      && n[|stamp|] == '_' && n[|stamp| + 1..|n| - 4] == c && NoSlash(n)
  {
    var n := stamp + "_" + c + ".gpx";
    assert n[..|stamp|] == stamp && n[|n| - 4..] == ".gpx";
    assert n[|stamp| + 1..|n| - 4] == c;
    forall i | 0 <= i < |n|
      ensures n[i] != '/'
    {
      if i < |stamp| {
        assert n[i] == stamp[i];
      } else if |stamp| < i < |n| - 4 {
        assert n[i] == c[i - |stamp| - 1];
      }
    }
  }

  /** `stamp + ".gpx"`, without a place. */
  lemma PlainName(stamp: string)
    requires NoSlash(stamp)
    ensures var n := stamp + ".gpx";
      && |n| == |stamp| + 4 && n[..|stamp|] == stamp && n[|n| - 4..] == ".gpx" && NoSlash(n)
  {
    var n := stamp + ".gpx";
    assert n[..|stamp|] == stamp && n[|n| - 4..] == ".gpx";
    assert forall i :: 0 <= i < |stamp| ==> n[i] == stamp[i];
  }


  /** Renaming into `dir + "/" + name` keeps the directory's text in front and gives the file
      that base name. */
  lemma RenameTargetBase(dir: string, name: string)
    requires NoSlash(name) && name != []
    ensures Base(dir + "/" + name) == name
  {
    var t := dir + "/" + name;
    assert t[|dir|] == '/';
    assert forall k :: |dir| < k < |t| ==> t[k] == name[k - |dir| - 1];
    assert LastSlash(t) == |dir|;
    BaseOfFile(t);
    assert t[|dir| + 1..] == name;
  }

  // ===== updateHeaderName (lines 129-166) =====

  /** What gogpx.Read gives for the file: an error, or the header's name ("" also when there is
      no metadata element). */
  datatype HeaderRead = Unreadable | Header(name: string)

  /** The effects the command has on the file system, in order. */
  datatype Effect =
    | SetHeaderName(file: string, name: string)  // the track rewritten with this Metadata.Name
    | Rename(from: string, to: string)            // os.Rename
    | Chtimes(file: string, t: Instant)           // os.Chtimes with both times

  /** updateHeaderName: the base name without its extension is written as the header's name, and
      only when the file reads and its name is empty. */
  function HeaderEffects(read: HeaderRead, filename: string, basename: string): seq<Effect> {
    match read
    case Unreadable => []
    case Header(name) =>
      if name == "" then [SetHeaderName(filename, basename[..|basename| - |Ext(basename)|])] else []
  }

  lemma HeaderNameRule(read: HeaderRead, filename: string, basename: string)
    ensures var eff := HeaderEffects(read, filename, basename);
      && (eff != [] <==> read == Header(""))
      && (eff != [] ==> |eff| == 1 && eff[0].SetHeaderName? && eff[0].file == filename &&
                        eff[0].name + Ext(basename) == basename)
  {
    StemPlusExt(basename);
  }

  // ===== updateTrackExecute (lines 35-115) =====

  /** Everything outside the loop: the time layout and zone correction, the calendar fields
      `Format` prints for a corrected time in the zone attached for a latitude and longitude,
      the geocoding service flag, the geocoder and the default country, the --dry-run and
      --updateheader flags, what each header read gives, and whether a rename succeeds. */
  datatype RenameEnv = RenameEnv(time: TimeEnv, civil: (Instant, real, real) -> Civil, geoservice: bool,
                                 geocode: Trkpt -> Option<Address>, defaultCountry: string,
                                 dryRun: bool, updateHeader: bool, header: string -> HeaderRead,
                                 renameOk: (string, string) -> bool)

  /** The corrected time of the track and its new base name, or None when it is skipped. */
  function Planned(env: RenameEnv, g: Gpx): Option<(Instant, string)> {
    var p := GetPosFromGPX(g);
    if |p.Time| == 0 then None
    else match env.time.parse(p.Time)
      case None => None
      case Some(u) =>
        var t := env.time.correct(u, p.Lat, p.Lon);
        Some((t, NewFileName(Stamp(env.civil(t, p.Lat, p.Lon)), env.geoservice, PlaceOf(env, p))))
  }

  /** The place text asked for when the geocoding service is on. */
  function PlaceOf(env: RenameEnv, p: Trkpt): string {
    if env.geoservice then ReverseLocation(env.geocode(p), env.defaultCountry).0 else ""
  }

  /** The effects of a track that is not skipped, with corrected time t and new base name. */
  function StepEffects(env: RenameEnv, filename: string, t: Instant, name: string): seq<Effect> {
    var target := Dir(filename) + "/" + name;
    (if env.updateHeader then HeaderEffects(env.header(filename), filename, Base(filename)) else []) +
    [Rename(filename, target)] + (if env.renameOk(filename, target) then [Chtimes(target, t)] else [])
  }

  /** The effects of one iteration of the loop. */
  function TrackStep(env: RenameEnv, filename: string, g: Gpx): seq<Effect> {
    match Planned(env, g)
    case None => []
    case Some((t, name)) => if env.dryRun then [] else StepEffects(env, filename, t, name)
  }

  function AllSteps(env: RenameEnv, tracks: seq<(string, Gpx)>): seq<Effect> {
    if tracks == [] then []
    else AllSteps(env, tracks[..|tracks| - 1]) + TrackStep(env, tracks[|tracks| - 1].0, tracks[|tracks| - 1].1)
  }

  /** Lines 73-85: the stamp, the cleaned place when there is one, and ".gpx". */
  method BuildName(env: RenameEnv, trkpt: Trkpt, trkptTime: Instant) returns (newfilename: string)
    ensures newfilename == NewFileName(Stamp(env.civil(trkptTime, trkpt.Lat, trkpt.Lon)), env.geoservice, PlaceOf(env, trkpt))
  {
    newfilename := Stamp(env.civil(trkptTime, trkpt.Lat, trkpt.Lon));
    if env.geoservice {
      var loc := ReverseLocation(env.geocode(trkpt), env.defaultCountry).0;
      if |loc| != 0 {
        loc := GeonameCleanup(loc);
        newfilename := newfilename + "_" + loc;
      }
    }
    newfilename := newfilename + ".gpx";
  }

  /** One iteration of the loop; each `return` is a `continue` of the source. */
  method RenameTrack(env: RenameEnv, filename: string, g: Gpx) returns (effects: seq<Effect>)
    ensures effects == TrackStep(env, filename, g)
  {
    effects := [];
    var trkpt := GetPosFromGPX(g);
    if |trkpt.Time| == 0 {
      assert Planned(env, g).None?;
      return;
    }
    var parsed := env.time.parse(trkpt.Time);
    if parsed.None? {
      assert Planned(env, g).None?;
      return;
    }
    var trkptTime := env.time.correct(parsed.value, trkpt.Lat, trkpt.Lon);
    var newfilename := BuildName(env, trkpt, trkptTime);
    assert Planned(env, g) == Some((trkptTime, newfilename));
    if env.dryRun {
      return;
    }
    effects := RenameAndRetime(env, filename, trkptTime, newfilename);
  }

  /** Lines 92-113: the header update, the rename into the track's directory and, when it
      succeeds, the Chtimes. */
  method RenameAndRetime(env: RenameEnv, filename: string, trkptTime: Instant, name: string) returns (effects: seq<Effect>)
    ensures effects == StepEffects(env, filename, trkptTime, name)
  {
    effects := [];
    var path := Dir(filename);
    var basename := Base(filename);
    if env.updateHeader {
      effects := effects + HeaderEffects(env.header(filename), filename, basename);
    }
    ghost var h := if env.updateHeader then HeaderEffects(env.header(filename), filename, Base(filename)) else [];
    assert effects == h;
    var newfilename := path + "/" + name;
    effects := effects + [Rename(filename, newfilename)];
    if !env.renameOk(filename, newfilename) {
      return;
    }
    effects := effects + [Chtimes(newfilename, trkptTime)];
  }

  /** The loop over the loaded tracks, in the map's iteration order; `fatal` is the log.Fatal for
      an empty set. */
  method UpdateTracks(env: RenameEnv, tracks: seq<(string, Gpx)>) returns (fatal: bool, effects: seq<Effect>)
    ensures fatal <==> tracks == []
    ensures effects == AllSteps(env, tracks)
  {
    effects := [];
    if |tracks| == 0 {
      return true, effects;
    }
    var i := 0;
    while i < |tracks|
      invariant 0 <= i <= |tracks|
      invariant effects == AllSteps(env, tracks[..i])
    {
      var (filename, g) := tracks[i];
      assert tracks[..i + 1][..i] == tracks[..i];
      var eff := RenameTrack(env, filename, g);
      effects := effects + eff;
      i := i + 1;
    }
    assert tracks[..i] == tracks;
    return false, effects;
  }

  /** A track without a timed point, with an unparsable time, or under --dry-run has no effect. */
  lemma SkippedTracks(env: RenameEnv, filename: string, g: Gpx)
    ensures var p := GetPosFromGPX(g);
      (p.Time == "" || env.time.parse(p.Time).None? || env.dryRun) ==> TrackStep(env, filename, g) == []
  {
  }

  /** The order of the effects of a track that is not skipped, for any header effects `h`. */
  lemma EffectOrder(eff: seq<Effect>, h: seq<Effect>, filename: string, target: string, t: Instant, ok: bool)
    requires forall k :: 0 <= k < |h| ==> h[k].SetHeaderName? && h[k].file == filename
    requires eff == h + [Rename(filename, target)] + (if ok then [Chtimes(target, t)] else [])
    ensures exists r :: 0 <= r < |eff| && eff[r] == Rename(filename, target) &&
              (forall k :: 0 <= k < |eff| && eff[k].Rename? ==> k == r) &&
              (forall k :: 0 <= k < r ==> eff[k].SetHeaderName? && eff[k].file == filename)
    ensures forall k :: 0 <= k < |eff| && eff[k].Chtimes? ==>
              k > 0 && eff[k - 1] == Rename(filename, eff[k].file) && eff[k].file == target && ok && eff[k].t == t
    ensures ok <==> Chtimes(target, t) in eff
    ensures h == [] ==> forall k :: 0 <= k < |eff| ==> !eff[k].SetHeaderName?
  {
    assert eff[|h|] == Rename(filename, target);
    assert forall k :: 0 <= k < |h| ==> eff[k] == h[k];
    assert Chtimes(target, t) !in h;
  }

  lemma HeaderEffectsTouchFile(read: HeaderRead, filename: string, basename: string)
    ensures var h := HeaderEffects(read, filename, basename);
      forall k :: 0 <= k < |h| ==> h[k].SetHeaderName? && h[k].file == filename
  {
  }

  /** A track that is not skipped is renamed exactly once, to its directory, "/" and the new name,
      after any header update; its times are set right after the rename and only when the rename
      succeeded, to the corrected time; the header is touched only under --updateheader. */
  lemma RenameThenRetime(env: RenameEnv, filename: string, t: Instant, name: string)
    ensures var eff := StepEffects(env, filename, t, name);
      var target := Dir(filename) + "/" + name;
      && (exists r :: 0 <= r < |eff| && eff[r] == Rename(filename, target) &&
            (forall k :: 0 <= k < |eff| && eff[k].Rename? ==> k == r) &&
            (forall k :: 0 <= k < r ==> eff[k].SetHeaderName? && eff[k].file == filename))
      && (forall k :: 0 <= k < |eff| && eff[k].Chtimes? ==>
            k > 0 && eff[k - 1] == Rename(filename, eff[k].file) && env.renameOk(filename, eff[k].file) && eff[k].t == t)
      && (env.renameOk(filename, target) <==> Chtimes(target, t) in eff)
      && (!env.updateHeader ==> forall k :: 0 <= k < |eff| ==> !eff[k].SetHeaderName?)
  {
    var eff := StepEffects(env, filename, t, name);
    var target := Dir(filename) + "/" + name;
    var h := if env.updateHeader then HeaderEffects(env.header(filename), filename, Base(filename)) else [];
    HeaderEffectsTouchFile(env.header(filename), filename, Base(filename));
    EffectOrder(eff, h, filename, target, t, env.renameOk(filename, target));
  }

  /** The renamed file keeps the name built for it: its base name is the new name. */
  lemma RenamedBaseIsNewName(env: RenameEnv, filename: string, g: Gpx)
    requires Planned(env, g).Some?
    ensures Base(Dir(filename) + "/" + Planned(env, g).value.1) == Planned(env, g).value.1
  {
    var p := GetPosFromGPX(g);
    var t := Planned(env, g).value.0;
    var loc := if env.geoservice then ReverseLocation(env.geocode(p), env.defaultCountry).0 else "";
    StampNoSlash(env.civil(t, p.Lat, p.Lon));
    NewFileNameShape(Stamp(env.civil(t, p.Lat, p.Lon)), env.geoservice, loc);
    RenameTargetBase(Dir(filename), Planned(env, g).value.1);
  }

  /** Two stamps in years 0 to 9999 are equal exactly when their calendar fields are. */
  lemma {:induction false} StampInjective(c1: Civil, c2: Civil)
    requires InRange(c1) && InRange(c2)
    ensures Stamp(c1) == Stamp(c2) <==> c1 == c2
  {
    StampReadsBack(c1);
    StampReadsBack(c2);
  }

  /** The wall clock a planned track's name is built from: its corrected time at its position. */
  function WallClock(env: RenameEnv, g: Gpx): Civil
    requires Planned(env, g).Some?
  {
    var p := GetPosFromGPX(g);
    env.civil(Planned(env, g).value.0, p.Lat, p.Lon)
  }

  /** Without the geocoding service two planned tracks get the same name exactly when their wall
      clocks agree: tracks retimed to the same instant in zones with different offsets differ. */
  lemma {:induction false} NameShowsWallClock(env: RenameEnv, g1: Gpx, g2: Gpx)
    requires !env.geoservice && Planned(env, g1).Some? && Planned(env, g2).Some?
    requires InRange(WallClock(env, g1)) && InRange(WallClock(env, g2))
    ensures Planned(env, g1).value.1 == Planned(env, g2).value.1 <==> WallClock(env, g1) == WallClock(env, g2)
  {
    var s1 := Stamp(WallClock(env, g1));
    var s2 := Stamp(WallClock(env, g2));
    StampReadsBack(WallClock(env, g1));
    StampReadsBack(WallClock(env, g2));
    assert Planned(env, g1).value.1 == s1 + ".gpx";
    assert Planned(env, g2).value.1 == s2 + ".gpx";
    assert (s1 + ".gpx")[..20] == s1 && (s2 + ".gpx")[..20] == s2;
    StampInjective(WallClock(env, g1), WallClock(env, g2));
  }
}
