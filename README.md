# SyncMediaTrack in Dafny

SyncMediaTrack puts GPS positions from GPX tracks into the EXIF tags of photos and videos. It
also renames tracks after their first timestamp, and it groups media files by their file ID into
time segments. This project models the part of the program that reconciles times and positions,
and proves properties of that model:

- **Track loading:** the loader reads each track and validates its point times and distance jumps
  (`Gpx`).
- **Matching:** the nearest-in-time matcher finds the track point closest to a media time, with a
  30-second tolerance checked per track (`Nearest`, `Exif`).
- **Time sources:** a media file carries a modification time, an EXIF date tag and a GPS or
  telemetry time. The model covers how the program picks among these three (`Exif`, `Decision`,
  `FixTime.GetTime`).
- **The write decision:** each media driver decides whether to write the position. The position
  of the previous file persists across files (`UpdateMedia`, `Root`).
- **fixtime:** `fixtime` groups media files by ID and cuts the sorted IDs into segments
  (`FixTime`).
- **updatetrack:** `updatetrack` builds a new track name, then renames the file, sets its times
  and updates its header (`UpdateTrack`).
- **Place names:** the program cleans and formats place names (`Geo`).
- **The original program:** the single-file program `SyncMediaTrack.go` is modelled on its own
  (`Legacy`).

**How the model treats time and outside calls:**

- Time is an integer number of nanoseconds. `0` plays the role of Go's zero `time.Time`, so
  `IsZero` means "equals 0". Durations are integers too.
- Some collaborators are outside the model: `time.Parse` with a given layout, the time-zone
  correction `UpdateGPSDateTime`, the haversine distance, calendar fields, the telemetry decoder
  and the reverse geocoder. Each one is a function-valued parameter, so every result holds for
  any behaviour of these functions.
- All file-system and tool I/O is an input datatype, for example "os.Stat failed", "the MIME type
  is not GPX", or "the decoded track".

**Stateful code:**

- The package-level loader state becomes a class with methods proved against specification
  functions of the old state: `Gpx.TrackStore`.
- The per-file state of the drivers becomes classes of the same kind: `UpdateMedia.MediaRun`,
  `FixTime.FixTimeRun` and `Legacy.SyncRun`.
- Loops stay `while` loops, with invariants that tie them to those functions.

**Where the model follows the code rather than its documentation:**

- **The "mon" in track names.** The layout `2006_01_02_15_04_mon` is read by Go as literal text
  after the minute, not as a weekday. Every new track name therefore contains `_mon`
  (`UpdateTrack.StampReadsBack`).
- **`GetTime` in `cmd/fixtime.go`.** It returns `gtime`, which is the zero time, when `gtime` is
  zero and `etime` is not. At its only call site, `GetTime(atime, etime, etime)`, this branch has
  no effect (`FixTime.GetTimeAgainstBestDate`).
- **The hemisphere letters.** Both `WriteGPS` versions use "S" for `Lat >= 0` and "W" for
  `Lon >= 0`, the opposite of the usual convention. The model keeps them as written
  (`Exif.RefLettersInverted`).
- **Track renames.** The renamer makes no collision or same-name check before `os.Rename`, so the
  model has none either.

## Model

| member | source | states |
|---|---|---|
| Clock.Abs | lib/exif.go:99-102 | the magnitude of a duration: non-negative and equal to `d` or `-d` |
| Gpx.GetTimeFromTrkpt | lib/gpx.go:160-171 | zero time for an empty or unparsable Time, otherwise the zone-corrected parsed time |
| Gpx.ScanPoints | lib/gpx.go:71-110 | the validation loop returns early exactly when the counted points fail the order or distance check; otherwise `num` is the number of counted points |
| Gpx.PointTime | lib/gpx.go:76-87 | the time the loop uses for a point is GetTimeFromTrkpt's: zero, so the point is skipped, when its time is empty or does not parse, else the corrected time |
| Gpx.CheckPair | lib/gpx.go:89-103 | the early return happens exactly when a point was already counted and the pair is rejected: time going backwards, a jump over 21000, or any pair with valid off |
| Gpx.RejectionIsFinal | lib/gpx.go:89-103 | a rejection found on a prefix of the points rejects the whole track |
| Gpx.SkippedPointsChangeNothing | lib/gpx.go:76-87 | a point whose corrected time is zero (empty, unparsable or zero after correction) is skipped and changes nothing the loop keeps; any other point is counted with that time |
| Gpx.OrderRule | lib/gpx.go:89-93 | a counted time strictly before the previous counted time rejects the track; an accepted track has non-decreasing counted times, equal times allowed |
| Gpx.ValidOffKeepsAtMostOnePoint | lib/gpx.go:95-117 | with `valid` off, a track is stored iff at most one point survives the filter |
| Gpx.ValidOnAcceptance | lib/gpx.go:89-121 | with `valid` on, a track is stored iff some point survives, the times never go back, and no consecutive pair is more than 21000 m apart |
| Gpx.ReadGPXEffect | lib/gpx.go:53-121 | a decoded file bumps exactly one counter and is stored whole under its own name iff accepted, and other keys are untouched; a MIME mismatch or a decode error changes nothing |
| Gpx.ReadAllStoresOnlyAccepted | lib/gpx.go:124-136 | after a directory walk, every stored key is an old key or a decoded and accepted file, and the counters grow by at most one per file |
| Gpx.TrackStore.constructor | lib/gpx.go:35-43 | an empty track map and zero counters |
| Gpx.TrackStore.ReadGPX | lib/gpx.go:45-122 | the new map and counters are those of the loader specification; the process stops exactly on a MIME or open failure |
| Gpx.TrackStore.ReadGPXDir | lib/gpx.go:124-140 | files are read in walk order until one is fatal, as the walk specification says |
| Gpx.TrackStore.ReadTracks | lib/gpx.go:173-189 | a failed Stat is fatal with no change; otherwise the file or directory is read, and an empty track map afterwards is fatal |
| Nearest.ScanConcat | lib/exif.go:88-113 | scanning two lists one after the other is scanning their concatenation |
| Nearest.ScanPicksScanned | lib/exif.go:104-107 | the candidate is the starting one or one of the scanned points |
| Nearest.FirstMinimum | lib/exif.go:104-107 | starting from "nothing yet" with no point at zero distance, the result is a minimum, strictly closer than every earlier point, so the first minimum wins |
| Nearest.ExactHitOverwritten | lib/exif.go:104 | a point at exactly zero distance is replaced by the next scanned point |
| Nearest.NonNegativeScan | lib/exif.go:99-107 | the candidate's duration stays non-negative |
| Exif.Timed | lib/exif.go:89-102 | every entry is a point of the track with a non-empty, parsable Time and its absolute distance to the target, every such point has its entry, and there are at most as many entries as points |
| Exif.TimedStep | lib/exif.go:89-97 | each point adds itself or nothing to the scanned points |
| Exif.ScanTrack | lib/exif.go:89-108 | the inner loop leaves the candidate rule applied in turn to the track's timed points |
| Exif.ConsiderPoint | lib/exif.go:90-107 | a point without a time or with an unparsable one leaves the candidate; any other is offered to the candidate rule |
| Exif.GetClosesGPS | lib/exif.go:84-116 | the nested loops return the point and error of the matcher specification |
| Exif.MatchTolerance | lib/exif.go:110-112 | the error is returned exactly when the final candidate is more than 30 s away |
| Exif.LaterTracksNotScanned | lib/exif.go:110-112 | once the tolerance is exceeded, the scan returns and later tracks have no influence |
| Exif.NoErrorScansEverything | lib/exif.go:88-115 | without the error, the result is the candidate rule over every timed point of every track |
| Exif.MatchPicksTimedPoint | lib/exif.go:104-107 | the returned point is the zero Trkpt or a timed point of some track |
| Exif.NoTimedPointsGivesZero | lib/exif.go:115 | with no timed point at all, the result is the zero Trkpt and no error |
| Exif.ClosestIsFirstMinimum | lib/exif.go:88-115 | without error and with no exact hit, the result is the first point at minimal distance over all tracks |
| Exif.FirstFix | lib/exif.go:198-204 | None iff no sample has both coordinates non-zero; otherwise the first such sample |
| Exif.GetTimeFromMP4 | lib/exif.go:167-209 | `found` iff the telemetry specification finds a date, which is then written; otherwise `*date` is unchanged |
| Exif.LastEventOnlyBuffered | lib/exif.go:186-206 | the samples of the last event read never matter; only its time does |
| Exif.Mp4DateIsFirstFix | lib/exif.go:178-206 | a date found is the first fixed sample of an event after the buffered one; the first event is only buffered |
| Exif.FirstDatePrecedence | lib/exif.go:65-79 | the date is the first tag in list order that is present, non-empty and parses; None iff there is no such tag |
| Exif.RunEnd | lib/exif.go:47-48 | the end of the digit run at `i`: every character before it is a digit, and the one at it is not |
| Exif.AltitudeIsFirstRunBeforeM | lib/exif.go:47-50 | the submatch of `(\d+) m.*` is the first maximal digit run followed by " m" |
| Exif.FractionalAltitude | lib/exif.go:47-55 | "123.4 m" reads as 4 and "123 m Above Sea Level" as 123 |
| Exif.GetMediaDate | lib/exif.go:19-82 | the three times, the error and the new `*gps` are those of the specification functions (early video exit, GPS-time gate, tag precedence, altitude digits) |
| Exif.MediaDateExits | lib/exif.go:28-62 | a video with a telemetry fix returns at once with zero etime and `*gps` untouched; every error leaves `*gps` untouched; gtime is set only when both coordinates are non-zero |
| Exif.RefLettersInverted | lib/exif.go:135-142 | latRef is "S" iff Lat >= 0 and lonRef is "W" iff Lon >= 0, each the opposite of the convention |
| Exif.WriteGPSTags | lib/exif.go:118-165 | the zero Trkpt is fatal; written tags hold the parsed time, the coordinates, the letters, `Trunc` of the elevation and the altitude reference "above sea level" |
| Exif.TruncTowardZero | lib/exif.go:155 | `int64(gps.Ele)` keeps the sign and is less than one away from the elevation, on the side of zero |
| Geo.TrimLeft | lib/geo.go:37 | drops exactly the leading white space |
| Geo.TrimRight | lib/geo.go:37 | drops exactly the trailing white space |
| Geo.ReplaceInPlace | lib/geo.go:36-37 | the replacer keeps length and position and maps exactly '/', ':', '\\' and '.' to '_' |
| Geo.CleanupProperties | lib/geo.go:35-38 | the result has no forbidden character, is as long as the trimmed input, keeps every other character in place, and has no white space at either end |
| Geo.CleanupIdempotent | lib/geo.go:35-38 | cleaning twice is cleaning once |
| Geo.Utf8Len | lib/geo.go:20 | `len` of a Go string counts UTF-8 bytes, at least one per character |
| Geo.ReverseLocationShape | lib/geo.go:12-33 | a geocoder error gives "" and the error; otherwise the city, then " State" when the city is under 9 bytes and the state is known, then " Country" unless it is the default one |
| Geo.CityLengthCountsBytes | lib/geo.go:20 | an eight-letter city with one accented letter is already too long to get its state |
| FilePath.Ext | cmd/fixtime.go:94 | filepath.Ext: a suffix starting at the last '.' of the final element, or "" when that element has no '.' |
| FilePath.DirBaseJoin | cmd/updatetrack.go:53-54 | Dir and Base joined by "/" give the path back |
| FilePath.StemPlusExt | cmd/updatetrack.go:146 | the name minus its extension, followed by the extension, is the name |
| FilePath.BaseHasNoSlash | cmd/updatetrack.go:54 | a base name has no '/' unless it is the root |
| Decision.BestDate | cmd/updatemedia.go:147-156 | the result is one of the three times, and zero only when all three are zero; the same function is cmd/root.go:157-166 |
| Decision.BestDatePrecedence | cmd/root.go:157-166 | gtime if non-zero, else etime if non-zero, else atime |
| Decision.ComparisonPlan | cmd/root.go:95-101 | atime is compared with etime at 30 s only when etime is set; the time in use is compared with gtime at 80 s only when gtime is set |
| Decision.DecideRule | cmd/updatemedia.go:103-132 | write iff matched, and force or a zero Lat or Lon, and not dry-run; without a match the verdict is "Update not necessary" iff both coordinates are non-zero |
| UpdateMedia.HighlightThreshold | cmd/updatemedia.go:158-166 | the highlight is symmetric and strict: exactly `sec` seconds apart is not highlighted, one nanosecond more is |
| UpdateMedia.WriteRule | cmd/updatemedia.go:78-137 | a file gets tags iff its dates were read, the decision on the new `gpsOld` is Write, and WriteGPS succeeds; the tags come from the matched location |
| UpdateMedia.PositionCarriedOver | cmd/updatemedia.go:18-78 | `gpsOld` is never reset: a file that stops before the metadata keeps the previous position, and a missing altitude keeps the previous elevation |
| UpdateMedia.PreviousPositionBlocksVideo | cmd/updatemedia.go:78-124 | without --force, a video with a telemetry fix after a file with a position is never written |
| UpdateMedia.WritesOnlyAppended | cmd/updatemedia.go:60-141 | the walk only appends written tags, each for the path of a media file of the walk |
| UpdateMedia.WalkStops | cmd/updatemedia.go:72-75 | after a walk error or a log.Fatal, later entries are not visited |
| UpdateMedia.MediaRun.constructor | cmd/updatemedia.go:17-18 | `gpsOld` starts as the zero Trkpt, with nothing written |
| UpdateMedia.MediaRun.ProcessFile | cmd/updatemedia.go:61-139 | the callback's new state and signal are those of the per-file specification |
| UpdateMedia.MediaRun.MExecute | cmd/updatemedia.go:39-145 | no track is fatal; otherwise the state after the walk is the walk specification, and it is fatal iff a callback was |
| Root.ZoneIsDropped | cmd/root.go:168-180 | two instants with the same wall clock in different zones compare as equal, though the zone-aware comparison can highlight them |
| Root.CompareDatesThreshold | cmd/root.go:173-175 | the threshold is strict and in whole seconds of the wall clock |
| Root.CompareDates2 | cmd/root.go:182-190 | no comparison iff gtime is zero, otherwise the comparison at 80 s |
| Root.Execute | cmd/root.go:46-155 | no track is fatal; otherwise the walk runs with a local `gpsOld` from the zero Trkpt, carried across files, and its result is the walk specification |
| FixTime.GetTimeAgainstBestDate | cmd/fixtime.go:49-57 | GetTime differs from bestDate iff gtime is zero and etime is not, and then it returns zero; at the call site `GetTime(atime, etime, etime)` it is etime if set, else atime |
| FixTime.DeniedExtensions | cmd/fixtime.go:35 | a path is denied iff its extension is exactly ".LRV" or ".THM" |
| FixTime.DeniedExamples | cmd/fixtime.go:93-97 | only the last, case-sensitive extension counts |
| FixTime.ExtOfSuffix | cmd/fixtime.go:94 | the extension of `stem.tail` is `.tail` when tail has no '.' or '/' |
| FixTime.IdOf | cmd/fixtime.go:106-120 | no ID iff no match; for a "GL"/"GX" prefix the ID is the number without its first two characters, and a shorter number panics; otherwise the number |
| FixTime.VisitRules | cmd/fixtime.go:93-145 | a denied extension changes nothing; a file without an ID counts as valid and as an error and is not stored; a stored file is appended to its ID's list with mediaUpdate++ and no other list touched |
| FixTime.CountersTrackStorage | cmd/fixtime.go:99-145 | over a walk, mediaUpdate grows by at most as much as mediaValid; no counter or key is lost |
| FixTime.PassKeepsListsNonEmpty | cmd/fixtime.go:143 | every stored list stays non-empty |
| FixTime.SortCorrect | cmd/fixtime.go:162 | sort.Strings gives a sorted permutation |
| FixTime.SortedDistinctIsStrict | cmd/fixtime.go:157-162 | sorted distinct keys are strictly increasing |
| FixTime.SegmentationShape | cmd/fixtime.go:172-202 | the segments' IDs, concatenated, are the sorted IDs; every segment is non-empty, breaks exactly at its start, has none inside, keeps EndTime zero and carries the never-reset Diff |
| FixTime.BreakIsGap | cmd/fixtime.go:182-189 | with no zero StoredTime, a break comes exactly when the step is more than 240 minutes or backwards |
| FixTime.StartTimesWithStoredTimes | cmd/fixtime.go:182-193 | with no zero StoredTime, every segment starts at the StoredTime of its first ID |
| FixTime.Half | cmd/fixtime.go:197 | Duration division by 2 truncates toward zero |
| FixTime.Segmentate | cmd/fixtime.go:172-202 | the loop's segments are the segmentation of the IDs' first files |
| FixTime.SegmentStep | cmd/fixtime.go:182-197 | one ID closes the open segment exactly when oldTime is set and the gap rule fires; StartTime restarts then or when oldTime is zero; the ID joins the (new) open segment and Diff moves by NextDiff |
| FixTime.FixTimeRun.Visit | cmd/fixtime.go:75-148 | the callback's new state and signal are those of the per-file specification |
| FixTime.FixTimeRun.FirstPass | cmd/fixtime.go:74-153 | the walk's state is the pass specification |
| FixTime.FixTimeRun.Keys | cmd/fixtime.go:157-160 | the collected keys are exactly the map's keys, each once |
| FixTime.FixTimeRun.SecondPass | cmd/fixtime.go:157-202 | the IDs are the keys, strictly sorted, and the segments are their segmentation |
| FixTime.FixTimeRun.Execute | cmd/fixtime.go:65-202 | the first pass, then unless it panicked the sorted keys and their segments |
| UpdateTrack.GetPosFromGPX | cmd/updatetrack.go:117-127 | empty Time iff no point has a Time, and then the zero Trkpt |
| UpdateTrack.GetPosIsFirstTimed | cmd/updatetrack.go:117-124 | the point chosen is the first with a Time |
| UpdateTrack.Decimal | cmd/updatetrack.go:73 | decimal digits that read back as the number |
| UpdateTrack.AppendIntReadsBack | cmd/updatetrack.go:73 | a field below 10^width is written with exactly `width` digits that read back as the field |
| UpdateTrack.StampReadsBack | cmd/updatetrack.go:73 | in years 0-9999 the stamp is 20 characters, has "_mon" after the minute, and each field reads back from its place |
| UpdateTrack.StampNoSlash | cmd/updatetrack.go:73 | the stamp has no '/' |
| UpdateTrack.NewFileNameShape | cmd/updatetrack.go:71-85 | the stamp, then "_" and the cleaned place only with geoservice on and a place found, then ".gpx"; never a '/' |
| UpdateTrack.RenameTargetBase | cmd/updatetrack.go:97 | the base of `dir/name` is the name |
| UpdateTrack.HeaderNameRule | cmd/updatetrack.go:129-166 | the header is written iff it reads with an empty name, and then with the base name minus its extension |
| UpdateTrack.BuildName | cmd/updatetrack.go:73-85 | the name built is NewFileName of the stamp of the corrected time at the track position and, with --geoservice, of the reverse-geocoded place, so it has the shape NewFileNameShape proves |
| UpdateTrack.RenameAndRetime | cmd/updatetrack.go:92-113 | the effects are the header update (only with --updateheader), the rename into the track's directory and, iff the rename succeeds, Chtimes with the corrected time |
| UpdateTrack.RenameTrack | cmd/updatetrack.go:52-113 | one loop iteration has exactly the effects of the per-track specification |
| UpdateTrack.UpdateTracks | cmd/updatetrack.go:47-114 | no track is fatal; the effects are those of every track in turn |
| UpdateTrack.SkippedTracks | cmd/updatetrack.go:58-91 | no timed point, an unparsable time or dry-run means no effect |
| UpdateTrack.RenameThenRetime | cmd/updatetrack.go:93-113 | one rename to dir + "/" + name, after any header update; Chtimes with the corrected time right after, iff the rename succeeded; header only with --updateheader |
| UpdateTrack.RenamedBaseIsNewName | cmd/updatetrack.go:97-100 | the renamed file's base name is the name built for it |
| UpdateTrack.StampInjective | cmd/updatetrack.go:73 | in years 0-9999 two stamps are equal exactly when their calendar fields are |
| UpdateTrack.NameShowsWallClock | cmd/updatetrack.go:71-73 | without --geoservice two tracks get the same name exactly when the wall clocks of their corrected times, in the zones of their positions, agree |
| Legacy.ReadGPXRule | SyncMediaTrack.go:69-96 | the slice grows by the decoded track only for a decoded GPX file; only a MIME or open failure ends the process |
| Legacy.ReadDirAppendsDecoded | SyncMediaTrack.go:98-114 | a directory without an exit adds its decoded tracks in walk order and nothing else |
| Legacy.Timed | SyncMediaTrack.go:173-183 | defined iff every point's Time parses, an empty one included; then every point with its absolute distance |
| Legacy.ScanTrack | SyncMediaTrack.go:173-189 | the inner loop halts iff some point does not parse, and otherwise applies the candidate rule to every point |
| Legacy.GetClosesGPS | SyncMediaTrack.go:169-197 | halts (log.Fatal) exactly as the specification does, and otherwise returns its point and error |
| Legacy.UntimedPointIsFatal | SyncMediaTrack.go:174-178 | a point without a time in a track the scan reaches is fatal |
| Legacy.MatchRules | SyncMediaTrack.go:185-196 | the error comes exactly with a candidate more than 30 s away; without it every point parsed and the result is the candidate rule over all points |
| Legacy.GetMediaDate | SyncMediaTrack.go:116-167 | an error iff Stat or exiftool fails; the date is the tag date or the ModTime; `*gps` is as the specification says |
| Legacy.MediaDatePrecedence | SyncMediaTrack.go:148-164 | the ModTime when no date tag is present, non-empty and parseable; otherwise the first such tag in the order DateTimeOriginal, DateTime, DateTimeDigitized |
| Legacy.WriteGPS | SyncMediaTrack.go:216-223 | written tags have "S" iff Lat >= 0 and "W" iff Lon >= 0 |
| Legacy.WriteRule | SyncMediaTrack.go:296-327 | a file gets tags iff dates were read, the scan neither halted nor erred, the new `gpsOld` lacks a coordinate or --force is set, --dry-run is off and WriteGPS succeeds |
| Legacy.SyncRun.constructor | SyncMediaTrack.go:259-260 | an empty track slice and `gpsOld` the zero Trkpt |
| Legacy.SyncRun.ReadGPX | SyncMediaTrack.go:69-96 | the slice and the exit are those of the readGPX specification |
| Legacy.SyncRun.ReadGPXDir | SyncMediaTrack.go:98-114 | files are read in walk order until an exit |
| Legacy.SyncRun.ProcessFile | SyncMediaTrack.go:281-330 | the callback's new state and signal are those of the per-file specification |
| Legacy.SyncRun.Run | SyncMediaTrack.go:259-339 | a failed Stat, an exit or an empty slice is fatal; otherwise the walk specification from the zero `gpsOld` |

## Left out

- Haversine (`distancePoints`, `grados2radians`) is an abstract distance function, because floating-point trigonometry is out of scope.
- `UpdateGPSDateTime` and its time-zone finder are an abstract correction function. They are not part of this model.
- `time.Parse` and `time.Format` layouts are abstract functions. The exception is the track-name layout, whose fields and literal "_mon" are written out over abstract calendar fields.
- The calendar fields (`Civil`) are an abstract function of the corrected instant and the track position. It stands for the wall clock in the zone `UpdateGPSDateTime` attaches there, so tracks at the same instant in zones with different offsets can get different names. The fields are not derived from the instant by a calendar, and the zone finder is not modelled. `UpdateTrack.StampReadsBack` assumes years 0-9999 and two-digit fields.
- `UpdateTrack.AppendInt`: only the padding path that the track-name layout uses is proved; wider general-purpose widths are not.
- All I/O is replaced by input datatypes. This covers MIME sniffing, directory walks (their order is the given sequence), `os.Stat`/`Open`/`Rename`/`Chtimes`/`Create`, XML decoding and encoding, exiftool's reads and writes, and GoPro GPMF extraction (the telemetry reads are a given sequence).
- The regular expressions are not run. The fixtime ID regex is replaced by its already-split groups. The altitude regex `(\d+) m.*` is a digit-run scan with Go's leftmost-first choice.
- Go map iteration order over the loaded tracks and over `imageFile` is replaced by a sequence given in any order. `FixTime.FixTimeRun.Keys` picks the keys in an unspecified order, and no property depends on it.
- The duration comparisons use float `Seconds()`/`Minutes()` in Go and exact integer comparisons here: the tolerance `Seconds() > 30` and fixtime's `Abs(t.Minutes()) > 240`. Float rounding is not modelled.
- Go's `time.Duration` is int64, and its saturation on huge differences is not modelled. Durations are unbounded integers.
- Coordinates are `real`, with no float64 rounding. `int64(gps.Ele)` is truncation toward zero.
- `FilePath.Dir` is filepath.Dir for clean paths only, which is what a directory walk yields. `filepath.Clean` of arbitrary paths is not modelled.
- Printing, colours, cobra command setup and `FfmpegInstalled` have no effect on the model, except through the flags.
- Track loading in the cmd drivers (`MExecute`, `Execute`, and `UpdateTrack.UpdateTracks` for `updateTrackExecute`) is given as the tracks loaded. The log.Fatal on a failed `os.Stat` of the track path (cmd/updatetrack.go:36-39, cmd/updatemedia.go:45-49, cmd/root.go:56-60) comes before that and is not modelled there. The one-argument `ReadGPXDir(track)`/`ReadGPX(track)` calls in the drivers do not match the `(string, bool)` signatures in lib/gpx.go, so the drivers take the loaded tracks as given, and lib `ReadTracks` is modelled in `Gpx.TrackStore`. The drivers call GetClosesGPS with a `(date, &location) bool` signature that lib/exif.go does not have, so there the match is an abstract `(matched, location)` function.
- `updateHeaderName`: errors from `os.Create`, from writing the XML header and from `WriteIndent` are only printed. `SetHeaderName` stands for the attempted rewrite.
- Errors from `os.Chtimes` are only printed, and the return value of `WriteMetadata` is ignored, as in the source.
- `metas[0]` is assumed to exist after `ExtractMetadata`. A missing entry would panic in Go and is not modelled.
- The old program's XML decoding of `ele` into an int64 (a fractional value fails to decode) is part of the decode-error input.
- `ReverseLocation`'s network call is replaced by the geocoded address or an error. A nil address without an error is not modelled.
- The Go tests in lib/ target a `ReadGPX` signature and an `UpdateGPSDateTime` that are not part of this model, and are not used as a specification.
