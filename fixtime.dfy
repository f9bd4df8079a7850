/** cmd/fixtime.go: the `fixtime` command. A first pass over the media files groups them by a file
    ID taken from the name; a second pass sorts the IDs and cuts them into segments wherever the
    stored time jumps by more than four hours or goes backwards. */
module FixTime {
  import opened Optional
  import opened Clock
  import opened Gpx
  import opened Exif
  import opened FilePath
  import opened Decision

  // ===== GetTime (lines 49-57) =====

  /** GetTime as written: when gtime is zero and etime is not, it returns gtime. */
  function GetTime(atime: Instant, etime: Instant, gtime: Instant): Instant {
    if !IsZero(gtime) then gtime
    else if !IsZero(etime) then gtime
    else atime
  }

  /** GetTime departs from the precedence of bestDate exactly when gtime is zero and etime is not,
      and then returns the zero time. At its only call site, `GetTime(atime, etime, etime)`, this
      never shows: the result is etime when set, else atime. */
  lemma {:induction false} GetTimeAgainstBestDate(atime: Instant, etime: Instant, gtime: Instant)
    ensures GetTime(atime, etime, gtime) != BestDate(atime, etime, gtime) <==> IsZero(gtime) && !IsZero(etime)
    ensures IsZero(gtime) && !IsZero(etime) ==> IsZero(GetTime(atime, etime, gtime))
    ensures GetTime(atime, etime, etime) == (if !IsZero(etime) then etime else atime)
    ensures GetTime(atime, etime, etime) == BestDate(atime, etime, ZeroTime)
  {
  }

  // ===== First pass (lines 65-153) =====

  const DenyExtension: seq<string> := ["LRV", "THM"]

  /** The extension of the path, '.' included, is one of DenyExtension. */
  predicate IsDenied(path: string) {
    exists k :: 0 <= k < |DenyExtension| && Ext(path) == "." + DenyExtension[k]
  }

  /** The test is on the exact, case-sensitive extension. */
  lemma {:induction false} DeniedExtensions(path: string)
    ensures IsDenied(path) <==> Ext(path) == ".LRV" || Ext(path) == ".THM"
  {
    assert "." + DenyExtension[0] == ".LRV" && "." + DenyExtension[1] == ".THM";
  }

  /** Only the last extension counts, and lower case is not denied. */
  lemma {:induction false} DeniedExamples()
    ensures IsDenied("clip.LRV") && !IsDenied("clip.lrv") && !IsDenied("clip.LRV.mp4")
  {
    assert "clip" + "." + "LRV" == "clip.LRV";
    assert "clip" + "." + "lrv" == "clip.lrv";
    assert "clip.LRV" + "." + "mp4" == "clip.LRV.mp4";
    ExtOfSuffix("clip", "LRV");
    ExtOfSuffix("clip", "lrv");
    ExtOfSuffix("clip.LRV", "mp4");
    assert ".lrv" != ".LRV" && ".lrv" != ".THM" && ".mp4" != ".LRV" && ".mp4" != ".THM";
    DeniedExtensions("clip.LRV");
    DeniedExtensions("clip.lrv");
    DeniedExtensions("clip.LRV.mp4");
  }

  lemma {:induction false} ConcatLast(stem: string, t: string, c: char)
    ensures stem + "." + (t + [c]) == (stem + "." + t) + [c]
    ensures "." + (t + [c]) == ("." + t) + [c]
  {
  }

  /** A character other than '.' and '/' extends a non-empty extension. */
  lemma {:induction false} ExtAppend(s: string, c: char)
    requires c != '.' && c != '/'
    ensures Ext(s + [c]) == if Ext(s) == [] then [] else Ext(s) + [c]
  {
    assert (s + [c])[..|s|] == s;
  }

  /** The extension of `stem + "." + tail` is "." + tail when tail has no '.' or '/'. */
  lemma {:induction false} ExtOfSuffix(stem: string, tail: string)
    requires forall k :: 0 <= k < |tail| ==> tail[k] != '.' && tail[k] != '/'
    ensures Ext(stem + "." + tail) == "." + tail
    decreases |tail|
  {
    var p := stem + "." + tail;
    if tail == [] {
      assert p[|p| - 1] == '.';
    } else {
      var t, c := tail[..|tail| - 1], tail[|tail| - 1];
      assert tail == t + [c];
      ExtOfSuffix(stem, t);
      ConcatLast(stem, t, c);
      ExtAppend(stem + "." + t, c);
    }
  }

  /** The submatches of `([A-Za-z-_]*)(\d[\w.-]*)(\.[\w]+)$` on the relative path: none, or the
      prefix letters, the numeric part and the extension. */
  datatype Split = NoMatch | Groups(prefix: string, number: string, ext: string)

  /** The file ID: the numeric part, without its first two characters for GoPro files (prefix
      "GL" or "GX"). Slicing `id[2:]` of a shorter numeric part panics. */
  datatype FileIdResult = NoId | FileId(id: string) | SlicePanic

  function IdOf(split: Split): (r: FileIdResult)
    ensures r.NoId? <==> split.NoMatch?
    ensures r.FileId? && split.prefix in {"GL", "GX"} ==> |split.number| >= 2 && split.number == split.number[..2] + r.id
    ensures r.FileId? && split.prefix !in {"GL", "GX"} ==> r.id == split.number
    ensures r.SlicePanic? <==> split.Groups? && split.prefix in {"GL", "GX"} && |split.number| < 2
  {
    match split
    case NoMatch => NoId
    case Groups(prefix, number, _) =>
      if prefix == "GL" || prefix == "GX" then
        if |number| < 2 then SlicePanic else FileId(number[2..])
      else FileId(number)
  }

  /** What the first pass stores per file; the other fields of the source's ImageInfo
      (HasGPSDate, AdjustedDate, IsAdjusted) are never set and stay at their zero values. */
  datatype ImageInfo = ImageInfo(Path: string, atime: Instant, etime: Instant, gtime: Instant)

  /** One entry of the walk: a directory, a file that is not media, or a media file with whether
      filepath.Rel succeeds, its inputs to GetMediaDate and the regular expression's submatches. */
  datatype Entry = DirEntry | NotMedia | MediaFile(path: string, relOk: bool, m: MediaInput, split: Split)

  datatype FixState = FixState(imageFile: map<string, seq<ImageInfo>>, mediaValid: int, mediaError: int, mediaUpdate: int)

  /** How the callback ends: return nil, return an error (the walk stops), or a panic. */
  datatype Signal = Next | WalkError | Panic

  function Stored(imageFile: map<string, seq<ImageInfo>>, id: string): seq<ImageInfo> {
    if id in imageFile then imageFile[id] else []
  }

  /** The callback of lines 75-148 on one entry. */
  function VisitSpec(xenv: ExifEnv, fill: Filler, st: FixState, e: Entry): (FixState, Signal) {
    match e
    case DirEntry => (st, Next)
    case NotMedia => (st, Next)
    case MediaFile(path, relOk, m, split) =>
      if !relOk then (st.(mediaError := st.mediaError + 1), WalkError)
      else if IsDenied(path) then (st, Next)
      else
        var (dates, failed) := DatesOf(xenv, fill, m);
        if failed then (st.(mediaError := st.mediaError + 1), Next)
        else
          var counted := st.(mediaValid := st.mediaValid + 1);
          match IdOf(split)
          case NoId => (counted.(mediaError := st.mediaError + 1), Next)
          case SlicePanic => (counted, Panic)
          case FileId(id) =>
            var info := ImageInfo(path, dates.atime, dates.etime, dates.gtime);
            (counted.(imageFile := st.imageFile[id := Stored(st.imageFile, id) + [info]],
                      mediaUpdate := st.mediaUpdate + 1), Next)
  }

  /** The walk from `st`: entries in order until one does not return nil. */
  function PassSpec(xenv: ExifEnv, fill: Filler, st: FixState, entries: seq<Entry>): (FixState, Signal)
    decreases |entries|
  {
    if entries == [] then (st, Next)
    else
      var (st', sig) := VisitSpec(xenv, fill, st, entries[0]);
      if sig != Next then (st', sig) else PassSpec(xenv, fill, st', entries[1..])
  }

  /** Every stored list is non-empty. */
  predicate ListsNonEmpty(imageFile: map<string, seq<ImageInfo>>) {
    forall k :: k in imageFile ==> |imageFile[k]| > 0
  }

  /** The per-file rules: a denied extension is skipped before any counter moves; a file whose
      name yields no ID counts as valid and as an error and is not stored; a stored file is
      appended to the list of its ID, with mediaUpdate incremented and every other list kept. */
  lemma {:induction false} VisitRules(xenv: ExifEnv, fill: Filler, st: FixState, path: string, m: MediaInput, split: Split)
    ensures IsDenied(path) ==> VisitSpec(xenv, fill, st, MediaFile(path, true, m, split)) == (st, Next)
    ensures var (st', sig) := VisitSpec(xenv, fill, st, MediaFile(path, true, m, split));
      !IsDenied(path) && !DatesOf(xenv, fill, m).1 && split.NoMatch? ==>
        st' == st.(mediaValid := st.mediaValid + 1, mediaError := st.mediaError + 1) && sig == Next
    ensures var (st', sig) := VisitSpec(xenv, fill, st, MediaFile(path, true, m, split));
      !IsDenied(path) && !DatesOf(xenv, fill, m).1 && IdOf(split).FileId? ==>
        var id := IdOf(split).id;
        && id in st'.imageFile
        && st'.imageFile[id] == Stored(st.imageFile, id) + [ImageInfo(path, DatesOf(xenv, fill, m).0.atime, DatesOf(xenv, fill, m).0.etime, DatesOf(xenv, fill, m).0.gtime)]
        && (forall k :: k != id ==> (k in st'.imageFile <==> k in st.imageFile) && (k in st.imageFile ==> st'.imageFile[k] == st.imageFile[k]))
        && st'.mediaUpdate == st.mediaUpdate + 1 && st'.mediaValid == st.mediaValid + 1 && st'.mediaError == st.mediaError
    ensures ListsNonEmpty(st.imageFile) ==> ListsNonEmpty(VisitSpec(xenv, fill, st, MediaFile(path, true, m, split)).0.imageFile)
  {
  }

  /** mediaUpdate moves exactly when one file is appended, and then mediaValid moves too. */
  lemma {:induction false} CountersTrackStorage(xenv: ExifEnv, fill: Filler, st: FixState, entries: seq<Entry>)
    ensures var st' := PassSpec(xenv, fill, st, entries).0;
      && st'.mediaUpdate - st.mediaUpdate <= st'.mediaValid - st.mediaValid
      && st.mediaUpdate <= st'.mediaUpdate && st.mediaError <= st'.mediaError
      && st.imageFile.Keys <= st'.imageFile.Keys
    decreases |entries|
  {
    if entries != [] {
      var (st1, sig) := VisitSpec(xenv, fill, st, entries[0]);
      if sig == Next {
        CountersTrackStorage(xenv, fill, st1, entries[1..]);
      }
    }
  }

  lemma {:induction false} PassKeepsListsNonEmpty(xenv: ExifEnv, fill: Filler, st: FixState, entries: seq<Entry>)
    requires ListsNonEmpty(st.imageFile)
    ensures ListsNonEmpty(PassSpec(xenv, fill, st, entries).0.imageFile)
    decreases |entries|
  {
    if entries != [] {
      var (st1, sig) := VisitSpec(xenv, fill, st, entries[0]);
      if sig == Next {
        PassKeepsListsNonEmpty(xenv, fill, st1, entries[1..]);
      }
    }
  }

  // ===== Sorting the IDs (lines 157-162) =====

  /** Go's string order: byte-wise on UTF-8, which is the order of code points. */
  predicate StrLess(a: string, b: string)
    decreases |a|
  {
    if a == [] then b != []
    else if b == [] then false
    else if a[0] != b[0] then a[0] < b[0]
    else StrLess(a[1..], b[1..])
  }

  lemma {:induction false} StrLessIrreflexive(a: string)
    ensures !StrLess(a, a)
    decreases |a|
  {
    if a != [] {
      StrLessIrreflexive(a[1..]);
    }
  }

  lemma {:induction false} StrLessTransitive(a: string, b: string, c: string)
    requires StrLess(a, b) && StrLess(b, c)
    ensures StrLess(a, c)
    decreases |a|
  {
    if a != [] && b != [] && c != [] && a[0] == b[0] && b[0] == c[0] {
      StrLessTransitive(a[1..], b[1..], c[1..]);
    }
  }

  lemma {:induction false} StrLessTotal(a: string, b: string)
    requires a != b
    ensures StrLess(a, b) || StrLess(b, a)
    decreases |a|
  {
    if a != [] && b != [] && a[0] == b[0] {
      assert a == [a[0]] + a[1..] && b == [b[0]] + b[1..];
      StrLessTotal(a[1..], b[1..]);
    }
  }

  predicate Sorted(s: seq<string>) {
    forall i, j :: 0 <= i < j < |s| ==> !StrLess(s[j], s[i])
  }

  predicate StrictlySorted(s: seq<string>) {
    forall i, j :: 0 <= i < j < |s| ==> StrLess(s[i], s[j])
  }

  function Insert(x: string, s: seq<string>): seq<string> {
    if s == [] then [x]
    else if StrLess(s[0], x) then [s[0]] + Insert(x, s[1..])
    else [x] + s
  }

  /** sort.Strings. */
  function Sort(s: seq<string>): seq<string> {
    if s == [] then [] else Insert(s[|s| - 1], Sort(s[..|s| - 1]))
  }

  lemma {:induction false} InsertSorted(x: string, s: seq<string>)
    requires Sorted(s)
    ensures Sorted(Insert(x, s)) && multiset(Insert(x, s)) == multiset(s) + multiset{x}
    decreases |s|
  {
    if s == [] {
    } else if StrLess(s[0], x) {
      assert s == [s[0]] + s[1..];
      InsertSorted(x, s[1..]);
      HeadBelowInsert(x, s);
      ConsSorted(s[0], Insert(x, s[1..]));
    } else {
      XBelowAll(x, s);
      ConsSorted(x, s);
    }
  }

  /** A head that no element precedes, in front of a sorted sequence, keeps it sorted. */
  lemma {:induction false} ConsSorted(h: string, r: seq<string>)
    requires Sorted(r) && forall k :: 0 <= k < |r| ==> !StrLess(r[k], h)
    ensures Sorted([h] + r)
  {
    var t := [h] + r;
    forall i, j | 0 <= i < j < |t|
      ensures !StrLess(t[j], t[i])
    {
      assert t[j] == r[j - 1];
      if i > 0 {
        assert t[i] == r[i - 1];
      }
    }
  }

  /** Nothing in `Insert(x, s[1..])` precedes s[0] when s is sorted and s[0] precedes x. */
  lemma {:induction false} HeadBelowInsert(x: string, s: seq<string>)
    requires Sorted(s) && s != [] && StrLess(s[0], x)
    requires multiset(Insert(x, s[1..])) == multiset(s[1..]) + multiset{x}
    ensures forall k :: 0 <= k < |Insert(x, s[1..])| ==> !StrLess(Insert(x, s[1..])[k], s[0])
  {
    var r := Insert(x, s[1..]);
    forall k | 0 <= k < |r|
      ensures !StrLess(r[k], s[0])
    {
      assert r[k] in multiset(r);
      if r[k] == x {
        if StrLess(x, s[0]) {
          StrLessTransitive(x, s[0], x);
          StrLessIrreflexive(x);
        }
      } else {
        assert r[k] in multiset(s[1..]);
        var j :| 0 <= j < |s[1..]| && s[1..][j] == r[k];
        assert s[j + 1] == r[k];
      }
    }
  }

  /** Nothing in a sorted s precedes x when s[0] does not. */
  lemma {:induction false} XBelowAll(x: string, s: seq<string>)
    requires Sorted(s) && s != [] && !StrLess(s[0], x)
    ensures forall j :: 0 <= j < |s| ==> !StrLess(s[j], x)
  {
    forall j | 0 <= j < |s|
      ensures !StrLess(s[j], x)
    {
      if StrLess(s[j], x) && j > 0 {
        if StrLess(s[0], s[j]) {
          StrLessTransitive(s[0], s[j], x);
        } else if s[0] != s[j] {
          StrLessTotal(s[0], s[j]);
        }
      }
    }
  }


  /** The sorted IDs are in order and are a permutation of the input. */
  lemma {:induction false} SortCorrect(s: seq<string>)
    ensures Sorted(Sort(s)) && multiset(Sort(s)) == multiset(s)
    decreases |s|
  {
    if s != [] {
      SortCorrect(s[..|s| - 1]);
      InsertSorted(s[|s| - 1], Sort(s[..|s| - 1]));
      assert s == s[..|s| - 1] + [s[|s| - 1]];
    }
  }

  /** Sorted distinct IDs are strictly increasing. */
  lemma {:induction false} SortedDistinctIsStrict(s: seq<string>)
    requires Sorted(s) && forall i, j :: 0 <= i < j < |s| ==> s[i] != s[j]
    ensures StrictlySorted(s)
  {
    forall i, j | 0 <= i < j < |s|
      ensures StrLess(s[i], s[j])
    {
      StrLessTotal(s[i], s[j]);
    }
  }

  /** Multiplicities of a sequence without repetitions are at most one. */
  lemma {:induction false} DistinctCounts(a: seq<string>, x: string)
    requires forall i, j :: 0 <= i < j < |a| ==> a[i] != a[j]
    ensures multiset(a)[x] <= 1
    decreases |a|
  {
    if a != [] {
      var n := |a| - 1;
      DistinctCounts(a[..n], x);
      assert a == a[..n] + [a[n]];
      if x == a[n] {
        assert x !in a[..n];
      }
    }
  }

  /** A sequence whose multiplicities are at most one has no repetitions. */
  lemma {:induction false} CountsDistinct(b: seq<string>)
    requires forall x :: multiset(b)[x] <= 1
    ensures forall i, j :: 0 <= i < j < |b| ==> b[i] != b[j]
  {
    forall i, j | 0 <= i < j < |b|
      ensures b[i] != b[j]
    {
      var left, right := b[..j], b[j + 1..];
      assert b == left + [b[j]] + right;
      assert multiset(b) == multiset(left + [b[j]]) + multiset(right);
      assert multiset(left + [b[j]]) == multiset(left) + multiset{b[j]};
      assert multiset(b)[b[j]] <= 1;
      assert b[i] == left[i];
    }
  }

  // ===== Segmentation (lines 172-202) =====

  /** MaxTimeSegment: four hours. */
  const MaxTimeSegment: Duration := 240 * Minute

  /** What the segmentation loop reads for one ID: the StoredTime of its first file and that
      file's gtime. */
  datatype Item = Item(id: string, stored: Instant, gtime: Instant)

  datatype Segment = Segment(Diff: Duration, StartTime: Instant, EndTime: Instant, Id: seq<string>)

  function ItemFor(imageFile: map<string, seq<ImageInfo>>, k: string): Item
    requires k in imageFile && |imageFile[k]| > 0
  {
    var f := imageFile[k][0];
    Item(k, GetTime(f.atime, f.etime, f.etime), f.gtime)
  }

  function ItemsOf(imageFile: map<string, seq<ImageInfo>>, ids: seq<string>): (items: seq<Item>)
    requires forall k :: k in ids ==> k in imageFile && |imageFile[k]| > 0
    ensures |items| == |ids| && forall i :: 0 <= i < |ids| ==> items[i] == ItemFor(imageFile, ids[i])
  {
    seq(|ids|, i requires 0 <= i < |ids| => ItemFor(imageFile, ids[i]))
  }

  function IdsOf(items: seq<Item>): (ids: seq<string>)
    ensures |ids| == |items| && forall i :: 0 <= i < |items| ==> ids[i] == items[i].id
  {
    seq(|items|, i requires 0 <= i < |items| => items[i].id)
  }

  /** The break test of line 184: more than MaxTimeSegment apart, or backwards. */
  predicate Gap(prev: Instant, cur: Instant) {
    Abs(cur - prev) > MaxTimeSegment || prev > cur
  }

  /** A segment is closed before item i. `oldTime` there is the previous item's StoredTime (it is
      reset at a break but set again at once), so the break depends on the two items only. */
  predicate BreakAt(items: seq<Item>, i: int)
    requires 0 < i < |items|
  {
    !IsZero(items[i - 1].stored) && Gap(items[i - 1].stored, items[i].stored)
  }

  /** Go's Duration division by 2, which truncates toward zero. */
  function Half(d: Duration): (h: Duration)
    ensures -1 <= d - 2 * h <= 1 && (d >= 0 ==> h >= 0) && (d <= 0 ==> h <= 0)
  {
    if d >= 0 then d / 2 else -((-d) / 2)
  }

  /** Diff once an item is read: averaged with its own offset when its first file has a gtime. */
  function NextDiff(d: Duration, it: Item): Duration {
    if IsZero(it.gtime) then d else Half(d + (it.stored - it.gtime))
  }

  /** Diff after the items: never reset, averaged in whenever an ID's first file has a gtime. */
  function DiffAfter(items: seq<Item>): Duration {
    if items == [] then 0
    else
      var it := items[|items| - 1];
      var d := DiffAfter(items[..|items| - 1]);
      NextDiff(d, it)
  }

  /** StartTime after the items: set to StoredTime at a break and whenever `oldTime` is zero. */
  function StartAfter(items: seq<Item>): Instant {
    if items == [] then ZeroTime
    else
      var n := |items| - 1;
      if n == 0 || IsZero(items[n - 1].stored) || Gap(items[n - 1].stored, items[n].stored) then items[n].stored
      else StartAfter(items[..n])
  }

  /** The loop's `seg` and `Id` after some items. */
  datatype Progress = Progress(closed: seq<Segment>, open: seq<string>)

  function Cut(items: seq<Item>): Progress {
    if items == [] then Progress([], [])
    else
      var n := |items| - 1;
      var p := Cut(items[..n]);
      if n > 0 && BreakAt(items, n) then
        Progress(p.closed + [Segment(DiffAfter(items[..n]), StartAfter(items[..n]), ZeroTime, p.open)], [items[n].id])
      else Progress(p.closed, p.open + [items[n].id])
  }

  /** The segments of lines 180-202. */
  function Segmentation(items: seq<Item>): seq<Segment> {
    var p := Cut(items);
    if |p.open| > 0 then p.closed + [Segment(DiffAfter(items), StartAfter(items), ZeroTime, p.open)] else p.closed
  }

  /** The IDs of the segments, one after the other. */
  function FlatIds(S: seq<Segment>): seq<string> {
    if S == [] then [] else FlatIds(S[..|S| - 1]) + S[|S| - 1].Id
  }

  /** Segment j of S covers the items from o, the number of IDs before it, to e: it is
      non-empty, its EndTime is zero, a break precedes it unless it is the first one, there is
      no break inside it, and its Diff and StartTime are the loop's values after its last item. */
  predicate SegmentFits(items: seq<Item>, S: seq<Segment>, j: int)
    requires 0 <= j < |S|
  {
    var o := |FlatIds(S[..j])|;
    var e := o + |S[j].Id|;
    && S[j].Id != []
    && IsZero(S[j].EndTime)
    && e <= |items|
    && (j > 0 ==> 0 < o && BreakAt(items, o))
    && (forall k :: o < k < e ==> !BreakAt(items, k))
    && S[j].Diff == DiffAfter(items[..e])
    && S[j].StartTime == StartAfter(items[..e])
  }

  /** What holds of the loop state after a non-empty prefix. */
  predicate CutShape(items: seq<Item>, p: Progress) {
    && FlatIds(p.closed) + p.open == IdsOf(items)
    && p.open != []
    && (forall j :: 0 <= j < |p.closed| ==> SegmentFits(items, p.closed, j))
    && (|p.closed| > 0 ==> 0 < |FlatIds(p.closed)| < |items| && BreakAt(items, |FlatIds(p.closed)|))
    && (forall k :: |FlatIds(p.closed)| < k < |items| ==> !BreakAt(items, k))
  }

  lemma {:induction false} FitsStable(items: seq<Item>, more: seq<Item>, S: seq<Segment>, T: seq<Segment>, j: int)
    requires 0 <= j < |S| && SegmentFits(items, S, j)
    ensures SegmentFits(items + more, S + T, j)
  {
    var items', S' := items + more, S + T;
    assert S'[..j] == S[..j] && S'[j] == S[j];
    var o := |FlatIds(S[..j])|;
    var e := o + |S[j].Id|;
    assert items'[..e] == items[..e];
    BreaksStable(items, more);
  }

  lemma {:induction false} AllFitStable(items: seq<Item>, more: seq<Item>, S: seq<Segment>, T: seq<Segment>)
    requires forall j :: 0 <= j < |S| ==> SegmentFits(items, S, j)
    ensures forall j :: 0 <= j < |S| ==> SegmentFits(items + more, S + T, j)
  {
    forall j | 0 <= j < |S|
      ensures SegmentFits(items + more, S + T, j)
    {
      FitsStable(items, more, S, T, j);
    }
  }

  lemma {:induction false} BreaksStable(items: seq<Item>, more: seq<Item>)
    ensures forall x :: 0 < x < |items| ==> BreakAt(items + more, x) == BreakAt(items, x)
  {
    forall x | 0 < x < |items|
      ensures BreakAt(items + more, x) == BreakAt(items, x)
    {
      assert (items + more)[x] == items[x] && (items + more)[x - 1] == items[x - 1];
    }
  }

  lemma {:induction false} FlatIdsAppend(S: seq<Segment>, s: Segment)
    ensures FlatIds(S + [s]) == FlatIds(S) + s.Id
  {
    assert (S + [s])[..|S|] == S;
  }

  /** One more item that starts a new segment. */
  lemma {:induction false} CutStepBreak(pre: seq<Item>, x: Item, p: Progress)
    requires pre != [] && CutShape(pre, p)
    requires BreakAt(pre + [x], |pre|)
    ensures CutShape(pre + [x], Progress(p.closed + [Segment(DiffAfter(pre), StartAfter(pre), ZeroTime, p.open)], [x.id]))
  {
    var last := Segment(DiffAfter(pre), StartAfter(pre), ZeroTime, p.open);
    BreakIds(pre, x, p.closed, last);
    assert |FlatIds(p.closed) + p.open| == |IdsOf(pre)|;
    BreakAllFit(pre, x, p.closed, p.open);
    ShapeIntro(pre + [x], Progress(p.closed + [last], [x.id]));
  }

  /** CutShape from its conjuncts, the last one holding because the open segment is one item. */
  lemma {:induction false} ShapeIntro(items: seq<Item>, p: Progress)
    requires FlatIds(p.closed) + p.open == IdsOf(items) && p.open != []
    requires forall j :: 0 <= j < |p.closed| ==> SegmentFits(items, p.closed, j)
    requires |p.closed| > 0 && |FlatIds(p.closed)| + 1 == |items| && 0 < |FlatIds(p.closed)|
    requires BreakAt(items, |FlatIds(p.closed)|)
    ensures CutShape(items, p)
  {
  }

  lemma {:induction false} BreakIds(pre: seq<Item>, x: Item, closed: seq<Segment>, last: Segment)
    requires FlatIds(closed) + last.Id == IdsOf(pre)
    ensures FlatIds(closed + [last]) + [x.id] == IdsOf(pre + [x])
    ensures |FlatIds(closed + [last])| == |pre|
  {
    FlatIdsAppend(closed, last);
    assert IdsOf(pre + [x]) == IdsOf(pre) + [x.id];
  }

  /** Every segment closed so far, the new one included, fits the longer items. */
  lemma {:induction false} BreakAllFit(pre: seq<Item>, x: Item, closed: seq<Segment>, open: seq<string>)
    requires forall j :: 0 <= j < |closed| ==> SegmentFits(pre, closed, j)
    requires open != [] && |FlatIds(closed)| + |open| == |pre|
    requires |closed| > 0 ==> 0 < |FlatIds(closed)| && BreakAt(pre, |FlatIds(closed)|)
    requires forall k :: |FlatIds(closed)| < k < |pre| ==> !BreakAt(pre, k)
    ensures forall j :: 0 <= j <= |closed| ==>
      SegmentFits(pre + [x], closed + [Segment(DiffAfter(pre), StartAfter(pre), ZeroTime, open)], j)
  {
    var S := closed + [Segment(DiffAfter(pre), StartAfter(pre), ZeroTime, open)];
    LastFits(pre, closed, open);
    FitsStable(pre, [x], S, [], |closed|);
    assert S + [] == S;
    AllFitStable(pre, [x], closed, S[|closed|..]);
    assert closed + S[|closed|..] == S;
  }

  /** One more item that continues the open segment. */
  lemma {:induction false} CutStepJoin(pre: seq<Item>, x: Item, p: Progress)
    requires pre != [] && CutShape(pre, p)
    requires !BreakAt(pre + [x], |pre|)
    ensures CutShape(pre + [x], Progress(p.closed, p.open + [x.id]))
  {
    var items := pre + [x];
    var n := |pre|;
    var o := |FlatIds(p.closed)|;
    BreaksStable(pre, [x]);
    assert IdsOf(items) == IdsOf(pre) + [x.id];
    assert o + |p.open| == n;
    AllFitStable(pre, [x], p.closed, []);
    assert p.closed + [] == p.closed;

  }

  lemma {:induction false} CutHasShape(items: seq<Item>)
    requires items != []
    ensures CutShape(items, Cut(items))
    decreases |items|
  {
    var n := |items| - 1;
    var pre := items[..n];
    var x := items[n];
    assert items == pre + [x];
    if n == 0 {
      assert Cut(pre) == Progress([], []);
      assert IdsOf(items) == [x.id];
    } else {
      CutHasShape(pre);
      var p := Cut(pre);
      if BreakAt(items, n) {
        CutStepBreak(pre, x, p);
        assert Cut(items) == Progress(p.closed + [Segment(DiffAfter(pre), StartAfter(pre), ZeroTime, p.open)], [x.id]);
      } else {
        CutStepJoin(pre, x, p);
        assert Cut(items) == Progress(p.closed, p.open + [x.id]);
      }
    }
  }

  /** The segments partition the IDs in order, and each one fits: a break exactly at each
      boundary and nowhere inside a segment, EndTime zero, and Diff and StartTime as the loop
      left them after the segment's last ID. */
  lemma {:induction false} SegmentationShape(items: seq<Item>)
    ensures var S := Segmentation(items);
      && FlatIds(S) == IdsOf(items)
      && forall j :: 0 <= j < |S| ==> SegmentFits(items, S, j)
  {
    SegmentationIds(items);
    SegmentationFits(items);
  }

  lemma {:induction false} SegmentationIds(items: seq<Item>)
    ensures FlatIds(Segmentation(items)) == IdsOf(items)
  {
    if items != [] {
      CutHasShape(items);
      var p := Cut(items);
      FlatIdsAppend(p.closed, Segment(DiffAfter(items), StartAfter(items), ZeroTime, p.open));
    }
  }

  lemma {:induction false} SegmentationFits(items: seq<Item>)
    ensures forall j :: 0 <= j < |Segmentation(items)| ==> SegmentFits(items, Segmentation(items), j)
  {
    if items != [] {
      CutHasShape(items);
      var p := Cut(items);
      var last := Segment(DiffAfter(items), StartAfter(items), ZeroTime, p.open);
      assert Segmentation(items) == p.closed + [last];
      assert items + [] == items;
      AllFitStable(items, [], p.closed, [last]);
      assert |FlatIds(p.closed) + p.open| == |IdsOf(items)|;
      LastFits(items, p.closed, p.open);
    }
  }

  /** The segment still open after the last item fits. */
  lemma {:induction false} LastFits(items: seq<Item>, closed: seq<Segment>, open: seq<string>)
    requires open != [] && |FlatIds(closed)| + |open| == |items|
    requires |closed| > 0 ==> 0 < |FlatIds(closed)| && BreakAt(items, |FlatIds(closed)|)
    requires forall k :: |FlatIds(closed)| < k < |items| ==> !BreakAt(items, k)
    ensures SegmentFits(items, closed + [Segment(DiffAfter(items), StartAfter(items), ZeroTime, open)], |closed|)
  {
    var S := closed + [Segment(DiffAfter(items), StartAfter(items), ZeroTime, open)];
    assert S[..|closed|] == closed;
    assert items[..|items|] == items;
  }

  /** StartTime over a run of items without a break, starting at a break or at the first item. */
  lemma {:induction false} StartOfRun(items: seq<Item>, o: nat, e: nat)
    requires o < e <= |items|
    requires forall i :: 0 <= i < |items| ==> !IsZero(items[i].stored)
    requires o == 0 || BreakAt(items, o)
    requires forall q :: o < q < e ==> !BreakAt(items, q)
    ensures StartAfter(items[..e]) == items[o].stored
    decreases e
  {
    var pre := items[..e];
    assert pre[..e - 1] == items[..e - 1];
    if e - 1 > o {
      StartOfRun(items, o, e - 1);
      assert !BreakAt(items, e - 1);
    }
  }

  /** When no StoredTime is the zero time, the break between two consecutive IDs is exactly the
      gap test. */
  lemma {:induction false} BreakIsGap(items: seq<Item>)
    requires forall i :: 0 <= i < |items| ==> !IsZero(items[i].stored)
    ensures forall i :: 0 < i < |items| ==> (BreakAt(items, i) <==> Gap(items[i - 1].stored, items[i].stored))
  {
  }

  /** When no StoredTime is the zero time, every segment starts at the StoredTime of its first ID. */
  lemma {:induction false} StartTimesWithStoredTimes(items: seq<Item>)
    requires forall i :: 0 <= i < |items| ==> !IsZero(items[i].stored)
    ensures var S := Segmentation(items);
      forall j :: 0 <= j < |S| ==> |FlatIds(S[..j])| < |items| && S[j].StartTime == items[|FlatIds(S[..j])|].stored
  {
    SegmentationShape(items);
    var S := Segmentation(items);
    forall j | 0 <= j < |S|
      ensures |FlatIds(S[..j])| < |items| && S[j].StartTime == items[|FlatIds(S[..j])|].stored
    {
      SegmentStart(items, S, j);
    }
  }

  lemma {:induction false} SegmentStart(items: seq<Item>, S: seq<Segment>, j: int)
    requires forall i :: 0 <= i < |items| ==> !IsZero(items[i].stored)
    requires 0 <= j < |S| && SegmentFits(items, S, j)
    ensures |FlatIds(S[..j])| < |items| && S[j].StartTime == items[|FlatIds(S[..j])|].stored
  {
    var o := |FlatIds(S[..j])|;
    StartOfRun(items, o, o + |S[j].Id|);
  }

  /** Cut, StartAfter and DiffAfter after one more item, in terms of their values before it. */
  lemma {:induction false} PrefixStep(items: seq<Item>, i: int)
    requires 0 <= i < |items|
    ensures var p := Cut(items[..i]);
      Cut(items[..i + 1]) ==
        if i > 0 && BreakAt(items, i)
        then Progress(p.closed + [Segment(DiffAfter(items[..i]), StartAfter(items[..i]), ZeroTime, p.open)], [items[i].id])
        else Progress(p.closed, p.open + [items[i].id])
    ensures StartAfter(items[..i + 1]) ==
      if i == 0 || IsZero(items[i - 1].stored) || Gap(items[i - 1].stored, items[i].stored)
      then items[i].stored else StartAfter(items[..i])
    ensures DiffAfter(items[..i + 1]) == NextDiff(DiffAfter(items[..i]), items[i])
  {
    var cur := items[..i + 1];
    assert cur[..i] == items[..i] && cur[i] == items[i];
    assert i > 0 ==> cur[i - 1] == items[i - 1];
  }

  /** The body of the segmentation loop for one ID whose first file has StoredTime `stored`. */
  method SegmentStep(seg: seq<Segment>, Id: seq<string>, oldTime: Instant, StartTime: Instant, EndTime: Instant,
                     Diff: Duration, k: string, stored: Instant, gtime: Instant)
    returns (seg': seq<Segment>, Id': seq<string>, oldTime': Instant, StartTime': Instant, Diff': Duration)
    ensures var brk := !IsZero(oldTime) && Gap(oldTime, stored);
      && seg' == (if brk then seg + [Segment(Diff, StartTime, EndTime, Id)] else seg)
      && Id' == (if brk then [k] else Id + [k])
      && StartTime' == (if IsZero(oldTime) || brk then stored else StartTime)
      && oldTime' == stored
      && Diff' == NextDiff(Diff, Item(k, stored, gtime))
  {
    seg', Id', oldTime', StartTime', Diff' := seg, Id, oldTime, StartTime, Diff;
    if oldTime' != ZeroTime {
      var t := stored - oldTime';
      if Abs(t) > MaxTimeSegment || oldTime' > stored {
        seg' := seg' + [Segment(Diff', StartTime', EndTime, Id')];
        Id' := [];
        oldTime' := ZeroTime;
        StartTime' := stored;
      }
    } else {
      StartTime' := stored;
    }
    oldTime' := stored;
    Id' := Id' + [k];
    if !IsZero(gtime) {
      var Diff1 := stored - gtime;
      Diff' := Half(Diff' + Diff1);
    }
  }

  /** The segmentation loop over the sorted IDs. */
  method Segmentate(imageFile: map<string, seq<ImageInfo>>, Ids: seq<string>) returns (seg: seq<Segment>)
    requires forall k :: k in Ids ==> k in imageFile && |imageFile[k]| > 0
    ensures seg == Segmentation(ItemsOf(imageFile, Ids))
  {
    ghost var items := ItemsOf(imageFile, Ids);
    seg := [];
    var oldTime := ZeroTime;
    var Id: seq<string> := [];
    var StoredTime := ZeroTime;
    var StartTime := ZeroTime;
    var EndTime := ZeroTime;
    var Diff: Duration := 0;
    var i := 0;
    while i < |Ids|
      invariant 0 <= i <= |Ids|
      invariant Cut(items[..i]) == Progress(seg, Id)
      invariant StartTime == StartAfter(items[..i]) && Diff == DiffAfter(items[..i])
      invariant oldTime == if i == 0 then ZeroTime else items[i - 1].stored
    {
      var k := Ids[i];
      var first := imageFile[k][0];
      StoredTime := GetTime(first.atime, first.etime, first.etime);
      assert items[i] == Item(k, StoredTime, first.gtime);
      PrefixStep(items, i);
      seg, Id, oldTime, StartTime, Diff := SegmentStep(seg, Id, oldTime, StartTime, EndTime, Diff, k, StoredTime, first.gtime);
      i := i + 1;
    }
    if |Id| > 0 {
      seg := seg + [Segment(Diff, StartTime, EndTime, Id)];
    }
    assert items[..i] == items;
  }

  // ===== The command =====

  class FixTimeRun {
    var imageFile: map<string, seq<ImageInfo>>
    var mediaValid: int
    var mediaError: int
    var mediaUpdate: int

    function State(): FixState
      reads this
    {
      FixState(imageFile, mediaValid, mediaError, mediaUpdate)
    }

    constructor ()
      ensures State() == FixState(map[], 0, 0, 0)
    {
      imageFile := map[];
      mediaValid, mediaError, mediaUpdate := 0, 0, 0;
    }

    /** The walk callback of the first pass on one entry. */
    method Visit(xenv: ExifEnv, fill: Filler, e: Entry) returns (sig: Signal)
      modifies this
      ensures (State(), sig) == VisitSpec(xenv, fill, old(State()), e)
    {
      match e
      case DirEntry => return Next;
      case NotMedia => return Next;
      case MediaFile(path, relOk, m, split) =>
        if !relOk {
          mediaError := mediaError + 1;
          return WalkError;
        }
        var k := 0;
        while k < |DenyExtension|
          invariant 0 <= k <= |DenyExtension|
          invariant forall j :: 0 <= j < k ==> Ext(path) != "." + DenyExtension[j]
        {
          if Ext(path) == "." + DenyExtension[k] {
            return Next;
          }
          k := k + 1;
        }
        var gpsOld := ZeroTrkpt;
        var dates, failed, gpsAfter := GetMediaDate(xenv, fill, m, gpsOld);
        if failed {
          mediaError := mediaError + 1;
          return Next;
        }
        mediaValid := mediaValid + 1;
        if split.NoMatch? {
          mediaError := mediaError + 1;
          return Next;
        }
        var id := split.number;
        if split.prefix == "GL" || split.prefix == "GX" {
          if |id| < 2 {
            return Panic;
          }
          id := id[2..];
        }
        imageFile := imageFile[id := Stored(imageFile, id) + [ImageInfo(path, dates.atime, dates.etime, dates.gtime)]];
        mediaUpdate := mediaUpdate + 1;
        return Next;
    }

    /** The first pass: the walk until a callback returns an error or panics. */
    method FirstPass(xenv: ExifEnv, fill: Filler, entries: seq<Entry>) returns (sig: Signal)
      modifies this
      ensures (State(), sig) == PassSpec(xenv, fill, old(State()), entries)
    {
      var i := 0;
      while i < |entries|
        invariant 0 <= i <= |entries|
        invariant PassSpec(xenv, fill, old(State()), entries) == PassSpec(xenv, fill, State(), entries[i..])
      {
        assert entries[i..][0] == entries[i] && entries[i..][1..] == entries[i + 1..];
        sig := Visit(xenv, fill, entries[i]);
        if sig != Next {
          return sig;
        }
        i := i + 1;
      }
      return Next;
    }

    /** The keys of imageFile, in the map's iteration order (any order). */
    method Keys() returns (Ids: seq<string>)
      ensures (set k | k in Ids) == imageFile.Keys
      ensures forall i, j :: 0 <= i < j < |Ids| ==> Ids[i] != Ids[j]
    {
      Ids := [];
      var keys := imageFile.Keys;
      var rest := keys;
      while rest != {}
        invariant rest <= keys
        invariant forall k :: k in Ids <==> k in keys && k !in rest
        invariant forall i, j :: 0 <= i < j < |Ids| ==> Ids[i] != Ids[j]
        decreases |rest|
      {
        var k :| k in rest;
        Ids := Ids + [k];
        rest := rest - {k};
      }
      assert (set k | k in Ids) == keys;
    }

    /** The second pass: the sorted IDs and their segments. */
    method SecondPass() returns (Ids: seq<string>, seg: seq<Segment>)
      requires ListsNonEmpty(imageFile)
      ensures StrictlySorted(Ids) && (set k | k in Ids) == imageFile.Keys
      ensures forall k :: k in Ids ==> k in imageFile && |imageFile[k]| > 0
      ensures seg == Segmentation(ItemsOf(imageFile, Ids))
    {
      var keys := Keys();
      SortCorrect(keys);
      Ids := Sort(keys);
      forall x
        ensures multiset(Ids)[x] <= 1
      {
        DistinctCounts(keys, x);
      }
      CountsDistinct(Ids);
      SortedDistinctIsStrict(Ids);
      assert forall k :: k in Ids <==> k in multiset(keys);
      seg := Segmentate(imageFile, Ids);
    }

    /** fixTimeExecute: the first pass (a walk error is only reported), and the second pass
        unless a callback panicked. */
    method Execute(xenv: ExifEnv, fill: Filler, entries: seq<Entry>) returns (panicked: bool, Ids: seq<string>, seg: seq<Segment>)
      requires ListsNonEmpty(imageFile)
      modifies this
      ensures (State(), if panicked then Panic else Next) == PassSpec(xenv, fill, old(State()), entries) ||
              (!panicked && State() == PassSpec(xenv, fill, old(State()), entries).0 && PassSpec(xenv, fill, old(State()), entries).1 == WalkError)
      ensures !panicked ==> StrictlySorted(Ids) && (set k | k in Ids) == imageFile.Keys &&
                            (forall k :: k in Ids ==> k in imageFile && |imageFile[k]| > 0) &&
                            seg == Segmentation(ItemsOf(imageFile, Ids))
    {
      PassKeepsListsNonEmpty(xenv, fill, State(), entries);
      var sig := FirstPass(xenv, fill, entries);
      if sig == Panic {
        return true, [], [];
      }
      Ids, seg := SecondPass();
      panicked := false;
    }
  }
}
