/** The nearest-in-time candidate rule that both versions of GetClosesGPS share
    (lib/exif.go:99-107, SyncMediaTrack.go:180-188): a scanned point replaces the current
    candidate when the candidate's duration is 0 or the point is strictly closer. The duration 0
    doubles as "nothing found yet", so a point at exactly zero distance does not stay chosen. */
module Nearest {
  import opened Clock

  /** A candidate: a point and the absolute time distance from the target to it. */
  datatype Cand<P> = Cand(point: P, dur: Duration)

  /** The update `if closestDuration == 0 || duration < closestDuration`. */
  function Offer<P>(c: Cand<P>, x: Cand<P>): Cand<P> {
    if c.dur == 0 || x.dur < c.dur then x else c
  }

  /** The candidate after offering every element of `xs`, in order, starting from `c`. */
  function Scan<P>(c: Cand<P>, xs: seq<Cand<P>>): Cand<P> {
    if xs == [] then c else Offer(Scan(c, xs[..|xs| - 1]), xs[|xs| - 1])
  }

  predicate AllPositive<P>(xs: seq<Cand<P>>) {
    forall i :: 0 <= i < |xs| ==> xs[i].dur > 0
  }

  predicate AllNonNegative<P>(xs: seq<Cand<P>>) {
    forall i :: 0 <= i < |xs| ==> xs[i].dur >= 0
  }

  /** Scanning two lists one after the other is scanning their concatenation. */
  lemma {:induction false} ScanConcat<P>(c: Cand<P>, a: seq<Cand<P>>, b: seq<Cand<P>>)
    ensures Scan(c, a + b) == Scan(Scan(c, a), b)
    decreases |b|
  {
    if b == [] {
      assert a + b == a;
    } else {
      var n := |b| - 1;
      assert (a + b)[..|a + b| - 1] == a + b[..n];
      assert (a + b)[|a + b| - 1] == b[n];
      ScanConcat(c, a, b[..n]);
    }
  }

  /** The result is the starting candidate or one of the scanned ones. */
  lemma {:induction false} ScanPicksScanned<P>(c: Cand<P>, xs: seq<Cand<P>>)
    ensures Scan(c, xs) == c || Scan(c, xs) in xs
    decreases |xs|
  {
    if xs != [] {
      var n := |xs| - 1;
      ScanPicksScanned(c, xs[..n]);
      assert Scan(c, xs[..n]) in xs[..n] ==> Scan(c, xs[..n]) in xs;
    }
  }

  /** Starting from "nothing yet" and with no point at zero distance, the scan returns the
      first point of minimal distance: every earlier point is strictly farther and no later
      point is closer. */
  lemma {:induction false} FirstMinimum<P>(c: Cand<P>, xs: seq<Cand<P>>) returns (k: nat)
    requires c.dur == 0 && xs != [] && AllPositive(xs)
    ensures k < |xs| && Scan(c, xs) == xs[k]
    ensures forall j :: 0 <= j < k ==> xs[k].dur < xs[j].dur
    ensures forall j :: k < j < |xs| ==> xs[k].dur <= xs[j].dur
    decreases |xs|
  {
    var n := |xs| - 1;
    if n == 0 {
      assert xs[..0] == [];
      k := 0;
    } else {
      var k' := FirstMinimum(c, xs[..n]);
      var x := xs[n];
      assert xs[..n][k'] == xs[k'];
      assert forall j :: 0 <= j < n ==> xs[..n][j] == xs[j];
      if x.dur < xs[k'].dur {
        k := n;
      } else {
        k := k';
      }
    }
  }

  /** A candidate at exactly zero distance is replaced by whatever point is scanned next. */
  lemma {:induction false} ExactHitOverwritten<P>(c: Cand<P>, xs: seq<Cand<P>>, x: Cand<P>, y: Cand<P>)
    requires c.dur >= 0 && AllNonNegative(xs) && x.dur == 0
    ensures Scan(c, xs + [x, y]) == y
  {
    NonNegativeScan(c, xs);
    assert (xs + [x, y])[..|xs + [x, y]| - 1] == xs + [x];
    assert (xs + [x])[..|xs + [x]| - 1] == xs;
  }

  lemma {:induction false} NonNegativeScan<P>(c: Cand<P>, xs: seq<Cand<P>>)
    requires c.dur >= 0 && AllNonNegative(xs)
    ensures Scan(c, xs).dur >= 0
    decreases |xs|
  {
    if xs != [] {
      NonNegativeScan(c, xs[..|xs| - 1]);
    }
  }
}
