/** The run-length encoding `get_edit_points` builds from a per-frame
    classification: contiguous, non-empty spans that alternate between kept and
    dropped, each labelled with the classification of its frames; a reference
    encoding `Runs`; uniqueness of the encoding; and the invariant of the scan
    that builds it left to right. */
module Segmentation {
  import opened EditPoints

  /** The spans are contiguous from `from` to `to`. */
  predicate Contiguous(points: seq<EditPoint>, from: int, to: int)
  {
    if points == [] then from == to
    else
      && points[0].startFrame == from
      && points[|points| - 1].endFrame == to
      && forall k :: 0 <= k < |points| - 1 ==> points[k].endFrame == points[k + 1].startFrame
  }

  /** Every span is non-empty. */
  predicate NonEmptySpans(points: seq<EditPoint>)
  {
    forall k :: 0 <= k < |points| ==> points[k].startFrame < points[k].endFrame
  }

  /** Neighbouring spans differ in classification. */
  predicate Alternating(points: seq<EditPoint>)
  {
    forall k :: 0 <= k < |points| - 1 ==> points[k].shouldKeep != points[k + 1].shouldKeep
  }

  /** Every frame the span covers is a frame of `included` with the span's classification. */
  predicate PointLabelled(point: EditPoint, included: seq<bool>)
  {
    0 <= point.startFrame && point.endFrame <= |included|
    && forall t :: point.startFrame <= t < point.endFrame ==> included[t] == point.shouldKeep
  }

  predicate Labelled(points: seq<EditPoint>, included: seq<bool>)
  {
    forall k :: 0 <= k < |points| ==> PointLabelled(points[k], included)
  }

  /** `points` run-length encodes `included[from..]`. */
  predicate SegmentsFrom(points: seq<EditPoint>, included: seq<bool>, from: int)
  {
    Contiguous(points, from, |included|) && NonEmptySpans(points) && Alternating(points)
    && Labelled(points, included)
  }

  /** `points` run-length encodes all of `included`. */
  predicate IsSegmentation(points: seq<EditPoint>, included: seq<bool>)
  {
    SegmentsFrom(points, included, 0)
  }

  /** The end of the run that starts at `s`: the first later frame classified
      differently, or the end of the map. */
  function NextFlip(included: seq<bool>, s: nat): (e: nat)
    requires s < |included|
    ensures s < e <= |included|
    ensures forall t :: s <= t < e ==> included[t] == included[s]
    ensures e < |included| ==> included[e] != included[s]
    decreases |included| - s
  {
    if s + 1 == |included| || included[s + 1] != included[s] then s + 1
    else NextFlip(included, s + 1)
  }

  /** A run end is the next flip. */
  lemma FlipIsNext(included: seq<bool>, s: nat, e: nat)
    requires s < e <= |included|
    requires forall t :: s <= t < e ==> included[t] == included[s]
    requires e < |included| ==> included[e] != included[s]
    ensures e == NextFlip(included, s)
  {
  }

  /** The reference run-length encoding of `included[s..]`. */
  function Runs(included: seq<bool>, s: nat): seq<EditPoint>
    requires s <= |included|
    decreases |included| - s
  {
    if s == |included| then []
    else
      var e := NextFlip(included, s);
      [EditPoint(s, e, included[s])] + Runs(included, e)
  }

  /** The reference encoding is a segmentation. */
  lemma {:induction false} RunsSegment(included: seq<bool>, s: nat)
    requires s <= |included|
    ensures SegmentsFrom(Runs(included, s), included, s)
    decreases |included| - s
  {
    if s < |included| {
      var e := NextFlip(included, s);
      RunsSegment(included, e);
      var rest := Runs(included, e);
      var points := Runs(included, s);
      assert points == [EditPoint(s, e, included[s])] + rest;
      assert forall k :: 1 <= k < |points| ==> points[k] == rest[k - 1];
      if rest != [] {
        assert rest[0].shouldKeep == included[e];
      }
      assert PointLabelled(points[0], included);
    }
  }

  /** The reference encoding of a non-empty remainder is non-empty and its last
      span ends at the end of the map. */
  lemma RunsEnd(included: seq<bool>, s: nat)
    requires s < |included|
    ensures Runs(included, s) != []
    ensures Runs(included, s)[|Runs(included, s)| - 1].endFrame == |included|
  {
    RunsSegment(included, s);
  }

  /** A segmentation is unique: any run-length encoding of `included[s..]` with
      contiguous, non-empty, alternating and correctly labelled spans is the
      reference one. */
  lemma {:induction false} SegmentationIsRuns(points: seq<EditPoint>, included: seq<bool>, s: nat)
    requires s <= |included| && SegmentsFrom(points, included, s)
    ensures points == Runs(included, s)
    decreases |included| - s
  {
    if s < |included| {
      var p0 := points[0];
      var e := NextFlip(included, s);
      assert PointLabelled(p0, included);
      if p0.endFrame < |included| {
        assert PointLabelled(points[1], included);
      }
      FlipIsNext(included, s, p0.endFrame);
      var rest := points[1..];
      assert forall k :: 0 <= k < |rest| ==> rest[k] == points[k + 1];
      assert SegmentsFrom(rest, included, e);
      SegmentationIsRuns(rest, included, e);
      assert points == [p0] + rest;
    }
  }

  /** What the scan of `get_edit_points` knows after frame `i - 1`: the points so
      far (after the sentinel) followed by the reference encoding from the open
      run's start `o` are the reference encoding of the whole map, and the open
      run `[o, i)` has one classification. */
  predicate Scanned(editPoints: seq<EditPoint>, included: seq<bool>, i: nat)
  {
    && i <= |included|
    && |editPoints| >= 1 && editPoints[0] == EditPoint(0, 0, false)
    && var o := editPoints[|editPoints| - 1].endFrame;
    && 0 <= o <= i && (i > 0 ==> o < i)
    && editPoints[1..] + Runs(included, o) == Runs(included, 0)
    && (forall t :: o <= t < i ==> included[t] == included[o])
  }

  /** One iteration of the scan: a flip at `i` closes the open run. */
  function ScanStep(editPoints: seq<EditPoint>, included: seq<bool>, i: nat): seq<EditPoint>
    requires |editPoints| >= 1 && i < |included|
  {
    if i >= 1 && included[i] != included[i - 1] then
      editPoints + [EditPoint(editPoints[|editPoints| - 1].endFrame, i, included[i - 1])]
    else editPoints
  }

  lemma ScanStepKeeps(editPoints: seq<EditPoint>, included: seq<bool>, i: nat)
    requires Scanned(editPoints, included, i) && i < |included|
    ensures Scanned(ScanStep(editPoints, included, i), included, i + 1)
  {
    var next := ScanStep(editPoints, included, i);
    var o := editPoints[|editPoints| - 1].endFrame;
    if i >= 1 && included[i] != included[i - 1] {
      var point := EditPoint(o, i, included[i - 1]);
      FlipIsNext(included, o, i);
      assert Runs(included, o) == [point] + Runs(included, i);
      assert next[1..] == editPoints[1..] + [point];
      assert next[1..] + Runs(included, i) == editPoints[1..] + Runs(included, o);
    }
  }

  /** The points after the scan has looked at frames `0 .. i - 1`. */
  function ScanPrefix(included: seq<bool>, i: nat): (editPoints: seq<EditPoint>)
    requires i <= |included|
    ensures |editPoints| >= 1
  {
    if i == 0 then [EditPoint(0, 0, false)]
    else ScanStep(ScanPrefix(included, i - 1), included, i - 1)
  }

  /** Every prefix of the scan satisfies the scan invariant. */
  lemma {:induction false} ScanPrefixScanned(included: seq<bool>, i: nat)
    requires i <= |included|
    ensures Scanned(ScanPrefix(included, i), included, i)
  {
    if i > 0 {
      ScanPrefixScanned(included, i - 1);
      ScanStepKeeps(ScanPrefix(included, i - 1), included, i - 1);
    }
  }

  /** Closing the last run after the scan gives the reference encoding of the
      whole map, which is a segmentation of it. */
  lemma ScanClose(editPoints: seq<EditPoint>, included: seq<bool>, lastValue: bool)
    requires Scanned(editPoints, included, |included|) && |included| > 0
    requires lastValue == included[|included| - 1]
    ensures var points := (editPoints + [EditPoint(editPoints[|editPoints| - 1].endFrame, |included|, lastValue)])[1..];
      IsSegmentation(points, included) && points == Runs(included, 0)
  {
    var n := |included|;
    var o := editPoints[|editPoints| - 1].endFrame;
    var last := EditPoint(o, n, lastValue);
    assert included[n - 1] == included[o];
    FlipIsNext(included, o, n);
    assert Runs(included, n) == [];
    assert Runs(included, o) == [last];
    assert (editPoints + [last])[1..] == editPoints[1..] + [last];
    RunsSegment(included, 0);
  }
}
