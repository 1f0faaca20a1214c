/**
 * Speech segments of a voice-activity mask (eot_pauses.py): runs of active frames,
 * merged across short gaps, then filtered by length.
 */
module Segments {

  const FRAME_MS: nat := 20

  /** A stretch `[start, end)`, in frames or in milliseconds. */
  datatype Segment = Segment(start: int, end: int)

  type Mask = seq<bool>

  function Last(segs: seq<Segment>): Segment
    requires segs != []
  { segs[|segs|-1] }

  function Front(segs: seq<Segment>): seq<Segment>
    requires segs != []
  { segs[..|segs|-1] }

  // ----- runs of active frames

  function Runs(mask: Mask): seq<Segment> {
    if mask == [] then []
    else
      var n := |mask| - 1;
      var earlier := Runs(mask[..n]);
      if !mask[n] then earlier
      else if earlier != [] && Last(earlier).end == n then Front(earlier) + [Segment(Last(earlier).start, n + 1)]
      else earlier + [Segment(n, n + 1)]
  }

  /** The runs so far: those closed, and the one open since `start`. */
  ghost predicate Scanned(mask: Mask, i: nat, segs: seq<Segment>, start: int)
    requires i <= |mask|
  {
    && (start == -1 || 0 <= start < i)
    && (segs != [] ==> Last(segs).end < if start >= 0 then start else i)
    && Runs(mask[..i]) == segs + (if start >= 0 then [Segment(start, i)] else [])
  }

  lemma {:induction false} ScanStep(mask: Mask, i: nat, segs: seq<Segment>, start: int)
    requires i < |mask| && Scanned(mask, i, segs, start)
    ensures Scanned(mask, i + 1, if !mask[i] && start >= 0 then segs + [Segment(start, i)] else segs,
                    if !mask[i] then -1 else if start == -1 then i else start)
  {
    assert mask[..i+1][..i] == mask[..i];
    assert segs + [] == segs;
    if mask[i] && start >= 0 { assert Front(segs + [Segment(start, i)]) == segs; }
  }

  method FindRuns(mask: Mask) returns (segs: seq<Segment>)
    ensures segs == Runs(mask)
  {
    hide Runs;
    segs := [];
    var start := -1;
    assert Scanned(mask, 0, [], -1) by { NothingScanned(mask); }
    for i := 0 to |mask|
      invariant Scanned(mask, i, segs, start)
    {
      ScanStep(mask, i, segs, start);
      if mask[i] && start == -1 {
        start := i;
      } else if !mask[i] && start >= 0 {
        segs := segs + [Segment(start, i)];
        start := -1;
      }
    }
    assert mask[..|mask|] == mask;
    if start >= 0 { segs := segs + [Segment(start, |mask|)]; }
  }

  lemma {:induction false} NothingScanned(mask: Mask)
    ensures Scanned(mask, 0, [], -1)
  {}

  /** Frame `i` lies in some segment. */
  predicate Covers(segs: seq<Segment>, i: int) { exists k :: 0 <= k < |segs| && segs[k].start <= i < segs[k].end }

  /** Non-empty segments of `[0, n)`, in order, with at least one frame between two. */
  ghost predicate Separated(segs: seq<Segment>, n: int) {
    && (forall k :: 0 <= k < |segs| ==> 0 <= segs[k].start < segs[k].end <= n)
    && (forall j, k :: 0 <= j < k < |segs| ==> segs[j].end < segs[k].start)
  }

  function Paint(segs: seq<Segment>, n: nat): Mask { seq(n, i => Covers(segs, i)) }

  lemma {:induction false} CoversAppend(segs: seq<Segment>, s: Segment, i: int)
    ensures Covers(segs + [s], i) <==> Covers(segs, i) || s.start <= i < s.end
  {
    var all := segs + [s];
    if Covers(segs, i) {
      var k :| 0 <= k < |segs| && segs[k].start <= i < segs[k].end;
      assert all[k] == segs[k];
    }
    if s.start <= i < s.end { assert all[|segs|] == s; }
  }

  lemma {:induction false} CoversFront(segs: seq<Segment>, i: int)
    requires segs != []
    ensures Covers(segs, i) <==> Covers(Front(segs), i) || Last(segs).start <= i < Last(segs).end
  {
    assert segs == Front(segs) + [Last(segs)];
    CoversAppend(Front(segs), Last(segs), i);
  }

  /** The runs are separated and cover exactly the active frames. */
  lemma {:induction false} RunsCover(mask: Mask)
    ensures Separated(Runs(mask), |mask|)
    ensures forall i :: 0 <= i < |mask| ==> (mask[i] <==> Covers(Runs(mask), i))
  {
    if mask != [] {
      var n := |mask| - 1;
      RunsCover(mask[..n]);
      RunsGrow(Runs(mask[..n]), n);
      var earlier := Runs(mask[..n]);
      forall i | 0 <= i < |mask| ensures mask[i] <==> Covers(Runs(mask), i) {
        assert i < n ==> mask[i] == mask[..n][i];
        if mask[n] {
          if earlier != [] && Last(earlier).end == n {
            CoversFront(earlier, i);
            CoversAppend(Front(earlier), Segment(Last(earlier).start, n + 1), i);
          } else {
            CoversAppend(earlier, Segment(n, n + 1), i);
          }
        }
      }
    }
  }

  lemma {:induction false} RunsGrow(earlier: seq<Segment>, n: nat)
    requires Separated(earlier, n)
    ensures Separated(earlier, n + 1) && !Covers(earlier, n)
    ensures earlier != [] && Last(earlier).end == n
            ==> Separated(Front(earlier) + [Segment(Last(earlier).start, n + 1)], n + 1)
    ensures (earlier == [] || Last(earlier).end < n) ==> Separated(earlier + [Segment(n, n + 1)], n + 1)
  {}

  lemma {:induction false} FirstIsCovered(segs: seq<Segment>, n: int)
    requires Separated(segs, n) && segs != []
    ensures Covers(segs, segs[0].start)
  {}

  /** Separated segments are determined by the frames they cover. */
  lemma {:induction false} CoverageDetermines(xs: seq<Segment>, ys: seq<Segment>, n: int)
    requires Separated(xs, n) && Separated(ys, n)
    requires forall i :: Covers(xs, i) <==> Covers(ys, i)
    ensures xs == ys
    decreases |xs|
  {
    if xs == [] {
      if ys != [] { FirstIsCovered(ys, n); }
    } else {
      assert Covers(xs, Last(xs).start) by { assert xs[|xs|-1] == Last(xs); }
      assert ys != [];
      LastBounds(xs, ys, n);
      LastBounds(ys, xs, n);
      assert Last(xs) == Last(ys);
      forall i ensures Covers(Front(xs), i) <==> Covers(Front(ys), i) {
        CoversFront(xs, i);
        CoversFront(ys, i);
        FrontIsBefore(xs, n, i);
        FrontIsBefore(ys, n, i);
      }
      CoverageDetermines(Front(xs), Front(ys), n);
      assert xs == Front(xs) + [Last(xs)] && ys == Front(ys) + [Last(ys)];
    }
  }

  lemma {:induction false} FrontIsBefore(xs: seq<Segment>, n: int, i: int)
    requires Separated(xs, n) && xs != []
    ensures Covers(Front(xs), i) ==> i < Last(xs).start
  {}

  lemma {:induction false} LastBounds(xs: seq<Segment>, ys: seq<Segment>, n: int)
    requires Separated(xs, n) && Separated(ys, n) && xs != [] && ys != []
    requires forall i :: Covers(xs, i) <==> Covers(ys, i)
    ensures Last(xs).end <= Last(ys).end && (Last(xs).end == Last(ys).end ==> Last(ys).start <= Last(xs).start)
  {
    var a, b := Last(xs), Last(ys);
    assert Covers(xs, a.end - 1) by { assert xs[|xs|-1] == a; }
    var k :| 0 <= k < |ys| && ys[k].start <= a.end - 1 < ys[k].end;
    assert ys[k].end <= b.end;
    assert a.start <= b.start - 1 < a.end ==> Covers(xs, b.start - 1) by { assert xs[|xs|-1] == a; }
  }

  /** Painting the runs of a mask gives the mask back. */
  lemma {:induction false} PaintRuns(mask: Mask)
    ensures Paint(Runs(mask), |mask|) == mask
  {
    RunsCover(mask);
  }

  /** The runs of painted segments are those segments. */
  lemma {:induction false} RunsPaint(segs: seq<Segment>, n: nat)
    requires Separated(segs, n)
    ensures Runs(Paint(segs, n)) == segs
  {
    var mask := Paint(segs, n);
    RunsCover(mask);
    forall i ensures Covers(Runs(mask), i) <==> Covers(segs, i) {
      if 0 <= i < n { assert mask[i] == Covers(segs, i); }
    }
    CoverageDetermines(Runs(mask), segs, n);
  }

  // ----- merging

  function Merge(segs: seq<Segment>, mergeMs: int): seq<Segment> {
    if segs == [] then []
    else
      var out, s := Merge(Front(segs), mergeMs), Last(segs);
      if out != [] && (s.start - Last(out).end) * FRAME_MS < mergeMs
      then Front(out) + [Segment(Last(out).start, s.end)] else out + [s]
  }

  predicate FillsGap(s: Segment, t: Segment, mergeMs: int, i: int) {
    s.end <= i < t.start && (t.start - s.end) * FRAME_MS < mergeMs
  }

  /** Frame `i` lies in a gap too short to keep. */
  ghost predicate InShortGap(segs: seq<Segment>, mergeMs: int, i: int) {
    exists k :: 0 <= k < |segs| - 1 && FillsGap(segs[k], segs[k+1], mergeMs, i)
  }

  ghost predicate GapsKept(segs: seq<Segment>, mergeMs: int) {
    forall k :: 0 <= k < |segs| - 1 ==> (segs[k+1].start - segs[k].end) * FRAME_MS >= mergeMs
  }

  lemma {:induction false} MergeShape(segs: seq<Segment>, mergeMs: int, n: int)
    requires Separated(segs, n)
    ensures Separated(Merge(segs, mergeMs), n) && GapsKept(Merge(segs, mergeMs), mergeMs)
    ensures segs != [] ==> Merge(segs, mergeMs) != [] && Last(Merge(segs, mergeMs)).end == Last(segs).end
  {
    if segs != [] {
      MergeShape(Front(segs), mergeMs, n);
      var out := Merge(Front(segs), mergeMs);
      if |segs| > 1 { assert Last(out).end == Last(Front(segs)).end < Last(segs).start; }
      if out != [] { WidenLast(out, Last(segs), mergeMs, n); }
    }
  }

  lemma {:induction false} WidenLast(out: seq<Segment>, s: Segment, mergeMs: int, n: int)
    requires out != [] && Separated(out, n) && GapsKept(out, mergeMs)
    requires Last(out).end < s.start < s.end <= n
    ensures Separated(out + [s], n)
    ensures (s.start - Last(out).end) * FRAME_MS >= mergeMs ==> GapsKept(out + [s], mergeMs)
    ensures var wide := Front(out) + [Segment(Last(out).start, s.end)]; Separated(wide, n) && GapsKept(wide, mergeMs)
  {
    assert forall k :: 0 <= k < |out| - 1 ==> Front(out)[k] == out[k];
    AppendSegment(out, s, mergeMs, n);
    var wide := Front(out) + [Segment(Last(out).start, s.end)];
    forall k | 0 <= k < |wide| - 1 ensures (wide[k+1].start - wide[k].end) * FRAME_MS >= mergeMs {
      assert wide[k].end == out[k].end && wide[k+1].start == out[k+1].start;
    }
  }

  lemma {:induction false} AppendSegment(out: seq<Segment>, s: Segment, mergeMs: int, n: int)
    requires out != [] && Separated(out, n) && GapsKept(out, mergeMs)
    requires Last(out).end < s.start < s.end <= n
    ensures Separated(out + [s], n)
    ensures (s.start - Last(out).end) * FRAME_MS >= mergeMs ==> GapsKept(out + [s], mergeMs)
  {}

  predicate StartsAt(segs: seq<Segment>, i: int) { exists k :: 0 <= k < |segs| && segs[k].start == i }

  predicate EndsAt(segs: seq<Segment>, i: int) { exists k :: 0 <= k < |segs| && segs[k].end == i }

  /** Merged stretches begin and end where runs do. */
  lemma {:induction false} MergeEnds(segs: seq<Segment>, mergeMs: int, k: nat)
    requires k < |Merge(segs, mergeMs)|
    ensures StartsAt(segs, Merge(segs, mergeMs)[k].start) && EndsAt(segs, Merge(segs, mergeMs)[k].end)
  {
    hide StartsAt, EndsAt;
    EndsOfLast(segs);
    var out := Merge(Front(segs), mergeMs);
    if k < |out| {
      MergeEnds(Front(segs), mergeMs, k);
      EndsOfFront(segs, out[k].start, out[k].end);
    }
  }

  lemma {:induction false} EndsOfLast(segs: seq<Segment>)
    ensures segs != [] ==> StartsAt(segs, Last(segs).start) && EndsAt(segs, Last(segs).end)
  {
    if segs != [] { assert segs[|segs|-1] == Last(segs); }
  }

  lemma {:induction false} EndsOfFront(segs: seq<Segment>, i: int, j: int)
    requires segs != []
    ensures StartsAt(Front(segs), i) ==> StartsAt(segs, i)
    ensures EndsAt(Front(segs), j) ==> EndsAt(segs, j)
  {
    assert forall k :: 0 <= k < |segs| - 1 ==> Front(segs)[k] == segs[k];
  }

  lemma {:induction false} InShortGapFront(segs: seq<Segment>, mergeMs: int, i: int)
    requires |segs| >= 2
    ensures InShortGap(segs, mergeMs, i)
            <==> InShortGap(Front(segs), mergeMs, i) || FillsGap(Last(Front(segs)), Last(segs), mergeMs, i)
  {
    hide FillsGap;
    var front, m := Front(segs), |segs| - 2;
    if k :| 0 <= k < |front| - 1 && FillsGap(front[k], front[k+1], mergeMs, i) {
      assert FillsGap(segs[k], segs[k+1], mergeMs, i);
    }
    if k :| 0 <= k < |segs| - 1 && FillsGap(segs[k], segs[k+1], mergeMs, i) {
      if k < m { assert FillsGap(front[k], front[k+1], mergeMs, i); }
    }
    if FillsGap(Last(front), Last(segs), mergeMs, i) { assert FillsGap(segs[m], segs[m+1], mergeMs, i); }
  }

  /** Merging covers what was covered, and fills exactly the gaps below the threshold. */
  lemma {:induction false} MergeCovers(segs: seq<Segment>, mergeMs: int, n: int, i: int)
    requires Separated(segs, n)
    ensures Covers(Merge(segs, mergeMs), i) <==> Covers(segs, i) || InShortGap(segs, mergeMs, i)
  {
    hide Covers, InShortGap;
    if segs == [] {
      NothingCovered(mergeMs, i);
    } else {
      var front, s := Front(segs), Last(segs);
      MergeCovers(front, mergeMs, n, i);
      MergeShape(front, mergeMs, n);
      CoversFront(segs, i);
      var out := Merge(front, mergeMs);
      CoversAppend(out, s, i);
      if |segs| == 1 {
        NothingCovered(mergeMs, i);
        OneHasNoGap(segs, mergeMs, i);
      } else {
        InShortGapFront(segs, mergeMs, i);
        CoversFront(out, i);
        CoversAppend(Front(out), Segment(Last(out).start, s.end), i);
        assert Last(out).start < Last(out).end == Last(front).end < s.start < s.end;
      }
    }
  }

  lemma {:induction false} NothingCovered(mergeMs: int, i: int)
    ensures !Covers([], i) && !InShortGap([], mergeMs, i)
  {}

  lemma {:induction false} OneHasNoGap(segs: seq<Segment>, mergeMs: int, i: int)
    requires |segs| == 1
    ensures !InShortGap(segs, mergeMs, i)
  {}

  /** What already keeps its gaps is left alone; so merging twice is merging once. */
  lemma {:induction false} MergeFixpoint(segs: seq<Segment>, mergeMs: int)
    requires GapsKept(segs, mergeMs)
    ensures Merge(segs, mergeMs) == segs
  {
    if segs != [] {
      MergeFixpoint(Front(segs), mergeMs);
      if |segs| > 1 { assert (segs[|segs|-2+1].start - segs[|segs|-2].end) * FRAME_MS >= mergeMs; }
    }
  }

  lemma {:induction false} MergeIdempotent(segs: seq<Segment>, mergeMs: int, n: int)
    requires Separated(segs, n)
    ensures Merge(Merge(segs, mergeMs), mergeMs) == Merge(segs, mergeMs)
  {
    MergeShape(segs, mergeMs, n);
    MergeFixpoint(Merge(segs, mergeMs), mergeMs);
  }

  // ----- the length filter, in milliseconds

  function Keep(segs: seq<Segment>, minMs: int): seq<Segment> {
    if segs == [] then []
    else Keep(Front(segs), minMs)
         + (if (Last(segs).end - Last(segs).start) * FRAME_MS >= minMs
            then [Segment(Last(segs).start * FRAME_MS, Last(segs).end * FRAME_MS)] else [])
  }

  function SpeechSegments(mask: Mask, mergeMs: int, minMs: int): seq<Segment> {
    Keep(Merge(Runs(mask), mergeMs), minMs)
  }

  method FindSegments(mask: Mask, mergeMs: int, minMs: int) returns (kept: seq<Segment>)
    ensures kept == SpeechSegments(mask, mergeMs, minMs)
  {
    var segs := FindRuns(mask);
    var out: seq<Segment> := [];
    for i := 0 to |segs|
      invariant out == Merge(segs[..i], mergeMs)
    {
      assert Front(segs[..i+1]) == segs[..i];
      if out != [] && (segs[i].start - Last(out).end) * FRAME_MS < mergeMs {
        out := out[|out|-1 := Segment(Last(out).start, segs[i].end)];
      } else {
        out := out + [segs[i]];
      }
    }
    assert segs[..|segs|] == segs;
    kept := [];
    for i := 0 to |out|
      invariant kept == Keep(out[..i], minMs)
    {
      assert Front(out[..i+1]) == out[..i];
      if (out[i].end - out[i].start) * FRAME_MS >= minMs {
        kept := kept + [Segment(out[i].start * FRAME_MS, out[i].end * FRAME_MS)];
      }
    }
    assert out[..|out|] == out;
  }

  /** Segments in milliseconds: in order, at least `minMs` long, at least `gapMs` apart. */
  ghost predicate Spaced(segs: seq<Segment>, minMs: int, gapMs: int) {
    && (forall k :: 0 <= k < |segs| ==> segs[k].end - segs[k].start >= minMs && segs[k].start < segs[k].end)
    && (forall j, k :: 0 <= j < k < |segs| ==> segs[j].end < segs[k].start && segs[k].start - segs[j].end >= gapMs)
  }

  /** A merged stretch is kept exactly when it is long enough. */
  lemma {:induction false} KeepIff(segs: seq<Segment>, minMs: int, s: Segment)
    ensures s in Keep(segs, minMs)
            <==> exists k :: 0 <= k < |segs| && (segs[k].end - segs[k].start) * FRAME_MS >= minMs
                             && s == Segment(segs[k].start * FRAME_MS, segs[k].end * FRAME_MS)
  {
    if segs != [] {
      KeepIff(Front(segs), minMs, s);
      assert forall k :: 0 <= k < |segs| - 1 ==> Front(segs)[k] == segs[k];
      assert segs[|segs|-1] == Last(segs);
    }
  }

  lemma {:induction false} GapsAddUp(segs: seq<Segment>, mergeMs: int, n: int, j: nat, k: nat)
    requires Separated(segs, n) && GapsKept(segs, mergeMs) && j < k < |segs|
    ensures (segs[k].start - segs[j].end) * FRAME_MS >= mergeMs
  {
    assert (segs[j+1].start - segs[j].end) * FRAME_MS >= mergeMs;
    assert segs[j+1].start <= segs[k].start;
  }

  lemma {:induction false} KeepSpaced(segs: seq<Segment>, mergeMs: int, minMs: int, n: int)
    requires Separated(segs, n) && GapsKept(segs, mergeMs)
    ensures Spaced(Keep(segs, minMs), minMs, mergeMs)
  {
    if segs != [] {
      KeepSpaced(Front(segs), mergeMs, minMs, n);
      var before := Keep(Front(segs), minMs);
      forall j | 0 <= j < |before| ensures Before(before[j], Last(segs), mergeMs) {
        KeptBeforeLast(segs, mergeMs, minMs, n, before[j]);
      }
      assert before + [] == before;
    }
  }

  predicate Before(kept: Segment, next: Segment, mergeMs: int) {
    kept.end < next.start * FRAME_MS && next.start * FRAME_MS - kept.end >= mergeMs
  }

  lemma {:induction false} KeptBeforeLast(segs: seq<Segment>, mergeMs: int, minMs: int, n: int, kept: Segment)
    requires Separated(segs, n) && GapsKept(segs, mergeMs) && segs != [] && kept in Keep(Front(segs), minMs)
    ensures Before(kept, Last(segs), mergeMs)
  {
    var front := Front(segs);
    KeepIff(front, minMs, kept);
    var k :| 0 <= k < |front| && (front[k].end - front[k].start) * FRAME_MS >= minMs
             && kept == Segment(front[k].start * FRAME_MS, front[k].end * FRAME_MS);
    assert front[k] == segs[k] && segs[k].end < segs[|segs|-1].start;
    GapsAddUp(segs, mergeMs, n, k, |segs| - 1);
  }

  /** The segments of any mask are in order, long enough, and at least the merge threshold apart. */
  lemma {:induction false} SegmentsSpaced(mask: Mask, mergeMs: int, minMs: int)
    ensures Spaced(SpeechSegments(mask, mergeMs, minMs), minMs, mergeMs)
  {
    RunsCover(mask);
    MergeShape(Runs(mask), mergeMs, |mask|);
    KeepSpaced(Merge(Runs(mask), mergeMs), mergeMs, minMs, |mask|);
  }

  lemma {:induction false} SegmentsStartLate(mask: Mask, mergeMs: int, minMs: int, s: Segment)
    requires s in SpeechSegments(mask, mergeMs, minMs)
    ensures s.start >= 0
  {
    hide Merge, Runs, Keep;
    RunsCover(mask);
    MergeShape(Runs(mask), mergeMs, |mask|);
    KeepIff(Merge(Runs(mask), mergeMs), minMs, s);
  }

  // ----- what a mask says about speech

  /** No frame from `i` up to `j` is active. */
  predicate Silent(mask: Mask, i: int, j: int) { forall k :: 0 <= k < |mask| && i <= k < j ==> !mask[k] }

  /** A silence from after frame `i` up to frame `j`. */
  predicate Gap(mask: Mask, i: int, j: int) {
    0 <= i < j - 1 < |mask| - 1 && mask[i] && mask[j] && Silent(mask, i + 1, j)
  }

  /** Frames `[a, b)`, of 20 ms each, begin and end with speech, with no silence of `mergeMs` or more in between. */
  ghost predicate Connected(mask: Mask, mergeMs: int, a: int, b: int) {
    && 0 <= a < b <= |mask| && mask[a] && mask[b-1]
    && forall i, j :: a <= i && j < b && Gap(mask, i, j) ==> 20 * (j - i - 1) < mergeMs
  }

  /** There is silence on both sides of `[a, b)`, up to the ends of the mask or for `mergeMs` or more. */
  ghost predicate Isolated(mask: Mask, mergeMs: int, a: int, b: int) {
    && (forall i :: 0 <= i < |mask| && i < a && mask[i] ==> i < a - 1 && 20 * (a - i - 1) >= mergeMs)
    && (forall j :: 0 <= j < |mask| && b <= j && mask[j] ==> b < j && 20 * (j - b) >= mergeMs)
  }

  lemma {:induction false} ActiveIff(mask: Mask, i: int)
    requires 0 <= i < |mask|
    ensures mask[i] <==> Covers(Runs(mask), i)
  {
    RunsCover(mask);
  }

  /** Merged stretches begin and end with active frames, and all active frames lie in one. */
  lemma {:induction false} StretchEnds(mask: Mask, mergeMs: int, k: nat)
    requires k < |Merge(Runs(mask), mergeMs)|
    ensures var s := Merge(Runs(mask), mergeMs)[k]; 0 <= s.start < s.end <= |mask| && mask[s.start] && mask[s.end-1]
  {
    hide Runs, Merge;
    var runs := Runs(mask);
    RunsCover(mask);
    MergeShape(runs, mergeMs, |mask|);
    MergeEnds(runs, mergeMs, k);
    var s := Merge(runs, mergeMs)[k];
    var i :| 0 <= i < |runs| && runs[i].start == s.start;
    var j :| 0 <= j < |runs| && runs[j].end == s.end;
    assert Covers(runs, s.start) && Covers(runs, s.end - 1);
  }

  lemma {:induction false} StretchIsConnected(mask: Mask, mergeMs: int, k: nat)
    requires k < |Merge(Runs(mask), mergeMs)|
    ensures var s := Merge(Runs(mask), mergeMs)[k]; Connected(mask, mergeMs, s.start, s.end)
  {
    hide Runs, Merge, InShortGap, Covers;
    var runs, s := Runs(mask), Merge(Runs(mask), mergeMs)[k];
    StretchEnds(mask, mergeMs, k);
    forall i, j | s.start <= i && j < s.end && Gap(mask, i, j) ensures 20 * (j - i - 1) < mergeMs {
      assert Covers(Merge(runs, mergeMs), i + 1) by { CoveredBy(Merge(runs, mergeMs), k, i + 1); }
      RunsCover(mask);
      MergeCovers(runs, mergeMs, |mask|, i + 1);
      assert !mask[i+1];
      ShortGap(mask, mergeMs, i, j);
    }
  }

  lemma {:induction false} CoveredBy(segs: seq<Segment>, k: nat, i: int)
    requires k < |segs| && segs[k].start <= i < segs[k].end
    ensures Covers(segs, i)
  {}

  lemma {:induction false} ShortGap(mask: Mask, mergeMs: int, i: int, j: int)
    requires 0 <= i < j < |mask| && mask[i] && mask[j] && Silent(mask, i + 1, j)
    requires InShortGap(Runs(mask), mergeMs, i + 1)
    ensures 20 * (j - i - 1) < mergeMs
  {
    hide Runs;
    var runs := Runs(mask);
    var k :| 0 <= k < |runs| - 1 && FillsGap(runs[k], runs[k+1], mergeMs, i + 1);
    RunsCover(mask);
    CoveredBy(runs, k, runs[k].end - 1);
    CoveredBy(runs, k + 1, runs[k+1].start);
    assert mask[runs[k].end-1] && mask[runs[k+1].start];
  }

  lemma {:induction false} StretchIsIsolated(mask: Mask, mergeMs: int, k: nat)
    requires k < |Merge(Runs(mask), mergeMs)|
    ensures var s := Merge(Runs(mask), mergeMs)[k]; Isolated(mask, mergeMs, s.start, s.end)
  {
    hide Runs, Merge, InShortGap;
    var runs := Runs(mask);
    var all := Merge(runs, mergeMs);
    RunsCover(mask);
    MergeShape(runs, mergeMs, |mask|);
    forall i | 0 <= i < |mask| && mask[i]
      ensures i < all[k].start ==> i < all[k].start - 1 && 20 * (all[k].start - i - 1) >= mergeMs
      ensures all[k].end <= i ==> all[k].end < i && 20 * (i - all[k].end) >= mergeMs
    {
      MergeCovers(runs, mergeMs, |mask|, i);
      var n :| 0 <= n < |all| && all[n].start <= i < all[n].end;
      if n < k { GapsAddUp(all, mergeMs, |mask|, n, k); } else if k < n { GapsAddUp(all, mergeMs, |mask|, k, n); }
    }
  }

  lemma {:induction false} LastActive(mask: Mask, c: int, a: int) returns (i: int)
    requires 0 <= c < a <= |mask| && mask[c]
    ensures c <= i < a && mask[i] && Silent(mask, i + 1, a)
    decreases a
  {
    if mask[a-1] { i := a - 1; } else { i := LastActive(mask, c, a - 1); }
  }

  lemma {:induction false} FirstActive(mask: Mask, b: int, d: int) returns (j: int)
    requires 0 <= b <= d < |mask| && mask[d]
    ensures b <= j <= d && mask[j] && Silent(mask, b, j)
    decreases d - b
  {
    if mask[b] { j := b; } else { j := FirstActive(mask, b + 1, d); }
  }

  lemma {:induction false} GapIsShort(mask: Mask, mergeMs: int, a: int, b: int, i: int, j: int)
    requires Connected(mask, mergeMs, a, b) && a <= i < j < b && mask[i] && mask[j] && Silent(mask, i + 1, j)
    ensures i == j - 1 || 20 * (j - i - 1) < mergeMs
  {
    hide Silent;
    if i < j - 1 { assert Gap(mask, i, j); }
  }

  lemma {:induction false} ConnectedEnds(mask: Mask, mergeMs: int, a: int, b: int)
    requires Connected(mask, mergeMs, a, b)
    ensures 0 <= a < b <= |mask| && mask[a] && mask[b-1]
  {}

  lemma {:induction false} NoneBefore(mask: Mask, mergeMs: int, a: int, b: int, c: int, d: int)
    requires Isolated(mask, mergeMs, a, b) && Connected(mask, mergeMs, c, d) && 0 <= c <= a < d <= |mask| && mask[a]
    ensures a == c
  {
    hide Connected, Silent;
    ConnectedEnds(mask, mergeMs, c, d);
    if c < a {
      var i := LastActive(mask, c, a);
      GapIsShort(mask, mergeMs, c, d, i, a);
    }
  }

  lemma {:induction false} NoneAfter(mask: Mask, mergeMs: int, a: int, b: int, d: int)
    requires Isolated(mask, mergeMs, a, b) && Connected(mask, mergeMs, a, d) && a < b <= |mask| && mask[b-1]
    ensures d <= b
  {
    hide Connected, Silent;
    ConnectedEnds(mask, mergeMs, a, d);
    if b < d {
      var j := FirstActive(mask, b, d - 1);
      GapIsShort(mask, mergeMs, a, d, b - 1, j);
    }
  }

  /** A connected and isolated stretch is all of any other that begins no later and holds its first frame. */
  lemma {:induction false} SameStretch(mask: Mask, mergeMs: int, a: int, b: int, c: int, d: int)
    requires Connected(mask, mergeMs, a, b) && Isolated(mask, mergeMs, a, b)
    requires Connected(mask, mergeMs, c, d) && Isolated(mask, mergeMs, c, d) && c <= a < d
    ensures a == c && b == d
  {
    hide Isolated, Connected;
    ConnectedEnds(mask, mergeMs, a, b);
    ConnectedEnds(mask, mergeMs, c, d);
    NoneBefore(mask, mergeMs, a, b, c, d);
    NoneAfter(mask, mergeMs, a, b, d);
    NoneAfter(mask, mergeMs, a, d, b);
  }

  /**
   * Main result: the segments found are exactly the stretches of frames, long enough, that begin and end with
   * speech, have no silence of the threshold inside and are kept apart from other speech by one.
   */
  lemma {:induction false} SpeechIs(mask: Mask, mergeMs: int, minMs: int, a: int, b: int)
    ensures Segment(20 * a, 20 * b) in SpeechSegments(mask, mergeMs, minMs)
            <==> Connected(mask, mergeMs, a, b) && Isolated(mask, mergeMs, a, b) && 20 * (b - a) >= minMs
  {
    hide Runs, Merge, Keep, Connected, Isolated;
    var all := Merge(Runs(mask), mergeMs);
    KeepIff(all, minMs, Segment(20 * a, 20 * b));
    if Segment(20 * a, 20 * b) in SpeechSegments(mask, mergeMs, minMs) {
      var k :| 0 <= k < |all| && all[k] == Segment(a, b);
      StretchIsConnected(mask, mergeMs, k);
      StretchIsIsolated(mask, mergeMs, k);
    }
    if Connected(mask, mergeMs, a, b) && Isolated(mask, mergeMs, a, b) && 20 * (b - a) >= minMs {
      var k := StretchAt(mask, mergeMs, a, b);
      StretchIsConnected(mask, mergeMs, k);
      StretchIsIsolated(mask, mergeMs, k);
      SameStretch(mask, mergeMs, a, b, all[k].start, all[k].end);
    }
  }

  lemma {:induction false} StretchAt(mask: Mask, mergeMs: int, a: int, b: int) returns (k: nat)
    requires Connected(mask, mergeMs, a, b)
    ensures k < |Merge(Runs(mask), mergeMs)|
    ensures Merge(Runs(mask), mergeMs)[k].start <= a < Merge(Runs(mask), mergeMs)[k].end
  {
    hide Runs, Merge, InShortGap;
    var all := Merge(Runs(mask), mergeMs);
    RunsCover(mask);
    MergeCovers(Runs(mask), mergeMs, |mask|, a);
    k :| 0 <= k < |all| && all[k].start <= a < all[k].end;
  }

  /** Every segment is such a stretch. */
  lemma {:induction false} SegmentsAreFrames(mask: Mask, mergeMs: int, minMs: int, s: Segment)
    requires s in SpeechSegments(mask, mergeMs, minMs)
    ensures s == Segment(20 * (s.start / 20), 20 * (s.end / 20))
  {
    hide Runs, Merge, Keep;
    KeepIff(Merge(Runs(mask), mergeMs), minMs, s);
  }
}
