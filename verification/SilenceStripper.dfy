// Silence stripping (pkgs/vad-strip/vad-strip.py): a hysteresis scan over the speech
// probabilities of fixed windows, then padding of the found segments in place.
// The model's probabilities are an input; sample positions are integers.
module SilenceStripper {
  import opened Numbers
  import opened Wrappers

  const WINDOW: int := 512

  /** Thresholds and durations, the latter in samples. */
  datatype Params = Params(threshold: real, minSpeech: int, minSilence: int, pad: nat)

  function NegThreshold(p: Params): real {
    p.threshold - 0.15
  }

  datatype Segment = Segment(start: int, end: int)

  /** Number of windows of audio padded to a multiple of the window size. */
  function Windows(length: nat): nat {
    (length + 511) / 512
  }

  /** Position of the first sample of window `w`. */
  function At(w: int): int {
    512 * w
  }

  // ---- The scan ----

  /** `open` is the start of the segment being spoken; `quiet` is the first window of the
      silence that may close it. */
  datatype Scan = Scan(open: Option<int>, quiet: Option<int>, speeches: seq<Segment>)

  /** One window: loud ones open a segment and cancel a pending silence; quiet ones start or
      extend the silence, and close the segment once it is long enough. */
  function ScanStep(p: Params, s: Scan, i: int, prob: real): Scan {
    if prob >= p.threshold then
      Scan(if s.open.Some? then s.open else Some(i), None, s.speeches)
    else if s.open.Some? && prob < NegThreshold(p) then
      var quiet := if s.quiet.Some? then s.quiet.value else i;
      if i - quiet >= p.minSilence then
        Scan(None, None,
             if i - s.open.value >= p.minSpeech then s.speeches + [Segment(s.open.value, quiet)] else s.speeches)
      else s.(quiet := Some(quiet))
    else s
  }

  function ScanTo(p: Params, probs: seq<real>, k: nat): Scan
    requires k <= |probs|
  {
    if k == 0 then Scan(None, None, [])
    else ScanStep(p, ScanTo(p, probs, k - 1), At(k - 1), probs[k - 1])
  }

  /** A segment still open at the end of the audio is kept if it is long enough. */
  function Unpadded(p: Params, probs: seq<real>, length: nat): seq<Segment> {
    var s := ScanTo(p, probs, |probs|);
    if s.open.Some? && length - s.open.value >= p.minSpeech
    then s.speeches + [Segment(s.open.value, length)]
    else s.speeches
  }

  // ---- The padding ----

  function PaddedEnd(s: seq<Segment>, length: nat, pad: nat, i: nat): int
    requires i < |s|
  {
    Min(if i == |s| - 1 then length else s[i + 1].start, s[i].end + pad)
  }

  function PaddedStart(s: seq<Segment>, length: nat, pad: nat, i: nat): int
    requires i < |s|
  {
    Max(if i == 0 then 0 else PaddedEnd(s, length, pad, i - 1), s[i].start - pad)
  }

  function PaddedAt(s: seq<Segment>, length: nat, pad: nat, i: nat): Segment
    requires i < |s|
  {
    Segment(PaddedStart(s, length, pad, i), PaddedEnd(s, length, pad, i))
  }

  /** Each segment padded on both sides, up to its neighbours. */
  function Padded(s: seq<Segment>, length: nat, pad: nat): (r: seq<Segment>)
    ensures |r| == |s|
  {
    seq(|s|, i requires 0 <= i < |s| => PaddedAt(s, length, pad, i))
  }

  /** The in-place pass: it reads left neighbours already padded and right ones not yet. */
  method PadInPlace(speeches: array<Segment>, length: nat, pad: nat)
    modifies speeches
    ensures speeches[..] == Padded(old(speeches[..]), length, pad)
  {
    ghost var before := speeches[..];
    var n := speeches.Length;
    var i := 0;
    while i < n
      invariant 0 <= i <= n
      invariant forall j :: 0 <= j < i ==> speeches[j] == PaddedAt(before, length, pad, j)
      invariant forall j :: i <= j < n ==> speeches[j] == before[j]
    {
      var left := if i == 0 then 0 else speeches[i - 1].end;
      speeches[i] := speeches[i].(start := Max(left, speeches[i].start - pad));
      var right := if i == n - 1 then length else speeches[i + 1].start;
      speeches[i] := speeches[i].(end := Min(right, speeches[i].end + pad));
      assert speeches[i] == PaddedAt(before, length, pad, i);
      i := i + 1;
    }
    assert forall j :: 0 <= j < n ==> speeches[..][j] == Padded(before, length, pad)[j];
  }

  /** The detector's scan. As in the source, `tempEnd` 0 stands for "no pending silence". */
  method ScanWindows(p: Params, probs: seq<real>) returns (found: seq<Segment>, triggered: bool, start: int)
    ensures found == ScanTo(p, probs, |probs|).speeches
    ensures ScanTo(p, probs, |probs|).open == if triggered then Some(start) else None
  {
    found, triggered, start := [], false, 0;
    var tempEnd := 0;
    var k := 0;
    while k < |probs|
      invariant 0 <= k <= |probs|
      invariant found == ScanTo(p, probs, k).speeches
      invariant ScanTo(p, probs, k).open == if triggered then Some(start) else None
      invariant ScanTo(p, probs, k).quiet == if tempEnd != 0 then Some(tempEnd) else None
      invariant triggered ==> 0 <= start < At(k)
    {
      var i, prob := At(k), probs[k];
      if prob >= p.threshold {
        if tempEnd != 0 {
          tempEnd := 0;
        }
        if !triggered {
          triggered := true;
          start := i;
        }
      }
      if triggered && prob < NegThreshold(p) {
        if tempEnd == 0 {
          tempEnd := i;
        }
        if i - tempEnd >= p.minSilence {
          if i - start >= p.minSpeech {
            found := found + [Segment(start, tempEnd)];
          }
          triggered := false;
          tempEnd := 0;
        }
      }
      k := k + 1;
    }
  }

  /** The whole detector: the scan, the segment still open at the end, and the padding. */
  method GetSpeechTimestamps(p: Params, probs: seq<real>, length: nat) returns (speeches: seq<Segment>)
    requires |probs| == Windows(length)
    ensures speeches == Padded(Unpadded(p, probs, length), length, p.pad)
  {
    var found, triggered, start := ScanWindows(p, probs);
    if triggered && length - start >= p.minSpeech {
      found := found + [Segment(start, length)];
    }
    var padded := new Segment[|found|](j requires 0 <= j < |found| => found[j]);
    assert padded[..] == found;
    PadInPlace(padded, length, p.pad);
    speeches := padded[..];
  }

  // ---- Shape of the output ----

  /** Least multiple of the window size that is at least `x`; 0 for negative `x`. */
  function CeilToWindow(x: int): (r: int)
    ensures r >= x && r >= 0 && r % 512 == 0
    ensures r == 0 || r < x + WINDOW
  {
    if x <= 0 then 0 else (x + 511) / 512 * 512
  }

  /** Distance guaranteed between the end of one found segment and the start of the next. */
  function Gap(p: Params): int {
    CeilToWindow(p.minSilence) + WINDOW
  }

  /** Non-empty segments within [0, limit], at least `gap` apart. */
  ghost predicate Separated(s: seq<Segment>, limit: int, gap: int) {
    && (forall i :: 0 <= i < |s| ==> 0 <= s[i].start < s[i].end <= limit)
    && (forall i, j :: 0 <= i < j < |s| ==> s[i].end + gap <= s[j].start)
  }

  predicate Aligned(x: int) {
    x % 512 == 0
  }

  predicate Loud(p: Params, probs: seq<real>, w: int) {
    0 <= w < |probs| && probs[w] >= p.threshold
  }

  /** State after `k` windows: positions are aligned, segments are apart from each other and
      from the open one, and the pending silence holds no loud window. In particular a
      pending silence never starts at position 0. */
  ghost predicate ScanInv(p: Params, probs: seq<real>, k: nat, s: Scan)
    requires k <= |probs|
  {
    && (s.open.Some? ==> 0 <= s.open.value < At(k) && Aligned(s.open.value) && EndBy(p, s.speeches, s.open.value))
    && (s.quiet.Some? ==> s.open.Some? && Aligned(s.quiet.value)
                          && 0 < s.open.value + WINDOW <= s.quiet.value < At(k)
                          && forall w :: s.quiet.value <= At(w) && w < k ==> !Loud(p, probs, w))
    && Separated(s.speeches, At(k), Gap(p)) && EndBy(p, s.speeches, At(k))
  }

  ghost predicate EndBy(p: Params, s: seq<Segment>, x: int) {
    forall i :: 0 <= i < |s| ==> s[i].end + Gap(p) <= x
  }

  /** Where a closing segment ends, relative to the window that closes it. */
  lemma CloseGap(p: Params, probs: seq<real>, k: nat, s: Scan, quiet: int)
    requires k < |probs| && ScanInv(p, probs, k, s) && s.open.Some?
    requires quiet == if s.quiet.Some? then s.quiet.value else At(k)
    requires At(k) - quiet >= p.minSilence
    ensures quiet + Gap(p) <= At(k + 1) && s.open.value < quiet && Aligned(quiet)
  {
    assert Aligned(At(k) - quiet) && At(k) - quiet >= 0;
    assert At(k) - quiet >= CeilToWindow(p.minSilence);
  }

  lemma CloseKeepsInv(p: Params, probs: seq<real>, k: nat, s: Scan, quiet: int)
    requires k < |probs| && ScanInv(p, probs, k, s) && s.open.Some?
    requires quiet == if s.quiet.Some? then s.quiet.value else At(k)
    requires At(k) - quiet >= p.minSilence
    ensures ScanInv(p, probs, k + 1, Scan(None, None, s.speeches))
    ensures ScanInv(p, probs, k + 1, Scan(None, None, s.speeches + [Segment(s.open.value, quiet)]))
  {
    CloseGap(p, probs, k, s, quiet);
    SeparatedAppend(s.speeches, At(k), At(k + 1), Gap(p), Segment(s.open.value, quiet));
  }

  lemma SeparatedAppend(s: seq<Segment>, limit: int, newLimit: int, gap: int, seg: Segment)
    requires Separated(s, limit, gap) && limit <= newLimit && 0 <= seg.start < seg.end <= newLimit
    requires forall i :: 0 <= i < |s| ==> s[i].end + gap <= seg.start
    ensures Separated(s, newLimit, gap) && Separated(s + [seg], newLimit, gap)
  {
  }

  lemma {:induction false} ScanKeepsInv(p: Params, probs: seq<real>, k: nat)
    requires k <= |probs|
    ensures ScanInv(p, probs, k, ScanTo(p, probs, k))
  {
    if k == 0 {
      assert ScanTo(p, probs, 0) == Scan(None, None, []);
    } else {
      ScanKeepsInv(p, probs, k - 1);
      var s := ScanTo(p, probs, k - 1);
      StepKeepsInv(p, probs, k - 1, k, s, ScanTo(p, probs, k));
    }
  }

  lemma StepKeepsInv(p: Params, probs: seq<real>, k: nat, next: nat, s: Scan, r: Scan)
    requires next == k + 1 <= |probs| && ScanInv(p, probs, k, s)
    requires r == ScanStep(p, s, At(k), probs[k])
    ensures ScanInv(p, probs, next, r)
  {
    var prob := probs[k];
    if prob >= p.threshold {
      LoudKeepsInv(p, probs, k, s);
    } else if s.open.Some? && prob < NegThreshold(p) {
      var quiet := if s.quiet.Some? then s.quiet.value else At(k);
      if At(k) - quiet >= p.minSilence {
        CloseKeepsInv(p, probs, k, s, quiet);
      } else {
        WaitKeepsInv(p, probs, k, s, Some(quiet));
      }
    } else {
      WaitKeepsInv(p, probs, k, s, s.quiet);
    }
  }

  lemma LoudKeepsInv(p: Params, probs: seq<real>, k: nat, s: Scan)
    requires k < |probs| && ScanInv(p, probs, k, s)
    ensures ScanInv(p, probs, k + 1, Scan(if s.open.Some? then s.open else Some(At(k)), None, s.speeches))
  {
  }

  lemma WaitKeepsInv(p: Params, probs: seq<real>, k: nat, s: Scan, quiet: Option<int>)
    requires k < |probs| && ScanInv(p, probs, k, s) && probs[k] < p.threshold
    requires quiet == s.quiet || (s.open.Some? && s.quiet.None? && quiet == Some(At(k)))
    ensures ScanInv(p, probs, k + 1, s.(quiet := quiet))
  {
    if s.open.Some? {
      assert s.open.value + WINDOW <= At(k);
    }
  }

  lemma UnpaddedSeparated(p: Params, probs: seq<real>, length: nat)
    requires |probs| == Windows(length)
    ensures Separated(Unpadded(p, probs, length), length, Gap(p))
  {
    var s := ScanTo(p, probs, |probs|);
    ScanKeepsInv(p, probs, |probs|);
    forall i | 0 <= i < |s.speeches| ensures s.speeches[i].end <= length {
      assert Gap(p) >= WINDOW;
    }
    if s.open.Some? {
      assert s.open.value <= At(|probs| - 1) < length;
    }
  }

  /** Main result on the output's shape: non-empty segments within the audio, in order and
      disjoint, each containing the segment it was padded from, and as far apart as the
      minimum silence and the padding leave them. */
  lemma OutputShape(p: Params, probs: seq<real>, length: nat)
    requires |probs| == Windows(length)
    ensures var s, r := Unpadded(p, probs, length), Padded(Unpadded(p, probs, length), length, p.pad);
      && |r| == |s|
      && Separated(r, length, Max(0, Gap(p) - 2 * p.pad))
      && (forall i :: 0 <= i < |r| ==> r[i].start <= s[i].start && s[i].end <= r[i].end)
  {
    UnpaddedSeparated(p, probs, length);
    PaddingShape(Unpadded(p, probs, length), length, p.pad, Gap(p));
  }

  lemma PaddingShape(s: seq<Segment>, length: nat, pad: nat, gap: int)
    requires gap >= 0 && Separated(s, length, gap)
    ensures var r := Padded(s, length, pad);
      && Separated(r, length, Max(0, gap - 2 * pad))
      && (forall i :: 0 <= i < |r| ==> r[i].start <= s[i].start && s[i].end <= r[i].end)
  {
    var r := Padded(s, length, pad);
    forall i | 0 <= i < |r|
      ensures 0 <= r[i].start <= s[i].start && s[i].end <= r[i].end <= length && s[i].start < s[i].end
    {
      PaddedBounds(s, length, pad, gap, i);
      if i > 0 {
        PaddedBounds(s, length, pad, gap, i - 1);
      }
    }
    forall i, j | 0 <= i < j < |r| ensures r[i].end + Max(0, gap - 2 * pad) <= r[j].start {
      PaddedApart(s, length, pad, gap, i, j);
    }
  }

  lemma PaddedApart(s: seq<Segment>, length: nat, pad: nat, gap: int, i: nat, j: nat)
    requires gap >= 0 && Separated(s, length, gap) && i < j < |s|
    ensures PaddedEnd(s, length, pad, i) + Max(0, gap - 2 * pad) <= PaddedStart(s, length, pad, j)
  {
    PaddedBounds(s, length, pad, gap, i);
    PaddedBounds(s, length, pad, gap, j - 1);
    assert s[i].end + gap <= s[j].start;
    if i < j - 1 {
      assert s[i + 1].start <= s[j - 1].start;
    }
  }

  lemma PaddedBounds(s: seq<Segment>, length: nat, pad: nat, gap: int, i: nat)
    requires gap >= 0 && Separated(s, length, gap) && i < |s|
    ensures s[i].end <= PaddedEnd(s, length, pad, i) <= length
    ensures PaddedEnd(s, length, pad, i) <= s[i].end + pad
    ensures i + 1 < |s| ==> PaddedEnd(s, length, pad, i) <= s[i + 1].start
  {
    if i + 1 < |s| {
      assert s[i].end + gap <= s[i + 1].start;
    }
  }

  // ---- No speech is lost ----

  predicate Covers(seg: Segment, from: int, to: int) {
    seg.start <= from && to <= seg.end
  }

  ghost predicate CoveredBy(segs: seq<Segment>, from: int, to: int) {
    exists i :: 0 <= i < |segs| && Covers(segs[i], from, to)
  }

  /** No closed segment can be too short to be kept. */
  predicate KeepsClosedSegments(p: Params) {
    p.minSpeech <= Gap(p)
  }

  ghost predicate SpeechKept(s: Scan, w: int) {
    CoveredBy(s.speeches, At(w), At(w + 1)) || (s.open.Some? && s.open.value <= At(w))
  }

  lemma {:induction false} ScanCovers(p: Params, probs: seq<real>, k: nat, w: nat)
    requires k <= |probs| && w < k && Loud(p, probs, w) && KeepsClosedSegments(p)
    ensures SpeechKept(ScanTo(p, probs, k), w)
  {
    var s := ScanTo(p, probs, k - 1);
    ScanKeepsInv(p, probs, k - 1);
    assert ScanTo(p, probs, k) == ScanStep(p, s, At(k - 1), probs[k - 1]);
    if w < k - 1 {
      ScanCovers(p, probs, k - 1, w);
      StepCovers(p, probs, k - 1, s, w);
    } else {
      assert s.open.Some? ==> s.open.value <= At(w);
    }
  }

  lemma StepCovers(p: Params, probs: seq<real>, k: nat, s: Scan, w: nat)
    requires k < |probs| && ScanInv(p, probs, k, s) && KeepsClosedSegments(p)
    requires w < k && Loud(p, probs, w) && SpeechKept(s, w)
    ensures SpeechKept(ScanStep(p, s, At(k), probs[k]), w)
  {
    var r := ScanStep(p, s, At(k), probs[k]);
    if CoveredBy(s.speeches, At(w), At(w + 1)) {
      var j :| 0 <= j < |s.speeches| && Covers(s.speeches[j], At(w), At(w + 1));
      assert r.speeches[j] == s.speeches[j];
    } else if r.open.None? {
      // The window belongs to the segment that this step closes.
      CloseCovers(p, probs, k, s, w, if s.quiet.Some? then s.quiet.value else At(k));
      assert Covers(r.speeches[|s.speeches|], At(w), At(w + 1));
    }
  }

  /** A segment that closes is long enough, and its silence starts after each of its loud windows. */
  lemma CloseCovers(p: Params, probs: seq<real>, k: nat, s: Scan, w: nat, quiet: int)
    requires k < |probs| && ScanInv(p, probs, k, s) && s.open.Some?
    requires w < k && Loud(p, probs, w) && KeepsClosedSegments(p)
    requires quiet == if s.quiet.Some? then s.quiet.value else At(k)
    requires At(k) - quiet >= p.minSilence
    ensures At(w + 1) <= quiet && At(k) - s.open.value >= p.minSpeech
  {
    CloseGap(p, probs, k, s, quiet);
    assert At(w) < quiet;
  }

  /** A loud window lies in the one trailing segment that was too short to keep. */
  ghost predicate InShortTail(p: Params, probs: seq<real>, length: nat, w: nat) {
    var s := ScanTo(p, probs, |probs|);
    s.open.Some? && s.open.value <= At(w) && length - s.open.value < p.minSpeech
  }

  /** Every loud window is inside one output segment, up to the end of the audio. */
  ghost predicate NoSpeechLost(p: Params, probs: seq<real>, length: nat) {
    forall w: nat :: Loud(p, probs, w) ==>
      || CoveredBy(Padded(Unpadded(p, probs, length), length, p.pad), At(w), Min(At(w + 1), length))
      || InShortTail(p, probs, length, w)
  }

  lemma LoudWindowKept(p: Params, probs: seq<real>, length: nat, w: nat)
    requires |probs| == Windows(length) && Loud(p, probs, w) && KeepsClosedSegments(p)
    requires !InShortTail(p, probs, length, w)
    ensures CoveredBy(Padded(Unpadded(p, probs, length), length, p.pad), At(w), Min(At(w + 1), length))
  {
    ScanCovers(p, probs, |probs|, w);
    OutputShape(p, probs, length);
    var s := ScanTo(p, probs, |probs|);
    var u := Unpadded(p, probs, length);
    var r := Padded(u, length, p.pad);
    var j: int;
    if CoveredBy(s.speeches, At(w), At(w + 1)) {
      j :| 0 <= j < |s.speeches| && Covers(s.speeches[j], At(w), At(w + 1));
    } else {
      j := |s.speeches|;
    }
    assert u[j].start <= At(w) && Min(At(w + 1), length) <= u[j].end;
    assert Covers(r[j], At(w), Min(At(w + 1), length));
  }

  /** Main result: the detector never loses speech, whatever the audio, exactly if the
      minimum speech is at most one window longer than the minimum silence rounded up to
      windows; with the defaults (4000 against 32000 samples) it is. */
  lemma NoSpeechLostIff(p: Params)
    ensures KeepsClosedSegments(p) <==>
            forall probs: seq<real>, length: nat :: |probs| == Windows(length) ==> NoSpeechLost(p, probs, length)
  {
    if KeepsClosedSegments(p) {
      forall probs: seq<real>, length: nat | |probs| == Windows(length) ensures NoSpeechLost(p, probs, length) {
        forall w: nat | Loud(p, probs, w) && !InShortTail(p, probs, length, w)
          ensures CoveredBy(Padded(Unpadded(p, probs, length), length, p.pad), At(w), Min(At(w + 1), length))
        {
          LoudWindowKept(p, probs, length, w);
        }
      }
    } else {
      BlipLost(p);
      var probs, length := Blip(p), At(|Blip(p)|);
      assert |probs| == Windows(length);
      assert !NoSpeechLost(p, probs, length);
    }
  }

  /** One loud window, then just enough silence to close the segment. */
  function Blip(p: Params): (probs: seq<real>)
    ensures |probs| == Gap(p) / 512 + 1
  {
    [p.threshold] + seq(Gap(p) / 512, _ => p.threshold - 1.0)
  }

  lemma {:induction false} BlipScan(p: Params, k: nat)
    requires 1 <= k < |Blip(p)|
    ensures ScanTo(p, Blip(p), k) == Scan(Some(0), if k == 1 then None else Some(WINDOW), [])
  {
    assert ScanTo(p, Blip(p), 0) == Scan(None, None, []);
    if k > 1 {
      BlipScan(p, k - 1);
      var i := At(k - 1);
      assert i < Gap(p);
      assert i - WINDOW < CeilToWindow(p.minSilence);
      assert i - WINDOW < p.minSilence;
    }
  }

  lemma BlipLost(p: Params)
    requires !KeepsClosedSegments(p)
    ensures Unpadded(p, Blip(p), At(|Blip(p)|)) == []
    ensures !NoSpeechLost(p, Blip(p), At(|Blip(p)|))
  {
    var probs := Blip(p);
    var n := |probs|;
    var length := At(n);
    BlipScan(p, n - 1);
    assert At(n - 1) == Gap(p);
    assert ScanTo(p, probs, n) == Scan(None, None, []);
    assert Unpadded(p, probs, length) == [];
    assert !CoveredBy(Padded([], length, p.pad), At(0), Min(At(1), length));
    assert Loud(p, probs, 0);
    assert !InShortTail(p, probs, length, 0);
  }

  // ---- Silence is stripped ----

  predicate Quiet(p: Params, probs: seq<real>, w: int) {
    0 <= w < |probs| && probs[w] < p.threshold - 0.15
  }

  ghost predicate QuietRun(p: Params, probs: seq<real>, a: int, b: int) {
    a <= b && forall w :: a <= w <= b ==> Quiet(p, probs, w)
  }

  /** No run of quiet windows between the two positions lasts for the minimum silence. */
  ghost predicate NoLongSilence(p: Params, probs: seq<real>, from: int, to: int) {
    forall a, b :: QuietRun(p, probs, a, b) && from <= At(a) && At(b) < to ==> At(b) - At(a) < p.minSilence
  }

  /** The segment starts with a loud window and holds no long silence. */
  ghost predicate SpokenSegment(p: Params, probs: seq<real>, seg: Segment) {
    && (exists w :: Loud(p, probs, w) && seg.start == At(w))
    && NoLongSilence(p, probs, seg.start, seg.end)
  }

  ghost predicate StripInv(p: Params, probs: seq<real>, k: nat, s: Scan) {
    && (forall i :: 0 <= i < |s.speeches| ==> SpokenSegment(p, probs, s.speeches[i]))
    && (s.open.Some? ==>
          && SpokenSegment(p, probs, Segment(s.open.value, At(k)))
          && forall a :: QuietRun(p, probs, a, k - 1) && s.open.value <= At(a) ==>
               s.quiet.Some? && s.quiet.value <= At(a))
  }

  lemma {:induction false} ScanStrips(p: Params, probs: seq<real>, k: nat)
    requires k <= |probs|
    ensures StripInv(p, probs, k, ScanTo(p, probs, k))
  {
    if k == 0 {
      assert ScanTo(p, probs, 0) == Scan(None, None, []);
    } else {
      var s := ScanTo(p, probs, k - 1);
      ScanStrips(p, probs, k - 1);
      ScanKeepsInv(p, probs, k - 1);
      StepStrips(p, probs, k - 1, k, s, ScanTo(p, probs, k));
    }
  }

  lemma StepStrips(p: Params, probs: seq<real>, k: nat, next: nat, s: Scan, r: Scan)
    requires next == k + 1 <= |probs| && ScanInv(p, probs, k, s) && StripInv(p, probs, k, s)
    requires r == ScanStep(p, s, At(k), probs[k])
    ensures StripInv(p, probs, next, r)
  {
    var quiet := if s.quiet.Some? then s.quiet.value else At(k);
    if r.open.Some? {
      if s.open.None? {
        assert Loud(p, probs, k);
      }
      OpenStaysSpoken(p, probs, k, next, s);
      forall a | QuietRun(p, probs, a, next - 1) && r.open.value <= At(a)
        ensures r.quiet.Some? && r.quiet.value <= At(a)
      {
        assert Quiet(p, probs, k);
        if a < k {
          assert QuietRun(p, probs, a, k - 1);
        }
      }
    } else if s.open.Some? {
      assert NoLongSilence(p, probs, s.open.value, quiet);
      assert SpokenSegment(p, probs, Segment(s.open.value, quiet));
    }
  }

  lemma OpenStaysSpoken(p: Params, probs: seq<real>, k: nat, next: nat, s: Scan)
    requires next == k + 1 <= |probs| && ScanInv(p, probs, k, s) && StripInv(p, probs, k, s)
    requires ScanStep(p, s, At(k), probs[k]).open.Some?
    ensures SpokenSegment(p, probs, Segment(ScanStep(p, s, At(k), probs[k]).open.value, At(next)))
  {
    var open := ScanStep(p, s, At(k), probs[k]).open.value;
    if s.open.None? {
      assert Loud(p, probs, k);
    }
    forall a, b | QuietRun(p, probs, a, b) && open <= At(a) && At(b) < At(next)
      ensures At(b) - At(a) < p.minSilence
    {
      assert Quiet(p, probs, b);
      if b == k && a < k {
        assert QuietRun(p, probs, a, k - 1);
      }
    }
  }

  /** Main result, the converse of losing no speech: every found segment starts with a loud
      window and holds no silence as long as the minimum. */
  lemma SilenceStripped(p: Params, probs: seq<real>, length: nat)
    requires |probs| == Windows(length)
    ensures forall i :: 0 <= i < |Unpadded(p, probs, length)| ==> SpokenSegment(p, probs, Unpadded(p, probs, length)[i])
  {
    ScanStrips(p, probs, |probs|);
    var s := ScanTo(p, probs, |probs|);
    if s.open.Some? {
      assert length <= At(|probs|);
      assert SpokenSegment(p, probs, Segment(s.open.value, length)) by {
        assert SpokenSegment(p, probs, Segment(s.open.value, At(|probs|)));
      }
    }
  }

  // ---- Why segments end, and that short ones are dropped ----

  /** A silence that began at the segment's end closed it at window `k`: both windows are below
      the lower threshold, none from one to the other is loud, and by then the silence and the
      whole segment had lasted long enough. */
  predicate ClosedAt(p: Params, probs: seq<real>, seg: Segment, k: nat) {
    && k < |probs| && 0 <= seg.end <= 512 * k && seg.end % 512 == 0
    && probs[seg.end / 512] < p.threshold - 0.15 && probs[k] < p.threshold - 0.15
    && (forall w :: seg.end / 512 <= w <= k ==> probs[w] < p.threshold)
    && 512 * k - seg.end >= p.minSilence && 512 * k - seg.start >= p.minSpeech
  }

  ghost predicate Closed(p: Params, probs: seq<real>, seg: Segment) {
    exists k: nat :: ClosedAt(p, probs, seg, k)
  }

  ghost predicate CloseInv(p: Params, probs: seq<real>, k: nat, s: Scan)
    requires k <= |probs|
  {
    && (forall i :: 0 <= i < |s.speeches| ==> Closed(p, probs, s.speeches[i]))
    && (s.quiet.Some? ==> QuietSince(p, probs, k, s.quiet.value))
  }

  /** A window below the lower threshold, and no loud one since. */
  predicate QuietSince(p: Params, probs: seq<real>, k: nat, quiet: int)
    requires k <= |probs|
  {
    && 0 <= quiet < 512 * k && quiet % 512 == 0 && probs[quiet / 512] < p.threshold - 0.15
    && forall w :: quiet / 512 <= w < k ==> probs[w] < p.threshold
  }

  lemma {:induction false} ScanCloses(p: Params, probs: seq<real>, k: nat)
    requires k <= |probs|
    ensures CloseInv(p, probs, k, ScanTo(p, probs, k))
  {
    if k == 0 {
      assert ScanTo(p, probs, 0) == Scan(None, None, []);
    } else {
      ScanCloses(p, probs, k - 1);
      ScanKeepsInv(p, probs, k - 1);
      StepCloses(p, probs, k - 1, ScanTo(p, probs, k - 1));
    }
  }

  lemma StepCloses(p: Params, probs: seq<real>, k: nat, s: Scan)
    requires k < |probs| && ScanInv(p, probs, k, s) && CloseInv(p, probs, k, s)
    ensures CloseInv(p, probs, k + 1, ScanStep(p, s, At(k), probs[k]))
  {
    var r := ScanStep(p, s, At(k), probs[k]);
    var quiet := if s.quiet.Some? then s.quiet.value else At(k);
    if s.open.Some? && probs[k] < p.threshold - 0.15 {
      assert QuietSince(p, probs, k + 1, quiet);
      if |r.speeches| > |s.speeches| {
        assert ClosedAt(p, probs, Segment(s.open.value, quiet), k);
      }
    }
  }

  /** Main result on what is dropped: a found segment either lasted for the minimum speech by
      the time a long enough silence closed it, or was still open at the end of the audio and
      long enough by then. */
  lemma SegmentsLastLongEnough(p: Params, probs: seq<real>, length: nat)
    requires |probs| == Windows(length)
    ensures forall i :: 0 <= i < |Unpadded(p, probs, length)| ==>
      var seg := Unpadded(p, probs, length)[i];
      Closed(p, probs, seg) || (seg.end == length && seg.end - seg.start >= p.minSpeech)
  {
    ScanCloses(p, probs, |probs|);
  }

  // ---- What the padding keeps ----

  /** The position is within `pad` of the segment. */
  predicate Near(seg: Segment, pad: nat, x: int) {
    seg.start - pad <= x < seg.end + pad
  }

  lemma CoversRight(s: seq<Segment>, length: nat, pad: nat, i: nat, x: int)
    requires Separated(s, length, 0) && i < |s| && s[i].start <= x < s[i].end + pad && x < length
    ensures CoveredBy(Padded(s, length, pad), x, x + 1)
    decreases |s| - i
  {
    PaddedBounds(s, length, pad, 0, i);
    if i > 0 {
      PaddedBounds(s, length, pad, 0, i - 1);
    }
    if i + 1 < |s| && x >= s[i + 1].start {
      CoversRight(s, length, pad, i + 1, x);
    } else {
      assert Covers(Padded(s, length, pad)[i], x, x + 1);
    }
  }

  lemma CoversLeft(s: seq<Segment>, length: nat, pad: nat, i: nat, x: int)
    requires Separated(s, length, 0) && i < |s| && s[i].start - pad <= x < s[i].start && 0 <= x
    ensures CoveredBy(Padded(s, length, pad), x, x + 1)
    decreases i
  {
    PaddedBounds(s, length, pad, 0, i);
    if i == 0 || x >= PaddedEnd(s, length, pad, i - 1) {
      assert Covers(Padded(s, length, pad)[i], x, x + 1);
    } else {
      PaddedBounds(s, length, pad, 0, i - 1);
      if x >= s[i - 1].start {
        CoversRight(s, length, pad, i - 1, x);
      } else {
        CoversLeft(s, length, pad, i - 1, x);
      }
    }
  }

  /** Main result on the padding: the output holds exactly the positions of the audio that are
      within the padding of some found segment, however segments crowd each other. */
  lemma PaddingKeepsNear(p: Params, probs: seq<real>, length: nat, x: nat)
    requires |probs| == Windows(length) && x < length
    ensures var s := Unpadded(p, probs, length);
      CoveredBy(Padded(s, length, p.pad), x, x + 1) <==> exists i :: 0 <= i < |s| && Near(s[i], p.pad, x)
  {
    var s := Unpadded(p, probs, length);
    UnpaddedSeparated(p, probs, length);
    assert Separated(s, length, 0) by {
      assert Gap(p) >= 0;
    }
    if CoveredBy(Padded(s, length, p.pad), x, x + 1) {
      var i :| 0 <= i < |s| && Covers(Padded(s, length, p.pad)[i], x, x + 1);
      PaddedBounds(s, length, p.pad, 0, i);
      assert Near(s[i], p.pad, x);
    }
    if i :| 0 <= i < |s| && Near(s[i], p.pad, x) {
      if x >= s[i].start {
        CoversRight(s, length, p.pad, i, x);
      } else {
        CoversLeft(s, length, p.pad, i, x);
      }
    }
  }

  // ---- The audio that is kept ----

  /** What numpy.concatenate makes of the segments' slices. */
  function Concatenated<T>(audio: seq<T>, segs: seq<Segment>): seq<T>
    requires forall i :: 0 <= i < |segs| ==> 0 <= segs[i].start <= segs[i].end <= |audio|
  {
    if segs == [] then []
    else Concatenated(audio, segs[..|segs| - 1]) + audio[segs[|segs| - 1].start..segs[|segs| - 1].end]
  }

  /** The positions of the kept samples. */
  function Positions(segs: seq<Segment>): seq<int>
    requires forall i :: 0 <= i < |segs| ==> segs[i].start <= segs[i].end
  {
    if segs == [] then []
    else
      var last := segs[|segs| - 1];
      Positions(segs[..|segs| - 1]) + Range(last.start, last.end)
  }

  ghost predicate Increasing(s: seq<int>) {
    forall i, j :: 0 <= i < j < |s| ==> s[i] < s[j]
  }

  /** Main result on the written file: it is a subsequence of the input, and keeps exactly the
      samples that lie in some segment. */
  lemma {:induction false} KeptAudio<T>(audio: seq<T>, segs: seq<Segment>)
    requires Separated(segs, |audio|, 0)
    ensures var pos, out := Positions(segs), Concatenated(audio, segs);
      && |pos| == |out| && Increasing(pos)
      && (forall i :: 0 <= i < |pos| ==> 0 <= pos[i] < |audio| && out[i] == audio[pos[i]])
      && (forall x :: x in pos <==> CoveredBy(segs, x, x + 1))
  {
    if segs != [] {
      var init, last := segs[..|segs| - 1], segs[|segs| - 1];
      assert Separated(init, |audio|, 0);
      KeptAudio(audio, init);
      forall x | x in Positions(init) ensures x < last.start {
        var i :| 0 <= i < |init| && Covers(init[i], x, x + 1);
        assert segs[i].end + 0 <= segs[|segs| - 1].start;
      }
      AppendRange(audio, Positions(init), Concatenated(audio, init), last.start, last.end);
      forall x ensures x in Positions(segs) <==> CoveredBy(segs, x, x + 1) {
        CoveredSplit(segs, x);
      }
    }
  }

  function Range(from: int, to: int): (r: seq<int>)
    requires from <= to
  {
    seq(to - from, j requires 0 <= j < to - from => from + j)
  }

  lemma AppendRange<T>(audio: seq<T>, pos: seq<int>, out: seq<T>, from: int, to: int)
    requires 0 <= from <= to <= |audio| && |pos| == |out| && Increasing(pos)
    requires forall x :: x in pos ==> x < from
    requires forall i :: 0 <= i < |pos| ==> 0 <= pos[i] < |audio| && out[i] == audio[pos[i]]
    ensures var pos', out' := pos + Range(from, to), out + audio[from..to];
      && |pos'| == |out'| && Increasing(pos')
      && (forall i :: 0 <= i < |pos'| ==> 0 <= pos'[i] < |audio| && out'[i] == audio[pos'[i]])
      && (forall x :: x in pos' <==> x in pos || from <= x < to)
  {
    forall x ensures x in Range(from, to) <==> from <= x < to {
      if from <= x < to {
        assert Range(from, to)[x - from] == x;
      }
    }
    assert forall i :: 0 <= i < |pos| ==> pos[i] in pos;
  }

  lemma CoveredSplit(segs: seq<Segment>, x: int)
    requires segs != []
    ensures CoveredBy(segs, x, x + 1) <==>
            CoveredBy(segs[..|segs| - 1], x, x + 1) || Covers(segs[|segs| - 1], x, x + 1)
  {
    if CoveredBy(segs[..|segs| - 1], x, x + 1) {
      var i :| 0 <= i < |segs| - 1 && Covers(segs[..|segs| - 1][i], x, x + 1);
      assert Covers(segs[i], x, x + 1);
    }
    if CoveredBy(segs, x, x + 1) {
      var i :| 0 <= i < |segs| && Covers(segs[i], x, x + 1);
      if i < |segs| - 1 {
        assert Covers(segs[..|segs| - 1][i], x, x + 1);
      }
    }
  }
}
