/**
 * Pure rules of the media player over the transcript timeline: which segment
 * a playback time falls in, the previous/next step, and how a region edit
 * retimes the draft timeline.
 */
module SegmentTimeline {
  import opened Wrappers
  import opened Alignment

  datatype PlayMode = Single | Loop | All

  /** The segment's half-open span `[startTime, endTime)` contains `t`. */
  predicate Covers(e: TimelineEntry, t: real) {
    e.startTime <= t < e.endTime
  }

  /** `timeline.findIndex(t => currentTime >= t.startTime && currentTime < t.endTime)`. */
  function FindIndex(timeline: seq<TimelineEntry>, t: real): (r: int)
    ensures -1 <= r < |timeline|
    ensures r >= 0 ==> Covers(timeline[r], t)
    ensures forall k :: 0 <= k < |timeline| && (r == -1 || k < r) ==> !Covers(timeline[k], t)
  {
    if |timeline| == 0 then -1
    else if Covers(timeline[0], t) then 0
    else
      var r := FindIndex(timeline[1..], t);
      if r == -1 then -1 else r + 1
  }

  /**
   * The segment index after the time-update effect: unchanged without an
   * aligned result, when no segment contains `t`, or when single/loop mode
   * would move it; otherwise the first segment containing `t`.
   */
  function ResolveIndex(result: Option<AlignmentResult>, mode: PlayMode, current: int, t: real): (r: int)
    ensures mode != All ==> r == current
    ensures !IsAligned(result) ==> r == current
    ensures r != current ==>
      0 <= r < |result.value.timeline| && Covers(result.value.timeline[r], t)
      && forall k :: 0 <= k < r ==> !Covers(result.value.timeline[k], t)
    ensures mode == All && IsAligned(result) && (exists k :: 0 <= k < |result.value.timeline| && Covers(result.value.timeline[k], t)) ==>
      0 <= r < |result.value.timeline| && Covers(result.value.timeline[r], t)
      && forall k :: 0 <= k < r ==> !Covers(result.value.timeline[k], t)
  {
    if !IsAligned(result) then current
    else
      var i := FindIndex(result.value.timeline, t);
      if i == -1 then current
      else if mode != All && i != current then current
      else i
  }

  /** Resolving twice with the same time and mode gives the index of resolving once. */
  lemma ResolveIdempotent(result: Option<AlignmentResult>, mode: PlayMode, current: int, t: real)
    ensures ResolveIndex(result, mode, ResolveIndex(result, mode, current, t), t) == ResolveIndex(result, mode, current, t)
  {
  }

  /**
   * `onPrev` (delta -1) and `onNext` (delta +1): move by exactly one, and only
   * when the player exists and the target timeline entry exists.
   */
  function Neighbour(hasPlayer: bool, result: Option<AlignmentResult>, current: int, delta: int): (r: int)
    requires delta == -1 || delta == 1
    ensures r == current || r == current + delta
    ensures r == current + delta <==> hasPlayer && result.Some? && 0 <= current + delta < |result.value.timeline|
  {
    if !hasPlayer then current
    else if result.None? then current
    else if !(0 <= current + delta < |result.value.timeline|) then current
    else current + delta
  }

  /** An in-bounds index stays in bounds under prev/next. */
  lemma NeighbourStaysInBounds(hasPlayer: bool, result: AlignmentResult, current: int, delta: int)
    requires delta == -1 || delta == 1
    requires 0 <= current < |result.timeline|
    ensures 0 <= Neighbour(hasPlayer, Some(result), current, delta) < |result.timeline|
  {
  }

  /** No two adjacent segments overlap: each ends no later than the next starts. */
  predicate Ordered(timeline: seq<TimelineEntry>) {
    forall k :: 1 <= k < |timeline| ==> timeline[k - 1].endTime <= timeline[k].startTime
  }

  /**
   * The draft edit of the `region-updated` handler AS WRITTEN: the current
   * entry takes the region's bounds and the previous entry's end is clamped
   * down to the region's start.  The next-entry clamp is guarded by
   * `currentSegmentIndex < draft.length - 1`, where `draft` is the result
   * object and has no `length`; the comparison with `NaN` is always false,
   * so that clamp never happens and is absent here.
   */
  function RetimedAsWritten(timeline: seq<TimelineEntry>, i: nat, start: real, end: real): (r: seq<TimelineEntry>)
    requires i < |timeline|
    ensures |r| == |timeline|
    ensures i + 1 < |timeline| ==> r[i + 1] == timeline[i + 1]
  {
    var edited := timeline[i := timeline[i].(startTime := start, endTime := end)];
    if i > 0 && edited[i - 1].endTime > start then edited[i - 1 := edited[i - 1].(endTime := start)]
    else edited
  }

  /**
   * The edit as written, entry by entry: the edited entry takes the region's
   * bounds, the previous one ends no later than the region starts, and every
   * other entry (the next one included) is kept.
   */
  lemma RetimedAsWrittenAt(timeline: seq<TimelineEntry>, i: nat, start: real, end: real, k: nat)
    requires i < |timeline| && k < |timeline|
    ensures var e := RetimedAsWritten(timeline, i, start, end)[k];
      e == if k == i then timeline[k].(startTime := start, endTime := end)
           else if k + 1 == i then timeline[k].(endTime := if timeline[k].endTime > start then start else timeline[k].endTime)
           else timeline[k]
  {
  }

  /**
   * The edit as written keeps a timeline without overlapping neighbours free
   * of them exactly when the region does not reach past the next entry's
   * start (or the edited entry is the last one).
   */
  lemma AsWrittenOrderedIff(timeline: seq<TimelineEntry>, i: nat, start: real, end: real)
    requires i < |timeline| && Ordered(timeline)
    ensures Ordered(RetimedAsWritten(timeline, i, start, end)) <==>
            (i + 1 < |timeline| ==> end <= timeline[i + 1].startTime)
  {
    var r := RetimedAsWritten(timeline, i, start, end);
    if i + 1 < |timeline| && end > timeline[i + 1].startTime {
      RetimedAsWrittenAt(timeline, i, start, end, i);
      assert r[i].endTime > r[i + 1].startTime;
    } else {
      forall k | 1 <= k < |r|
        ensures r[k - 1].endTime <= r[k].startTime
      {
        RetimedAsWrittenAt(timeline, i, start, end, k - 1);
        RetimedAsWrittenAt(timeline, i, start, end, k);
      }
    }
  }

  /** Stretching the middle of three adjacent segments past the next one's start leaves them overlapping. */
  lemma AsWrittenOverlapsNext()
    ensures var timeline := [
              TimelineEntry("sentence", "a", 0.0, 2.0, []),
              TimelineEntry("sentence", "b", 2.0, 5.0, []),
              TimelineEntry("sentence", "c", 5.0, 9.0, [])];
            Ordered(timeline) && !Ordered(RetimedAsWritten(timeline, 1, 2.0, 6.5))
  {
    var timeline := [
      TimelineEntry("sentence", "a", 0.0, 2.0, []),
      TimelineEntry("sentence", "b", 2.0, 5.0, []),
      TimelineEntry("sentence", "c", 5.0, 9.0, [])];
    var r := RetimedAsWritten(timeline, 1, 2.0, 6.5);
    assert r[1].endTime == 6.5 && r[2].startTime == 5.0;
  }

  /**
   * The draft edit as the comment of the handler intends it: as written,
   * plus the next entry's start is raised up to the region's end.
   */
  function Retimed(timeline: seq<TimelineEntry>, i: nat, start: real, end: real): (r: seq<TimelineEntry>)
    requires i < |timeline|
  {
    var clamped := RetimedAsWritten(timeline, i, start, end);
    if i < |timeline| - 1 && clamped[i + 1].startTime < end then clamped[i + 1 := clamped[i + 1].(startTime := end)]
    else clamped
  }

  /**
   * Entry by entry: the edited entry takes the region's bounds, the previous
   * one ends no later than the region starts, the next one starts no earlier
   * than the region ends, and every other entry (and every text) is kept.
   */
  lemma RetimedAt(timeline: seq<TimelineEntry>, i: nat, start: real, end: real, k: nat)
    requires i < |timeline| && k < |timeline|
    ensures |Retimed(timeline, i, start, end)| == |timeline|
    ensures var e := Retimed(timeline, i, start, end)[k];
      e == if k == i then timeline[k].(startTime := start, endTime := end)
           else if k + 1 == i then timeline[k].(endTime := if timeline[k].endTime > start then start else timeline[k].endTime)
           else if k == i + 1 then timeline[k].(startTime := if timeline[k].startTime < end then end else timeline[k].startTime)
           else timeline[k]
  {
  }

  /** The corrected edit keeps a non-overlapping timeline non-overlapping, whatever the region's bounds. */
  lemma RetimedKeepsOrder(timeline: seq<TimelineEntry>, i: nat, start: real, end: real)
    requires i < |timeline| && Ordered(timeline)
    ensures Ordered(Retimed(timeline, i, start, end))
  {
    var r := Retimed(timeline, i, start, end);
    forall k | 1 <= k < |r|
      ensures r[k - 1].endTime <= r[k].startTime
    {
      RetimedAt(timeline, i, start, end, k - 1);
      RetimedAt(timeline, i, start, end, k);
    }
  }
}
