/**
 * The media player controls: the React effects and event handlers that keep
 * the transcript timeline, the playback cursor and the waveform's regions in
 * step.  Each effect or handler is one method of `PlayerControls`; the
 * wavesurfer instance and its regions plugin are represented by the state
 * they hold (presence flags, playing, current time, the region collection,
 * drag selection), and the transcription record by its persisted result.
 */
module MediaPlayerControls {
  import opened Wrappers
  import opened Alignment
  import opened SegmentTimeline
  import opened Regions

  /** Every piece of state the controls read or write, as one value. */
  datatype PlayerState = PlayerState(
    hasPlayer: bool,                 // `wavesurfer` is set
    hasRegions: bool,                // `regions` (the plugin) is set
    result: Option<AlignmentResult>, // `transcription.result`, as persisted
    draft: Option<AlignmentResult>,  // `transcriptionDraft`
    currentSegmentIndex: int,
    playMode: PlayMode,
    editingRegion: bool,
    isSelectingRegion: bool,
    dragSelection: Option<nat>,      // drag selection enabled, creating `custom-region-<stamp>`
    regions: seq<Region>,            // `regions.getRegions()`
    activeRegion: Option<Region>,
    playing: bool,
    currentTime: real,
    pendingReplay: Option<Region>,   // a loop replay scheduled with `setTimeout`
    finishReplay: Option<Region>)    // what the registered `finish` listener replays

  /**
   * The state invariant: at most one segment region; a draft only exists
   * beside a persisted result of the same length.
   */
  predicate Consistent(s: PlayerState) {
    && Count(s.regions, SegmentKind) <= 1
    && (s.draft.Some? ==>
          && s.result.Some?
          && |s.draft.value.timeline| == |s.result.value.timeline|)
  }

  /** The region listeners are registered: the effect needs the player, the plugin and a result. */
  predicate Subscribed(s: PlayerState) {
    s.hasPlayer && s.hasRegions && s.result.Some?
  }

  /** `transcription?.result?.timeline?.[currentSegmentIndex]`. */
  function CurrentSegment(s: PlayerState): Option<TimelineEntry> {
    if s.result.Some? && 0 <= s.currentSegmentIndex < |s.result.value.timeline|
    then Some(s.result.value.timeline[s.currentSegmentIndex])
    else None
  }

  /** Editing a word region freezes the segment region. */
  predicate EditingWordRegion(s: PlayerState) {
    s.editingRegion && s.activeRegion.Some? && KindOf(s.activeRegion.value.id) == WordKind
  }

  /** `updateSegmentRegion` as a state transition. */
  function SegmentRegionUpdated(s: PlayerState): PlayerState {
    if !s.hasPlayer || !s.hasRegions || EditingWordRegion(s) || CurrentSegment(s).None? then s
    else
      var segment := CurrentSegment(s).value;
      var m := Materialize(s.regions, s.activeRegion, s.editingRegion, s.currentSegmentIndex, segment.startTime, segment.endTime);
      s.(regions := m.regions, activeRegion := m.active)
  }

  /**
   * After `updateSegmentRegion` (unless it returned early) exactly one
   * segment region exists: `segment-region-<currentSegmentIndex>` with that
   * entry's bounds, `drag` off and `resize` equal to `editingRegion`.  It
   * is a no-op without player or plugin, while a word region is being
   * edited, or when the current segment does not exist.
   */
  lemma SegmentRegionUpdatedShape(s: PlayerState)
    ensures var t := SegmentRegionUpdated(s);
      if !s.hasPlayer || !s.hasRegions || EditingWordRegion(s) || CurrentSegment(s).None? then t == s
      else
        var e := s.result.value.timeline[s.currentSegmentIndex];
        var region := Region(SegmentRegion(s.currentSegmentIndex), e.startTime, e.endTime, false, s.editingRegion);
        && Count(t.regions, SegmentKind) == 1 && region in t.regions
        && (forall x :: x in t.regions && KindOf(x.id) == SegmentKind ==> x == region)
        && (KeepsWordRegion(s.activeRegion, e.startTime, e.endTime) ==> t.activeRegion == s.activeRegion)
        && (!KeepsWordRegion(s.activeRegion, e.startTime, e.endTime) ==>
              t.activeRegion == Some(region) && Count(t.regions, WordKind) == 0)
        && t.(regions := s.regions, activeRegion := s.activeRegion) == s
  {
    if !(!s.hasPlayer || !s.hasRegions || EditingWordRegion(s) || CurrentSegment(s).None?) {
      var e := s.result.value.timeline[s.currentSegmentIndex];
      MaterializeSingleSegmentRegion(s.regions, s.activeRegion, s.editingRegion, s.currentSegmentIndex, e.startTime, e.endTime);
      MaterializeWordRegions(s.regions, s.activeRegion, s.editingRegion, s.currentSegmentIndex, e.startTime, e.endTime);
    }
  }

  lemma SegmentRegionUpdatedConsistent(s: PlayerState)
    requires Consistent(s)
    ensures Consistent(SegmentRegionUpdated(s))
  {
    SegmentRegionUpdatedShape(s);
  }

  /** The plugin moved region `r`: the collection and, if it is that region, the active region follow. */
  function Moved(s: PlayerState, r: Region): PlayerState {
    s.(regions := Replace(s.regions, r), activeRegion := Follow(s.activeRegion, r))
  }

  /**
   * The bounds the `region-updated` listener writes into the draft, if it
   * gets that far: a custom region clamped into the current segment region,
   * or the current segment region itself.  None when the listeners are not
   * registered, when the region is of another kind, or when a custom region
   * has no segment region to be clamped into (reading its `start` throws).
   */
  function EditedRegion(s: PlayerState, r: Region): Option<Region> {
    var segmentRegion := FindRegion(s.regions, SegmentRegion(s.currentSegmentIndex));
    if !Subscribed(s) then None
    else if KindOf(r.id) == CustomKind then
      if segmentRegion.None? then None else Some(ClampToSegment(r, segmentRegion.value))
    else if r.id == SegmentRegion(s.currentSegmentIndex) then Some(r)
    else None
  }

  /**
   * The draft: a copy of the persisted result retimed at the current index
   * by the edit as written, which never clamps the next entry (throws when
   * the current entry is missing).
   */
  function WithDraft(s: PlayerState, edited: Region): PlayerState {
    if s.result.Some? && 0 <= s.currentSegmentIndex < |s.result.value.timeline|
    then s.(draft := Some(s.result.value.(timeline := RetimedAsWritten(s.result.value.timeline, s.currentSegmentIndex, edited.start, edited.end))))
    else s
  }

  /**
   * The `region-updated` event: the plugin has moved region `r`; a custom
   * region is then clamped into the current segment region, and an edit of
   * a custom region or of the current segment region is written into a
   * fresh copy of the persisted result as the draft.
   */
  function RegionUpdated(s: PlayerState, r: Region): PlayerState {
    Listened(Moved(s, r), r)
  }

  /** The `region-updated` listener on the state the plugin's move left (see `RegionUpdated`). */
  function Listened(s: PlayerState, r: Region): PlayerState {
    var edited := EditedRegion(s, r);
    if edited.None? then s
    else if KindOf(r.id) == CustomKind then WithDraft(Moved(s, edited.value), edited.value)
    else WithDraft(s, edited.value)
  }

  /**
   * What a region edit does to the transcript: the persisted result never
   * changes; only a custom region or the current segment region produces a
   * draft, which is the persisted result retimed at the current index with
   * the (clamped) region's bounds; a custom region ends inside the segment
   * region.
   */
  lemma RegionUpdatedDraft(s: PlayerState, r: Region)
    ensures var t := RegionUpdated(s, r);
      var i := s.currentSegmentIndex;
      var segmentRegion := FindRegion(s.regions, SegmentRegion(i));
      && t.result == s.result
      && (Subscribed(s) && KindOf(r.id) != CustomKind && r.id != SegmentRegion(i) ==> t.draft == s.draft)
      && (KindOf(r.id) == CustomKind && segmentRegion.None? ==> t.draft == s.draft)
      && (Subscribed(s) && r.id == SegmentRegion(i) && 0 <= i < |s.result.value.timeline| ==>
            t.draft == Some(s.result.value.(timeline := RetimedAsWritten(s.result.value.timeline, i, r.start, r.end))))
      && (Subscribed(s) && KindOf(r.id) == CustomKind && segmentRegion.Some? && 0 <= i < |s.result.value.timeline| ==>
            var c := ClampToSegment(r, segmentRegion.value);
            t.draft == Some(s.result.value.(timeline := RetimedAsWritten(s.result.value.timeline, i, c.start, c.end))))
      && (t.draft != s.draft ==>
            Subscribed(s) && 0 <= i < |s.result.value.timeline|
            && (KindOf(r.id) == CustomKind || r.id == SegmentRegion(i))
            && exists start: real, end: real ::
                 t.draft == Some(s.result.value.(timeline := RetimedAsWritten(s.result.value.timeline, i, start, end))))
  {
    var moved := Moved(s, r);
    assert moved.result == s.result && moved.draft == s.draft && moved.currentSegmentIndex == s.currentSegmentIndex;
    if KindOf(r.id) == CustomKind {
      FindRegionReplace(s.regions, r, SegmentRegion(s.currentSegmentIndex));
    }
    ListenedDraft(moved, r);
  }

  /** `RegionUpdatedDraft` for the listener alone: the plugin's move touches neither the transcript nor the draft. */
  lemma ListenedDraft(s: PlayerState, r: Region)
    ensures var t := Listened(s, r);
      var i := s.currentSegmentIndex;
      var segmentRegion := FindRegion(s.regions, SegmentRegion(i));
      && t.result == s.result
      && (Subscribed(s) && KindOf(r.id) != CustomKind && r.id != SegmentRegion(i) ==> t.draft == s.draft)
      && (KindOf(r.id) == CustomKind && segmentRegion.None? ==> t.draft == s.draft)
      && (Subscribed(s) && r.id == SegmentRegion(i) && 0 <= i < |s.result.value.timeline| ==>
            t.draft == Some(s.result.value.(timeline := RetimedAsWritten(s.result.value.timeline, i, r.start, r.end))))
      && (Subscribed(s) && KindOf(r.id) == CustomKind && segmentRegion.Some? && 0 <= i < |s.result.value.timeline| ==>
            var c := ClampToSegment(r, segmentRegion.value);
            t.draft == Some(s.result.value.(timeline := RetimedAsWritten(s.result.value.timeline, i, c.start, c.end))))
      && (t.draft != s.draft ==>
            Subscribed(s) && 0 <= i < |s.result.value.timeline|
            && (KindOf(r.id) == CustomKind || r.id == SegmentRegion(i))
            && exists start: real, end: real ::
                 t.draft == Some(s.result.value.(timeline := RetimedAsWritten(s.result.value.timeline, i, start, end))))
  {
    var edited := EditedRegion(s, r);
    var t := Listened(s, r);
    if edited.Some? {
      var e := edited.value;
      var base := if KindOf(r.id) == CustomKind then Moved(s, e) else s;
      assert t == WithDraft(base, e);
      assert base.result == s.result && base.draft == s.draft && base.currentSegmentIndex == s.currentSegmentIndex;
      if 0 <= s.currentSegmentIndex < |s.result.value.timeline| {
        assert t.draft == Some(s.result.value.(timeline := RetimedAsWritten(s.result.value.timeline, s.currentSegmentIndex, e.start, e.end)));
      }
    }
  }

  /** A custom region is clamped into the current segment region, in the collection and as the active region. */
  lemma RegionUpdatedClampsCustom(s: PlayerState, r: Region, segmentRegion: Region)
    requires Subscribed(s) && KindOf(r.id) == CustomKind
    requires FindRegion(Replace(s.regions, r), SegmentRegion(s.currentSegmentIndex)) == Some(segmentRegion)
    ensures var t := RegionUpdated(s, r);
      forall x :: x in t.regions && x.id == r.id ==> segmentRegion.start <= x.start && x.end <= segmentRegion.end
    ensures var t := RegionUpdated(s, r);
      t.activeRegion.Some? && t.activeRegion.value.id == r.id ==>
        segmentRegion.start <= t.activeRegion.value.start && t.activeRegion.value.end <= segmentRegion.end
  {
    var c := ClampToSegment(r, segmentRegion);
    var moved := Moved(s, r);
    assert EditedRegion(moved, r) == Some(c);
    var t := RegionUpdated(s, r);
    assert t == WithDraft(Moved(moved, c), c);
    assert t.regions == Replace(moved.regions, c);
    ReplaceMembers(moved.regions, c);
    ReplaceMembers(s.regions, r);
    assert t.activeRegion == Follow(moved.activeRegion, c);
  }

  /** A region edit never changes how many regions of a kind exist. */
  lemma RegionUpdatedCount(s: PlayerState, r: Region, k: Kind)
    ensures Count(RegionUpdated(s, r).regions, k) == Count(s.regions, k)
  {
    var t := RegionUpdated(s, r);
    var moved := Moved(s, r);
    var edited := EditedRegion(moved, r);
    CountReplace(s.regions, r, k);
    if edited.Some? && KindOf(r.id) == CustomKind {
      assert t.regions == Replace(moved.regions, edited.value);
      CountReplace(moved.regions, edited.value, k);
    } else {
      assert t.regions == moved.regions;
    }
  }

  lemma RegionUpdatedConsistent(s: PlayerState, r: Region)
    requires Consistent(s)
    ensures Consistent(RegionUpdated(s, r))
  {
    var t := RegionUpdated(s, r);
    RegionUpdatedCount(s, r, SegmentKind);
    RegionUpdatedDraft(s, r);
  }

  /**
   * The draft a region edit writes from a persisted timeline without
   * overlapping neighbours is again free of them exactly when the written
   * bounds do not reach past the next entry's start; nothing clamps that
   * entry, so stretching a segment over its successor leaves them overlapping.
   */
  lemma RegionUpdatedOrdered(s: PlayerState, r: Region)
    requires s.result.Some? && Ordered(s.result.value.timeline)
    ensures var t := RegionUpdated(s, r);
      t.draft != s.draft ==>
        0 <= s.currentSegmentIndex < |s.result.value.timeline|
        && exists start: real, end: real ::
             && t.draft == Some(s.result.value.(timeline := RetimedAsWritten(s.result.value.timeline, s.currentSegmentIndex, start, end)))
             && (Ordered(t.draft.value.timeline) <==>
                   (s.currentSegmentIndex + 1 < |s.result.value.timeline| ==> end <= s.result.value.timeline[s.currentSegmentIndex + 1].startTime))
  {
    var t := RegionUpdated(s, r);
    RegionUpdatedDraft(s, r);
    if t.draft != s.draft {
      var timeline := s.result.value.timeline;
      var i := s.currentSegmentIndex;
      var start: real, end: real :|
        t.draft == Some(s.result.value.(timeline := RetimedAsWritten(timeline, i, start, end)));
      AsWrittenOrderedIff(timeline, i, start, end);
      assert t.draft.value.timeline == RetimedAsWritten(timeline, i, start, end);
    }
  }

  /**
   * The `region-created` event: the plugin appends the region; with the
   * listeners registered, a custom region disables drag selection and
   * becomes the active region.
   */
  function RegionCreated(s: PlayerState, r: Region): PlayerState {
    var t := s.(regions := s.regions + [r]);
    if Subscribed(s) && KindOf(r.id) == CustomKind then t.(dragSelection := None, activeRegion := Some(r)) else t
  }

  /**
   * A created region is appended last and nothing else is removed; only a
   * custom region, and only with the listeners registered, ends drag
   * selection and becomes active; the transcript and the draft are untouched.
   */
  lemma RegionCreatedEffect(s: PlayerState, r: Region)
    ensures var t := RegionCreated(s, r);
      && t.regions == s.regions + [r] && t.result == s.result && t.draft == s.draft
      && t.currentSegmentIndex == s.currentSegmentIndex && t.isSelectingRegion == s.isSelectingRegion
      && (Subscribed(s) && KindOf(r.id) == CustomKind ==> t.activeRegion == Some(r) && t.dragSelection.None?)
      && (!(Subscribed(s) && KindOf(r.id) == CustomKind) ==> t == s.(regions := s.regions + [r]))
      && forall k: Kind :: Count(t.regions, k) == Count(s.regions, k) + (if KindOf(r.id) == k then 1 else 0)
  {
    forall k: Kind
      ensures Count(s.regions + [r], k) == Count(s.regions, k) + (if KindOf(r.id) == k then 1 else 0)
    {
      CountAppend(s.regions, [r], k);
      assert [r][..0] == [];
    }
  }

  lemma RegionCreatedConsistent(s: PlayerState, r: Region)
    requires Consistent(s) && KindOf(r.id) != SegmentKind
    ensures Consistent(RegionCreated(s, r))
  {
    RegionCreatedEffect(s, r);
  }

  /**
   * The select-region button flips `isSelectingRegion`; the listeners'
   * effect then re-runs: its cleanup disables drag selection, and with the
   * plugin and a result, selecting enables drag selection of
   * `custom-region-<stamp>` (throwing without a player) while not selecting
   * removes every custom region and, when no region or a custom one was
   * active, activates the first segment region.
   */
  function SelectionToggled(s: PlayerState, stamp: nat): PlayerState {
    ListenersEffect(s.(isSelectingRegion := !s.isSelectingRegion), stamp)
  }

  /**
   * The listeners' effect, re-run whenever one of its dependencies changes
   * (play mode, plugin, transcription, segment index, `isSelectingRegion`):
   * the previous run's cleanup disables drag selection and unsubscribes the
   * listeners, then the branch on `isSelectingRegion` described at
   * `SelectionToggled` runs.  The new `finish` listener closes over the
   * play mode and the active region of this run; the active region is not
   * a dependency, so it replays that region even after another one becomes
   * active.
   */
  function ListenersEffect(s: PlayerState, stamp: nat): PlayerState {
    ListenersRegistered(s.(dragSelection := None, finishReplay := if Subscribed(s) && s.playMode == Loop then s.activeRegion else None), stamp)
  }

  /** The listeners' effect after its cleanup: the branch on `isSelectingRegion`. */
  function ListenersRegistered(s: PlayerState, stamp: nat): PlayerState {
    if !s.hasRegions || s.result.None? then s
    else if s.isSelectingRegion then
      if s.hasPlayer then s.(dragSelection := Some(stamp)) else s
    else
      var remaining := Without(s.regions, CustomKind);
      s.(regions := remaining,
         activeRegion := if s.activeRegion.None? || KindOf(s.activeRegion.value.id) == CustomKind
                         then FirstOfKind(remaining, SegmentKind) else s.activeRegion)
  }

  /**
   * Selecting enables drag selection exactly when player, plugin and result
   * exist; ending a selection removes exactly the custom regions, keeps a
   * non-custom active region, and otherwise activates the first segment
   * region left, if any.  The `finish` listener now replays the region that
   * was active when the toggle happened, in loop mode only.
   */
  lemma SelectionToggledEffect(s: PlayerState, stamp: nat)
    ensures var t := SelectionToggled(s, stamp);
      && t.isSelectingRegion == !s.isSelectingRegion
      && t.result == s.result && t.draft == s.draft && t.currentSegmentIndex == s.currentSegmentIndex
      && (t.dragSelection.Some? <==> t.isSelectingRegion && Subscribed(s))
      && (t.dragSelection.Some? ==> t.dragSelection == Some(stamp))
      && t.finishReplay == (if Subscribed(s) && s.playMode == Loop then s.activeRegion else None)
      && (t.isSelectingRegion || !s.hasRegions || s.result.None? ==> t.regions == s.regions && t.activeRegion == s.activeRegion)
      && (!t.isSelectingRegion && s.hasRegions && s.result.Some? ==>
            && Count(t.regions, CustomKind) == 0
            && (forall x :: x in t.regions <==> x in s.regions && KindOf(x.id) != CustomKind)
            && (s.activeRegion.Some? && KindOf(s.activeRegion.value.id) != CustomKind ==> t.activeRegion == s.activeRegion)
            && (s.activeRegion.None? || KindOf(s.activeRegion.value.id) == CustomKind ==>
                  && (t.activeRegion.None? <==> forall x :: x in s.regions ==> KindOf(x.id) != SegmentKind)
                  && (t.activeRegion.Some? ==>
                        exists k :: 0 <= k < |t.regions| && t.regions[k] == t.activeRegion.value
                                    && KindOf(t.regions[k].id) == SegmentKind
                                    && forall j :: 0 <= j < k ==> KindOf(t.regions[j].id) != SegmentKind)))
  {
    var t := SelectionToggled(s, stamp);
    if !t.isSelectingRegion && s.hasRegions && s.result.Some? {
      assert t.regions == Without(s.regions, CustomKind);
      CountWithout(s.regions, CustomKind, CustomKind);
      WithoutMembers(s.regions, CustomKind);
    }
  }

  lemma SelectionToggledConsistent(s: PlayerState, stamp: nat)
    requires Consistent(s)
    ensures Consistent(SelectionToggled(s, stamp))
  {
    CountWithout(s.regions, CustomKind, SegmentKind);
  }

  /** Removing every region of one kind, one region at a time: what is left, in order. */
  method RemoveKind(all: seq<Region>, k: Kind) returns (kept: seq<Region>)
    ensures kept == Without(all, k)
  {
    kept := [];
    var i := 0;
    while i < |all|
      invariant 0 <= i <= |all|
      invariant kept == Without(all[..i], k)
    {
      if KindOf(all[i].id) != k {
        kept := kept + [all[i]];
      }
      assert all[..i + 1][..i] == all[..i];
      i := i + 1;
    }
    assert all[..i] == all;
  }

  /**
   * The region edits of `updateSegmentRegion`, one removal at a time: the
   * segment regions go and the new one is added; unless the active word
   * region lies inside it, the word regions go too and it becomes active.
   */
  method MaterializeRegions(all: seq<Region>, active: Option<Region>, editing: bool, index: int, from: real, to: real)
    returns (m: Materialized)
    ensures m == Materialize(all, active, editing, index, from, to)
  {
    var region := Region(SegmentRegion(index), from, to, false, editing);
    var withSegment := RemoveKind(all, SegmentKind);
    withSegment := withSegment + [region];
    // an active word region still inside the segment region stays active
    if active.Some? && KindOf(active.value.id) == WordKind && active.value.start >= region.start && active.value.end <= region.end {
      return Materialized(withSegment, active);
    }
    withSegment := RemoveKind(withSegment, WordKind);
    return Materialized(withSegment, Some(region));
  }

  /** Ending a selection: the custom regions go, and a missing or custom active region falls back to the segment region. */
  method EndSelection(all: seq<Region>, active: Option<Region>) returns (kept: seq<Region>, fallback: Option<Region>)
    ensures kept == Without(all, CustomKind)
    ensures fallback == if active.None? || KindOf(active.value.id) == CustomKind then FirstOfKind(kept, SegmentKind) else active
  {
    kept := RemoveKind(all, CustomKind);
    fallback := active;
    if active.None? || KindOf(active.value.id) == CustomKind {
      fallback := FirstOfKind(kept, SegmentKind);
    }
  }

  class PlayerControls {
    var hasPlayer: bool
    var hasRegions: bool
    var result: Option<AlignmentResult>
    var draft: Option<AlignmentResult>
    var currentSegmentIndex: int
    var playMode: PlayMode
    var editingRegion: bool
    var isSelectingRegion: bool
    var dragSelection: Option<nat>
    var regions: seq<Region>
    var activeRegion: Option<Region>
    var playing: bool
    var currentTime: real
    var pendingReplay: Option<Region>
    var finishReplay: Option<Region>

    function State(): PlayerState
      reads this
    {
      PlayerState(hasPlayer, hasRegions, result, draft, currentSegmentIndex, playMode, editingRegion,
                  isSelectingRegion, dragSelection, regions, activeRegion, playing, currentTime, pendingReplay, finishReplay)
    }

    ghost predicate Valid()
      reads this
    {
      Consistent(State())
    }

    /** The controls mount with single play mode, no regions, nothing selected and no draft. */
    constructor (hasPlayer: bool, hasRegions: bool, result: Option<AlignmentResult>)
      ensures Valid()
      ensures State() == PlayerState(hasPlayer, hasRegions, result, None, 0, Single, false, false, None, [], None, false, 0.0, None, None)
    {
      this.hasPlayer := hasPlayer;
      this.hasRegions := hasRegions;
      this.result := result;
      draft := None;
      currentSegmentIndex := 0;
      playMode := Single;
      editingRegion := false;
      isSelectingRegion := false;
      dragSelection := None;
      regions := [];
      activeRegion := None;
      playing := false;
      currentTime := 0.0;
      pendingReplay := None;
      finishReplay := None;
    }

    /** `onPrev`: one segment back, only when that timeline entry exists. */
    method OnPrev()
      requires Valid()
      modifies this
      ensures Valid()
      ensures State() == old(State()).(currentSegmentIndex := Neighbour(old(hasPlayer), old(result), old(currentSegmentIndex), -1))
    {
      if !hasPlayer { return; }
      if result.None? { return; }
      var target := currentSegmentIndex - 1;
      if !(0 <= target < |result.value.timeline|) { return; }
      currentSegmentIndex := target;
    }

    /** `onNext`: one segment forward, only when that timeline entry exists. */
    method OnNext()
      requires Valid()
      modifies this
      ensures Valid()
      ensures State() == old(State()).(currentSegmentIndex := Neighbour(old(hasPlayer), old(result), old(currentSegmentIndex), 1))
    {
      if !hasPlayer { return; }
      if result.None? { return; }
      var target := currentSegmentIndex + 1;
      if !(0 <= target < |result.value.timeline|) { return; }
      currentSegmentIndex := target;
    }

    /** The player reports a new time; the time-update effect resolves the segment index from it. */
    method OnTimeUpdate(t: real)
      requires Valid()
      modifies this
      ensures Valid()
      ensures State() == old(State()).(currentTime := t, currentSegmentIndex := ResolveIndex(old(result), old(playMode), old(currentSegmentIndex), t))
    {
      var index := currentSegmentIndex;
      if result.Some? && result.value.transcript != "" {
        var found := FindIndex(result.value.timeline, t);
        // stay on the current segment in single and loop mode
        if found != -1 && (playMode == All || found == currentSegmentIndex) {
          index := found;
        }
      }
      assert index == ResolveIndex(result, playMode, currentSegmentIndex, t);
      currentTime := t;
      currentSegmentIndex := index;
    }

    /** `updateSegmentRegion`: replace the segment region by one for the current segment. */
    method UpdateSegmentRegion()
      requires Valid()
      modifies this
      ensures Valid()
      ensures State() == SegmentRegionUpdated(old(State()))
    {
      if !hasPlayer { return; }
      if !hasRegions { return; }
      // do not update the segment region while a word region is being edited
      if editingRegion && activeRegion.Some? && KindOf(activeRegion.value.id) == WordKind { return; }
      if result.None? || !(0 <= currentSegmentIndex < |result.value.timeline|) { return; }
      ghost var s0 := State();
      SegmentRegionUpdatedConsistent(s0);
      var segment := result.value.timeline[currentSegmentIndex];
      var m := MaterializeRegions(regions, activeRegion, editingRegion, currentSegmentIndex, segment.startTime, segment.endTime);
      assert CurrentSegment(s0) == Some(segment);
      assert SegmentRegionUpdated(s0) == s0.(regions := m.regions, activeRegion := m.active);
      regions := m.regions;
      activeRegion := m.active;
      assert State() == s0.(regions := m.regions, activeRegion := m.active);
    }

    /** The effect on a new segment index or result: editing ends and the segment region is refreshed. */
    method OnSegmentChanged()
      requires Valid()
      modifies this
      ensures Valid()
      ensures State() == if !old(hasRegions) then old(State())
                         else SegmentRegionUpdated(old(State()).(editingRegion := false))
      ensures old(hasRegions) ==> !editingRegion
    {
      if !hasRegions { return; }
      editingRegion := false;
      UpdateSegmentRegion();
    }

    /** The edit button toggles `editingRegion`; its effect refreshes the segment region's `resize`. */
    method ToggleEditing()
      requires Valid()
      modifies this
      ensures Valid()
      ensures State() == SegmentRegionUpdated(old(State()).(editingRegion := !old(editingRegion)))
    {
      editingRegion := !editingRegion;
      UpdateSegmentRegion();
    }

    /** The `region-updated` event: the plugin's own move of the region, then the listener. */
    method OnRegionUpdated(r: Region)
      requires Valid()
      modifies this
      ensures Valid()
      ensures State() == RegionUpdated(old(State()), r)
    {
      RegionUpdatedConsistent(State(), r);
      regions := Replace(regions, r);
      activeRegion := Follow(activeRegion, r);
      RegionUpdatedListener(r);
    }

    /** The `region-updated` listener: clamp a custom region, then write the draft. */
    method RegionUpdatedListener(r: Region)
      modifies this
      ensures State() == Listened(old(State()), r)
    {
      ghost var s0 := State();
      if !(hasPlayer && hasRegions && result.Some?) { return; }
      var segmentRegion := FindRegion(regions, SegmentRegion(currentSegmentIndex));
      if KindOf(r.id) == CustomKind {
        // keep the custom region inside the segment region
        if segmentRegion.None? { return; }
        var edited := ClampToSegment(r, segmentRegion.value);
        assert EditedRegion(s0, r) == Some(edited);
        regions := Replace(regions, edited);
        activeRegion := Follow(activeRegion, edited);
        assert State() == Moved(s0, edited);
        WriteDraft(edited);
      } else if r.id == SegmentRegion(currentSegmentIndex) {
        assert EditedRegion(s0, r) == Some(r);
        WriteDraft(r);
      }
    }

    /**
     * The draft edit of `region-updated`: a copy of the persisted result in
     * which the current entry takes the region's bounds and the previous
     * entry is clamped so as not to overlap it.
     */
    method WriteDraft(edited: Region)
      modifies this
      ensures State() == WithDraft(old(State()), edited)
    {
      if result.None? { return; }
      var i := currentSegmentIndex;
      var timeline := result.value.timeline;
      // the entry is missing: reading its fields throws
      if !(0 <= i < |timeline|) { return; }
      timeline := timeline[i := timeline[i].(startTime := edited.start, endTime := edited.end)];
      // the previous segment ends before the current one starts
      if i > 0 && timeline[i - 1].endTime > edited.start {
        timeline := timeline[i - 1 := timeline[i - 1].(endTime := edited.start)];
      }
      // the next-segment clamp tests `draft.length`, which the result object
      // lacks, so its guard never holds and the next entry is left as it was
      draft := Some(result.value.(timeline := timeline));
    }

    /** The `region-created` event: the plugin adds the region; a custom one ends drag selection and becomes active. */
    method OnRegionCreated(r: Region)
      requires Valid()
      requires KindOf(r.id) != SegmentKind
      modifies this
      ensures Valid()
      ensures State() == RegionCreated(old(State()), r)
    {
      ghost var s0 := State();
      RegionCreatedConsistent(s0, r);
      var all := regions + [r];
      // a custom region is the end of a drag selection
      if hasPlayer && hasRegions && result.Some? && KindOf(r.id) == CustomKind {
        dragSelection := None;
        activeRegion := Some(r);
      }
      regions := all;
      assert State() == RegionCreated(s0, r);
    }

    /** The select-region button, with the listeners' effect re-run on the new `isSelectingRegion`. */
    method ToggleSelectingRegion(stamp: nat)
      requires Valid()
      modifies this
      ensures Valid()
      ensures State() == SelectionToggled(old(State()), stamp)
    {
      SelectionToggledConsistent(State(), stamp);
      isSelectingRegion := !isSelectingRegion;
      RerunListeners(stamp);
    }

    /**
     * The listeners' effect, re-run after any of its dependencies changed:
     * the previous run's cleanup, then the listeners are registered anew.
     */
    method RerunListeners(stamp: nat)
      modifies this
      ensures State() == ListenersEffect(old(State()), stamp)
    {
      ghost var s0 := State();
      // the previous run's cleanup disables drag selection
      dragSelection := None;
      // the `finish` listener keeps the mode and the active region of this run
      finishReplay := if hasPlayer && hasRegions && result.Some? && playMode == Loop then activeRegion else None;
      assert State() == s0.(dragSelection := None, finishReplay := if Subscribed(s0) && s0.playMode == Loop then s0.activeRegion else None);
      RegisterListeners(stamp);
    }

    /** The listeners' effect after its cleanup: drag selection, or the end of a selection. */
    method RegisterListeners(stamp: nat)
      modifies this
      ensures State() == ListenersRegistered(old(State()), stamp)
    {
      if !hasRegions || result.None? { return; }
      if isSelectingRegion {
        // `wavesurfer.getWrapper()` throws without a player
        if hasPlayer {
          dragSelection := Some(stamp);
        }
      } else {
        regions, activeRegion := EndSelection(regions, activeRegion);
      }
    }

    /** The effect on a new active region: a custom one clears the word regions, any other ends selecting. */
    method OnActiveRegionChanged()
      requires Valid()
      modifies this
      ensures Valid()
      ensures State() ==
        if !old(hasRegions) || old(activeRegion).None? then old(State())
        else if KindOf(old(activeRegion).value.id) == CustomKind then old(State()).(regions := Without(old(regions), WordKind))
        else old(State()).(isSelectingRegion := false)
    {
      if !hasRegions { return; }
      if activeRegion.None? { return; }
      if KindOf(activeRegion.value.id) == CustomKind {
        CountWithout(regions, WordKind, SegmentKind);
        regions := RemoveKind(regions, WordKind);
      } else {
        isSelectingRegion := false;
      }
    }

    /** The `region-out` listener: loop pauses and schedules a replay of the region, single pauses, all does nothing. */
    method OnRegionOut(r: Region)
      requires Valid()
      modifies this
      ensures Valid()
      ensures !Subscribed(old(State())) ==> State() == old(State())
      ensures Subscribed(old(State())) && old(playMode) == Loop ==>
        State() == old(State()).(playing := false, pendingReplay := Some(r))
      ensures Subscribed(old(State())) && old(playMode) == Single ==> State() == old(State()).(playing := false)
      ensures old(playMode) == All ==> State() == old(State())
    {
      if !(hasPlayer && hasRegions && result.Some?) { return; }
      if playMode == Loop {
        playing := false;
        pendingReplay := Some(r);
      } else if playMode == Single {
        playing := false;
      }
    }

    /** The 500 ms timer of a loop replay fires: the region plays from its start. */
    method OnReplayTimer()
      requires Valid()
      modifies this
      ensures Valid()
      ensures State() ==
        if old(pendingReplay).None? then old(State())
        else old(State()).(currentTime := old(pendingReplay).value.start, playing := true, pendingReplay := None)
    {
      if pendingReplay.None? { return; }
      currentTime := pendingReplay.value.start;
      playing := true;
      pendingReplay := None;
    }

    /**
     * The `finish` listener: registered in loop mode, it replays the region
     * that was active when the listeners' effect last ran, whichever region
     * is active now.
     */
    method OnFinish()
      requires Valid()
      modifies this
      ensures Valid()
      ensures State() ==
        if old(finishReplay).Some?
        then old(State()).(currentTime := old(finishReplay).value.start, playing := true)
        else old(State())
    {
      if finishReplay.None? { return; }
      currentTime := finishReplay.value.start;
      playing := true;
    }

    /**
     * The stay-in-region effect: while paused in single or loop mode, a
     * cursor outside the active region is moved to the region's start.
     */
    method StayInActiveRegion()
      requires Valid()
      modifies this
      ensures Valid()
      ensures var a := old(activeRegion);
        State() ==
          if !old(playing) && a.Some? && old(playMode) != All && old(hasPlayer)
             && (old(currentTime) < a.value.start || old(currentTime) > a.value.end)
          then old(State()).(currentTime := a.value.start)
          else old(State())
      ensures !playing && activeRegion.Some? && playMode != All && hasPlayer && activeRegion.value.start <= activeRegion.value.end ==>
        activeRegion.value.start <= currentTime <= activeRegion.value.end
    {
      if hasPlayer && playing { return; }
      if activeRegion.None? { return; }
      if playMode == All { return; }
      if currentTime < activeRegion.value.start || currentTime > activeRegion.value.end {
        // `wavesurfer.setScrollTime` throws without a player
        if !hasPlayer { return; }
        currentTime := activeRegion.value.start;
      }
    }

    /** The auto-select effect: once decoded, an aligned transcription starts at its first segment. */
    method SelectFirstSegment(decoded: bool)
      requires Valid()
      modifies this
      ensures Valid()
      ensures State() ==
        if !IsAligned(old(result)) || !decoded || !old(hasPlayer) then old(State())
        else if |old(result).value.timeline| == 0 then old(State()).(currentSegmentIndex := 0)  // `timeline[0].startTime` throws
        else old(State()).(currentSegmentIndex := 0, currentTime := old(result).value.timeline[0].startTime)
    {
      if result.None? || result.value.transcript == "" { return; }
      if !decoded { return; }
      if !hasPlayer { return; }
      currentSegmentIndex := 0;
      if |result.value.timeline| == 0 { return; }
      currentTime := result.value.timeline[0].startTime;
    }

    method SetPlayMode(mode: PlayMode)
      requires Valid()
      modifies this
      ensures Valid()
      ensures State() == old(State()).(playMode := mode)
    {
      playMode := mode;
    }

    /** `playOrPause`: toggles playback when there is a player. */
    method PlayOrPause()
      requires Valid()
      modifies this
      ensures Valid()
      ensures State() == if old(hasPlayer) then old(State()).(playing := !old(playing)) else old(State())
    {
      if !hasPlayer { return; }
      playing := !playing;
    }

    /** Cancel: leave editing and drop the draft; nothing is persisted. */
    method Cancel()
      requires Valid()
      modifies this
      ensures Valid()
      ensures State() == old(State()).(editingRegion := false, draft := None)
    {
      editingRegion := false;
      draft := None;
    }

    /**
     * Save: without a draft nothing happens; otherwise the draft is sent to
     * storage, and only when that update resolves (`persisted`) does the
     * draft become the persisted result and editing end.
     */
    method Save(persisted: bool)
      requires Valid()
      modifies this
      ensures Valid()
      ensures State() ==
        if old(draft).None? || !persisted then old(State())
        else old(State()).(result := old(draft), draft := None, editingRegion := false)
    {
      if draft.None? { return; }
      if !persisted { return; }
      result := draft;
      draft := None;
      editingRegion := false;
    }
  }
}
