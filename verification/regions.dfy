/**
 * The regions plugin's collection as a value.  A region's kind is carried by
 * the prefix of its id ("segment-region-<index>", "word-region-...",
 * "custom-region-<timestamp>"); here the id is a tagged value and the prefix
 * test is `KindOf`.
 */
module Regions {
  import opened Wrappers
  import opened SeqFacts

  datatype RegionId = SegmentRegion(index: int) | WordRegion(key: nat) | CustomRegion(stamp: nat)

  datatype Kind = SegmentKind | WordKind | CustomKind

  /** `id.startsWith("segment-region")` and its two siblings. */
  function KindOf(id: RegionId): Kind {
    match id
    case SegmentRegion(_) => SegmentKind
    case WordRegion(_) => WordKind
    case CustomRegion(_) => CustomKind
  }

  datatype Region = Region(id: RegionId, start: real, end: real, drag: bool, resize: bool)

  /** `getRegions().filter(r => r.id.startsWith(prefix)).forEach(r => r.remove())`: the collection minus one kind, in order. */
  function Without(regions: seq<Region>, k: Kind): (r: seq<Region>)
    ensures |r| <= |regions|
  {
    if |regions| == 0 then []
    else
      var last := regions[|regions| - 1];
      Without(regions[..|regions| - 1], k) + (if KindOf(last.id) == k then [] else [last])
  }

  /** Exactly the regions of the other kinds remain. */
  lemma {:induction false} WithoutMembers(regions: seq<Region>, k: Kind)
    ensures forall x :: x in Without(regions, k) <==> x in regions && KindOf(x.id) != k
  {
    if |regions| > 0 {
      var n := |regions|;
      var last := regions[n - 1];
      WithoutMembers(regions[..n - 1], k);
      Snoc(regions);
      assert Without(regions, k) == Without(regions[..n - 1], k) + (if KindOf(last.id) == k then [] else [last]);
    }
  }

  /** The number of regions of one kind. */
  function Count(regions: seq<Region>, k: Kind): nat {
    if |regions| == 0 then 0
    else Count(regions[..|regions| - 1], k) + (if KindOf(regions[|regions| - 1].id) == k then 1 else 0)
  }

  lemma {:induction false} CountAppend(a: seq<Region>, b: seq<Region>, k: Kind)
    ensures Count(a + b, k) == Count(a, k) + Count(b, k)
    decreases |b|
  {
    if |b| > 0 {
      DropLast(a, b);
      CountAppend(a, b[..|b| - 1], k);
    } else {
      AppendNil(a);
    }
  }

  /** One region counts for its own kind only. */
  /** Appending one region adds one to its kind's count. */
  lemma CountSnoc(p: seq<Region>, x: Region, k: Kind)
    ensures Count(p + [x], k) == Count(p, k) + (if KindOf(x.id) == k then 1 else 0)
  {
    InitOfSnoc(p, x);
  }

  lemma CountSingle(x: Region, k: Kind)
    ensures Count([x], k) == if KindOf(x.id) == k then 1 else 0
  {
    assert [x][..0] == [];
  }

  /** Removing one kind leaves none of it and every other kind's count as it was. */
  lemma {:induction false} CountWithout(regions: seq<Region>, k: Kind, j: Kind)
    ensures Count(Without(regions, k), j) == if k == j then 0 else Count(regions, j)
  {
    if |regions| > 0 {
      var n := |regions|;
      var last := regions[n - 1];
      var w := Without(regions[..n - 1], k);
      var tail := if KindOf(last.id) == k then [] else [last];
      assert Without(regions, k) == w + tail;
      CountAppend(w, tail, j);
      if KindOf(last.id) == k {
        assert Count(tail, j) == 0;
      } else {
        CountSingle(last, j);
      }
      CountWithout(regions[..n - 1], k, j);
    }
  }

  /**
   * The plugin moved region `r` (`setOptions` or a drag): every region with
   * its id now has its bounds and options.
   */
  function Replace(regions: seq<Region>, r: Region): (s: seq<Region>)
    ensures |s| == |regions|
    ensures forall k :: 0 <= k < |regions| ==> s[k] == if regions[k].id == r.id then r else regions[k]
  {
    if |regions| == 0 then []
    else
      var last := regions[|regions| - 1];
      Replace(regions[..|regions| - 1], r) + [if last.id == r.id then r else last]
  }

  /** After the move every region is either the moved one or one of the others, unchanged. */
  lemma ReplaceMembers(regions: seq<Region>, r: Region)
    ensures forall x :: x in Replace(regions, r) ==> x == r || (x in regions && x.id != r.id)
  {
    var s := Replace(regions, r);
    forall x | x in s
      ensures x == r || (x in regions && x.id != r.id)
    {
      var k :| 0 <= k < |s| && s[k] == x;
      assert regions[k] in regions;
    }
  }

  /** Moving a region never changes how many regions of a kind there are. */
  lemma {:induction false} CountReplace(regions: seq<Region>, r: Region, k: Kind)
    ensures Count(Replace(regions, r), k) == Count(regions, k)
  {
    if |regions| > 0 {
      var n := |regions|;
      var last := regions[n - 1];
      var x := if last.id == r.id then r else last;
      var p := Replace(regions[..n - 1], r);
      assert Replace(regions, r) == p + [x];
      CountSnoc(p, x, k);
      assert Count(regions, k) == Count(regions[..n - 1], k) + (if KindOf(last.id) == k then 1 else 0);
      CountReplace(regions[..n - 1], r, k);
    }
  }

  /** The active region is the same object as the collection's region with its id. */
  function Follow(active: Option<Region>, r: Region): (a: Option<Region>)
    ensures a.Some? <==> active.Some?
    ensures active.Some? && active.value.id == r.id ==> a == Some(r)
    ensures active.Some? && active.value.id != r.id ==> a == active
  {
    if active.Some? && active.value.id == r.id then Some(r) else active
  }

  /** `getRegions().find(r => r.id === id)`: the first region with that id. */
  function FindRegion(regions: seq<Region>, id: RegionId): (r: Option<Region>)
    ensures r.Some? ==> exists i :: 0 <= i < |regions| && regions[i] == r.value && r.value.id == id
                                 && forall j :: 0 <= j < i ==> regions[j].id != id
    ensures r.None? <==> forall i :: 0 <= i < |regions| ==> regions[i].id != id
  {
    if |regions| == 0 then None
    else if regions[0].id == id then Some(regions[0])
    else FindRegion(regions[1..], id)
  }

  /** Moving a region leaves the lookup of any other id unchanged. */
  lemma FindRegionReplace(regions: seq<Region>, r: Region, id: RegionId)
    requires r.id != id
    ensures FindRegion(Replace(regions, r), id) == FindRegion(regions, id)
  {
    if |regions| > 0 {
      assert Replace(regions, r)[1..] == Replace(regions[1..], r);
      FindRegionReplace(regions[1..], r, id);
    }
  }

  /** `getRegions().find(r => r.id.startsWith(prefix))`: the first region of that kind. */
  function FirstOfKind(regions: seq<Region>, k: Kind): (r: Option<Region>)
    ensures r.Some? ==> exists i :: 0 <= i < |regions| && regions[i] == r.value && KindOf(r.value.id) == k
                                 && forall j :: 0 <= j < i ==> KindOf(regions[j].id) != k
    ensures r.None? <==> forall i :: 0 <= i < |regions| ==> KindOf(regions[i].id) != k
  {
    if |regions| == 0 then None
    else if KindOf(regions[0].id) == k then Some(regions[0])
    else FirstOfKind(regions[1..], k)
  }

  /**
   * `region-updated` on a custom region: its start is raised to the segment
   * region's start and its end lowered to the segment region's end.
   */
  function ClampToSegment(r: Region, segment: Region): (c: Region)
    ensures c.id == r.id && c.drag == r.drag && c.resize == r.resize
    ensures segment.start <= c.start && c.end <= segment.end
    ensures r.start >= segment.start ==> c.start == r.start
    ensures r.start < segment.start ==> c.start == segment.start
    ensures r.end <= segment.end ==> c.end == r.end
    ensures r.end > segment.end ==> c.end == segment.end
  {
    var start := if r.start < segment.start then segment.start else r.start;
    var end := if r.end > segment.end then segment.end else r.end;
    r.(start := start, end := end)
  }

  datatype Materialized = Materialized(regions: seq<Region>, active: Option<Region>)

  /** The new segment region of `updateSegmentRegion`: fixed in place, resizable only while editing. */
  function SegmentRegionFor(index: int, from: real, to: real, editing: bool): Region {
    Region(SegmentRegion(index), from, to, false, editing)
  }

  /** An active word region lying inside `[from, to]` survives a segment-region refresh. */
  predicate KeepsWordRegion(active: Option<Region>, from: real, to: real) {
    active.Some? && KindOf(active.value.id) == WordKind && active.value.start >= from && active.value.end <= to
  }

  /**
   * `updateSegmentRegion` past its guards: every segment region is replaced
   * by one for the current segment; then either the active word region is
   * kept (with all word regions), or all word regions go and the new
   * segment region becomes active.
   */
  function Materialize(regions: seq<Region>, active: Option<Region>, editing: bool, index: int, from: real, to: real): Materialized {
    var withSegment := Without(regions, SegmentKind) + [SegmentRegionFor(index, from, to, editing)];
    if KeepsWordRegion(active, from, to) then Materialized(withSegment, active)
    else Materialized(Without(withSegment, WordKind), Some(SegmentRegionFor(index, from, to, editing)))
  }

  /**
   * After materialisation exactly one segment region exists: the one for
   * `index`, with the segment's bounds, `drag` off and `resize == editing`.
   */
  lemma MaterializeSingleSegmentRegion(regions: seq<Region>, active: Option<Region>, editing: bool, index: int, from: real, to: real)
    ensures var m := Materialize(regions, active, editing, index, from, to);
      Count(m.regions, SegmentKind) == 1
      && Region(SegmentRegion(index), from, to, false, editing) in m.regions
      && forall x :: x in m.regions && KindOf(x.id) == SegmentKind ==> x == Region(SegmentRegion(index), from, to, false, editing)
  {
    var region := SegmentRegionFor(index, from, to, editing);
    var kept := Without(regions, SegmentKind);
    var withSegment := kept + [region];
    assert Count(withSegment, SegmentKind) == 1 by {
      CountAppend(kept, [region], SegmentKind);
      CountWithout(regions, SegmentKind, SegmentKind);
      CountSingle(region, SegmentKind);
    }
    assert forall x :: x in withSegment && KindOf(x.id) == SegmentKind ==> x == region by {
      WithoutMembers(regions, SegmentKind);
    }
    if !KeepsWordRegion(active, from, to) {
      assert Materialize(regions, active, editing, index, from, to).regions == Without(withSegment, WordKind);
      CountWithout(withSegment, WordKind, SegmentKind);
      WithoutMembers(withSegment, WordKind);
    }
  }

  /**
   * The word-region policy: an active word region inside the new segment
   * region stays active and every word region is kept; otherwise no word
   * region is left and the new segment region is active.  Custom regions
   * are untouched either way.
   */
  lemma MaterializeWordRegions(regions: seq<Region>, active: Option<Region>, editing: bool, index: int, from: real, to: real)
    ensures var m := Materialize(regions, active, editing, index, from, to);
      (KeepsWordRegion(active, from, to) ==>
         m.active == active && forall x :: x in regions && KindOf(x.id) == WordKind ==> x in m.regions)
      && (!KeepsWordRegion(active, from, to) ==>
         m.active == Some(SegmentRegionFor(index, from, to, editing)) && Count(m.regions, WordKind) == 0)
      && (forall x: Region :: KindOf(x.id) == CustomKind ==> (x in m.regions <==> x in regions))
  {
    var withSegment := Without(regions, SegmentKind) + [SegmentRegionFor(index, from, to, editing)];
    WithoutMembers(regions, SegmentKind);
    if !KeepsWordRegion(active, from, to) {
      CountWithout(withSegment, WordKind, WordKind);
      WithoutMembers(withSegment, WordKind);
    }
  }
}
