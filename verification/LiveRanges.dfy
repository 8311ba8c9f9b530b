/** Live ranges of single instructions (IR/instructions/instr.h:189-233) and the shortening of a range
    at its definition (Analyzers/livenessAnalyzer.cpp:20-52). */
module LiveRanges {
  import opened Util

  type Interval = (nat, nat)

  /** The intervals added so far, and the enclosing range once one has been added. */
  datatype LiveRange = LiveRange(intervals: seq<Interval>, range: Interval, isRangeSet: bool) {
    function AddInterval(iv: Interval): (r: LiveRange)
      requires HullOk(this)
      ensures HullOk(r) && Intervals(r) == Intervals(this) + {iv}
    {
      var widened := (if range.0 > iv.0 then iv.0 else range.0, if range.1 < iv.1 then iv.1 else range.1);
      var r := LiveRange(intervals + [iv], if isRangeSet then widened else iv, true);
      assert r.intervals[|intervals|] == iv;
      r
    }
  }

  const EMPTY_RANGE := LiveRange([], (0, 0), false)

  ghost function Intervals(lr: LiveRange): set<Interval> {
    Elems(lr.intervals)
  }

  /** The range is the hull of the intervals. */
  ghost predicate HullOk(lr: LiveRange) {
    && (lr.isRangeSet <==> lr.intervals != [])
    && (lr.isRangeSet ==> IsHull(lr.intervals, lr.range))
    && (!lr.isRangeSet ==> lr.range == (0, 0))
  }

  ghost predicate IsHull(ivs: seq<Interval>, range: Interval) {
    && (forall iv :: iv in ivs ==> range.0 <= iv.0 && iv.1 <= range.1)
    && (exists iv :: iv in ivs && iv.0 == range.0)
    && (exists iv :: iv in ivs && iv.1 == range.1)
  }

  /** The set of intervals after shortening at a definition: those starting with the block start at it. */
  ghost function Shortened(ivs: set<Interval>, blockFrom: nat, livePos: nat): set<Interval> {
    if ivs == {} then {(livePos, livePos)}
    else set iv | iv in ivs :: ShortenOne(iv, blockFrom, livePos)
  }

  function ShortenOne(iv: Interval, blockFrom: nat, livePos: nat): Interval {
    if iv.0 == blockFrom then (livePos, iv.1) else iv
  }

  /** The minimum of the starts and the maximum of the ends. */
  method Hull(ivs: seq<Interval>) returns (range: Interval)
    requires ivs != []
    ensures IsHull(ivs, range)
  {
    var min, max := ivs[0].0, ivs[0].1;
    for i := 0 to |ivs|
      invariant forall j :: 0 <= j < i ==> min <= ivs[j].0 && ivs[j].1 <= max
      invariant exists iv :: iv in ivs && iv.0 == min
      invariant exists iv :: iv in ivs && iv.1 == max
    {
      assert ivs[i] in ivs;
      if ivs[i].0 < min {
        min := ivs[i].0;
      }
      if ivs[i].1 > max {
        max := ivs[i].1;
      }
    }
    range := (min, max);
  }

  method ShortenRangeStart(lr: LiveRange, livePos: nat, blockFrom: nat) returns (r: LiveRange)
    requires HullOk(lr)
    ensures HullOk(r) && Intervals(r) == Shortened(Intervals(lr), blockFrom, livePos)
  {
    if lr.intervals == [] {
      assert Intervals(lr) == {};
      r := lr.AddInterval((livePos, livePos));
      return;
    }
    var intervals := lr.intervals;
    var modified := false;
    for i := 0 to |intervals|
      invariant |intervals| == |lr.intervals|
      invariant forall j :: 0 <= j < i ==> intervals[j] == ShortenOne(lr.intervals[j], blockFrom, livePos)
      invariant forall j :: i <= j < |intervals| ==> intervals[j] == lr.intervals[j]
      invariant !modified ==> intervals == lr.intervals
    {
      if intervals[i].0 == blockFrom {
        intervals := intervals[i := (livePos, intervals[i].1)];
        modified := true;
      }
    }
    ShortenedElems(lr.intervals, intervals, blockFrom, livePos);
    r := lr;
    if modified {
      var range := Hull(intervals);
      r := LiveRange(intervals, range, lr.isRangeSet);
    }
  }

  lemma ShortenedElems(before: seq<Interval>, after: seq<Interval>, blockFrom: nat, livePos: nat)
    requires |before| == |after| && before != []
    requires forall j :: 0 <= j < |after| ==> after[j] == ShortenOne(before[j], blockFrom, livePos)
    ensures Elems(after) == Shortened(Elems(before), blockFrom, livePos)
  {
    assert before[0] in Elems(before);
    forall iv | iv in Elems(before) ensures ShortenOne(iv, blockFrom, livePos) in Elems(after) {
      var j := FirstIndex(before, iv);
      assert after[j] in after;
    }
  }
}
