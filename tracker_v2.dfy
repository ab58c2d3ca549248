/// The two-tier face tracker of v2/main.cpp (`detectAndDraw`). A detection that
/// overlaps no stored face and passes the distance gate starts a "verifying"
/// entry; a verifying entry matched more than 2 s after it started moves to the
/// "tracking" tier; an unmatched entry is dropped after its grace period, and
/// every tracking entry dropped is counted in `numberOfFaces`.
///
/// The state is kept, as in the source, in eight global parallel vectors plus
/// the index list `faces_IndexDel` and the counter; class `FaceTracker` holds
/// them as fields. The functions above the class describe one frame on values
/// (`Frame`), and the class's methods are proved to compute exactly that.
module FaceTrackerV2 {
  import opened Geometry
  import opened DistanceGate
  import opened Vectors

  /** Seconds an entry must have existed before it is promoted or may be dropped. */
  const PROMOTION_DWELL: int := 2
  /** Unmatched seconds after which a stale verifying entry is dropped. */
  const VERIFYING_GRACE: real := 0.5
  /** Unmatched seconds after which a stale tracking entry is dropped and counted. */
  const TRACKING_GRACE: int := 2

  /** One tier's four parallel vectors, as a value: region, matched-this-frame
      flag, start time and last-seen time (whole seconds). */
  datatype Tier = Tier(rects: seq<Rect>, exist: seq<bool>, startTime: seq<int>, lastSeen: seq<int>)
  {
    predicate Parallel()
    {
      |exist| == |rects| && |startTime| == |rects| && |lastSeen| == |rects|
    }

    /** Every entry was last seen no earlier than it started. */
    predicate Ordered()
      requires Parallel()
    {
      forall i :: 0 <= i < |rects| ==> startTime[i] <= lastSeen[i]
    }

    /** No entry was last seen after `now`. */
    predicate NotAfter(now: int)
      requires Parallel()
    {
      forall i :: 0 <= i < |rects| ==> lastSeen[i] <= now
    }

    /** The tier with every position flagged in `drop` erased from all four vectors. */
    function Remove(drop: seq<bool>): (r: Tier)
      requires Parallel() && |drop| == |rects|
      ensures r.Parallel() && |r.rects| == |rects| - CountTrue(drop)
    {
      WithoutLength(rects, drop);
      WithoutLength(exist, drop);
      WithoutLength(startTime, drop);
      WithoutLength(lastSeen, drop);
      Tier(Without(rects, drop), Without(exist, drop), Without(startTime, drop), Without(lastSeen, drop))
    }

    /** `vector::erase` at position `k` applied to all four vectors. */
    function EraseIndex(k: int): (r: Tier)
      requires Parallel() && 0 <= k < |rects|
      ensures r.Parallel() && |r.rects| == |rects| - 1
    {
      Tier(Vectors.EraseAt(rects, k), Vectors.EraseAt(exist, k), Vectors.EraseAt(startTime, k), Vectors.EraseAt(lastSeen, k))
    }

    /** `more` pushed back onto all four vectors. */
    function Append(more: Tier): Tier
    {
      Tier(rects + more.rects, exist + more.exist, startTime + more.startTime, lastSeen + more.lastSeen)
    }
  }

  const EMPTY_TIER := Tier([], [], [], [])

  /** Both tiers and the counter of faces that have left the tracking tier. */
  datatype Snapshot = Snapshot(verifying: Tier, tracking: Tier, numberOfFaces: int)
  {
    predicate WellFormed()
    {
      && verifying.Parallel() && tracking.Parallel()
      && verifying.Ordered() && tracking.Ordered()
      && 0 <= numberOfFaces
    }

    predicate NotAfter(now: int)
      requires verifying.Parallel() && tracking.Parallel()
    {
      verifying.NotAfter(now) && tracking.NotAfter(now)
    }
  }

  /** Whether a stored entry counts as detected this frame. Because the `break`
      that ends the scan over the detections sits outside the overlap test
      (v2/main.cpp:422 and :471), only the first detection is ever compared. */
  predicate Seen(faces: seq<Rect>, r: Rect)
  {
    0 < |faces| && Overlaps(faces[0], r)
  }

  /** Some rectangle of `rs` overlaps `f`. */
  predicate OverlapsAny(f: Rect, rs: seq<Rect>)
  {
    exists j :: 0 <= j < |rs| && Overlaps(f, rs[j])
  }

  /** The region of a stored entry after this frame's comparison: a matched
      entry takes the first detection's region. */
  function RefreshedRect(faces: seq<Rect>, r: Rect): Rect
  {
    if Seen(faces, r) then faces[0] else r
  }

  /** The last-seen time of a stored entry after this frame's comparison. */
  function RefreshedLastSeen(faces: seq<Rect>, r: Rect, lastSeen: int, now: int): int
  {
    if Seen(faces, r) then now else lastSeen
  }

  /** A verifying entry moves to tracking: matched, and started more than 2 s ago. */
  predicate Promoted(faces: seq<Rect>, r: Rect, startTime: int, now: int)
  {
    Seen(faces, r) && now - startTime > PROMOTION_DWELL
  }

  /** A verifying entry leaves its tier: promoted, or unmatched, started more
      than 2 s ago and last seen more than 0.5 s ago. */
  predicate LeavesVerifying(faces: seq<Rect>, r: Rect, startTime: int, lastSeen: int, now: int)
  {
    if Seen(faces, r) then now - startTime > PROMOTION_DWELL
    else now - startTime > PROMOTION_DWELL && (now - lastSeen) as real > VERIFYING_GRACE
  }

  /** A tracking entry leaves its tier (and is counted): unmatched, started
      more than 2 s ago and last seen more than 2 s ago. */
  predicate LeavesTracking(faces: seq<Rect>, r: Rect, startTime: int, lastSeen: int, now: int)
  {
    !Seen(faces, r) && now - startTime > PROMOTION_DWELL && now - lastSeen > TRACKING_GRACE
  }

  /** A tier after the per-entry pass, before anything is erased: every exist
      flag says whether the entry was matched, and matched entries are refreshed. */
  function Refresh(t: Tier, faces: seq<Rect>, now: int): (r: Tier)
    requires t.Parallel()
    ensures r.Parallel() && |r.rects| == |t.rects|
  {
    var n := |t.rects|;
    Tier(seq(n, i requires 0 <= i < n => RefreshedRect(faces, t.rects[i])),
         seq(n, i requires 0 <= i < n => Seen(faces, t.rects[i])),
         t.startTime,
         seq(n, i requires 0 <= i < n => RefreshedLastSeen(faces, t.rects[i], t.lastSeen[i], now)))
  }

  function PromoteFlags(t: Tier, faces: seq<Rect>, now: int): (r: seq<bool>)
    requires t.Parallel()
    ensures |r| == |t.rects|
  {
    seq(|t.rects|, i requires 0 <= i < |t.rects| => Promoted(faces, t.rects[i], t.startTime[i], now))
  }

  function VerifyingDrops(t: Tier, faces: seq<Rect>, now: int): (r: seq<bool>)
    requires t.Parallel()
    ensures |r| == |t.rects|
  {
    seq(|t.rects|, i requires 0 <= i < |t.rects| =>
      LeavesVerifying(faces, t.rects[i], t.startTime[i], t.lastSeen[i], now))
  }

  function TrackingDrops(t: Tier, faces: seq<Rect>, now: int): (r: seq<bool>)
    requires t.Parallel()
    ensures |r| == |t.rects|
  {
    seq(|t.rects|, i requires 0 <= i < |t.rects| =>
      LeavesTracking(faces, t.rects[i], t.startTime[i], t.lastSeen[i], now))
  }

  /** The entries pushed onto the tracking tier by the verifying pass, in order:
      the refreshed region, present, started and last seen `now`. */
  function Promotions(t: Tier, faces: seq<Rect>, now: int): (r: Tier)
    requires t.Parallel()
    ensures r.Parallel() && |r.rects| == CountTrue(PromoteFlags(t, faces, now))
  {
    var promote := PromoteFlags(t, faces, now);
    var k := CountTrue(promote);
    SelectAt(Refresh(t, faces, now).rects, promote);
    Tier(Select(Refresh(t, faces, now).rects, promote), Repeat(true, k), Repeat(now, k), Repeat(now, k))
  }

  /** A one-entry tier: region `r`, present, started and last seen `now`. */
  function NewEntry(r: Rect, now: int): (e: Tier)
    ensures e.Parallel() && |e.rects| == 1
    ensures e.Ordered() && e.NotAfter(now)
  {
    Tier([r], [true], [now], [now])
  }

  /** The promotions made by the first `i` verifying entries, pushed one at a time. */
  function PromotedUpTo(t: Tier, faces: seq<Rect>, now: int, i: nat): Tier
    requires t.Parallel() && i <= |t.rects|
  {
    if i == 0 then EMPTY_TIER
    else
      var r := t.rects[i - 1];
      PromotedUpTo(t, faces, now, i - 1).Append(
        if Promoted(faces, r, t.startTime[i - 1], now) then NewEntry(RefreshedRect(faces, r), now) else EMPTY_TIER)
  }

  lemma AppendAssociative(a: Tier, b: Tier, c: Tier)
    ensures a.Append(b).Append(c) == a.Append(b.Append(c))
  {
    assert (a.rects + b.rects) + c.rects == a.rects + (b.rects + c.rects);
    assert (a.exist + b.exist) + c.exist == a.exist + (b.exist + c.exist);
    assert (a.startTime + b.startTime) + c.startTime == a.startTime + (b.startTime + c.startTime);
    assert (a.lastSeen + b.lastSeen) + c.lastSeen == a.lastSeen + (b.lastSeen + c.lastSeen);
  }

  /** Pushing promotions one at a time yields the selection of the promoted,
      refreshed regions, each present, started and last seen `now`. */
  lemma {:induction false} PromotedUpToSelects(t: Tier, faces: seq<Rect>, now: int, i: nat)
    requires t.Parallel() && i <= |t.rects|
    ensures var promote := PromoteFlags(t, faces, now);
            var k := CountTrue(promote[..i]);
            PromotedUpTo(t, faces, now, i)
              == Tier(Select(Refresh(t, faces, now).rects[..i], promote[..i]), Repeat(true, k), Repeat(now, k), Repeat(now, k))
  {
    var promote := PromoteFlags(t, faces, now);
    var m := Refresh(t, faces, now);
    if i == 0 {
      assert m.rects[..0] == [] && promote[..0] == [];
    } else {
      PromotedUpToSelects(t, faces, now, i - 1);
      PrefixStep(m.rects, promote, i - 1);
      var k := CountTrue(promote[..i - 1]);
      assert promote[i - 1] == Promoted(faces, t.rects[i - 1], t.startTime[i - 1], now);
      assert m.rects[i - 1] == RefreshedRect(faces, t.rects[i - 1]);
      if promote[i - 1] {
        assert Repeat(true, k + 1) == Repeat(true, k) + [true];
        assert Repeat(now, k + 1) == Repeat(now, k) + [now];
      }
    }
  }

  /** The verifying pass (v2/main.cpp:390-446). */
  function VerifyingPass(s: Snapshot, faces: seq<Rect>, now: int): (r: Snapshot)
    requires s.verifying.Parallel() && s.tracking.Parallel()
    ensures r.verifying.Parallel() && r.tracking.Parallel()
  {
    var v := s.verifying;
    Snapshot(Refresh(v, faces, now).Remove(VerifyingDrops(v, faces, now)),
             s.tracking.Append(Promotions(v, faces, now)),
             s.numberOfFaces)
  }

  /** The tracking pass (v2/main.cpp:450-496), run on the tier that already
      holds this frame's promotions. */
  function TrackingPass(s: Snapshot, faces: seq<Rect>, now: int): (r: Snapshot)
    requires s.verifying.Parallel() && s.tracking.Parallel()
    ensures r.verifying.Parallel() && r.tracking.Parallel()
  {
    var drop := TrackingDrops(s.tracking, faces, now);
    Snapshot(s.verifying,
             Refresh(s.tracking, faces, now).Remove(drop),
             s.numberOfFaces + CountTrue(drop))
  }

  /** The admission pass (v2/main.cpp:502-555) over the first `i` detections:
      each one that overlaps no verifying entry (including those admitted
      earlier in this frame) and no tracking entry, and passes the distance
      gate, is pushed onto the verifying tier. */
  function AdmitUpTo(s: Snapshot, faces: seq<Rect>, grid: seq<seq<int>>, minDist: int, maxDist: int,
                     now: int, i: nat): (r: Snapshot)
    requires s.verifying.Parallel() && i <= |faces|
    requires IsDistanceGrid(grid) && AllCentresInGrid(faces)
    ensures r.verifying.Parallel() && r.tracking == s.tracking && r.numberOfFaces == s.numberOfFaces
    ensures |s.verifying.rects| <= |r.verifying.rects|
    decreases i
  {
    if i == 0 then s
    else
      var before := AdmitUpTo(s, faces, grid, minDist, maxDist, now, i - 1);
      var f := faces[i - 1];
      if !OverlapsAny(f, before.verifying.rects) && !OverlapsAny(f, before.tracking.rects)
         && Admissible(grid, f, minDist, maxDist)
      then before.(verifying := before.verifying.Append(NewEntry(f, now)))
      else before
  }

  /** One call of `detectAndDraw` on the tracking state. */
  function Frame(s: Snapshot, faces: seq<Rect>, grid: seq<seq<int>>, minDist: int, maxDist: int, now: int): Snapshot
    requires s.verifying.Parallel() && s.tracking.Parallel()
    requires IsDistanceGrid(grid) && AllCentresInGrid(faces)
  {
    var afterTracking := TrackingPass(VerifyingPass(s, faces, now), faces, now);
    AdmitUpTo(afterTracking, faces, grid, minDist, maxDist, now, |faces|)
  }

  /** One step of the back-to-front erase loop, on all four vectors of a tier. */
  lemma TierEraseStep(t: Tier, drop: seq<bool>, k: int, b: int)
    requires t.Parallel() && |drop| == |t.rects| && 0 <= k < b <= |t.rects|
    requires drop[k] && forall j :: k < j < b ==> !drop[j]
    ensures k < |t.Remove(DropFrom(drop, b)).rects|
    ensures t.Remove(DropFrom(drop, b)).EraseIndex(k) == t.Remove(DropFrom(drop, k))
  {
    EraseFlaggedStep(t.rects, drop, k, b);
    EraseFlaggedStep(t.exist, drop, k, b);
    EraseFlaggedStep(t.startTime, drop, k, b);
    EraseFlaggedStep(t.lastSeen, drop, k, b);
  }

  /** The erase loop's first and last bounds, on all four vectors of a tier. */
  lemma TierEraseBounds(t: Tier, drop: seq<bool>)
    requires t.Parallel() && |drop| == |t.rects|
    ensures t.Remove(DropFrom(drop, |t.rects|)) == t
    ensures var first := if Flagged(drop) == [] then |t.rects| else Flagged(drop)[0];
            t.Remove(DropFrom(drop, first)) == t.Remove(drop)
  {
    EraseFlaggedBounds(t.rects, drop);
    EraseFlaggedBounds(t.exist, drop);
    EraseFlaggedBounds(t.startTime, drop);
    EraseFlaggedBounds(t.lastSeen, drop);
  }

  // ---------------------------------------------------------------------------
  // Properties of one frame

  /** Erasing positions keeps the start/last-seen order of the survivors and
      their bound by `now`. */
  lemma RemoveKeepsTimes(t: Tier, drop: seq<bool>, now: int)
    requires t.Parallel() && |drop| == |t.rects| && t.Ordered() && t.NotAfter(now)
    ensures t.Remove(drop).Ordered() && t.Remove(drop).NotAfter(now)
  {
    var keep := Negate(drop);
    SelectAt(t.startTime, keep);
    SelectAt(t.lastSeen, keep);
  }

  /** A frame keeps both tiers parallel and their times ordered and not after
      `now`, and never lowers the counter. */
  lemma FrameKeepsInvariant(s: Snapshot, faces: seq<Rect>, grid: seq<seq<int>>, minDist: int, maxDist: int, now: int)
    requires s.WellFormed() && s.NotAfter(now)
    requires IsDistanceGrid(grid) && AllCentresInGrid(faces)
    ensures var r := Frame(s, faces, grid, minDist, maxDist, now);
            r.WellFormed() && r.NotAfter(now) && s.numberOfFaces <= r.numberOfFaces
  {
    var v := s.verifying;
    var m := Refresh(v, faces, now);
    RemoveKeepsTimes(m, VerifyingDrops(v, faces, now), now);
    var s1 := VerifyingPass(s, faces, now);
    assert s1.tracking.Ordered() && s1.tracking.NotAfter(now);
    var mt := Refresh(s1.tracking, faces, now);
    RemoveKeepsTimes(mt, TrackingDrops(s1.tracking, faces, now), now);
    var s2 := TrackingPass(s1, faces, now);
    AdmitKeepsTimes(s2, faces, grid, minDist, maxDist, now, |faces|);
  }

  lemma {:induction false} AdmitKeepsTimes(s: Snapshot, faces: seq<Rect>, grid: seq<seq<int>>, minDist: int, maxDist: int,
                                           now: int, i: nat)
    requires s.verifying.Parallel() && i <= |faces|
    requires IsDistanceGrid(grid) && AllCentresInGrid(faces)
    requires s.verifying.Ordered() && s.verifying.NotAfter(now)
    ensures var r := AdmitUpTo(s, faces, grid, minDist, maxDist, now, i);
            r.verifying.Ordered() && r.verifying.NotAfter(now)
  {
    if i > 0 {
      AdmitKeepsTimes(s, faces, grid, minDist, maxDist, now, i - 1);
    }
  }

  /** The counter grows by exactly the number of tracking entries that left the
      tier this frame. */
  lemma FrameCountsDepartures(s: Snapshot, faces: seq<Rect>, grid: seq<seq<int>>, minDist: int, maxDist: int, now: int)
    requires s.verifying.Parallel() && s.tracking.Parallel()
    requires IsDistanceGrid(grid) && AllCentresInGrid(faces)
    ensures var mid := VerifyingPass(s, faces, now).tracking;
            var r := Frame(s, faces, grid, minDist, maxDist, now);
            r.numberOfFaces - s.numberOfFaces == |mid.rects| - |r.tracking.rects| >= 0
  {
  }

  /** Entries promoted in a frame go through that frame's tracking pass, and
      none of them is dropped by it: each started at `now`. */
  lemma PromotedSurviveTrackingPass(s: Snapshot, faces: seq<Rect>, now: int)
    requires s.verifying.Parallel() && s.tracking.Parallel()
    ensures var mid := VerifyingPass(s, faces, now).tracking;
            var drop := TrackingDrops(mid, faces, now);
            forall p :: |s.tracking.rects| <= p < |mid.rects| ==> !drop[p]
  {
  }

  /** The admission pass only appends: entries already stored are untouched. */
  lemma {:induction false} AdmitKeepsStored(s: Snapshot, faces: seq<Rect>, grid: seq<seq<int>>, minDist: int, maxDist: int,
                                            now: int, i: nat)
    requires s.verifying.Parallel() && i <= |faces|
    requires IsDistanceGrid(grid) && AllCentresInGrid(faces)
    ensures var v := AdmitUpTo(s, faces, grid, minDist, maxDist, now, i).verifying;
            var n := |s.verifying.rects|;
            && v.rects[..n] == s.verifying.rects && v.exist[..n] == s.verifying.exist
            && v.startTime[..n] == s.verifying.startTime && v.lastSeen[..n] == s.verifying.lastSeen
  {
    if i > 0 {
      AdmitKeepsStored(s, faces, grid, minDist, maxDist, now, i - 1);
    }
  }

  /** `f` is one of `faces`, its centre lookup is in the grid and it passes the gate. */
  predicate GatedDetection(grid: seq<seq<int>>, f: Rect, faces: seq<Rect>, minDist: int, maxDist: int)
    requires IsDistanceGrid(grid)
  {
    f in faces && CentreInGrid(f) && Admissible(grid, f, minDist, maxDist)
  }

  /** Every entry of `v` from position `from` on is one of `faces`, passed the
      distance gate, and is present, started and last seen at `now`. */
  predicate AllGated(v: Tier, from: int, faces: seq<Rect>, grid: seq<seq<int>>, minDist: int, maxDist: int, now: int)
    requires v.Parallel() && IsDistanceGrid(grid)
  {
    forall p :: 0 <= from <= p < |v.rects| ==>
      GatedDetection(grid, v.rects[p], faces, minDist, maxDist)
      && v.exist[p] && v.startTime[p] == now && v.lastSeen[p] == now
  }

  /** Every entry of `v` from position `from` on overlaps no region of
      `tracking` and no earlier entry of `v`. */
  predicate AllApart(v: Tier, from: int, tracking: seq<Rect>)
  {
    forall p :: 0 <= from <= p < |v.rects| ==>
      !OverlapsAny(v.rects[p], tracking) && !OverlapsAny(v.rects[p], v.rects[..p])
  }

  /** Every entry admitted this frame is a detection of this frame that passed
      the distance gate, and it is present, started and last seen at `now`. */
  lemma {:induction false} AdmittedAreGated(s: Snapshot, faces: seq<Rect>, grid: seq<seq<int>>, minDist: int, maxDist: int,
                                            now: int, i: nat)
    requires s.verifying.Parallel() && i <= |faces|
    requires IsDistanceGrid(grid) && AllCentresInGrid(faces)
    ensures AllGated(AdmitUpTo(s, faces, grid, minDist, maxDist, now, i).verifying, |s.verifying.rects|,
                     faces[..i], grid, minDist, maxDist, now)
  {
    if i > 0 {
      AdmittedAreGated(s, faces, grid, minDist, maxDist, now, i - 1);
      var before := AdmitUpTo(s, faces, grid, minDist, maxDist, now, i - 1).verifying;
      var v := AdmitUpTo(s, faces, grid, minDist, maxDist, now, i).verifying;
      var f := faces[i - 1];
      forall p | 0 <= |s.verifying.rects| <= p < |v.rects|
        ensures GatedDetection(grid, v.rects[p], faces[..i], minDist, maxDist)
        ensures v.exist[p] && v.startTime[p] == now && v.lastSeen[p] == now
      {
        if p < |before.rects| {
          assert v.rects[p] == before.rects[p] && v.exist[p] == before.exist[p];
          assert v.startTime[p] == before.startTime[p] && v.lastSeen[p] == before.lastSeen[p];
          assert GatedDetection(grid, before.rects[p], faces[..i - 1], minDist, maxDist);
          assert faces[..i - 1] <= faces[..i];
        } else {
          assert v != before;
          assert v == before.Append(NewEntry(f, now)) && v.rects[p] == f;
          assert faces[..i][i - 1] == f;
        }
      }
    }
  }

  /** Every entry admitted this frame overlaps no tracking entry and no
      verifying entry present when it was admitted, including entries
      admitted earlier in the same frame. */
  lemma {:induction false} AdmittedOverlapNothing(s: Snapshot, faces: seq<Rect>, grid: seq<seq<int>>, minDist: int, maxDist: int,
                                                  now: int, i: nat)
    requires s.verifying.Parallel() && i <= |faces|
    requires IsDistanceGrid(grid) && AllCentresInGrid(faces)
    ensures AllApart(AdmitUpTo(s, faces, grid, minDist, maxDist, now, i).verifying, |s.verifying.rects|, s.tracking.rects)
  {
    if i > 0 {
      AdmittedOverlapNothing(s, faces, grid, minDist, maxDist, now, i - 1);
      var prev := AdmitUpTo(s, faces, grid, minDist, maxDist, now, i - 1);
      var before := prev.verifying;
      var v := AdmitUpTo(s, faces, grid, minDist, maxDist, now, i).verifying;
      forall p | 0 <= |s.verifying.rects| <= p < |v.rects|
        ensures !OverlapsAny(v.rects[p], s.tracking.rects) && !OverlapsAny(v.rects[p], v.rects[..p])
      {
        if p < |before.rects| {
          assert v.rects[..p] == before.rects[..p] && v.rects[p] == before.rects[p];
        } else {
          assert v != before;
          assert v == before.Append(NewEntry(faces[i - 1], now));
          assert v.rects[..p] == before.rects && v.rects[p] == faces[i - 1];
        }
      }
    }
  }

  /** As written, the passes over the stored entries never look past the first
      detection: dropping every later detection changes neither pass. */
  lemma PassesSeeOnlyFirstDetection(s: Snapshot, faces: seq<Rect>, now: int)
    requires s.verifying.Parallel() && s.tracking.Parallel() && 0 < |faces|
    ensures VerifyingPass(s, faces, now) == VerifyingPass(s, faces[..1], now)
    ensures TrackingPass(s, faces, now) == TrackingPass(s, faces[..1], now)
  {
    assert forall r :: Seen(faces, r) == Seen(faces[..1], r);
    assert Refresh(s.verifying, faces, now) == Refresh(s.verifying, faces[..1], now);
    assert VerifyingDrops(s.verifying, faces, now) == VerifyingDrops(s.verifying, faces[..1], now);
    assert PromoteFlags(s.verifying, faces, now) == PromoteFlags(s.verifying, faces[..1], now);
    assert Refresh(s.tracking, faces, now) == Refresh(s.tracking, faces[..1], now);
    assert TrackingDrops(s.tracking, faces, now) == TrackingDrops(s.tracking, faces[..1], now);
  }

  /** An entry that the first detection misses is not matched, whichever later
      detection `j` overlaps it. */
  lemma LaterOverlapIgnored(entry: Rect, faces: seq<Rect>, j: int)
    requires 1 <= j < |faces| && !Overlaps(faces[0], entry) && Overlaps(entry, faces[j])
    ensures !Seen(faces, entry) && OverlapsAny(entry, faces)
  {
  }

  /** A concrete instance: the entry overlaps the second detection only. */
  lemma LaterOverlapExample()
    ensures var entry := Rect(100, 100, 40, 40);
            var faces := [Rect(0, 0, 30, 30), Rect(110, 110, 30, 30)];
            !Seen(faces, entry) && OverlapsAny(entry, faces)
  {
    var entry := Rect(100, 100, 40, 40);
    var faces := [Rect(0, 0, 30, 30), Rect(110, 110, 30, 30)];
    assert Overlaps(entry, faces[1]);
  }

  /** A frame without detections on empty tiers changes nothing. */
  lemma EmptyFrameIsNoOp(count: int, grid: seq<seq<int>>, minDist: int, maxDist: int, now: int)
    requires IsDistanceGrid(grid)
    ensures var s := Snapshot(EMPTY_TIER, EMPTY_TIER, count);
            Frame(s, [], grid, minDist, maxDist, now) == s
  {
    var s := Snapshot(EMPTY_TIER, EMPTY_TIER, count);
    assert Without<Rect>([], []) == [];
    assert Refresh(EMPTY_TIER, [], now) == EMPTY_TIER;
  }

  // ---------------------------------------------------------------------------
  // The scan inside the admission pass

  /** The inner loops of v2/main.cpp:507-520 and 524-535: scan the stored
      regions and stop at the first that overlaps the detection. */
  method OverlapsSome(f: Rect, rs: seq<Rect>) returns (hit: bool)
    ensures hit == OverlapsAny(f, rs)
  {
    hit := false;
    var j := 0;
    while j < |rs|
      invariant 0 <= j <= |rs|
      invariant !hit && forall k :: 0 <= k < j ==> !Overlaps(f, rs[k])
    {
      if Overlaps(f, rs[j]) {
        hit := true;
        break;
      }
      j := j + 1;
    }
  }

  // ---------------------------------------------------------------------------
  // The marking loops of the two passes, on the tier values

  /** The loop state of a marking pass after `i` entries: the first `i`
      entries refreshed, the rest as they were (their exist flags not yet reset). */
  predicate RefreshedUpTo(t: Tier, faces: seq<Rect>, now: int, rects: seq<Rect>, exist: seq<bool>, lastSeen: seq<int>, i: int)
    requires t.Parallel()
  {
    && |rects| == |t.rects| && |exist| == |t.rects| && |lastSeen| == |t.rects| && 0 <= i <= |t.rects|
    && (forall j :: 0 <= j < i ==> rects[j] == RefreshedRect(faces, t.rects[j]))
    && (forall j :: 0 <= j < i ==> exist[j] == Seen(faces, t.rects[j]))
    && (forall j :: 0 <= j < i ==> lastSeen[j] == RefreshedLastSeen(faces, t.rects[j], t.lastSeen[j], now))
    && (forall j :: i <= j < |t.rects| ==> rects[j] == t.rects[j] && lastSeen[j] == t.lastSeen[j])
  }

  /** Marking entry `i` extends the refreshed prefix by one. */
  lemma RefreshedStep(t: Tier, faces: seq<Rect>, now: int, rects: seq<Rect>, exist: seq<bool>, lastSeen: seq<int>, i: int)
    requires t.Parallel() && RefreshedUpTo(t, faces, now, rects, exist, lastSeen, i) && i < |t.rects|
    ensures rects[i] == t.rects[i] && lastSeen[i] == t.lastSeen[i]
    ensures RefreshedUpTo(t, faces, now, rects[i := RefreshedRect(faces, t.rects[i])], exist[i := Seen(faces, t.rects[i])],
                          lastSeen[i := RefreshedLastSeen(faces, t.rects[i], t.lastSeen[i], now)], i + 1)
  {
  }

  /** Once every entry is marked, the vectors are the refreshed tier. */
  lemma RefreshedAll(t: Tier, faces: seq<Rect>, now: int, rects: seq<Rect>, exist: seq<bool>, lastSeen: seq<int>)
    requires t.Parallel() && RefreshedUpTo(t, faces, now, rects, exist, lastSeen, |t.rects|)
    ensures Tier(rects, exist, t.startTime, lastSeen) == Refresh(t, faces, now)
  {
  }

  /** The positions listed for erasure by the first `i` verifying entries. */
  function VerifyingLeaversUpTo(v: Tier, faces: seq<Rect>, now: int, i: nat): seq<int>
    requires v.Parallel() && i <= |v.rects|
  {
    if i == 0 then []
    else
      VerifyingLeaversUpTo(v, faces, now, i - 1)
        + (if LeavesVerifying(faces, v.rects[i - 1], v.startTime[i - 1], v.lastSeen[i - 1], now) then [i - 1] else [])
  }

  /** Listing the leaving entries one at a time lists the flagged positions. */
  lemma {:induction false} VerifyingLeaversFlagged(v: Tier, faces: seq<Rect>, now: int, i: nat)
    requires v.Parallel() && i <= |v.rects|
    ensures VerifyingLeaversUpTo(v, faces, now, i) == Flagged(VerifyingDrops(v, faces, now)[..i])
  {
    var drop := VerifyingDrops(v, faces, now);
    if i == 0 {
      assert drop[..0] == [];
    } else {
      VerifyingLeaversFlagged(v, faces, now, i - 1);
      PrefixStep(drop, drop, i - 1);
      assert drop[i - 1] == LeavesVerifying(faces, v.rects[i - 1], v.startTime[i - 1], v.lastSeen[i - 1], now);
    }
  }

  /** The positions listed for erasure by the first `i` tracking entries. */
  function TrackingLeaversUpTo(t: Tier, faces: seq<Rect>, now: int, i: nat): seq<int>
    requires t.Parallel() && i <= |t.rects|
  {
    if i == 0 then []
    else
      TrackingLeaversUpTo(t, faces, now, i - 1)
        + (if LeavesTracking(faces, t.rects[i - 1], t.startTime[i - 1], t.lastSeen[i - 1], now) then [i - 1] else [])
  }

  /** Listing the leaving tracking entries one at a time lists the flagged positions. */
  lemma {:induction false} TrackingLeaversFlagged(t: Tier, faces: seq<Rect>, now: int, i: nat)
    requires t.Parallel() && i <= |t.rects|
    ensures TrackingLeaversUpTo(t, faces, now, i) == Flagged(TrackingDrops(t, faces, now)[..i])
  {
    var drop := TrackingDrops(t, faces, now);
    if i == 0 {
      assert drop[..0] == [];
    } else {
      TrackingLeaversFlagged(t, faces, now, i - 1);
      PrefixStep(drop, drop, i - 1);
      assert drop[i - 1] == LeavesTracking(faces, t.rects[i - 1], t.startTime[i - 1], t.lastSeen[i - 1], now);
    }
  }

  /** Marking verifying entry `i` pushes its promotion, if any, after those
      of the entries before it. */
  lemma PromotedStep(v: Tier, t: Tier, faces: seq<Rect>, now: int, i: nat)
    requires v.Parallel() && i < |v.rects|
    ensures t.Append(PromotedUpTo(v, faces, now, i + 1))
            == if Promoted(faces, v.rects[i], v.startTime[i], now)
               then t.Append(PromotedUpTo(v, faces, now, i)).Append(NewEntry(RefreshedRect(faces, v.rects[i]), now))
               else t.Append(PromotedUpTo(v, faces, now, i))
  {
    var before := PromotedUpTo(v, faces, now, i);
    if Promoted(faces, v.rects[i], v.startTime[i], now) {
      AppendAssociative(t, before, NewEntry(RefreshedRect(faces, v.rects[i]), now));
    } else {
      assert before.Append(EMPTY_TIER) == before;
    }
  }

  /** Pushing every verifying entry's promotion in turn yields `Promotions`. */
  lemma PromotedUpToAll(v: Tier, faces: seq<Rect>, now: int)
    requires v.Parallel()
    ensures PromotedUpTo(v, faces, now, |v.rects|) == Promotions(v, faces, now)
  {
    var n := |v.rects|;
    PromotedUpToSelects(v, faces, now, n);
    assert PromoteFlags(v, faces, now)[..n] == PromoteFlags(v, faces, now);
    assert Refresh(v, faces, now).rects[..n] == Refresh(v, faces, now).rects;
  }

  /** The body of the loop of v2/main.cpp:390-435 for one verifying entry:
      its refreshed region, exist flag and last-seen time, whether it is
      pushed onto tracking and whether its position is listed for erasure. */
  method MarkVerifyingEntry(faces: seq<Rect>, r: Rect, startTime: int, lastSeen: int, now: int)
    returns (r': Rect, exist: bool, lastSeen': int, promote: bool, leave: bool)
    ensures r' == RefreshedRect(faces, r) && exist == Seen(faces, r)
    ensures lastSeen' == RefreshedLastSeen(faces, r, lastSeen, now)
    ensures promote == Promoted(faces, r, startTime, now)
    ensures leave == LeavesVerifying(faces, r, startTime, lastSeen, now)
    ensures promote ==> leave
  {
    r', lastSeen' := r, lastSeen;
    promote, leave := false, false;
    exist := false;
    // The scan over the detections: its `break` sits outside the overlap test,
    // so it ends after faces[0] whatever the outcome.
    for j := 0 to |faces|
      invariant j == 0
      invariant r' == r && lastSeen' == lastSeen && !exist && !promote && !leave
    {
      if Overlaps(faces[j], r) {
        exist := true;
        r' := faces[j];
        lastSeen' := now;
        if now - startTime > PROMOTION_DWELL {
          promote, leave := true, true;
        }
      }
      break;
    }
    if !exist {
      if now - startTime > PROMOTION_DWELL && (now - lastSeen') as real > VERIFYING_GRACE {
        leave := true;
      }
    }
  }

  /** v2/main.cpp:390-435 on the two tiers: mark each verifying entry, refresh
      the matched ones, push the promoted ones onto the tracking tier and list
      the positions to erase. */
  method MarkVerifyingTier(v: Tier, t: Tier, faces: seq<Rect>, now: int) returns (v': Tier, t': Tier, del: seq<int>)
    requires v.Parallel() && t.Parallel()
    ensures v' == Refresh(v, faces, now)
    ensures t' == t.Append(Promotions(v, faces, now))
    ensures del == Flagged(VerifyingDrops(v, faces, now))
  {
    var rects, exist, lastSeen := v.rects, v.exist, v.lastSeen;
    t' := t;
    del := [];
    var n := |exist|;
    var i := 0;
    while i < n
      invariant RefreshedUpTo(v, faces, now, rects, exist, lastSeen, i)
      invariant del == VerifyingLeaversUpTo(v, faces, now, i)
      invariant t' == t.Append(PromotedUpTo(v, faces, now, i))
    {
      RefreshedStep(v, faces, now, rects, exist, lastSeen, i);
      PromotedStep(v, t, faces, now, i);
      var r, seen, last, promote, leave := MarkVerifyingEntry(faces, rects[i], v.startTime[i], lastSeen[i], now);
      rects, exist, lastSeen := rects[i := r], exist[i := seen], lastSeen[i := last];
      if promote {
        t' := t'.Append(NewEntry(r, now));
      }
      if leave {
        del := del + [i];
      }
      i := i + 1;
    }
    VerifyingLeaversFlagged(v, faces, now, n);
    assert VerifyingDrops(v, faces, now)[..n] == VerifyingDrops(v, faces, now);
    PromotedUpToAll(v, faces, now);
    RefreshedAll(v, faces, now, rects, exist, lastSeen);
    v' := Tier(rects, exist, v.startTime, lastSeen);
  }

  /** The body of the loop of v2/main.cpp:450-484 for one tracking entry: its
      refreshed region, exist flag and last-seen time, and whether its position
      is listed for erasure. */
  method MarkTrackingEntry(faces: seq<Rect>, r: Rect, startTime: int, lastSeen: int, now: int)
    returns (r': Rect, exist: bool, lastSeen': int, leave: bool)
    ensures r' == RefreshedRect(faces, r) && exist == Seen(faces, r)
    ensures lastSeen' == RefreshedLastSeen(faces, r, lastSeen, now)
    ensures leave == LeavesTracking(faces, r, startTime, lastSeen, now)
  {
    r', lastSeen' := r, lastSeen;
    leave := false;
    exist := false;
    // The scan over the detections: its `break` sits outside the overlap test,
    // so it ends after faces[0] whatever the outcome.
    for j := 0 to |faces|
      invariant j == 0
      invariant r' == r && lastSeen' == lastSeen && !exist && !leave
    {
      if Overlaps(faces[j], r) {
        exist := true;
        r' := faces[j];
        lastSeen' := now;
      }
      break;
    }
    if !exist {
      if now - startTime > PROMOTION_DWELL && now - lastSeen' > TRACKING_GRACE {
        leave := true;
      }
    }
  }

  /** v2/main.cpp:450-484 on the tracking tier: mark each entry, refresh the
      matched ones and list the positions to erase. */
  method MarkTrackingTier(t: Tier, faces: seq<Rect>, now: int) returns (t': Tier, del: seq<int>)
    requires t.Parallel()
    ensures t' == Refresh(t, faces, now)
    ensures del == Flagged(TrackingDrops(t, faces, now))
  {
    var rects, exist, lastSeen := t.rects, t.exist, t.lastSeen;
    del := [];
    var n := |exist|;
    var i := 0;
    while i < n
      invariant RefreshedUpTo(t, faces, now, rects, exist, lastSeen, i)
      invariant del == TrackingLeaversUpTo(t, faces, now, i)
    {
      RefreshedStep(t, faces, now, rects, exist, lastSeen, i);
      var r, seen, last, leave := MarkTrackingEntry(faces, rects[i], t.startTime[i], lastSeen[i], now);
      rects, exist, lastSeen := rects[i := r], exist[i := seen], lastSeen[i := last];
      if leave {
        del := del + [i];
      }
      i := i + 1;
    }
    TrackingLeaversFlagged(t, faces, now, n);
    assert TrackingDrops(t, faces, now)[..n] == TrackingDrops(t, faces, now);
    RefreshedAll(t, faces, now, rects, exist, lastSeen);
    t' := Tier(rects, exist, t.startTime, lastSeen);
  }

  /** The erase loops of v2/main.cpp:436-446 and 485-496 on one tier: reverse
      the increasing index list and erase each listed position from all four
      vectors, so every erase happens above the positions still to come. */
  method EraseListed(t: Tier, listed: seq<int>, ghost drop: seq<bool>) returns (t': Tier)
    requires t.Parallel() && |drop| == |t.rects| && listed == Flagged(drop)
    ensures t' == t.Remove(drop)
  {
    var n := |t.rects|;
    TierEraseBounds(t, drop);
    var order := Reversed(listed);
    t' := t;
    var i := 0;
    while i < |order|
      invariant 0 <= i <= |order| == |listed| && order == Reversed(listed)
      invariant t' == t.Remove(DropFrom(drop, if i == 0 then n else order[i - 1]))
    {
      var k := order[i];
      ReversedFlaggedStep(drop, i);
      TierEraseStep(t, drop, k, if i == 0 then n else order[i - 1]);
      t' := t'.EraseIndex(k);
      i := i + 1;
    }
  }

  /** The admission loop of v2/main.cpp:502-555: each detection that overlaps
      no verifying and no tracking entry and passes the distance gate is pushed
      onto the verifying tier. */
  method AdmitAll(s: Snapshot, faces: seq<Rect>, grid: seq<seq<int>>, minDist: int, maxDist: int, now: int)
    returns (r: Snapshot)
    requires s.verifying.Parallel() && IsDistanceGrid(grid) && AllCentresInGrid(faces)
    ensures r == AdmitUpTo(s, faces, grid, minDist, maxDist, now, |faces|)
  {
    var v := s.verifying;
    var i := 0;
    while i < |faces|
      invariant 0 <= i <= |faces|
      invariant s.(verifying := v) == AdmitUpTo(s, faces, grid, minDist, maxDist, now, i)
    {
      var faceExist := OverlapsSome(faces[i], v.rects);
      var tracked := OverlapsSome(faces[i], s.tracking.rects);
      faceExist := faceExist || tracked;
      if !faceExist {
        var d := grid[CentreColumn(faces[i])][CentreRow(faces[i])];
        if d > minDist && d < maxDist {
          v := v.Append(NewEntry(faces[i], now));
        }
      }
      i := i + 1;
    }
    r := s.(verifying := v);
  }

  // ---------------------------------------------------------------------------
  // The tracker state, updated in place

  class FaceTracker {
    var verifying: seq<Rect>
    var verifyingExist: seq<bool>
    var verifyingStartTime: seq<int>
    var verifyingLastSeen: seq<int>

    var tracking: seq<Rect>
    var trackingExist: seq<bool>
    var trackingStartTime: seq<int>
    var trackingLastSeen: seq<int>

    /** Positions to erase, collected by a pass (`faces_IndexDel`). */
    var indexDel: seq<int>

    /** Faces that have left the tracking tier. */
    var numberOfFaces: int

    function Verifying(): Tier
      reads this
    {
      Tier(verifying, verifyingExist, verifyingStartTime, verifyingLastSeen)
    }

    function Tracking(): Tier
      reads this
    {
      Tier(tracking, trackingExist, trackingStartTime, trackingLastSeen)
    }

    function State(): Snapshot
      reads this
    {
      Snapshot(Verifying(), Tracking(), numberOfFaces)
    }

    ghost predicate Aligned()
      reads this
    {
      Verifying().Parallel() && Tracking().Parallel()
    }

    /** Between frames: parallel vectors, ordered times, no pending deletions. */
    ghost predicate Valid()
      reads this
    {
      State().WellFormed() && indexDel == []
    }

    /** The globals as the program starts: empty vectors, counter 0. */
    constructor ()
      ensures Valid() && State() == Snapshot(EMPTY_TIER, EMPTY_TIER, 0)
    {
      verifying, verifyingExist, verifyingStartTime, verifyingLastSeen := [], [], [], [];
      tracking, trackingExist, trackingStartTime, trackingLastSeen := [], [], [], [];
      indexDel := [];
      numberOfFaces := 0;
    }

    /** The tracking part of `detectAndDraw` for one frame's detections, the
        distance grid and the current time in whole seconds, which must not be
        earlier than any time already recorded. */
    method ProcessFrame(faces: seq<Rect>, grid: seq<seq<int>>, minDist: int, maxDist: int, now: int)
      requires Valid() && IsDistanceGrid(grid) && AllCentresInGrid(faces)
      requires State().NotAfter(now)
      modifies this
      ensures Valid() && State().NotAfter(now)
      ensures State() == Frame(old(State()), faces, grid, minDist, maxDist, now)
      ensures old(numberOfFaces) <= numberOfFaces
    {
      ghost var s0 := State();
      MarkVerifying(faces, now);
      EraseVerifying(VerifyingDrops(s0.verifying, faces, now));
      assert State() == VerifyingPass(s0, faces, now);
      ghost var s1 := State();
      MarkTracking(faces, now);
      EraseTracking(TrackingDrops(s1.tracking, faces, now));
      assert State() == TrackingPass(s1, faces, now);
      AdmitDetections(faces, grid, minDist, maxDist, now);
      FrameKeepsInvariant(s0, faces, grid, minDist, maxDist, now);
    }

    /** v2/main.cpp:390-435 on the fields. */
    method MarkVerifying(faces: seq<Rect>, now: int)
      requires Aligned() && indexDel == []
      modifies this
      ensures Aligned() && numberOfFaces == old(numberOfFaces)
      ensures Verifying() == Refresh(old(Verifying()), faces, now)
      ensures Tracking() == old(Tracking()).Append(Promotions(old(Verifying()), faces, now))
      ensures indexDel == Flagged(VerifyingDrops(old(Verifying()), faces, now))
    {
      var v, t, del := MarkVerifyingTier(Verifying(), Tracking(), faces, now);
      verifying, verifyingExist, verifyingStartTime, verifyingLastSeen := v.rects, v.exist, v.startTime, v.lastSeen;
      tracking, trackingExist, trackingStartTime, trackingLastSeen := t.rects, t.exist, t.startTime, t.lastSeen;
      indexDel := del;
    }

    /** v2/main.cpp:436-446: reverse the index list and erase each listed
        position from the four verifying vectors. */
    method EraseVerifying(ghost drop: seq<bool>)
      requires Aligned() && |drop| == |verifying| && indexDel == Flagged(drop)
      modifies this
      ensures Aligned() && indexDel == []
      ensures Verifying() == old(Verifying()).Remove(drop)
      ensures Tracking() == old(Tracking()) && numberOfFaces == old(numberOfFaces)
    {
      var v := EraseListed(Verifying(), indexDel, drop);
      verifying, verifyingExist, verifyingStartTime, verifyingLastSeen := v.rects, v.exist, v.startTime, v.lastSeen;
      indexDel := [];
    }

    /** v2/main.cpp:450-484 on the fields. */
    method MarkTracking(faces: seq<Rect>, now: int)
      requires Aligned() && indexDel == []
      modifies this
      ensures Aligned() && numberOfFaces == old(numberOfFaces) && Verifying() == old(Verifying())
      ensures Tracking() == Refresh(old(Tracking()), faces, now)
      ensures indexDel == Flagged(TrackingDrops(old(Tracking()), faces, now))
    {
      var t, del := MarkTrackingTier(Tracking(), faces, now);
      tracking, trackingExist, trackingStartTime, trackingLastSeen := t.rects, t.exist, t.startTime, t.lastSeen;
      indexDel := del;
    }

    /** v2/main.cpp:485-496: reverse the index list, erase each listed position
        from the four tracking vectors and count each erased face. */
    method EraseTracking(ghost drop: seq<bool>)
      requires Aligned() && |drop| == |tracking| && indexDel == Flagged(drop)
      modifies this
      ensures Aligned() && indexDel == []
      ensures Tracking() == old(Tracking()).Remove(drop)
      ensures numberOfFaces == old(numberOfFaces) + CountTrue(drop)
      ensures Verifying() == old(Verifying())
    {
      FlaggedSpec(drop);
      var t := EraseListed(Tracking(), indexDel, drop);
      tracking, trackingExist, trackingStartTime, trackingLastSeen := t.rects, t.exist, t.startTime, t.lastSeen;
      // One face counted per erased position.
      numberOfFaces := numberOfFaces + |indexDel|;
      indexDel := [];
    }

    /** v2/main.cpp:502-555 on the fields. */
    method AdmitDetections(faces: seq<Rect>, grid: seq<seq<int>>, minDist: int, maxDist: int, now: int)
      requires Aligned() && IsDistanceGrid(grid) && AllCentresInGrid(faces)
      modifies this
      ensures Aligned() && indexDel == old(indexDel)
      ensures State() == AdmitUpTo(old(State()), faces, grid, minDist, maxDist, now, |faces|)
    {
      var s := AdmitAll(State(), faces, grid, minDist, maxDist, now);
      verifying, verifyingExist, verifyingStartTime, verifyingLastSeen :=
        s.verifying.rects, s.verifying.exist, s.verifying.startTime, s.verifying.lastSeen;
    }
  }
}
