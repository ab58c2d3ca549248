/// The single-tier presence counter of v1/main.cpp (`detectAndDraw`, lines
/// 364-474). The table of known faces is four parallel vectors (region,
/// matched-this-frame flag, already-triggered flag, time the current run
/// started) that only ever grow; a detection is matched to the first entry of
/// similar size, an entry matched for longer than `timerTrigger` seconds fires
/// the trigger counter once per uninterrupted run, and a separate counter
/// accumulates increases in the number of detections per frame.
///
/// As in the v2 tracker, the functions describe one frame on values (`Frame`),
/// the methods below them compute it with the source's loops, and class
/// `FaceCounter` keeps the globals as fields.
module PresenceCounterV1 {
  import opened Geometry
  import opened DistanceGate
  import opened Vectors

  /** Width and height tolerance of the size-similarity match (v1/main.cpp:433). */
  const SIZE_TOLERANCE := 75

  /** The table's parallel vectors as a value: `objectsDetected`,
      `triggerDetection`, `triggeredFace` and `savedTime` (v1/main.cpp:70-74). */
  datatype Table = Table(objects: seq<Rect>, triggerDetection: seq<bool>, triggeredFace: seq<bool>, savedTime: seq<int>)
  {
    predicate Parallel()
    {
      |triggerDetection| == |objects| && |triggeredFace| == |objects| && |savedTime| == |objects|
    }

    /** A new entry pushed onto every vector: region `r`, both flags false, saved `now`. */
    function Push(r: Rect, now: int): (u: Table)
      requires Parallel()
      ensures u.Parallel() && |u.objects| == |objects| + 1
    {
      Table(objects + [r], triggerDetection + [false], triggeredFace + [false], savedTime + [now])
    }
  }

  const EMPTY_TABLE := Table([], [], [], [])

  /** The table and the three counters `countFace`, `prevCount` and
      `countFaceTriggered` (v1/main.cpp:76-78). */
  datatype Snapshot = Snapshot(table: Table, countFace: int, prevCount: int, countFaceTriggered: int)

  function Abs(a: int): nat
  {
    if a < 0 then -a else a
  }

  /** The similarity test of v1/main.cpp:433: width and height each differ by
      less than 75 pixels. Position plays no part. */
  predicate Similar(a: Rect, r: Rect)
  {
    Abs(a.height - r.height) < SIZE_TOLERANCE && Abs(a.width - r.width) < SIZE_TOLERANCE
  }

  /** `countFace` after a frame with `n` detections (v1/main.cpp:385-389): it
      grows by the increase over the previous frame's count, and never shrinks. */
  function CountFaceAfter(countFace: int, prevCount: int, n: int): (c: int)
    ensures c == countFace + (if n > prevCount then n - prevCount else 0)
    ensures countFace <= c
  {
    var value := prevCount - n;
    if value < 0 then countFace + Abs(prevCount - n) else countFace
  }

  /** The entry a detection matches: the first entry of similar size, or -1. */
  function FirstSimilar(objects: seq<Rect>, r: Rect): (k: int)
    ensures -1 <= k < |objects|
    ensures 0 <= k ==> Similar(objects[k], r)
    ensures forall j :: 0 <= j < |objects| && (k < 0 || j < k) ==> !Similar(objects[j], r)
  {
    if objects == [] then -1
    else if Similar(objects[0], r) then 0
    else
      var k := FirstSimilar(objects[1..], r);
      assert forall j :: 1 <= j < |objects| ==> objects[j] == objects[1..][j - 1];
      if k < 0 then -1 else k + 1
  }

  /** A matched detection fires the trigger: its entry's run has lasted longer
      than `timerTrigger` seconds and has not fired yet (v1/main.cpp:438-443). */
  predicate Fires(t: Table, r: Rect, now: int, timerTrigger: int)
    requires t.Parallel()
  {
    var k := FirstSimilar(t.objects, r);
    0 <= k && now - t.savedTime[k] > timerTrigger && !t.triggeredFace[k]
  }

  /** One gated detection in a later frame (v1/main.cpp:429-460): the matched
      entry takes the detection's region and is marked matched, and marked
      triggered if it fires; with no match the detection becomes a new entry. */
  function MatchDetection(t: Table, r: Rect, now: int, timerTrigger: int): (u: Table)
    requires t.Parallel()
    ensures u.Parallel() && |t.objects| <= |u.objects|
  {
    var k := FirstSimilar(t.objects, r);
    if k < 0 then t.Push(r, now)
    else
      Table(t.objects[k := r], t.triggerDetection[k := true],
            if Fires(t, r, now, timerTrigger) then t.triggeredFace[k := true] else t.triggeredFace,
            t.savedTime)
  }

  /** One pass of the matching loop (v1/main.cpp:425-462): a detection inside
      the distance gate is matched, one outside it is skipped. */
  function MatchStep(before: Snapshot, f: Rect, grid: seq<seq<int>>, minDist: int, maxDist: int,
                     now: int, timerTrigger: int): (r: Snapshot)
    requires before.table.Parallel() && IsDistanceGrid(grid) && CentreInGrid(f)
    ensures r.table.Parallel()
    ensures !Admissible(grid, f, minDist, maxDist) ==> r == before
  {
    if Admissible(grid, f, minDist, maxDist) then
      before.(table := MatchDetection(before.table, f, now, timerTrigger),
              countFaceTriggered := before.countFaceTriggered + if Fires(before.table, f, now, timerTrigger) then 1 else 0)
    else before
  }

  /** The matching loop of v1/main.cpp:425-462 over the first `i` detections:
      detections outside the distance gate are skipped. */
  function MatchUpTo(s: Snapshot, faces: seq<Rect>, grid: seq<seq<int>>, minDist: int, maxDist: int,
                     now: int, timerTrigger: int, i: nat): (r: Snapshot)
    requires s.table.Parallel() && i <= |faces| && IsDistanceGrid(grid) && AllCentresInGrid(faces)
    ensures r.table.Parallel() && |s.table.objects| <= |r.table.objects|
    ensures r.countFace == s.countFace && r.prevCount == s.prevCount
    decreases i
  {
    if i == 0 then s
    else
      MatchStep(MatchUpTo(s, faces, grid, minDist, maxDist, now, timerTrigger, i - 1), faces[i - 1],
                grid, minDist, maxDist, now, timerTrigger)
  }

  /** The first-run loop of v1/main.cpp:396-409 over the first `i` detections:
      each one inside the distance gate becomes a new entry. */
  function SeedUpTo(faces: seq<Rect>, grid: seq<seq<int>>, minDist: int, maxDist: int, now: int, i: nat): (t: Table)
    requires i <= |faces| && IsDistanceGrid(grid) && AllCentresInGrid(faces)
    ensures t.Parallel() && |t.objects| <= i
  {
    if i == 0 then EMPTY_TABLE
    else
      var before := SeedUpTo(faces, grid, minDist, maxDist, now, i - 1);
      if Admissible(grid, faces[i - 1], minDist, maxDist) then before.Push(faces[i - 1], now) else before
  }

  /** v1/main.cpp:421-423: no entry is marked matched yet. */
  function ClearTriggers(t: Table): (u: Table)
    requires t.Parallel()
    ensures u.Parallel()
  {
    t.(triggerDetection := Repeat(false, |t.objects|))
  }

  /** v1/main.cpp:464-471: every entry not matched this frame restarts its run
      at `now` and may fire again. */
  function ResetUnmatched(t: Table, now: int): (u: Table)
    requires t.Parallel()
    ensures u.Parallel()
  {
    var n := |t.objects|;
    Table(t.objects, t.triggerDetection,
          seq(n, j requires 0 <= j < n => t.triggerDetection[j] && t.triggeredFace[j]),
          seq(n, j requires 0 <= j < n => if t.triggerDetection[j] then t.savedTime[j] else now))
  }

  /** One call of `detectAndDraw` on the counter state. */
  function Frame(s: Snapshot, faces: seq<Rect>, grid: seq<seq<int>>, minDist: int, maxDist: int,
                 now: int, timerTrigger: int): (r: Snapshot)
    requires s.table.Parallel() && IsDistanceGrid(grid) && AllCentresInGrid(faces)
    ensures r.table.Parallel() && |s.table.objects| <= |r.table.objects|
  {
    var counted := s.(countFace := CountFaceAfter(s.countFace, s.prevCount, |faces|), prevCount := |faces|);
    if |s.table.objects| == 0 then
      counted.(table := SeedUpTo(faces, grid, minDist, maxDist, now, |faces|))
    else
      var matched := MatchUpTo(counted.(table := ClearTriggers(s.table)), faces, grid, minDist, maxDist, now, timerTrigger, |faces|);
      matched.(table := ResetUnmatched(matched.table, now))
  }

  // ---------------------------------------------------------------------------
  // Properties of one frame

  /** The distance gate of every detection, in order. */
  function GateFlags(grid: seq<seq<int>>, faces: seq<Rect>, minDist: int, maxDist: int): (r: seq<bool>)
    requires IsDistanceGrid(grid) && AllCentresInGrid(faces)
    ensures |r| == |faces|
  {
    seq(|faces|, j requires 0 <= j < |faces| => Admissible(grid, faces[j], minDist, maxDist))
  }

  /** The table holding the first `i` detections whose gate flag is set, in
      order, each with both flags false and saved `now`. */
  function GatedTable(faces: seq<Rect>, gate: seq<bool>, now: int, i: nat): (t: Table)
    requires |gate| == |faces| && i <= |faces|
    ensures t.Parallel() && |t.objects| == CountTrue(gate[..i])
  {
    var k := CountTrue(gate[..i]);
    SelectAt(faces[..i], gate[..i]);
    Table(Select(faces[..i], gate[..i]), Repeat(false, k), Repeat(false, k), Repeat(now, k))
  }

  /** One more detection extends the gated table by that detection alone, if its flag is set. */
  lemma GatedTableStep(faces: seq<Rect>, gate: seq<bool>, now: int, i: nat)
    requires |gate| == |faces| && i < |faces|
    ensures GatedTable(faces, gate, now, i + 1)
            == if gate[i] then GatedTable(faces, gate, now, i).Push(faces[i], now) else GatedTable(faces, gate, now, i)
  {
    PrefixStep(faces, gate, i);
    var k := CountTrue(gate[..i]);
    if gate[i] {
      SelectAt(faces[..i], gate[..i]);
      assert Repeat(false, k + 1) == Repeat(false, k) + [false];
      assert Repeat(now, k + 1) == Repeat(now, k) + [now];
    }
  }

  /** The first run keeps exactly the detections inside the distance gate, in
      order, each with both flags false and saved `now`. */
  lemma {:induction false} SeedSelectsGated(faces: seq<Rect>, grid: seq<seq<int>>, minDist: int, maxDist: int, now: int,
                                           gate: seq<bool>, i: nat)
    requires i <= |faces| && IsDistanceGrid(grid) && AllCentresInGrid(faces) && |gate| == |faces|
    requires forall j :: 0 <= j < |faces| ==> gate[j] == Admissible(grid, faces[j], minDist, maxDist)
    ensures SeedUpTo(faces, grid, minDist, maxDist, now, i) == GatedTable(faces, gate, now, i)
  {
    if i == 0 {
      assert faces[..0] == [] && gate[..0] == [];
    } else {
      SeedSelectsGated(faces, grid, minDist, maxDist, now, gate, i - 1);
      SeedStep(faces, grid, minDist, maxDist, now, gate, i - 1);
    }
  }

  lemma SeedStep(faces: seq<Rect>, grid: seq<seq<int>>, minDist: int, maxDist: int, now: int, gate: seq<bool>, i: nat)
    requires i < |faces| && IsDistanceGrid(grid) && AllCentresInGrid(faces) && |gate| == |faces|
    requires gate[i] == Admissible(grid, faces[i], minDist, maxDist)
    requires SeedUpTo(faces, grid, minDist, maxDist, now, i) == GatedTable(faces, gate, now, i)
    ensures SeedUpTo(faces, grid, minDist, maxDist, now, i + 1) == GatedTable(faces, gate, now, i + 1)
  {
    GatedTableStep(faces, gate, now, i);
  }

  /** On an empty table the frame only seeds it: the gated detections in
      order, and no trigger is counted. */
  lemma FirstRunSeeds(s: Snapshot, faces: seq<Rect>, grid: seq<seq<int>>, minDist: int, maxDist: int, now: int, timerTrigger: int)
    requires s.table.Parallel() && |s.table.objects| == 0 && IsDistanceGrid(grid) && AllCentresInGrid(faces)
    ensures var r := Frame(s, faces, grid, minDist, maxDist, now, timerTrigger);
            var gate := GateFlags(grid, faces, minDist, maxDist);
            var k := CountTrue(gate);
            && r.table == Table(Select(faces, gate), Repeat(false, k), Repeat(false, k), Repeat(now, k))
            && r.countFaceTriggered == s.countFaceTriggered
  {
    var gate := GateFlags(grid, faces, minDist, maxDist);
    SeedSelectsGated(faces, grid, minDist, maxDist, now, gate, |faces|);
    assert faces[..|faces|] == faces && gate[..|faces|] == gate;
    assert GatedTable(faces, gate, now, |faces|) == Table(Select(faces, gate), Repeat(false, CountTrue(gate)),
                                                          Repeat(false, CountTrue(gate)), Repeat(now, CountTrue(gate)));
  }

  /** `countFace` grows by the increase in detections over the previous frame
      and `prevCount` becomes this frame's count, whichever branch runs. */
  lemma FrameCountsFaces(s: Snapshot, faces: seq<Rect>, grid: seq<seq<int>>, minDist: int, maxDist: int, now: int, timerTrigger: int)
    requires s.table.Parallel() && IsDistanceGrid(grid) && AllCentresInGrid(faces)
    ensures var r := Frame(s, faces, grid, minDist, maxDist, now, timerTrigger);
            && r.countFace == s.countFace + (if |faces| > s.prevCount then |faces| - s.prevCount else 0)
            && r.prevCount == |faces|
  {
  }

  /** The count of set flags rises by one when a clear flag is set. */
  lemma {:induction false} CountTrueSet(flags: seq<bool>, k: int)
    requires 0 <= k < |flags| && !flags[k]
    ensures CountTrue(flags[k := true]) == CountTrue(flags) + 1
  {
    var n := |flags| - 1;
    var g := flags[k := true];
    assert g[..n] == if k < n then flags[..n][k := true] else flags[..n];
    if k < n {
      CountTrueSet(flags[..n], k);
    }
  }

  /** No more flags are set than there are flags. */
  lemma {:induction false} CountTrueAtMost(flags: seq<bool>)
    ensures CountTrue(flags) <= |flags|
  {
    if flags != [] {
      CountTrueAtMost(flags[..|flags| - 1]);
    }
  }

  /** One pass of the matching loop raises the trigger counter exactly when it
      sets a clear triggered flag, and never clears one. */
  lemma MatchStepTriggers(before: Snapshot, f: Rect, grid: seq<seq<int>>, minDist: int, maxDist: int,
                          now: int, timerTrigger: int)
    requires before.table.Parallel() && IsDistanceGrid(grid) && CentreInGrid(f)
    ensures var r := MatchStep(before, f, grid, minDist, maxDist, now, timerTrigger);
            r.countFaceTriggered - before.countFaceTriggered
              == CountTrue(r.table.triggeredFace) - CountTrue(before.table.triggeredFace) >= 0
  ensures var r := MatchStep(before, f, grid, minDist, maxDist, now, timerTrigger);
          r.countFaceTriggered - before.countFaceTriggered <= 1
  ensures var r := MatchStep(before, f, grid, minDist, maxDist, now, timerTrigger);
          forall k :: 0 <= k < |before.table.objects| && before.table.triggeredFace[k] ==> r.table.triggeredFace[k]
  {
    MatchStepKeepsRuns(before, f, grid, minDist, maxDist, now, timerTrigger);
    var t := before.table;
    if Admissible(grid, f, minDist, maxDist) {
      var k := FirstSimilar(t.objects, f);
      if k < 0 {
        assert (t.triggeredFace + [false])[..|t.triggeredFace|] == t.triggeredFace;
      } else if Fires(t, f, now, timerTrigger) {
        CountTrueSet(t.triggeredFace, k);
      }
    }
  }

  /** The trigger counter has risen from `s` to `r` by exactly the number of
      triggered flags set since, and by no more than the entries that were not
      triggered in `s`. */
  predicate TriggersBalanced(s: Snapshot, r: Snapshot)
  {
    && r.countFaceTriggered - s.countFaceTriggered
         == CountTrue(r.table.triggeredFace) - CountTrue(s.table.triggeredFace)
    && s.countFaceTriggered <= r.countFaceTriggered
         <= s.countFaceTriggered + |r.table.objects| - CountTrue(s.table.triggeredFace)
  }

  /** The trigger counter rises by exactly the number of triggered flags set
      during matching; flags are never cleared there, so each entry fires at
      most once per frame and the counter never decreases. */
  lemma {:induction false} TriggerBalance(s: Snapshot, faces: seq<Rect>, grid: seq<seq<int>>, minDist: int, maxDist: int,
                                          now: int, timerTrigger: int, i: nat)
    requires s.table.Parallel() && i <= |faces| && IsDistanceGrid(grid) && AllCentresInGrid(faces)
    ensures TriggersBalanced(s, MatchUpTo(s, faces, grid, minDist, maxDist, now, timerTrigger, i))
  {
    if i > 0 {
      TriggerBalance(s, faces, grid, minDist, maxDist, now, timerTrigger, i - 1);
      TriggerBalanceStep(s, faces, grid, minDist, maxDist, now, timerTrigger, i - 1);
    } else {
      CountTrueAtMost(s.table.triggeredFace);
    }
  }

  lemma TriggerBalanceStep(s: Snapshot, faces: seq<Rect>, grid: seq<seq<int>>, minDist: int, maxDist: int,
                           now: int, timerTrigger: int, i: nat)
    requires s.table.Parallel() && i < |faces| && IsDistanceGrid(grid) && AllCentresInGrid(faces)
    requires TriggersBalanced(s, MatchUpTo(s, faces, grid, minDist, maxDist, now, timerTrigger, i))
    ensures TriggersBalanced(s, MatchUpTo(s, faces, grid, minDist, maxDist, now, timerTrigger, i + 1))
  {
    var before := MatchUpTo(s, faces, grid, minDist, maxDist, now, timerTrigger, i);
    MatchUpToStep(s, faces, grid, minDist, maxDist, now, timerTrigger, i);
    MatchStepTriggers(before, faces[i], grid, minDist, maxDist, now, timerTrigger);
    CountTrueAtMost(MatchUpTo(s, faces, grid, minDist, maxDist, now, timerTrigger, i + 1).table.triggeredFace);
  }

  /** During matching, the entries present before keep their saved times and
      their triggered flags can only be set; entries added are saved `now`. */
  predicate KeepsRuns(t: Table, u: Table, now: int)
    requires t.Parallel() && u.Parallel()
  {
    && |t.objects| <= |u.objects|
    && (forall k :: 0 <= k < |t.objects| ==> u.savedTime[k] == t.savedTime[k])
    && (forall k :: 0 <= k < |t.objects| && t.triggeredFace[k] ==> u.triggeredFace[k])
    && (forall k :: |t.objects| <= k < |u.objects| ==> u.savedTime[k] == now)
  }

  /** Runs are kept across consecutive stretches of matching. */
  lemma KeepsRunsTrans(a: Table, b: Table, c: Table, now: int)
    requires a.Parallel() && b.Parallel() && c.Parallel() && KeepsRuns(a, b, now) && KeepsRuns(b, c, now)
    ensures KeepsRuns(a, c, now)
  {
  }

  /** One pass of the matching loop keeps every run. */
  lemma MatchStepKeepsRuns(before: Snapshot, f: Rect, grid: seq<seq<int>>, minDist: int, maxDist: int,
                           now: int, timerTrigger: int)
    requires before.table.Parallel() && IsDistanceGrid(grid) && CentreInGrid(f)
    ensures KeepsRuns(before.table, MatchStep(before, f, grid, minDist, maxDist, now, timerTrigger).table, now)
  {
    var t := before.table;
    var u := MatchStep(before, f, grid, minDist, maxDist, now, timerTrigger).table;
    if Admissible(grid, f, minDist, maxDist) {
      assert u == MatchDetection(t, f, now, timerTrigger);
      forall k | 0 <= k < |u.objects|
        ensures k < |t.objects| ==> u.savedTime[k] == t.savedTime[k] && (t.triggeredFace[k] ==> u.triggeredFace[k])
        ensures |t.objects| <= k ==> u.savedTime[k] == now
      {
      }
    }
  }

  lemma {:induction false} MatchKeepsRuns(s: Snapshot, faces: seq<Rect>, grid: seq<seq<int>>, minDist: int, maxDist: int,
                                          now: int, timerTrigger: int, i: nat)
    requires s.table.Parallel() && i <= |faces| && IsDistanceGrid(grid) && AllCentresInGrid(faces)
    ensures KeepsRuns(s.table, MatchUpTo(s, faces, grid, minDist, maxDist, now, timerTrigger, i).table, now)
  {
    if i > 0 {
      MatchKeepsRuns(s, faces, grid, minDist, maxDist, now, timerTrigger, i - 1);
      var before := MatchUpTo(s, faces, grid, minDist, maxDist, now, timerTrigger, i - 1);
      MatchUpToStep(s, faces, grid, minDist, maxDist, now, timerTrigger, i - 1);
      MatchStepKeepsRuns(before, faces[i - 1], grid, minDist, maxDist, now, timerTrigger);
      KeepsRunsTrans(s.table, before.table, MatchUpTo(s, faces, grid, minDist, maxDist, now, timerTrigger, i).table, now);
    } else {
      assert KeepsRuns(s.table, s.table, now);
    }
  }

  /** The matching pass over the first `i` detections reads no detection past them. */
  lemma {:induction false} MatchUpToPrefix(s: Snapshot, a: seq<Rect>, b: seq<Rect>, grid: seq<seq<int>>, minDist: int, maxDist: int,
                                           now: int, timerTrigger: int, i: nat)
    requires s.table.Parallel() && i <= |a| && i <= |b| && a[..i] == b[..i]
    requires IsDistanceGrid(grid) && AllCentresInGrid(a) && AllCentresInGrid(b)
    ensures MatchUpTo(s, a, grid, minDist, maxDist, now, timerTrigger, i) == MatchUpTo(s, b, grid, minDist, maxDist, now, timerTrigger, i)
  {
    if i > 0 {
      assert a[..i - 1] == a[..i][..i - 1] && b[..i - 1] == b[..i][..i - 1];
      assert a[i - 1] == a[..i][i - 1] && b[i - 1] == b[..i][i - 1];
      MatchUpToPrefix(s, a, b, grid, minDist, maxDist, now, timerTrigger, i - 1);
    }
  }

  lemma MatchUpToStep(s: Snapshot, faces: seq<Rect>, grid: seq<seq<int>>, minDist: int, maxDist: int,
                      now: int, timerTrigger: int, i: nat)
    requires s.table.Parallel() && i < |faces| && IsDistanceGrid(grid) && AllCentresInGrid(faces)
    ensures MatchUpTo(s, faces, grid, minDist, maxDist, now, timerTrigger, i + 1)
            == MatchStep(MatchUpTo(s, faces, grid, minDist, maxDist, now, timerTrigger, i), faces[i], grid, minDist, maxDist, now, timerTrigger)
  {
  }

  /** Matching one more detection after `before` is one more step of the loop. */
  lemma MatchAppendOne(s: Snapshot, before: seq<Rect>, f: Rect, grid: seq<seq<int>>, minDist: int, maxDist: int,
                       now: int, timerTrigger: int)
    requires s.table.Parallel() && IsDistanceGrid(grid) && AllCentresInGrid(before) && CentreInGrid(f)
    ensures AllCentresInGrid(before + [f])
    ensures MatchUpTo(s, before + [f], grid, minDist, maxDist, now, timerTrigger, |before| + 1)
            == MatchStep(MatchUpTo(s, before, grid, minDist, maxDist, now, timerTrigger, |before|), f, grid, minDist, maxDist, now, timerTrigger)
  {
    var kept := before + [f];
    var n := |before|;
    assert kept[..n] == before && kept[n] == f;
    MatchUpToStep(s, kept, grid, minDist, maxDist, now, timerTrigger, n);
    MatchUpToPrefix(s, kept, before, grid, minDist, maxDist, now, timerTrigger, n);
  }

  /** One detection more: if matching the first `i` detections agrees with
      matching their gated selection, so does matching the first `i + 1`. */
  lemma UngatedStep(s: Snapshot, faces: seq<Rect>, grid: seq<seq<int>>, minDist: int, maxDist: int,
                    now: int, timerTrigger: int, gate: seq<bool>, i: nat)
    requires s.table.Parallel() && i < |faces| && IsDistanceGrid(grid) && AllCentresInGrid(faces) && |gate| == |faces|
    requires gate[i] == Admissible(grid, faces[i], minDist, maxDist)
    requires AllCentresInGrid(Select(faces[..i], gate[..i]))
    requires MatchUpTo(s, faces, grid, minDist, maxDist, now, timerTrigger, i)
             == MatchUpTo(s, Select(faces[..i], gate[..i]), grid, minDist, maxDist, now, timerTrigger, |Select(faces[..i], gate[..i])|)
    ensures AllCentresInGrid(Select(faces[..i + 1], gate[..i + 1]))
    ensures MatchUpTo(s, faces, grid, minDist, maxDist, now, timerTrigger, i + 1)
            == MatchUpTo(s, Select(faces[..i + 1], gate[..i + 1]), grid, minDist, maxDist, now, timerTrigger, |Select(faces[..i + 1], gate[..i + 1])|)
  {
    PrefixStep(faces, gate, i);
    MatchUpToStep(s, faces, grid, minDist, maxDist, now, timerTrigger, i);
    var before := Select(faces[..i], gate[..i]);
    var f := faces[i];
    if gate[i] {
      assert Select(faces[..i + 1], gate[..i + 1]) == before + [f];
      MatchAppendOne(s, before, f, grid, minDist, maxDist, now, timerTrigger);
    } else {
      assert Select(faces[..i + 1], gate[..i + 1]) == before;
    }
  }

  /** A detection outside the distance gate changes no entry and no counter:
      matching the first `i` detections gives the same state as matching only
      those of them that pass the gate. */
  lemma {:induction false} UngatedIgnored(s: Snapshot, faces: seq<Rect>, grid: seq<seq<int>>, minDist: int, maxDist: int,
                                          now: int, timerTrigger: int, gate: seq<bool>, i: nat)
    requires s.table.Parallel() && i <= |faces| && IsDistanceGrid(grid) && AllCentresInGrid(faces) && |gate| == |faces|
    requires forall j :: 0 <= j < |faces| ==> gate[j] == Admissible(grid, faces[j], minDist, maxDist)
    ensures AllCentresInGrid(Select(faces[..i], gate[..i]))
    ensures MatchUpTo(s, faces, grid, minDist, maxDist, now, timerTrigger, i)
            == MatchUpTo(s, Select(faces[..i], gate[..i]), grid, minDist, maxDist, now, timerTrigger, |Select(faces[..i], gate[..i])|)
  {
    if i == 0 {
      assert faces[..0] == [] && gate[..0] == [];
    } else {
      UngatedIgnored(s, faces, grid, minDist, maxDist, now, timerTrigger, gate, i - 1);
      UngatedStep(s, faces, grid, minDist, maxDist, now, timerTrigger, gate, i - 1);
    }
  }

  /** After a later frame, an entry present before keeps the start of its run
      when it was matched this frame and restarts it at `now` otherwise; only a
      matched entry can stay triggered, and a triggered entry that is matched
      again stays triggered, so it cannot fire twice in one run. */
  lemma FrameRestartsUnmatched(s: Snapshot, faces: seq<Rect>, grid: seq<seq<int>>, minDist: int, maxDist: int,
                               now: int, timerTrigger: int)
    requires s.table.Parallel() && 0 < |s.table.objects| && IsDistanceGrid(grid) && AllCentresInGrid(faces)
    ensures var u := Frame(s, faces, grid, minDist, maxDist, now, timerTrigger).table;
            && (forall k :: 0 <= k < |s.table.objects| ==>
                  u.savedTime[k] == if u.triggerDetection[k] then s.table.savedTime[k] else now)
            && (forall k :: |s.table.objects| <= k < |u.objects| ==> u.savedTime[k] == now)
            && (forall k :: 0 <= k < |u.objects| && u.triggeredFace[k] ==> u.triggerDetection[k])
            && (forall k :: 0 <= k < |s.table.objects| && s.table.triggeredFace[k] && u.triggerDetection[k] ==> u.triggeredFace[k])
  {
    var counted := s.(countFace := CountFaceAfter(s.countFace, s.prevCount, |faces|), prevCount := |faces|);
    var cleared := counted.(table := ClearTriggers(s.table));
    MatchKeepsRuns(cleared, faces, grid, minDist, maxDist, now, timerTrigger, |faces|);
  }

  /** Only an entry matched in the last frame can be marked triggered. */
  predicate TriggeredWereMatched(t: Table)
    requires t.Parallel()
  {
    forall k :: 0 <= k < |t.objects| && t.triggeredFace[k] ==> t.triggerDetection[k]
  }

  /** Whatever the state before, after a frame only matched entries are
      triggered, and neither counter has decreased. */
  lemma FrameKeepsInvariant(s: Snapshot, faces: seq<Rect>, grid: seq<seq<int>>, minDist: int, maxDist: int,
                            now: int, timerTrigger: int)
    requires s.table.Parallel() && IsDistanceGrid(grid) && AllCentresInGrid(faces)
    ensures var r := Frame(s, faces, grid, minDist, maxDist, now, timerTrigger);
            && TriggeredWereMatched(r.table)
            && s.countFace <= r.countFace && s.countFaceTriggered <= r.countFaceTriggered
  {
    if |s.table.objects| == 0 {
      FirstRunSeeds(s, faces, grid, minDist, maxDist, now, timerTrigger);
    } else {
      var counted := s.(countFace := CountFaceAfter(s.countFace, s.prevCount, |faces|), prevCount := |faces|);
      TriggerBalance(counted.(table := ClearTriggers(s.table)), faces, grid, minDist, maxDist, now, timerTrigger, |faces|);
      FrameRestartsUnmatched(s, faces, grid, minDist, maxDist, now, timerTrigger);
    }
  }

  // ---------------------------------------------------------------------------
  // The loops of `detectAndDraw`, on the table values

  /** The search of v1/main.cpp:431-459: scan the table and stop at the first
      entry of similar size. */
  method FindSimilar(objects: seq<Rect>, r: Rect) returns (matched: bool, x: int)
    ensures matched <==> 0 <= FirstSimilar(objects, r)
    ensures matched ==> x == FirstSimilar(objects, r)
  {
    matched := false;
    x := 0;
    while x < |objects|
      invariant 0 <= x <= |objects|
      invariant forall j :: 0 <= j < x ==> !Similar(objects[j], r)
    {
      if Similar(objects[x], r) {
        matched := true;
        break;
      }
      x := x + 1;
    }
  }

  /** The first-run loop of v1/main.cpp:396-409. */
  method SeedAll(faces: seq<Rect>, grid: seq<seq<int>>, minDist: int, maxDist: int, now: int) returns (t: Table)
    requires IsDistanceGrid(grid) && AllCentresInGrid(faces)
    ensures t == SeedUpTo(faces, grid, minDist, maxDist, now, |faces|)
  {
    t := EMPTY_TABLE;
    var i := 0;
    while i < |faces|
      invariant 0 <= i <= |faces| && t == SeedUpTo(faces, grid, minDist, maxDist, now, i)
    {
      var r := faces[i];
      var d := grid[CentreColumn(r)][CentreRow(r)];
      if d > minDist && d < maxDist {
        t := t.Push(r, now);
      }
      i := i + 1;
    }
  }

  /** The clearing loop of v1/main.cpp:421-423. */
  method ClearAll(t: Table) returns (u: Table)
    requires t.Parallel()
    ensures u == ClearTriggers(t)
  {
    var flags := t.triggerDetection;
    var x := 0;
    while x < |t.objects|
      invariant 0 <= x <= |t.objects| && |flags| == |t.objects|
      invariant forall j :: 0 <= j < x ==> !flags[j]
    {
      flags := flags[x := false];
      x := x + 1;
    }
    u := t.(triggerDetection := flags);
  }

  /** One gated detection of the matching loop (v1/main.cpp:429-460). */
  method MatchOne(t: Table, r: Rect, now: int, timerTrigger: int) returns (u: Table, fired: bool)
    requires t.Parallel()
    ensures u == MatchDetection(t, r, now, timerTrigger)
    ensures fired == Fires(t, r, now, timerTrigger)
  {
    u := t;
    fired := false;
    var matched, x := FindSimilar(t.objects, r);
    if matched {
      u := u.(objects := u.objects[x := r], triggerDetection := u.triggerDetection[x := true]);
      if now - u.savedTime[x] > timerTrigger {
        if !u.triggeredFace[x] {
          fired := true;
          u := u.(triggeredFace := u.triggeredFace[x := true]);
        }
      }
    } else {
      u := u.Push(r, now);
    }
  }

  /** The matching loop of v1/main.cpp:425-462 over every detection. */
  method MatchAll(s: Snapshot, faces: seq<Rect>, grid: seq<seq<int>>, minDist: int, maxDist: int, now: int, timerTrigger: int)
    returns (r: Snapshot)
    requires s.table.Parallel() && IsDistanceGrid(grid) && AllCentresInGrid(faces)
    ensures r == MatchUpTo(s, faces, grid, minDist, maxDist, now, timerTrigger, |faces|)
  {
    r := s;
    var i := 0;
    while i < |faces|
      invariant 0 <= i <= |faces| && r == MatchUpTo(s, faces, grid, minDist, maxDist, now, timerTrigger, i)
    {
      var f := faces[i];
      var d := grid[CentreColumn(f)][CentreRow(f)];
      if d > minDist && d < maxDist {
        var u, fired := MatchOne(r.table, f, now, timerTrigger);
        r := r.(table := u, countFaceTriggered := r.countFaceTriggered + if fired then 1 else 0);
      }
      i := i + 1;
    }
  }

  /** The reset loop of v1/main.cpp:464-471. */
  method ResetAll(t: Table, now: int) returns (u: Table)
    requires t.Parallel()
    ensures u == ResetUnmatched(t, now)
  {
    var triggered, saved := t.triggeredFace, t.savedTime;
    var n := |t.objects|;
    var x := 0;
    while x < n
      invariant 0 <= x <= n && |triggered| == n && |saved| == n
      invariant forall j :: 0 <= j < x ==> triggered[j] == (t.triggerDetection[j] && t.triggeredFace[j])
      invariant forall j :: 0 <= j < x ==> saved[j] == if t.triggerDetection[j] then t.savedTime[j] else now
      invariant forall j :: x <= j < n ==> triggered[j] == t.triggeredFace[j] && saved[j] == t.savedTime[j]
    {
      if !t.triggerDetection[x] {
        saved := saved[x := now];
        triggered := triggered[x := false];
      }
      x := x + 1;
    }
    u := t.(triggeredFace := triggered, savedTime := saved);
  }

  /** `detectAndDraw` of v1/main.cpp:364-474 on the counter state, without
      the detector, the console output and the drawing. */
  method DetectAndCount(s: Snapshot, faces: seq<Rect>, grid: seq<seq<int>>, minDist: int, maxDist: int,
                        now: int, timerTrigger: int) returns (r: Snapshot)
    requires s.table.Parallel() && IsDistanceGrid(grid) && AllCentresInGrid(faces)
    ensures r == Frame(s, faces, grid, minDist, maxDist, now, timerTrigger)
  {
    r := s;
    var value := r.prevCount - |faces|;
    if value < 0 {
      r := r.(countFace := r.countFace + Abs(r.prevCount - |faces|));
    }
    r := r.(prevCount := |faces|);
    if |r.table.objects| == 0 {
      var t := SeedAll(faces, grid, minDist, maxDist, now);
      r := r.(table := t);
    } else {
      var t := ClearAll(r.table);
      r := MatchAll(r.(table := t), faces, grid, minDist, maxDist, now, timerTrigger);
      var u := ResetAll(r.table, now);
      r := r.(table := u);
    }
  }

  // ---------------------------------------------------------------------------
  // The counter state, updated in place

  class FaceCounter {
    var objectsDetected: seq<Rect>
    var triggerDetection: seq<bool>
    var triggeredFace: seq<bool>
    var savedTime: seq<int>

    /** Sum of the increases in the number of detections per frame. */
    var countFace: int
    /** The number of detections in the previous frame. */
    var prevCount: int
    /** Runs that lasted longer than `timerTrigger` seconds. */
    var countFaceTriggered: int

    function Entries(): Table
      reads this
    {
      Table(objectsDetected, triggerDetection, triggeredFace, savedTime)
    }

    function State(): Snapshot
      reads this
    {
      Snapshot(Entries(), countFace, prevCount, countFaceTriggered)
    }

    /** Between frames: parallel vectors, and only a matched entry is triggered. */
    ghost predicate Valid()
      reads this
    {
      Entries().Parallel() && TriggeredWereMatched(Entries())
    }

    /** The globals as the program starts: an empty table, counters 0. */
    constructor ()
      ensures Valid() && State() == Snapshot(EMPTY_TABLE, 0, 0, 0)
    {
      objectsDetected, triggerDetection, triggeredFace, savedTime := [], [], [], [];
      countFace, prevCount, countFaceTriggered := 0, 0, 0;
    }

    /** The counting part of `detectAndDraw` for one frame's detections, the
        distance grid, the current time in whole seconds and the configured
        trigger time. */
    method ProcessFrame(faces: seq<Rect>, grid: seq<seq<int>>, minDist: int, maxDist: int, now: int, timerTrigger: int)
      requires Valid() && IsDistanceGrid(grid) && AllCentresInGrid(faces)
      modifies this
      ensures Valid()
      ensures State() == Frame(old(State()), faces, grid, minDist, maxDist, now, timerTrigger)
      ensures old(countFace) <= countFace && old(countFaceTriggered) <= countFaceTriggered
      ensures old(|objectsDetected|) <= |objectsDetected|
    {
      FrameKeepsInvariant(State(), faces, grid, minDist, maxDist, now, timerTrigger);
      var r := DetectAndCount(State(), faces, grid, minDist, maxDist, now, timerTrigger);
      objectsDetected, triggerDetection, triggeredFace, savedTime :=
        r.table.objects, r.table.triggerDetection, r.table.triggeredFace, r.table.savedTime;
      countFace, prevCount, countFaceTriggered := r.countFace, r.prevCount, r.countFaceTriggered;
    }
  }
}
