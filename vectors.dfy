/// Operations on the parallel vectors that both trackers keep: selecting the
/// flagged positions, the increasing list of flagged indices, `vector::erase`,
/// and the proof that erasing a sorted index list back to front removes exactly
/// the flagged positions and keeps the survivors in order.
module Vectors {

  /** The number of set flags. */
  function CountTrue(flags: seq<bool>): nat
  {
    if flags == [] then 0
    else CountTrue(flags[..|flags| - 1]) + (if flags[|flags| - 1] then 1 else 0)
  }

  /** The flags inverted position by position. */
  function Negate(flags: seq<bool>): (r: seq<bool>)
    ensures |r| == |flags|
  {
    seq(|flags|, j requires 0 <= j < |flags| => !flags[j])
  }

  /** `n` copies of `x` (what `n` successive `push_back(x)` append). */
  function Repeat<T>(x: T, n: nat): (r: seq<T>)
    ensures |r| == n
  {
    seq(n, _ => x)
  }

  /** The elements of `s` whose flag in `pick` is set, in their original order. */
  function Select<T>(s: seq<T>, pick: seq<bool>): seq<T>
    requires |pick| == |s|
  {
    if s == [] then []
    else
      var n := |s| - 1;
      Select(s[..n], pick[..n]) + (if pick[n] then [s[n]] else [])
  }

  /** The positions of the set flags, in increasing order. */
  function Flagged(flags: seq<bool>): seq<int>
  {
    if flags == [] then []
    else
      var n := |flags| - 1;
      Flagged(flags[..n]) + (if flags[n] then [n] else [])
  }

  /** What is left of `s` once every position flagged in `drop` is deleted. */
  function Without<T>(s: seq<T>, drop: seq<bool>): seq<T>
    requires |drop| == |s|
  {
    Select(s, Negate(drop))
  }

  /** `vector::erase` at index `k`: the elements after `k` move down one place. */
  function EraseAt<T>(s: seq<T>, k: int): (r: seq<T>)
    requires 0 <= k < |s|
    ensures |r| == |s| - 1
    ensures forall j :: 0 <= j < k ==> r[j] == s[j]
    ensures forall j :: k <= j < |r| ==> r[j] == s[j + 1]
  {
    s[..k] + s[k + 1..]
  }

  /** `std::reverse` of a list. */
  function Reversed<T>(s: seq<T>): (r: seq<T>)
    ensures |r| == |s|
    ensures forall j :: 0 <= j < |s| ==> r[|s| - 1 - j] == s[j]
  {
    seq(|s|, j requires 0 <= j < |s| => s[|s| - 1 - j])
  }

  /** The flags of `drop` at positions `b` and beyond; the earlier ones cleared. */
  function DropFrom(drop: seq<bool>, b: int): (r: seq<bool>)
    ensures |r| == |drop|
  {
    seq(|drop|, j requires 0 <= j < |drop| => b <= j && drop[j])
  }

  /** The flagged positions, listed in strictly increasing order, are exactly
      the positions whose flag is set, and there are CountTrue of them. */
  lemma {:induction false} FlaggedSpec(flags: seq<bool>)
    ensures |Flagged(flags)| == CountTrue(flags)
    ensures forall p :: 0 <= p < |Flagged(flags)| ==>
              0 <= Flagged(flags)[p] < |flags| && flags[Flagged(flags)[p]]
    ensures forall p, q :: 0 <= p < q < |Flagged(flags)| ==> Flagged(flags)[p] < Flagged(flags)[q]
    ensures forall j :: 0 <= j < |flags| && flags[j] ==> j in Flagged(flags)
  {
    if flags != [] {
      var n := |flags| - 1;
      FlaggedSpec(flags[..n]);
      forall j | 0 <= j < |flags| && flags[j]
        ensures j in Flagged(flags)
      {
        if j < n {
          assert flags[..n][j];
        }
      }
    }
  }

  /** No flag is set strictly between two consecutive listed positions, nor
      between the last listed position and the end. */
  lemma FlaggedGap(flags: seq<bool>, p: int)
    requires 0 <= p < |Flagged(flags)|
    ensures var next := if p + 1 < |Flagged(flags)| then Flagged(flags)[p + 1] else |flags|;
            forall j :: Flagged(flags)[p] < j < next && 0 <= j < |flags| ==> !flags[j]
  {
    FlaggedSpec(flags);
  }

  /** Extending a prefix of the flags by one position extends the selection,
      the flagged positions and the count by that position alone. */
  lemma PrefixStep<T>(s: seq<T>, flags: seq<bool>, i: int)
    requires |flags| == |s| && 0 <= i < |s|
    ensures Select(s[..i + 1], flags[..i + 1]) == Select(s[..i], flags[..i]) + (if flags[i] then [s[i]] else [])
    ensures Flagged(flags[..i + 1]) == Flagged(flags[..i]) + (if flags[i] then [i] else [])
    ensures CountTrue(flags[..i + 1]) == CountTrue(flags[..i]) + (if flags[i] then 1 else 0)
  {
    assert s[..i + 1][..i] == s[..i];
    assert flags[..i + 1][..i] == flags[..i];
  }

  /** Selection keeps exactly the picked elements: the p-th survivor is the
      element at the p-th picked position, so survivors keep their relative order. */
  lemma {:induction false} SelectAt<T>(s: seq<T>, pick: seq<bool>)
    requires |pick| == |s|
    ensures |Select(s, pick)| == |Flagged(pick)| == CountTrue(pick)
    ensures forall p :: 0 <= p < |Select(s, pick)| ==>
              0 <= Flagged(pick)[p] < |s| && Select(s, pick)[p] == s[Flagged(pick)[p]]
  {
    FlaggedSpec(pick);
    if s != [] {
      var n := |s| - 1;
      SelectAt(s[..n], pick[..n]);
    }
  }

  /** Selecting from a concatenation selects from each part. */
  lemma {:induction false} SelectAppend<T>(s1: seq<T>, f1: seq<bool>, s2: seq<T>, f2: seq<bool>)
    requires |f1| == |s1| && |f2| == |s2|
    ensures Select(s1 + s2, f1 + f2) == Select(s1, f1) + Select(s2, f2)
  {
    if s2 == [] {
      assert s1 + s2 == s1 && f1 + f2 == f1;
    } else {
      var n := |s2| - 1;
      assert (s1 + s2)[..|s1| + n] == s1 + s2[..n];
      assert (f1 + f2)[..|f1| + n] == f1 + f2[..n];
      SelectAppend(s1, f1, s2[..n], f2[..n]);
    }
  }

  /** With every flag set, selection returns the whole sequence. */
  lemma {:induction false} SelectAll<T>(s: seq<T>, pick: seq<bool>)
    requires |pick| == |s|
    requires forall j :: 0 <= j < |pick| ==> pick[j]
    ensures Select(s, pick) == s
  {
    if s != [] {
      var n := |s| - 1;
      SelectAll(s[..n], pick[..n]);
    }
  }

  /** Deleting the flagged positions leaves |s| minus the number of flags. */
  lemma {:induction false} WithoutLength<T>(s: seq<T>, drop: seq<bool>)
    requires |drop| == |s|
    ensures |Without(s, drop)| == |s| - CountTrue(drop)
  {
    SelectAt(s, Negate(drop));
    if s != [] {
      var n := |s| - 1;
      assert Negate(drop)[..n] == Negate(drop[..n]);
      SelectAt(s[..n], Negate(drop[..n]));
      WithoutLength(s[..n], drop[..n]);
    }
  }

  /** Selection cut at position `k`: what is picked before `k`, then `s[k]`
      if picked, then what is picked after `k`. */
  lemma SelectSplit<T>(s: seq<T>, pick: seq<bool>, k: int)
    requires |pick| == |s| && 0 <= k < |s|
    ensures Select(s, pick) == Select(s[..k], pick[..k]) + (if pick[k] then [s[k]] else []) + Select(s[k + 1..], pick[k + 1..])
  {
    assert s == s[..k] + ([s[k]] + s[k + 1..]);
    assert pick == pick[..k] + ([pick[k]] + pick[k + 1..]);
    SelectAppend(s[..k], pick[..k], [s[k]] + s[k + 1..], [pick[k]] + pick[k + 1..]);
    SelectAppend([s[k]], [pick[k]], s[k + 1..], pick[k + 1..]);
    assert Select([s[k]], [pick[k]]) == (if pick[k] then [s[k]] else []) by {
      assert [s[k]][..0] == [] && [pick[k]][..0] == [];
    }
  }

  /** One step of the back-to-front erase loop: once every flagged position at
      or beyond `b` is gone, erasing the next flagged position `k` below `b`
      (with no flag strictly between them) leaves every flagged position at or
      beyond `k` gone. */
  lemma EraseFlaggedStep<T>(s: seq<T>, drop: seq<bool>, k: int, b: int)
    requires |drop| == |s| && 0 <= k < b <= |s|
    requires drop[k] && forall j :: k < j < b ==> !drop[j]
    ensures k < |Without(s, DropFrom(drop, b))|
    ensures EraseAt(Without(s, DropFrom(drop, b)), k) == Without(s, DropFrom(drop, k))
  {
    var keepB := Negate(DropFrom(drop, b));
    var keepK := Negate(DropFrom(drop, k));
    var tail := Select(s[k + 1..], keepB[k + 1..]);
    assert keepB[k + 1..] == keepK[k + 1..];
    SelectSplit(s, keepB, k);
    SelectSplit(s, keepK, k);
    SelectAll(s[..k], keepB[..k]);
    SelectAll(s[..k], keepK[..k]);
    var w := Without(s, DropFrom(drop, b));
    assert w == s[..k] + [s[k]] + tail;
    assert Without(s, DropFrom(drop, k)) == s[..k] + tail;
    assert w[..k] == s[..k] && w[k + 1..] == tail;
  }

  /** The erase loop walks the flagged positions in reverse: the `i`-th position
      it erases is flagged, lies below the one erased before it (or the end),
      and no flag lies strictly between the two. */
  lemma ReversedFlaggedStep(flags: seq<bool>, i: int)
    requires 0 <= i < |Flagged(flags)|
    ensures var order := Reversed(Flagged(flags));
            var k := order[i];
            var b := if i == 0 then |flags| else order[i - 1];
            0 <= k < b <= |flags| && flags[k] && forall j :: k < j < b ==> !flags[j]
  {
    FlaggedSpec(flags);
    FlaggedGap(flags, |Flagged(flags)| - 1 - i);
  }

  /** Before the erase loop nothing is gone; after its last step (at the first
      flagged position, or at the end when nothing is flagged) everything
      flagged is. */
  lemma EraseFlaggedBounds<T>(s: seq<T>, drop: seq<bool>)
    requires |drop| == |s|
    ensures Without(s, DropFrom(drop, |s|)) == s
    ensures var first := if Flagged(drop) == [] then |s| else Flagged(drop)[0];
            Without(s, DropFrom(drop, first)) == Without(s, drop)
  {
    SelectAll(s, Negate(DropFrom(drop, |s|)));
    FlaggedSpec(drop);
    var first := if Flagged(drop) == [] then |s| else Flagged(drop)[0];
    forall j | 0 <= j < |drop| ensures DropFrom(drop, first)[j] == drop[j] {
      if drop[j] {
        assert j in Flagged(drop);
      }
    }
    assert DropFrom(drop, first) == drop;
  }
}
