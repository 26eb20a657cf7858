/** Ordering operations of app/page.tsx: the sort by position, the cyclic skip
  * reducers and the planning half of drag-and-drop reordering (`handleDropBetween`). */
module PlaylistOrder {
  import opened Wrappers
  import opened Playlist
  import Seqs
  import Numbers

  predicate SortedByPosition(s: seq<PlaylistItem>) {
    forall i, j :: 0 <= i < j < |s| ==> s[i].position <= s[j].position
  }

  /** The ids of a queue, in order. */
  function Ids(s: seq<PlaylistItem>): (r: seq<string>)
    ensures |r| == |s| && forall i :: 0 <= i < |s| ==> r[i] == s[i].id
  {
    seq(|s|, i requires 0 <= i < |s| => s[i].id)
  }

  lemma {:induction false} IdsAppend(a: seq<PlaylistItem>, b: seq<PlaylistItem>)
    ensures Ids(a + b) == Ids(a) + Ids(b)
  {
  }

  lemma {:induction false} DistinctIdsMeansDistinct(s: seq<PlaylistItem>)
    ensures DistinctIds(s) <==> Seqs.Distinct(Ids(s))
  {
  }

  // ---------------------------------------------------------------- sorting

  /** The slot `x` takes in a queue in position order: before the first element that does not
    * come before it, so `x` goes ahead of equal positions, which come after it in the input. */
  function InsertionPoint(x: PlaylistItem, s: seq<PlaylistItem>): (p: nat)
    ensures p <= |s|
    ensures forall k :: 0 <= k < p ==> s[k].position < x.position
    ensures p < |s| ==> x.position <= s[p].position
  {
    if s == [] || x.position <= s[0].position then 0 else 1 + InsertionPoint(x, s[1..])
  }

  function InsertByPosition(x: PlaylistItem, s: seq<PlaylistItem>): (r: seq<PlaylistItem>)
    requires SortedByPosition(s)
    ensures |r| == |s| + 1
    ensures multiset(r) == multiset(s) + multiset{x}
    ensures SortedByPosition(r)
  {
    var p := InsertionPoint(x, s);
    assert s == s[..p] + s[p..];
    InsertAtPointSorted(x, s, p);
    s[..p] + [x] + s[p..]
  }

  /** Putting `x` at its insertion point keeps the queue in position order. */
  lemma {:induction false} InsertAtPointSorted(x: PlaylistItem, s: seq<PlaylistItem>, p: nat)
    requires SortedByPosition(s) && p <= |s|
    requires forall k :: 0 <= k < p ==> s[k].position <= x.position
    requires p < |s| ==> x.position <= s[p].position
    ensures SortedByPosition(s[..p] + [x] + s[p..])
  {
    var r := s[..p] + [x] + s[p..];
    assert forall i :: 0 <= i < p ==> r[i] == s[i];
    assert r[p] == x;
    assert forall i :: p < i < |r| ==> r[i] == s[i - 1];
  }

  /** `[...prev].sort((a, b) => a.position - b.position)`: an insertion sort. */
  function SortByPosition(s: seq<PlaylistItem>): (r: seq<PlaylistItem>)
    ensures |r| == |s| && SortedByPosition(r) && multiset(r) == multiset(s)
  {
    if s == [] then []
    else
      assert s == [s[0]] + s[1..];
      InsertByPosition(s[0], SortByPosition(s[1..]))
  }

  /** A queue already in position order is left exactly as it is. */
  lemma {:induction false} SortSortedIsIdentity(s: seq<PlaylistItem>)
    requires SortedByPosition(s)
    ensures SortByPosition(s) == s
  {
    if s != [] {
      SortSortedIsIdentity(s[1..]);
      assert InsertionPoint(s[0], s[1..]) == 0;
      assert s == [s[0]] + s[1..];
    }
  }

  lemma {:induction false} IdsSplice(a: seq<PlaylistItem>, x: PlaylistItem, b: seq<PlaylistItem>)
    ensures multiset(Ids(a + [x] + b)) == multiset(Ids(a + b)) + multiset{x.id}
  {
    IdsAppend(a + [x], b);
    IdsAppend(a, [x]);
    IdsAppend(a, b);
  }

  lemma {:induction false} InsertIds(x: PlaylistItem, s: seq<PlaylistItem>)
    requires SortedByPosition(s)
    ensures multiset(Ids(InsertByPosition(x, s))) == multiset(Ids(s)) + multiset{x.id}
  {
    var p := InsertionPoint(x, s);
    IdsSplice(s[..p], x, s[p..]);
    assert s[..p] + s[p..] == s;
  }

  lemma {:induction false} IdsCons(s: seq<PlaylistItem>)
    requires s != []
    ensures multiset(Ids(s)) == multiset{s[0].id} + multiset(Ids(s[1..]))
  {
    assert Ids(s) == [s[0].id] + Ids(s[1..]);
  }

  /** Sorting rearranges ids without creating repetitions. */
  lemma {:induction false} SortKeepsIds(s: seq<PlaylistItem>)
    ensures multiset(Ids(SortByPosition(s))) == multiset(Ids(s))
  {
    if s != [] {
      SortKeepsIds(s[1..]);
      InsertIds(s[0], SortByPosition(s[1..]));
      IdsCons(s);
    }
  }

  lemma {:induction false} SortKeepsDistinctIds(s: seq<PlaylistItem>)
    requires DistinctIds(s)
    ensures DistinctIds(SortByPosition(s))
  {
    SortKeepsIds(s);
    DistinctIdsMeansDistinct(s);
    Seqs.DistinctPermutation(Ids(s), Ids(SortByPosition(s)));
    DistinctIdsMeansDistinct(SortByPosition(s));
  }

  /** The tail of a queue with distinct ids has distinct ids and lacks the head's id. */
  lemma {:induction false} DistinctIdsTail(s: seq<PlaylistItem>)
    requires DistinctIds(s) && s != []
    ensures DistinctIds(s[1..]) && !HasId(s[1..], s[0].id)
  {
    forall i, j | 0 <= i < j < |s[1..]| ensures s[1..][i].id != s[1..][j].id {
      assert s[1..][i] == s[i + 1] && s[1..][j] == s[j + 1];
    }
    forall i | 0 <= i < |s[1..]| ensures s[1..][i].id != s[0].id {
      assert s[1..][i] == s[i + 1];
    }
  }

  // ---------------------------------------------------------------- findIndex

  /** `sorted.findIndex((item) => item.is_playing)`. */
  function FindPlaying(s: seq<PlaylistItem>): (i: int)
    ensures -1 <= i < |s|
    ensures i >= 0 ==> s[i].isPlaying && forall j :: 0 <= j < i ==> !s[j].isPlaying
    ensures i == -1 ==> forall j :: 0 <= j < |s| ==> !s[j].isPlaying
  {
    if s == [] then -1
    else if s[0].isPlaying then 0
    else
      var i := FindPlaying(s[1..]);
      if i < 0 then -1 else i + 1
  }

  /** `s.findIndex((item) => item.id === id)`. */
  function FindId(s: seq<PlaylistItem>, id: string): (i: int)
    ensures -1 <= i < |s|
    ensures i >= 0 ==> s[i].id == id && forall j :: 0 <= j < i ==> s[j].id != id
    ensures i == -1 ==> forall j :: 0 <= j < |s| ==> s[j].id != id
  {
    if s == [] then -1
    else if s[0].id == id then 0
    else
      var i := FindId(s[1..], id);
      if i < 0 then -1 else i + 1
  }

  // ---------------------------------------------------------------- skip next / previous

  /** `(currentIndex + 1) % sorted.length`: the following slot, wrapping to the first. */
  function NextIndex(current: int, n: nat): (k: nat)
    requires 0 < n && -1 <= current < n
    ensures k < n
    ensures current < n - 1 ==> k == current + 1
    ensures current == n - 1 ==> k == 0
  {
    (current + 1) % n
  }

  /** `(currentIndex - 1 + sorted.length) % sorted.length` with JavaScript's remainder: the
    * preceding slot, wrapping to the last. */
  function PreviousIndex(current: int, n: nat): (k: nat)
    requires 0 < n && -1 <= current < n
    ensures k < n
    ensures current > 0 ==> k == current - 1
    ensures current == 0 ==> k == n - 1
    ensures current == -1 ==> k == if n >= 2 then n - 2 else 0
  {
    var r := Numbers.TruncRem(current - 1 + n, n);
    assert current - 1 + n < 0 ==> n == 1 && r == 0;
    r
  }

  /** The reducer of `handleSkipToNext`: the queue in position order, with the item after the
    * current one (the first one when nothing plays) as the only one playing. */
  function SkipToNext(prev: seq<PlaylistItem>): (r: seq<PlaylistItem>)
    ensures |r| == |prev| && SortedByPosition(r)
  {
    var sorted := SortByPosition(prev);
    if sorted == [] then []
    else SetPlaying(sorted, sorted[NextIndex(FindPlaying(sorted), |sorted|)].id)
  }

  /** The reducer of `handleSkipToPrevious`. */
  function SkipToPrevious(prev: seq<PlaylistItem>): (r: seq<PlaylistItem>)
    ensures |r| == |prev| && SortedByPosition(r)
  {
    var sorted := SortByPosition(prev);
    if sorted == [] then []
    else SetPlaying(sorted, sorted[PreviousIndex(FindPlaying(sorted), |sorted|)].id)
  }

  /** With distinct ids, skipping forward leaves the sorted queue unchanged except that exactly
    * the slot after the current one (slot 0 when nothing plays) is playing. */
  lemma {:induction false} SkipToNextMovesOn(prev: seq<PlaylistItem>)
    requires DistinctIds(prev) && prev != []
    ensures
      var sorted := SortByPosition(prev);
      var r := SkipToNext(prev);
      var current := FindPlaying(sorted);
      && OnlyPlaying(r, NextIndex(current, |sorted|))
      && (current == -1 ==> OnlyPlaying(r, 0))
      && forall j :: 0 <= j < |r| ==> r[j].(isPlaying := sorted[j].isPlaying) == sorted[j]
  {
    var sorted := SortByPosition(prev);
    SortKeepsDistinctIds(prev);
    SetPlayingSelectsOne(sorted, NextIndex(FindPlaying(sorted), |sorted|));
  }

  /** With distinct ids, skipping back makes exactly the slot before the current one playing
    * (wrapping to the last; with nothing playing, the next-to-last). */
  lemma {:induction false} SkipToPreviousMovesBack(prev: seq<PlaylistItem>)
    requires DistinctIds(prev) && prev != []
    ensures
      var sorted := SortByPosition(prev);
      var r := SkipToPrevious(prev);
      && OnlyPlaying(r, PreviousIndex(FindPlaying(sorted), |sorted|))
      && forall j :: 0 <= j < |r| ==> r[j].(isPlaying := sorted[j].isPlaying) == sorted[j]
  {
    var sorted := SortByPosition(prev);
    SortKeepsDistinctIds(prev);
    SetPlayingSelectsOne(sorted, PreviousIndex(FindPlaying(sorted), |sorted|));
  }

  /** On a queue in position order with exactly slot `k` playing, the skips mark the slot after
    * and the slot before `k`. */
  lemma {:induction false} SkipOnSorted(prev: seq<PlaylistItem>, k: nat)
    requires SortedByPosition(prev) && OnlyPlaying(prev, k)
    ensures SkipToNext(prev) == SetPlaying(prev, prev[NextIndex(k, |prev|)].id)
    ensures SkipToPrevious(prev) == SetPlaying(prev, prev[PreviousIndex(k, |prev|)].id)
  {
    SortSortedIsIdentity(prev);
    assert prev[k].isPlaying;
    assert FindPlaying(prev) == k;
  }

  /** Skipping forward and then back returns to the same queue when it is in position order
    * and exactly one item plays. */
  lemma {:induction false} SkipNextThenPreviousRestores(prev: seq<PlaylistItem>, k: nat)
    requires DistinctIds(prev) && SortedByPosition(prev) && OnlyPlaying(prev, k)
    ensures SkipToPrevious(SkipToNext(prev)) == prev
  {
    var n := |prev|;
    var k' := NextIndex(k, n);
    SkipOnSorted(prev, k);
    var r1 := SkipToNext(prev);
    SetPlayingSelectsOne(prev, k');
    SetPlayingKeepsIds(prev, prev[k'].id);
    SkipOnSorted(r1, k');
    assert PreviousIndex(k', n) == k;
    assert r1[k].id == prev[k].id;
    SetPlayingTwice(prev, prev[k'].id, prev[k].id);
    SetPlayingIdempotent(prev, k);
  }

  // ---------------------------------------------------------------- drag and drop planning

  /** What `handleDropBetween` does to the page: nothing at all; keep the playlist and clear the
    * drag; or remove the dragged item, splice it back into `rest` at `at` and renumber. */
  datatype DropPlan =
    | Ignored
    | Kept
    | Moved(rest: seq<PlaylistItem>, at: nat)

  /** `targetIndex`: the target's slot in position order, one further when dropping after it;
    * the end of the queue when dropping onto the empty area. */
  function TargetIndex(sorted: seq<PlaylistItem>, target: Option<PlaylistItem>, isAfter: bool): (t: int)
    ensures -1 <= t <= |sorted|
  {
    if target.Some? then FindId(sorted, target.value.id) + (if isAfter then 1 else 0) else |sorted|
  }

  /** `insertIndex`: where the item now in slot `targetIndex` sits in `rest` (-1 when there is
    * no such item, or its id is the empty string, which JavaScript treats as false). */
  function AnchorIndex(rest: seq<PlaylistItem>, sorted: seq<PlaylistItem>, targetIndex: int): (a: int)
    ensures -1 <= a < |rest|
    ensures a >= 0 ==> 0 <= targetIndex < |sorted| && rest[a].id == sorted[targetIndex].id
  {
    if 0 <= targetIndex < |sorted| && sorted[targetIndex].id != "" then FindId(rest, sorted[targetIndex].id)
    else -1
  }

  /** The decisions of `handleDropBetween`. `shiftAfter` says whether a drop "after" the target
    * adds one more to the splice index (the source does; see `PlanDropAsWritten`). */
  function PlanDropWith(prev: seq<PlaylistItem>, dragged: Option<PlaylistItem>,
                        target: Option<PlaylistItem>, isAfter: bool, shiftAfter: bool): (p: DropPlan)
    ensures p.Moved? ==> p.at <= |p.rest|
    ensures dragged.None? ==> p == Ignored
    ensures p == Ignored <==> dragged.None? || (target.Some? && dragged.value.id == target.value.id)
    ensures dragged.Some? && !(target.Some? && dragged.value.id == target.value.id) ==>
      var sorted := SortByPosition(prev);
      var d := FindId(sorted, dragged.value.id);
      var t := TargetIndex(sorted, target, isAfter);
      (p == Kept <==> d == t || d == t - 1)
  {
    if dragged.None? then Ignored
    else if target.Some? && dragged.value.id == target.value.id then Ignored
    else
      var sorted := SortByPosition(prev);
      var draggedIndex := FindId(sorted, dragged.value.id);
      var targetIndex := TargetIndex(sorted, target, isAfter);
      if draggedIndex == targetIndex || draggedIndex == targetIndex - 1 then Kept
      else
        var rest := RemoveTrack(prev, dragged.value.id);
        var anchor := AnchorIndex(rest, sorted, targetIndex);
        Moved(rest, if anchor >= 0 then (if isAfter && shiftAfter then anchor + 1 else anchor) else |rest|)
  }

  /** `handleDropBetween` as written: for a drop after the target it moves one slot past the
    * target first and then one slot further again. */
  function PlanDropAsWritten(prev: seq<PlaylistItem>, dragged: Option<PlaylistItem>,
                             target: Option<PlaylistItem>, isAfter: bool): (p: DropPlan)
    ensures p.Moved? ==> p.at <= |p.rest|
    ensures dragged.None? ==> p == Ignored
    ensures p == Ignored <==> dragged.None? || (target.Some? && dragged.value.id == target.value.id)
    ensures dragged.Some? && !(target.Some? && dragged.value.id == target.value.id) ==>
      var sorted := SortByPosition(prev);
      var d := FindId(sorted, dragged.value.id);
      var t := TargetIndex(sorted, target, isAfter);
      (p == Kept <==> d == t || d == t - 1)
  {
    PlanDropWith(prev, dragged, target, isAfter, true)
  }

  /** `handleDropBetween` with the drop-after slot counted once: the dragged item always lands
    * immediately before the item found in slot `targetIndex`. */
  function PlanDrop(prev: seq<PlaylistItem>, dragged: Option<PlaylistItem>,
                    target: Option<PlaylistItem>, isAfter: bool): (p: DropPlan)
    ensures p.Moved? ==> p.at <= |p.rest|
    ensures dragged.None? ==> p == Ignored
    ensures p == Ignored <==> dragged.None? || (target.Some? && dragged.value.id == target.value.id)
    ensures dragged.Some? && !(target.Some? && dragged.value.id == target.value.id) ==>
      var sorted := SortByPosition(prev);
      var d := FindId(sorted, dragged.value.id);
      var t := TargetIndex(sorted, target, isAfter);
      (p == Kept <==> d == t || d == t - 1)
  {
    PlanDropWith(prev, dragged, target, isAfter, false)
  }

  /** Every caller in the page drops "before" (`isAfter` false), where both agree. */
  lemma {:induction false} PlanDropAgreesBefore(prev: seq<PlaylistItem>, dragged: Option<PlaylistItem>,
                             target: Option<PlaylistItem>)
    ensures PlanDrop(prev, dragged, target, false) == PlanDropAsWritten(prev, dragged, target, false)
  {
  }

  /** `newPlaylist.splice(at, 0, dragged)` on a copy. */
  function Spliced(rest: seq<PlaylistItem>, at: nat, dragged: PlaylistItem): (r: seq<PlaylistItem>)
    requires at <= |rest|
    ensures |r| == |rest| + 1 && r[at] == dragged
    ensures forall i :: 0 <= i < at ==> r[i] == rest[i]
    ensures forall i :: at < i < |r| ==> r[i] == rest[i - 1]
  {
    rest[..at] + [dragged] + rest[at..]
  }

  /** `s.map((item, idx) => ({ ...item, position: idx + 1 }))`. */
  function Renumbered(s: seq<PlaylistItem>): (r: seq<PlaylistItem>)
    ensures |r| == |s|
    ensures forall i :: 0 <= i < |s| ==> r[i] == s[i].(position := (i + 1) as real)
  {
    seq(|s|, i requires 0 <= i < |s| => s[i].(position := (i + 1) as real))
  }

  /** The playlist a plan leaves behind. */
  function ApplyDrop(prev: seq<PlaylistItem>, dragged: PlaylistItem, plan: DropPlan): seq<PlaylistItem>
    requires plan.Moved? ==> plan.at <= |plan.rest|
  {
    match plan
    case Ignored => prev
    case Kept => prev
    case Moved(rest, at) => Renumbered(Spliced(rest, at, dragged))
  }

  /** After a move the positions are 1, 2, ..., n in array order: strictly increasing. */
  lemma {:induction false} MovedIsRenumbered(prev: seq<PlaylistItem>, dragged: PlaylistItem, rest: seq<PlaylistItem>, at: nat)
    requires at <= |rest|
    ensures var r := ApplyDrop(prev, dragged, Moved(rest, at));
      && (forall i :: 0 <= i < |r| ==> r[i].position == (i + 1) as real)
      && SortedByPosition(r)
      && forall i, j :: 0 <= i < j < |r| ==> r[i].position < r[j].position
  {
  }

  /** Removing a present id from a queue with distinct ids takes exactly that id out. */
  lemma {:induction false} RemoveTrackIds(prev: seq<PlaylistItem>, id: string)
    requires DistinctIds(prev) && HasId(prev, id)
    ensures multiset(Ids(prev)) == multiset(Ids(RemoveTrack(prev, id))) + multiset{id}
  {
    var r := RemoveTrack(prev, id);
    assert multiset(Ids(prev)) == multiset{prev[0].id} + multiset(Ids(prev[1..])) by {
      IdsCons(prev);
    }
    if prev[0].id == id {
      assert r == prev[1..] by {
        RemoveTrackCons(prev, id);
        DistinctIdsTail(prev);
        RemoveKeepsAbsent(prev[1..], id);
      }
    } else {
      var tail := RemoveTrack(prev[1..], id);
      assert multiset(Ids(prev[1..])) == multiset(Ids(tail)) + multiset{id} by {
        DistinctIdsTail(prev);
        var i :| 0 <= i < |prev| && prev[i].id == id;
        assert prev[1..][i - 1].id == id;
        RemoveTrackIds(prev[1..], id);
      }
      assert multiset(Ids(r)) == multiset{prev[0].id} + multiset(Ids(tail)) by {
        RemoveTrackCons(prev, id);
        assert r[1..] == tail;
        IdsCons(r);
      }
    }
  }

  /** A plan that moves the item removes it from the queue as `rest`, and splices it back at the
    * anchor (one further for an "after" drop when `shiftAfter`), or at the end without one. */
  lemma {:induction false} MovedShape(prev: seq<PlaylistItem>, dragged: PlaylistItem, target: Option<PlaylistItem>,
                   isAfter: bool, shiftAfter: bool)
    requires PlanDropWith(prev, Some(dragged), target, isAfter, shiftAfter).Moved?
    ensures
      var plan := PlanDropWith(prev, Some(dragged), target, isAfter, shiftAfter);
      var sorted := SortByPosition(prev);
      var anchor := AnchorIndex(plan.rest, sorted, TargetIndex(sorted, target, isAfter));
      && plan.rest == RemoveTrack(prev, dragged.id)
      && plan.at == if anchor >= 0 then (if isAfter && shiftAfter then anchor + 1 else anchor) else |plan.rest|
  {
  }

  /** Splicing an item into the queue with that item taken out, then renumbering, only
    * rearranges ids when they are distinct and the item was in the queue. */
  lemma {:induction false} SpliceBackPermutesIds(prev: seq<PlaylistItem>, dragged: PlaylistItem, at: nat)
    requires DistinctIds(prev) && HasId(prev, dragged.id)
    requires at <= |RemoveTrack(prev, dragged.id)|
    ensures var r := Renumbered(Spliced(RemoveTrack(prev, dragged.id), at, dragged));
      && |r| == |prev|
      && multiset(Ids(r)) == multiset(Ids(prev))
      && DistinctIds(r)
  {
    var rest := RemoveTrack(prev, dragged.id);
    var r := Renumbered(Spliced(rest, at, dragged));
    assert multiset(Ids(r)) == multiset(Ids(prev)) by {
      RemoveTrackIds(prev, dragged.id);
      SplicedIds(rest, at, dragged);
    }
    assert |r| == |prev| by {
      assert |Ids(r)| == |multiset(Ids(r))| == |multiset(Ids(prev))| == |Ids(prev)|;
    }
    assert DistinctIds(r) by {
      DistinctIdsMeansDistinct(prev);
      Seqs.DistinctPermutation(Ids(prev), Ids(r));
      DistinctIdsMeansDistinct(r);
    }
  }

  /** Splicing an item in, then renumbering, adds its id to the ids of the queue. */
  lemma {:induction false} SplicedIds(rest: seq<PlaylistItem>, at: nat, dragged: PlaylistItem)
    requires at <= |rest|
    ensures multiset(Ids(Renumbered(Spliced(rest, at, dragged)))) == multiset(Ids(rest)) + multiset{dragged.id}
  {
    var sp := Spliced(rest, at, dragged);
    assert sp == rest[..at] + [dragged] + rest[at..];
    IdsSplice(rest[..at], dragged, rest[at..]);
    assert rest[..at] + rest[at..] == rest;
    RenumberedIds(sp);
  }

  /** A move of an item that is in a queue with distinct ids is a permutation of its ids: the
    * same length, the same ids, still distinct; with the drop-after slot counted once or twice
    * (`PlanDrop` and `PlanDropAsWritten` alike). */
  lemma {:induction false} MovePermutesIds(prev: seq<PlaylistItem>, dragged: PlaylistItem, target: Option<PlaylistItem>,
                                           isAfter: bool, shiftAfter: bool)
    requires DistinctIds(prev) && HasId(prev, dragged.id)
    requires PlanDropWith(prev, Some(dragged), target, isAfter, shiftAfter).Moved?
    ensures var r := ApplyDrop(prev, dragged, PlanDropWith(prev, Some(dragged), target, isAfter, shiftAfter));
      && |r| == |prev|
      && multiset(Ids(r)) == multiset(Ids(prev))
      && DistinctIds(r)
  {
    MovedShape(prev, dragged, target, isAfter, shiftAfter);
    var plan := PlanDropWith(prev, Some(dragged), target, isAfter, shiftAfter);
    SpliceBackPermutesIds(prev, dragged, plan.at);
  }

  /** With the slot counted once, the dragged item lands immediately before the item that held
    * slot `targetIndex` in position order (for a drop after the target: the item following it). */
  lemma {:induction false} PlanDropLandsBeforeAnchor(prev: seq<PlaylistItem>, dragged: PlaylistItem,
                                  target: Option<PlaylistItem>, isAfter: bool)
    requires
      var sorted := SortByPosition(prev);
      var plan := PlanDrop(prev, Some(dragged), target, isAfter);
      plan.Moved? && AnchorIndex(plan.rest, sorted, TargetIndex(sorted, target, isAfter)) >= 0
    ensures
      var sorted := SortByPosition(prev);
      var plan := PlanDrop(prev, Some(dragged), target, isAfter);
      var r := ApplyDrop(prev, dragged, plan);
      plan.at + 1 < |r| && r[plan.at].id == dragged.id
      && r[plan.at + 1].id == sorted[TargetIndex(sorted, target, isAfter)].id
  {
    var sorted := SortByPosition(prev);
    var plan := PlanDrop(prev, Some(dragged), target, isAfter);
    var anchor := AnchorIndex(plan.rest, sorted, TargetIndex(sorted, target, isAfter));
    assert plan.at == anchor by {
      MovedShape(prev, dragged, target, isAfter, false);
    }
    assert plan.rest[plan.at].id == sorted[TargetIndex(sorted, target, isAfter)].id;
    assert ApplyDrop(prev, dragged, plan) == Renumbered(Spliced(plan.rest, plan.at, dragged));
    SplicedAround(plan.rest, plan.at, dragged);
  }

  /** Around the slot an item is spliced into: the item, the queue's item before it and the
    * queue's item that held the slot. */
  lemma {:induction false} SplicedAround(rest: seq<PlaylistItem>, at: nat, dragged: PlaylistItem)
    requires at <= |rest|
    ensures var r := Renumbered(Spliced(rest, at, dragged));
      && |r| == |rest| + 1 && r[at].id == dragged.id
      && (at > 0 ==> r[at - 1].id == rest[at - 1].id)
      && (at < |rest| ==> r[at + 1].id == rest[at].id)
  {
  }

  /** As written, a drop after the target puts the dragged item immediately AFTER the item that
    * follows the target: one slot further than intended. */
  lemma {:induction false} PlanDropAsWrittenOvershoots(prev: seq<PlaylistItem>, dragged: PlaylistItem,
                                    target: Option<PlaylistItem>)
    requires
      var sorted := SortByPosition(prev);
      var plan := PlanDropAsWritten(prev, Some(dragged), target, true);
      plan.Moved? && AnchorIndex(plan.rest, sorted, TargetIndex(sorted, target, true)) >= 0
    ensures
      var sorted := SortByPosition(prev);
      var plan := PlanDropAsWritten(prev, Some(dragged), target, true);
      var r := ApplyDrop(prev, dragged, plan);
      0 < plan.at < |r| && r[plan.at].id == dragged.id
      && r[plan.at - 1].id == sorted[TargetIndex(sorted, target, true)].id
  {
    var plan := PlanDropAsWritten(prev, Some(dragged), target, true);
    AsWrittenSlot(prev, dragged, target);
    assert ApplyDrop(prev, dragged, plan) == Renumbered(Spliced(plan.rest, plan.at, dragged));
    SplicedAround(plan.rest, plan.at, dragged);
  }

  /** As written, a drop after the target splices in right behind the item that follows the
    * target. */
  lemma {:induction false} AsWrittenSlot(prev: seq<PlaylistItem>, dragged: PlaylistItem, target: Option<PlaylistItem>)
    requires
      var sorted := SortByPosition(prev);
      var plan := PlanDropAsWritten(prev, Some(dragged), target, true);
      plan.Moved? && AnchorIndex(plan.rest, sorted, TargetIndex(sorted, target, true)) >= 0
    ensures
      var sorted := SortByPosition(prev);
      var plan := PlanDropAsWritten(prev, Some(dragged), target, true);
      0 < plan.at <= |plan.rest| && plan.rest[plan.at - 1].id == sorted[TargetIndex(sorted, target, true)].id
  {
    MovedShape(prev, dragged, target, true, true);
  }

  // ---------------------------------------------------------------- ids kept by every reducer

  /** Skipping only re-marks the queue in position order: the same ids, as many times each. */
  lemma {:induction false} SkipKeepsIds(prev: seq<PlaylistItem>)
    ensures multiset(Ids(SkipToNext(prev))) == multiset(Ids(prev))
    ensures multiset(Ids(SkipToPrevious(prev))) == multiset(Ids(prev))
  {
    var sorted := SortByPosition(prev);
    SortKeepsIds(prev);
    if sorted != [] {
      var n := |sorted|;
      var k := FindPlaying(sorted);
      SetPlayingKeepsIds(sorted, sorted[NextIndex(k, n)].id);
      SetPlayingKeepsIds(sorted, sorted[PreviousIndex(k, n)].id);
      assert Ids(SkipToNext(prev)) == Ids(sorted);
      assert Ids(SkipToPrevious(prev)) == Ids(sorted);
    }
  }

  /** Removal leaves only ids that were there. */
  lemma {:induction false} RemoveTrackIdMembers(prev: seq<PlaylistItem>, id: string)
    ensures forall x :: x in Ids(RemoveTrack(prev, id)) ==> x in Ids(prev) && x != id
  {
    var r := RemoveTrack(prev, id);
    forall x | x in Ids(r) ensures x in Ids(prev) && x != id {
      var i :| 0 <= i < |r| && Ids(r)[i] == x;
      assert r[i] in prev;
      var j :| 0 <= j < |prev| && prev[j] == r[i];
      assert Ids(prev)[j] == x;
    }
  }

  /** Putting an item with a new id in front keeps ids distinct. */
  lemma {:induction false} DistinctIdsCons(head: PlaylistItem, s: seq<PlaylistItem>)
    requires DistinctIds(s) && !HasId(s, head.id)
    ensures DistinctIds([head] + s)
  {
    var t := [head] + s;
    forall i, j | 0 <= i < j < |t| ensures t[i].id != t[j].id {
      assert t[j] == s[j - 1];
      if i > 0 {
        assert t[i] == s[i - 1];
      }
    }
  }

  /** Removal keeps the remaining ids distinct. */
  lemma {:induction false} RemoveKeepsDistinct(prev: seq<PlaylistItem>, id: string)
    requires DistinctIds(prev)
    ensures DistinctIds(RemoveTrack(prev, id))
  {
    if prev != [] {
      DistinctIdsTail(prev);
      RemoveTrackCons(prev, id);
      RemoveKeepsDistinct(prev[1..], id);
      var r := RemoveTrack(prev[1..], id);
      if prev[0].id != id {
        forall i | 0 <= i < |r| ensures r[i].id != prev[0].id {
          assert r[i] in prev[1..];
        }
        DistinctIdsCons(prev[0], r);
      }
    }
  }

  /** Splicing an item whose id the queue lacks, then renumbering, keeps ids distinct, and the
    * ids of the result are those of the queue plus the item's. */
  lemma {:induction false} SpliceKeepsDistinct(rest: seq<PlaylistItem>, at: nat, dragged: PlaylistItem)
    requires at <= |rest| && DistinctIds(rest) && !HasId(rest, dragged.id)
    ensures var r := Renumbered(Spliced(rest, at, dragged));
      && DistinctIds(r)
      && multiset(Ids(r)) == multiset(Ids(rest)) + multiset{dragged.id}
  {
    var sp := Spliced(rest, at, dragged);
    var r := Renumbered(sp);
    forall i, j | 0 <= i < j < |r| ensures r[i].id != r[j].id {
      assert r[i].id == sp[i].id && r[j].id == sp[j].id;
    }
    SplicedIds(rest, at, dragged);
  }

  // ---------------------------------------------------------------- the drop-after slot, on a sample queue

  /** Four items in strictly increasing position with distinct ids, the third one's id not
    * empty: the shape of queue the examples below work on. */
  predicate FourInOrder(a: PlaylistItem, b: PlaylistItem, c: PlaylistItem, d: PlaylistItem) {
    && a.position < b.position < c.position < d.position
    && DistinctIds([a, b, c, d])
    && c.id != ""
  }

  /** Four items in position order are left as they are by the sort. */
  lemma {:induction false} SortFourInOrder(a: PlaylistItem, b: PlaylistItem, c: PlaylistItem, d: PlaylistItem)
    requires a.position < b.position < c.position < d.position
    ensures SortByPosition([a, b, c, d]) == [a, b, c, d]
  {
    assert SortedByPosition([a, b, c, d]);
    SortSortedIsIdentity([a, b, c, d]);
  }

  /** Removing the first of four items with distinct ids leaves the other three. */
  lemma {:induction false} RemoveFirstOfFour(a: PlaylistItem, b: PlaylistItem, c: PlaylistItem, d: PlaylistItem)
    requires a.id != b.id && a.id != c.id && a.id != d.id
    ensures RemoveTrack([a, b, c, d], a.id) == [b, c, d]
  {
    RemoveTrackCons([a, b, c, d], a.id);
    assert [a, b, c, d][1..] == [b, c, d];
    forall i | 0 <= i < 3 ensures [b, c, d][i].id != a.id {
    }
    RemoveKeepsAbsent([b, c, d], a.id);
  }

  /** The steps both plans share when the first of four items in order is dropped after the
    * second: the sort keeps the queue, the dragged item is in slot 0, the target slot is 2, and
    * the item in it sits in slot 1 of what is left. */
  lemma {:induction false} DropFirstAfterSecondSteps(a: PlaylistItem, b: PlaylistItem, c: PlaylistItem, d: PlaylistItem)
    requires FourInOrder(a, b, c, d)
    ensures SortByPosition([a, b, c, d]) == [a, b, c, d]
    ensures RemoveTrack([a, b, c, d], a.id) == [b, c, d]
    ensures FindId([a, b, c, d], a.id) == 0
    ensures TargetIndex([a, b, c, d], Some(b), true) == 2
    ensures AnchorIndex([b, c, d], [a, b, c, d], 2) == 1
  {
    var q := [a, b, c, d];
    assert q[0].id != q[1].id && q[0].id != q[2].id && q[0].id != q[3].id && q[1].id != q[2].id;
    SortFourInOrder(a, b, c, d);
    RemoveFirstOfFour(a, b, c, d);
    assert FindId(q, b.id) == 1;
    assert FindId([b, c, d], c.id) == 1;
  }

  /** As written, the first of four items dropped after the second goes to slot 2 of the rest. */
  lemma {:induction false} DropFirstAfterSecondAsWrittenPlan(a: PlaylistItem, b: PlaylistItem, c: PlaylistItem, d: PlaylistItem)
    requires FourInOrder(a, b, c, d)
    ensures PlanDropAsWritten([a, b, c, d], Some(a), Some(b), true) == Moved([b, c, d], 2)
  {
    DropFirstAfterSecondSteps(a, b, c, d);
  }

  /** Counted once, the same drop goes to slot 1 of the rest. */
  lemma {:induction false} DropFirstAfterSecondPlan(a: PlaylistItem, b: PlaylistItem, c: PlaylistItem, d: PlaylistItem)
    requires FourInOrder(a, b, c, d)
    ensures PlanDrop([a, b, c, d], Some(a), Some(b), true) == Moved([b, c, d], 1)
  {
    DropFirstAfterSecondSteps(a, b, c, d);
  }

  lemma {:induction false} IdsOfFour(w: PlaylistItem, x: PlaylistItem, y: PlaylistItem, z: PlaylistItem)
    ensures Ids([w, x, y, z]) == [w.id, x.id, y.id, z.id]
  {
  }

  /** Splicing at the end appends. */
  lemma {:induction false} SplicedAtEnd(rest: seq<PlaylistItem>, dragged: PlaylistItem)
    ensures Spliced(rest, |rest|, dragged) == rest + [dragged]
  {
    assert rest[..|rest|] == rest && rest[|rest|..] == [];
  }

  /** Renumbering puts a queue in position order. */
  lemma {:induction false} RenumberedIsSorted(s: seq<PlaylistItem>)
    ensures SortedByPosition(Renumbered(s))
  {
    var r := Renumbered(s);
    forall i, j | 0 <= i < j < |r| ensures r[i].position <= r[j].position {
      assert r[i].position == (i + 1) as real && r[j].position == (j + 1) as real;
    }
  }

  /** Renumbering leaves the ids as they are. */
  lemma {:induction false} RenumberedIds(s: seq<PlaylistItem>)
    ensures Ids(Renumbered(s)) == Ids(s)
  {
  }

  /** Splicing the first of four items back in behind the third gives b, c, a, d... */
  lemma {:induction false} MoveFirstToThird(a: PlaylistItem, b: PlaylistItem, c: PlaylistItem, d: PlaylistItem)
    ensures Ids(ApplyDrop([a, b, c, d], a, Moved([b, c, d], 2))) == [b.id, c.id, a.id, d.id]
  {
    var sp := Spliced([b, c, d], 2, a);
    assert sp == [b, c, a, d];
    RenumberedIds(sp);
    IdsOfFour(b, c, a, d);
  }

  /** ... and behind the second, b, a, c, d. */
  lemma {:induction false} MoveFirstToSecond(a: PlaylistItem, b: PlaylistItem, c: PlaylistItem, d: PlaylistItem)
    ensures Ids(ApplyDrop([a, b, c, d], a, Moved([b, c, d], 1))) == [b.id, a.id, c.id, d.id]
  {
    var sp := Spliced([b, c, d], 1, a);
    assert sp == [b, a, c, d];
    RenumberedIds(sp);
    IdsOfFour(b, a, c, d);
  }

  /** As written: with a, b, c, d in position order, dragging a and dropping it after b gives
    * b, c, a, d. */
  lemma {:induction false} DropAfterAsWrittenExample(a: PlaylistItem, b: PlaylistItem, c: PlaylistItem, d: PlaylistItem)
    requires FourInOrder(a, b, c, d)
    ensures Ids(ApplyDrop([a, b, c, d], a, PlanDropAsWritten([a, b, c, d], Some(a), Some(b), true)))
         == [b.id, c.id, a.id, d.id]
  {
    DropFirstAfterSecondAsWrittenPlan(a, b, c, d);
    MoveFirstToThird(a, b, c, d);
  }

  /** Counted once: the same drop gives b, a, c, d. */
  lemma {:induction false} DropAfterExample(a: PlaylistItem, b: PlaylistItem, c: PlaylistItem, d: PlaylistItem)
    requires FourInOrder(a, b, c, d)
    ensures Ids(ApplyDrop([a, b, c, d], a, PlanDrop([a, b, c, d], Some(a), Some(b), true)))
         == [b.id, a.id, c.id, d.id]
  {
    DropFirstAfterSecondPlan(a, b, c, d);
    MoveFirstToSecond(a, b, c, d);
  }

  // ---------------------------------------------------------------- a drop on an item, as the page wires it

  /** `handleDropBetween(item, false)`: the handler of an item's drop zone, run once. */
  function DropOnItem(prev: seq<PlaylistItem>, dragged: PlaylistItem, item: PlaylistItem): seq<PlaylistItem> {
    ApplyDrop(prev, dragged, PlanDrop(prev, Some(dragged), Some(item), false))
  }

  /** `handleDropBetween(null, false)`: the handler of the queue's own drop zone. */
  function DropOnQueue(prev: seq<PlaylistItem>, dragged: PlaylistItem): seq<PlaylistItem> {
    ApplyDrop(prev, dragged, PlanDrop(prev, Some(dragged), None, false))
  }

  /** A drop on an item as the page wires it: the item's zone sits inside the queue's zone and
    * neither stops the event, so the item's handler runs and then the queue's. Both read the
    * same `draggedItem`, and the second update starts from the queue the first one left. */
  function DropOnItemAsWired(prev: seq<PlaylistItem>, dragged: PlaylistItem, item: PlaylistItem): seq<PlaylistItem> {
    DropOnQueue(DropOnItem(prev, dragged, item), dragged)
  }

  lemma {:induction false} HasIdInIds(s: seq<PlaylistItem>, id: string)
    ensures HasId(s, id) <==> id in Ids(s)
  {
    if HasId(s, id) {
      var i :| 0 <= i < |s| && s[i].id == id;
      assert Ids(s)[i] == id;
    }
    if id in Ids(s) {
      var i :| 0 <= i < |Ids(s)| && Ids(s)[i] == id;
      assert s[i].id == id;
    }
  }

  /** Ids in the same multiset: an id is in one queue exactly when it is in the other. */
  lemma {:induction false} SameIdsHasId(s: seq<PlaylistItem>, t: seq<PlaylistItem>, id: string)
    requires multiset(Ids(s)) == multiset(Ids(t))
    ensures HasId(s, id) <==> HasId(t, id)
  {
    HasIdInIds(s, id);
    HasIdInIds(t, id);
    assert id in Ids(s) <==> id in multiset(Ids(s));
    assert id in Ids(t) <==> id in multiset(Ids(t));
  }

  /** Dropped on the queue's own zone, an item already last in position order stays put... */
  lemma {:induction false} DropOnQueueKeepsLast(s: seq<PlaylistItem>, dragged: PlaylistItem)
    requires |s| > 0 && FindId(SortByPosition(s), dragged.id) == |s| - 1
    ensures DropOnQueue(s, dragged) == s
  {
    assert TargetIndex(SortByPosition(s), None, false) == |s|;
  }

  /** ... and any other item is spliced back behind the rest, which is renumbered... */
  lemma {:induction false} DropOnQueueMovedShape(s: seq<PlaylistItem>, dragged: PlaylistItem)
    requires 0 <= FindId(SortByPosition(s), dragged.id) < |s| - 1
    ensures var rest := RemoveTrack(s, dragged.id);
      DropOnQueue(s, dragged) == Renumbered(Spliced(rest, |rest|, dragged))
  {
    var sorted := SortByPosition(s);
    assert TargetIndex(sorted, None, false) == |s|;
    PlanDropMoves(s, dragged, None, false, FindId(sorted, dragged.id), |s|, RemoveTrack(s, dragged.id), -1);
  }

  /** ... so in a queue with distinct ids it moves behind all the others. */
  lemma {:induction false} DropOnQueueMovesToEnd(s: seq<PlaylistItem>, dragged: PlaylistItem)
    requires DistinctIds(s) && HasId(s, dragged.id)
    ensures var rest := RemoveTrack(s, dragged.id);
      var r := Renumbered(Spliced(rest, |rest|, dragged));
      && |r| == |s| && multiset(Ids(r)) == multiset(Ids(s)) && DistinctIds(r)
      && SortByPosition(r) == r && r[|r| - 1].id == dragged.id
  {
    var rest := RemoveTrack(s, dragged.id);
    var sp := Spliced(rest, |rest|, dragged);
    var r := Renumbered(sp);
    assert |r| == |s| && multiset(Ids(r)) == multiset(Ids(s)) && DistinctIds(r) by {
      SpliceBackPermutesIds(s, dragged, |rest|);
    }
    assert SortByPosition(r) == r by {
      RenumberedIsSorted(sp);
      SortSortedIsIdentity(r);
    }
    assert r[|r| - 1].id == sp[|rest|].id;
  }

  /** Dropped on the queue's own zone, an item of a queue with distinct ids ends up last in
    * position order, and the queue keeps its ids. */
  lemma {:induction false} DropOnQueueLandsLast(s: seq<PlaylistItem>, dragged: PlaylistItem)
    requires DistinctIds(s) && HasId(s, dragged.id)
    ensures var r := DropOnQueue(s, dragged);
      && |r| == |s| && multiset(Ids(r)) == multiset(Ids(s)) && DistinctIds(r)
      && SortByPosition(r)[|r| - 1].id == dragged.id
  {
    var sorted := SortByPosition(s);
    var k := FindId(sorted, dragged.id);
    assert 0 <= k < |s| by {
      SortKeepsIds(s);
      SameIdsHasId(s, sorted, dragged.id);
    }
    if k == |s| - 1 {
      DropOnQueueKeepsLast(s, dragged);
    } else {
      DropOnQueueMovedShape(s, dragged);
      DropOnQueueMovesToEnd(s, dragged);
    }
  }

  /** A drop on an item, handled once, keeps the ids of a queue with distinct ids. */
  lemma {:induction false} DropOnItemKeepsIds(prev: seq<PlaylistItem>, dragged: PlaylistItem, item: PlaylistItem)
    requires DistinctIds(prev) && HasId(prev, dragged.id)
    ensures var once := DropOnItem(prev, dragged, item);
      && |once| == |prev| && multiset(Ids(once)) == multiset(Ids(prev))
      && DistinctIds(once) && HasId(once, dragged.id)
  {
    var once := DropOnItem(prev, dragged, item);
    assert |once| == |prev| && multiset(Ids(once)) == multiset(Ids(prev)) && DistinctIds(once) by {
      if PlanDrop(prev, Some(dragged), Some(item), false).Moved? {
        MovePermutesIds(prev, dragged, Some(item), false, false);
      }
    }
    SameIdsHasId(once, prev, dragged.id);
  }

  /** As wired, a drop on any item, the dragged item itself included, leaves the dragged item
    * last in position order: the queue's handler undoes the item's. */
  lemma {:induction false} DropOnItemAsWiredLandsLast(prev: seq<PlaylistItem>, dragged: PlaylistItem, item: PlaylistItem)
    requires DistinctIds(prev) && HasId(prev, dragged.id)
    ensures var r := DropOnItemAsWired(prev, dragged, item);
      && |r| == |prev| && multiset(Ids(r)) == multiset(Ids(prev))
      && SortByPosition(r)[|r| - 1].id == dragged.id
  {
    var once := DropOnItem(prev, dragged, item);
    DropOnItemKeepsIds(prev, dragged, item);
    DropOnQueueLandsLast(once, dragged);
  }

  /** `RemoveTrack` keeps a head that carries another id... */
  lemma {:induction false} RemoveTrackKeepsHead(h: PlaylistItem, t: seq<PlaylistItem>, id: string)
    requires h.id != id
    ensures RemoveTrack([h] + t, id) == [h] + RemoveTrack(t, id)
  {
    RemoveTrackCons([h] + t, id);
    assert ([h] + t)[1..] == t;
  }

  /** ... and drops one that carries it. */
  lemma {:induction false} RemoveTrackDropsHead(h: PlaylistItem, t: seq<PlaylistItem>, id: string)
    requires h.id == id
    ensures RemoveTrack([h] + t, id) == RemoveTrack(t, id)
  {
    RemoveTrackCons([h] + t, id);
    assert ([h] + t)[1..] == t;
  }

  /** Removing an id carried by the second item only leaves the first and the tail. */
  lemma {:induction false} RemoveSecond(w: PlaylistItem, x: PlaylistItem, t: seq<PlaylistItem>)
    requires w.id != x.id && !HasId(t, x.id)
    ensures RemoveTrack([w, x] + t, x.id) == [w] + t
  {
    RemoveKeepsAbsent(t, x.id);
    RemoveTrackDropsHead(x, t, x.id);
    RemoveTrackKeepsHead(w, [x] + t, x.id);
    assert [w, x] + t == [w] + ([x] + t);
  }

  /** The third of four items is found in slot 2 when the first two have other ids. */
  lemma {:induction false} FindThirdOfFour(w: PlaylistItem, x: PlaylistItem, y: PlaylistItem, z: PlaylistItem)
    requires w.id != y.id && x.id != y.id
    ensures FindId([w, x, y, z], y.id) == 2
  {
    assert [w, x, y, z][1..] == [x, y, z];
    assert [x, y, z][1..] == [y, z];
    assert FindId([y, z], y.id) == 0;
    assert FindId([x, y, z], y.id) == 1;
  }

  /** The plan of a drop that is neither on the dragged item nor next to its slot, given its
    * intermediate values. */
  lemma {:induction false} PlanDropMoves(prev: seq<PlaylistItem>, dragged: PlaylistItem, target: Option<PlaylistItem>,
                                         isAfter: bool, d: int, t: int, rest: seq<PlaylistItem>, anchor: int)
    requires !(target.Some? && dragged.id == target.value.id)
    requires FindId(SortByPosition(prev), dragged.id) == d && TargetIndex(SortByPosition(prev), target, isAfter) == t
    requires d != t && d != t - 1
    requires RemoveTrack(prev, dragged.id) == rest && AnchorIndex(rest, SortByPosition(prev), t) == anchor
    ensures PlanDrop(prev, Some(dragged), target, isAfter) == Moved(rest, if anchor >= 0 then anchor else |rest|)
  {
  }

  /** Dropped onto the third of four items in order, the first goes to slot 1 of the rest. */
  lemma {:induction false} DropFirstOnThirdPlan(a: PlaylistItem, b: PlaylistItem, c: PlaylistItem, d: PlaylistItem)
    requires FourInOrder(a, b, c, d)
    ensures PlanDrop([a, b, c, d], Some(a), Some(c), false) == Moved([b, c, d], 1)
  {
    var q := [a, b, c, d];
    assert a.id != c.id && b.id != c.id by {
      assert q[0].id != q[2].id && q[1].id != q[2].id;
    }
    assert TargetIndex(q, Some(c), false) == 2 by {
      FindThirdOfFour(a, b, c, d);
      DropFirstAfterSecondSteps(a, b, c, d);
    }
    assert SortByPosition(q) == q && FindId(q, a.id) == 0 && RemoveTrack(q, a.id) == [b, c, d]
        && AnchorIndex([b, c, d], q, 2) == 1 by {
      DropFirstAfterSecondSteps(a, b, c, d);
    }
    PlanDropMoves(q, a, Some(c), false, 0, 2, [b, c, d], 1);
  }

  /** Handled once: with a, b, c, d in position order, dragging a onto c gives b, a, c, d,
    * renumbered. */
  lemma {:induction false} DropOnThirdOnce(a: PlaylistItem, b: PlaylistItem, c: PlaylistItem, d: PlaylistItem)
    requires FourInOrder(a, b, c, d)
    ensures DropOnItem([a, b, c, d], a, c) == Renumbered([b, a, c, d])
  {
    assert PlanDrop([a, b, c, d], Some(a), Some(c), false) == Moved([b, c, d], 1) by {
      DropFirstOnThirdPlan(a, b, c, d);
    }
    SplicedSecond(a, b, c, d);
  }

  lemma {:induction false} SplicedSecond(a: PlaylistItem, b: PlaylistItem, c: PlaylistItem, d: PlaylistItem)
    ensures Spliced([b, c, d], 1, a) == [b, a, c, d]
  {
  }

  lemma {:induction false} DropOnThirdExample(a: PlaylistItem, b: PlaylistItem, c: PlaylistItem, d: PlaylistItem)
    requires FourInOrder(a, b, c, d)
    ensures Ids(DropOnItem([a, b, c, d], a, c)) == [b.id, a.id, c.id, d.id]
  {
    DropOnThirdOnce(a, b, c, d);
    RenumberedIds([b, a, c, d]);
    IdsOfFour(b, a, c, d);
  }

  /** Taking the second of four items out of the queue by its id leaves the other three. */
  lemma {:induction false} SecondOfFourRest(s: seq<PlaylistItem>, dragged: PlaylistItem)
    requires |s| == 4 && s[1].id == dragged.id
    requires s[0].id != dragged.id && s[2].id != dragged.id && s[3].id != dragged.id
    ensures RemoveTrack(s, dragged.id) == [s[0], s[2], s[3]]
  {
    var tail := [s[2], s[3]];
    assert !HasId(tail, dragged.id);
    assert s == [s[0], s[1]] + tail;
    RemoveSecond(s[0], s[1], tail);
    assert [s[0]] + tail == [s[0], s[2], s[3]];
  }

  /** Dropped on the queue's own zone, the second of four items in position order is planned
    * to go behind the other three... */
  lemma {:induction false} DropSecondOnQueuePlan(s: seq<PlaylistItem>, dragged: PlaylistItem)
    requires |s| == 4 && SortedByPosition(s) && s[1].id == dragged.id
    requires s[0].id != dragged.id && s[2].id != dragged.id && s[3].id != dragged.id
    ensures PlanDrop(s, Some(dragged), None, false) == Moved([s[0], s[2], s[3]], 3)
  {
    assert RemoveTrack(s, dragged.id) == [s[0], s[2], s[3]] by {
      SecondOfFourRest(s, dragged);
    }
    assert FindId(SortByPosition(s), dragged.id) == 1 by {
      SortSortedIsIdentity(s);
      assert s[1..][0].id == dragged.id;
    }
    assert TargetIndex(SortByPosition(s), None, false) == 4;
    PlanDropMoves(s, dragged, None, false, 1, 4, [s[0], s[2], s[3]], -1);
  }

  /** ... and goes there. */
  lemma {:induction false} DropSecondOnQueue(s: seq<PlaylistItem>, dragged: PlaylistItem)
    requires |s| == 4 && SortedByPosition(s) && s[1].id == dragged.id
    requires s[0].id != dragged.id && s[2].id != dragged.id && s[3].id != dragged.id
    ensures Ids(DropOnQueue(s, dragged)) == [s[0].id, s[2].id, s[3].id, dragged.id]
  {
    var rest := [s[0], s[2], s[3]];
    DropSecondOnQueuePlan(s, dragged);
    assert Spliced(rest, 3, dragged) == [s[0], s[2], s[3], dragged] by {
      SplicedAtEnd(rest, dragged);
    }
    RenumberedIds([s[0], s[2], s[3], dragged]);
    IdsOfFour(s[0], s[2], s[3], dragged);
  }

  /** As wired: the same drop runs on to the queue's handler, which moves a to the end, giving
    * b, c, d, a. */
  lemma {:induction false} DropOnThirdAsWiredExample(a: PlaylistItem, b: PlaylistItem, c: PlaylistItem, d: PlaylistItem)
    requires FourInOrder(a, b, c, d)
    ensures Ids(DropOnItemAsWired([a, b, c, d], a, c)) == [b.id, c.id, d.id, a.id]
  {
    var once := Renumbered([b, a, c, d]);
    DropOnThirdOnce(a, b, c, d);
    assert once[0].id != a.id && once[2].id != a.id && once[3].id != a.id by {
      var q := [a, b, c, d];
      assert q[0].id != q[1].id && q[0].id != q[2].id && q[0].id != q[3].id;
    }
    assert SortedByPosition(once) by {
      RenumberedIsSorted([b, a, c, d]);
    }
    DropSecondOnQueue(once, a);
  }
}
