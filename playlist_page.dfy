/** The playlist page component: its queue, the item being dragged, the error banner, the
  * page-level playing flag, the play history and the counter that numbers new queue items.
  * Each handler runs the matching reducer of `Playlist`/`PlaylistOrder` on the queue. */
module PlaylistPage {
  import opened Wrappers
  import opened Playlist
  import opened PlaylistOrder
  import Numbers
  import Seqs
  import PlayerStore

  /** `p${playlistIdRef.current}`: the id the counter value `k` hands out. */
  function ItemId(k: nat): (id: string)
    ensures |id| >= 2 && id[0] == 'p' && id[1..] == Numbers.NatToString(k)
  {
    "p" + Numbers.NatToString(k)
  }

  /** Different counter values give different ids. */
  lemma {:induction false} ItemIdInjective(j: nat, k: nat)
    requires ItemId(j) == ItemId(k)
    ensures j == k
  {
    Numbers.NatToStringInjective(j, k);
  }

  /** `id` was handed out by the counter before it reached `bound`. */
  ghost predicate Issued(id: string, bound: nat) {
    exists k: nat :: k < bound && id == ItemId(k)
  }

  /** An id handed out below `bound` is not the id handed out at `bound`. */
  lemma {:induction false} IssuedIsNotNext(id: string, bound: nat)
    requires Issued(id, bound)
    ensures id != ItemId(bound)
  {
    var k: nat :| k < bound && id == ItemId(k);
    if id == ItemId(bound) {
      ItemIdInjective(k, bound);
    }
  }

  /** Appending the item numbered `bound` to a queue of issued ids keeps the ids distinct and
    * issued below `bound + 1`. */
  lemma {:induction false} AppendedIssued(prev: seq<PlaylistItem>, r: seq<PlaylistItem>, bound: nat)
    requires DistinctIds(prev) && forall id :: id in Ids(prev) ==> Issued(id, bound)
    requires |r| == |prev| + 1 && r[..|prev|] == prev && r[|prev|].id == ItemId(bound)
    ensures DistinctIds(r) && forall id :: id in Ids(r) ==> Issued(id, bound + 1)
  {
    var n := |prev|;
    var item := r[n];
    assert r == prev + [item];
    forall i | 0 <= i < n ensures prev[i].id != item.id {
      assert prev[i].id in Ids(prev) by {
        assert Ids(prev)[i] == prev[i].id;
      }
      IssuedIsNotNext(prev[i].id, bound);
    }
    IdsAppend(prev, [item]);
    assert Issued(item.id, bound + 1);
    forall id | id in Ids(r) ensures Issued(id, bound + 1) {
      if id != item.id {
        assert id in Ids(prev);
        var k: nat :| k < bound && id == ItemId(k);
      }
    }
  }

  /** Moving an issued item into a queue of other issued items keeps the ids distinct and
    * issued. */
  lemma {:induction false} SplicedIssued(rest: seq<PlaylistItem>, at: nat, dragged: PlaylistItem, bound: nat)
    requires at <= |rest| && DistinctIds(rest) && !HasId(rest, dragged.id)
    requires forall id :: id in Ids(rest) ==> Issued(id, bound)
    requires Issued(dragged.id, bound)
    ensures var r := Renumbered(Spliced(rest, at, dragged));
      DistinctIds(r) && forall id :: id in Ids(r) ==> Issued(id, bound)
  {
    var r := Renumbered(Spliced(rest, at, dragged));
    SpliceKeepsDistinct(rest, at, dragged);
    forall id | id in Ids(r) ensures Issued(id, bound) {
      assert id in multiset(Ids(r));
      if id != dragged.id {
        assert id in multiset(Ids(rest));
      }
    }
  }

  /** The queue a move leaves behind keeps distinct, issued ids. */
  lemma {:induction false} MovedIssued(prev: seq<PlaylistItem>, dragged: PlaylistItem, target: Option<PlaylistItem>,
                    isAfter: bool, shiftAfter: bool, bound: nat)
    requires DistinctIds(prev) && forall id :: id in Ids(prev) ==> Issued(id, bound)
    requires Issued(dragged.id, bound)
    requires PlanDropWith(prev, Some(dragged), target, isAfter, shiftAfter).Moved?
    ensures var plan := PlanDropWith(prev, Some(dragged), target, isAfter, shiftAfter);
      var r := Renumbered(Spliced(plan.rest, plan.at, dragged));
      DistinctIds(r) && forall id :: id in Ids(r) ==> Issued(id, bound)
  {
    var plan := PlanDropWith(prev, Some(dragged), target, isAfter, shiftAfter);
    assert plan.rest == RemoveTrack(prev, dragged.id) by {
      MovedShape(prev, dragged, target, isAfter, shiftAfter);
    }
    RemoveKeepsDistinct(prev, dragged.id);
    RemoveTrackIdMembers(prev, dragged.id);
    SplicedIssued(plan.rest, plan.at, dragged, bound);
  }

  /** One line of the play history; `playedAt` in milliseconds since the epoch. */
  datatype HistoryEntry = HistoryEntry(id: string, title: string, artist: string, playedAt: int,
                                       duration: int, votes: int)

  /** The history keeps the newest entry and at most this many in all. */
  const HistoryLimit: nat := 50

  /** The three entries the page starts with, played one, two and three days before `now`. */
  function InitialHistory(now: int): seq<HistoryEntry> {
    [ HistoryEntry("h1", "Midnight Dreams", "The Echoes", now - 86400000, 240, 3),
      HistoryEntry("h2", "Summer Breeze", "Luna Sky", now - 172800000, 200, 2),
      HistoryEntry("h3", "Urban Jungle", "City Beats", now - 259200000, 280, 5) ]
  }

  /** The entry `handleSetPlaying` records for an item started at time `now`. */
  function PlayEntry(item: PlaylistItem, now: int): HistoryEntry {
    HistoryEntry("h" + Numbers.IntToString(now), item.track.title, item.track.artist, now,
                 item.track.durationSeconds, item.votes)
  }

  /** `prev.slice(0, n)`. */
  function Take<T>(s: seq<T>, n: nat): (r: seq<T>)
    ensures |r| == if |s| <= n then |s| else n
    ensures r == s[..|r|]
  {
    if |s| <= n then s else s[..n]
  }

  /** `newPlaylist.splice(at, 0, item)` on a fresh copy of `rest`: shift the tail one slot to
    * the right, from the back, and write the item into the gap. */
  method SpliceIn(rest: seq<PlaylistItem>, at: nat, item: PlaylistItem) returns (r: seq<PlaylistItem>)
    requires at <= |rest|
    ensures r == Spliced(rest, at, item)
  {
    var a := new PlaylistItem[|rest| + 1](i => if 0 <= i < |rest| then rest[i] else item);
    var i := |rest|;
    while i > at
      invariant at <= i <= |rest|
      invariant forall j :: 0 <= j < i ==> a[j] == rest[j]
      invariant forall j :: i < j <= |rest| ==> a[j] == rest[j - 1]
      decreases i
    {
      a[i] := a[i - 1];
      i := i - 1;
    }
    a[at] := item;
    r := a[..];
  }

  /** Every field of the page the handlers touch, as one value. */
  datatype PageState = PageState(playlist: seq<PlaylistItem>, draggedItem: Option<PlaylistItem>,
                                 error: Option<string>, isPlaying: bool, history: seq<HistoryEntry>,
                                 nextId: nat)

  class Home {
    var playlist: seq<PlaylistItem>
    var draggedItem: Option<PlaylistItem>
    var error: Option<string>
    var isPlaying: bool
    var history: seq<HistoryEntry>
    /** `playlistIdRef.current`. */
    var nextId: nat

    function State(): PageState
      reads this
    {
      PageState(playlist, draggedItem, error, isPlaying, history, nextId)
    }

    /** Queue ids are distinct and all come from the counter (the dragged item's too), and the
      * history is bounded. */
    ghost predicate Valid()
      reads this
    {
      && DistinctIds(playlist)
      && (forall id :: id in Ids(playlist) ==> Issued(id, nextId))
      && (draggedItem.Some? ==> Issued(draggedItem.value.id, nextId))
      && |history| <= HistoryLimit
    }

    /** An empty queue, nothing dragged, no error, paused, the demo history, counter at 2. */
    constructor (now: int)
      ensures Valid()
      ensures State() == PageState([], None, None, false, InitialHistory(now), 2)
    {
      playlist := [];
      draggedItem := None;
      error := None;
      isPlaying := false;
      history := InitialHistory(now);
      nextId := 2;
    }

    /** `handleAddTrack`: a track already queued only raises the error; otherwise the item with
      * the next counter id is appended and the counter moves on. */
    method AddTrack(track: Track, addedAt: string)
      requires Valid()
      modifies this
      ensures Valid()
      ensures var res := Playlist.AddTrack(old(playlist), track, ItemId(old(nextId)), addedAt);
        if res.error.Some?
        then State() == old(State()).(error := res.error)
        else State() == old(State()).(playlist := res.playlist, nextId := old(nextId) + 1)
    {
      var res := Playlist.AddTrack(playlist, track, ItemId(nextId), addedAt);
      if res.error.Some? {
        error := res.error;
      } else {
        AppendedIssued(playlist, res.playlist, nextId);
        playlist := res.playlist;
        nextId := nextId + 1;
      }
    }

    /** `handleRemoveTrack`. */
    method RemoveTrack(id: string)
      requires Valid()
      modifies this
      ensures Valid()
      ensures State() == old(State()).(playlist := Playlist.RemoveTrack(old(playlist), id))
    {
      RemoveKeepsDistinct(playlist, id);
      RemoveTrackIdMembers(playlist, id);
      playlist := Playlist.RemoveTrack(playlist, id);
    }

    /** `handleVote` (its analytics update is not part of this model). */
    method Vote(id: string, direction: VoteDirection)
      requires Valid()
      modifies this
      ensures Valid()
      ensures State() == old(State()).(playlist := Playlist.Vote(old(playlist), id, direction))
    {
      var r := Playlist.Vote(playlist, id, direction);
      forall i | 0 <= i < |r| ensures r[i].id == playlist[i].id {
        assert r[i].(votes := playlist[i].votes) == playlist[i];
      }
      assert Ids(r) == Ids(playlist);
      playlist := r;
    }

    /** `handleSetPlaying`: marks the item, plays, rewinds the store; when the id is queued, the
      * store takes its track and the history gains an entry in front, keeping 50 at most. */
    method SetPlaying(id: string, store: PlayerStore.Store, now: int)
      requires Valid()
      modifies this, store
      ensures Valid()
      ensures var k := FindId(old(playlist), id);
        if k >= 0 then
          && store.State() == PlayerStore.Snapshot(Some(old(playlist)[k].track), true, 0.0)
          && State() == old(State()).(playlist := Playlist.SetPlaying(old(playlist), id), isPlaying := true,
                                      history := [PlayEntry(old(playlist)[k], now)] + Take(old(history), HistoryLimit - 1))
        else
          && store.State() == old(store.State()).(progress := 0.0)
          && State() == old(State()).(playlist := Playlist.SetPlaying(old(playlist), id), isPlaying := true)
    {
      var prev := playlist;
      var k := FindId(prev, id);
      SetPlayingKeepsIds(playlist, id);
      var r := Playlist.SetPlaying(playlist, id);
      assert Ids(r) == Ids(playlist);
      playlist := r;
      isPlaying := true;
      store.SetProgress(0.0);
      if k >= 0 {
        var item := prev[k];
        store.SetTrack(Some(item.track));
        history := [PlayEntry(item, now)] + Take(history, HistoryLimit - 1);
      }
    }

    /** `handleDragStart`: remembers which queued item is being dragged. */
    method DragStart(item: PlaylistItem)
      requires Valid() && item in playlist
      modifies this
      ensures Valid()
      ensures State() == old(State()).(draggedItem := Some(item))
    {
      var i :| 0 <= i < |playlist| && playlist[i] == item;
      assert Ids(playlist)[i] == item.id;
      draggedItem := Some(item);
    }

    /** One run of `handleDropBetween` as every drop zone of the page calls it, dropping before
      * `target` (`isAfter` false, where the handler as written and `PlanDrop` agree, as
      * `PlaylistOrder.PlanDropAgreesBefore` shows): nothing happens
      * without a dragged item or when dropping it onto itself; a drop next to its own slot only
      * ends the drag; otherwise the item moves and the queue is renumbered 1..n. A drop on an
      * item also reaches the queue's zone and runs the handler a second time; that run is
      * `PlaylistOrder.DropOnItemAsWired`. */
    method DropBetween(target: Option<PlaylistItem>)
      requires Valid()
      modifies this
      ensures Valid()
      ensures var plan := PlanDrop(old(playlist), old(draggedItem), target, false);
        match plan
        case Ignored => State() == old(State())
        case Kept => State() == old(State()).(draggedItem := None)
        case Moved(rest, at) =>
          State() == old(State()).(playlist := Renumbered(Spliced(rest, at, old(draggedItem).value)),
                                   draggedItem := None)
    {
      var plan := PlanDrop(playlist, draggedItem, target, false);
      match plan {
        case Ignored =>
        case Kept =>
          draggedItem := None;
        case Moved(rest, at) =>
          var dragged := draggedItem.value;
          MovedIssued(playlist, dragged, target, false, false, nextId);
          var spliced := SpliceIn(rest, at, dragged);
          playlist := Renumbered(spliced);
          draggedItem := None;
      }
    }

    /** `handleSkipToNext`. */
    method SkipToNext()
      requires Valid()
      modifies this
      ensures Valid()
      ensures State() == old(State()).(playlist := PlaylistOrder.SkipToNext(old(playlist)))
    {
      var r := PlaylistOrder.SkipToNext(playlist);
      KeepsValid(r);
      playlist := r;
    }

    /** `handleSkipToPrevious`. */
    method SkipToPrevious()
      requires Valid()
      modifies this
      ensures Valid()
      ensures State() == old(State()).(playlist := PlaylistOrder.SkipToPrevious(old(playlist)))
    {
      var r := PlaylistOrder.SkipToPrevious(playlist);
      KeepsValid(r);
      playlist := r;
    }

    /** A queue with the same ids, as often each, may replace the current one. */
    lemma {:induction false} KeepsValid(r: seq<PlaylistItem>)
      requires Valid()
      requires r == PlaylistOrder.SkipToNext(playlist) || r == PlaylistOrder.SkipToPrevious(playlist)
      ensures DistinctIds(r) && forall id :: id in Ids(r) ==> Issued(id, nextId)
    {
      SkipKeepsIds(playlist);
      assert |Ids(r)| == |Ids(playlist)|;
      DistinctIdsMeansDistinct(playlist);
      Seqs.DistinctPermutation(Ids(playlist), Ids(r));
      DistinctIdsMeansDistinct(r);
      forall id | id in Ids(r) ensures Issued(id, nextId) {
        assert id in multiset(Ids(playlist));
      }
    }
  }
}
