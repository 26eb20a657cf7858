/** The playlist records of app/page.tsx and the pure `setPlaylist(prev => ...)` reducers that
  * add, remove, vote on and mark items, with the derived total duration and most-voted title. */
module Playlist {
  import opened Wrappers
  import Seqs

  /** A library track as the page receives it (`interface Track`). */
  datatype Track = Track(
    id: string,
    title: string,
    artist: string,
    album: string,
    durationSeconds: int,
    genre: string,
    category: Option<string>,
    audioUrl: Option<string>,
    coverUrl: Option<string>,
    lyrics: Option<string>,
    duration: Option<string>)

  /** A queue entry (`interface PlaylistItem`); `position` is its ordering key. */
  datatype PlaylistItem = PlaylistItem(
    id: string,
    trackId: string,
    track: Track,
    position: real,
    votes: int,
    addedBy: string,
    addedAt: string,
    isPlaying: bool,
    isFavorite: Option<bool>)

  /** Queue entries are told apart by `id`. */
  predicate DistinctIds(s: seq<PlaylistItem>) {
    forall i, j :: 0 <= i < j < |s| ==> s[i].id != s[j].id
  }

  predicate HasId(s: seq<PlaylistItem>, id: string) {
    exists i :: 0 <= i < |s| && s[i].id == id
  }

  /** Exactly the item at index `k` is marked as playing. */
  predicate OnlyPlaying(s: seq<PlaylistItem>, k: int) {
    0 <= k < |s| && forall j :: 0 <= j < |s| ==> (s[j].isPlaying <==> j == k)
  }

  // ---------------------------------------------------------------- handleAddTrack

  const AlreadyAddedError := "Track is already in the playlist"

  predicate HasTrack(s: seq<PlaylistItem>, trackId: string) {
    exists i :: 0 <= i < |s| && s[i].trackId == trackId
  }

  /** `Math.max(...prev.map((p) => p.position), 0)`. */
  function MaxPosition(s: seq<PlaylistItem>): (m: real)
    ensures m >= 0.0
    ensures forall i :: 0 <= i < |s| ==> s[i].position <= m
    ensures m == 0.0 || exists i :: 0 <= i < |s| && s[i].position == m
  {
    if s == [] then 0.0
    else
      var rest := MaxPosition(s[1..]);
      if s[0].position > rest then s[0].position else rest
  }

  /** The new playlist, and the message given to `setError` (`None`: the error is left alone). */
  datatype AddResult = AddResult(playlist: seq<PlaylistItem>, error: Option<string>)

  /** The reducer of `handleAddTrack`; `newId` is the `p<n>` identifier drawn from the page's
    * counter and `addedAt` the current time as text. A track already queued is refused. */
  function AddTrack(prev: seq<PlaylistItem>, track: Track, newId: string, addedAt: string): (r: AddResult)
    ensures HasTrack(prev, track.id) ==> r.playlist == prev && r.error == Some(AlreadyAddedError)
    ensures !HasTrack(prev, track.id) ==>
      && r.error.None?
      && |r.playlist| == |prev| + 1
      && r.playlist[..|prev|] == prev
      && var item := r.playlist[|prev|];
         && item.id == newId && item.trackId == track.id && item.track == track
         && item.votes == 0 && !item.isPlaying && item.isFavorite == Some(false)
         && item.addedBy == "User" && item.addedAt == addedAt
         && item.position == MaxPosition(prev) + 1.0
         && item.position >= 1.0
         && (forall i :: 0 <= i < |prev| ==> prev[i].position < item.position)
         && (item.position == 1.0 || exists i :: 0 <= i < |prev| && item.position == prev[i].position + 1.0)
  {
    if HasTrack(prev, track.id) then AddResult(prev, Some(AlreadyAddedError))
    else
      var item := PlaylistItem(newId, track.id, track, MaxPosition(prev) + 1.0, 0, "User", addedAt,
                               false, Some(false));
      AddResult(prev + [item], None)
  }

  // ---------------------------------------------------------------- handleRemoveTrack

  /** The reducer of `handleRemoveTrack`: every item with that id goes, the rest keep their order. */
  function RemoveTrack(prev: seq<PlaylistItem>, id: string): (r: seq<PlaylistItem>)
    ensures Seqs.IsSubsequence(r, prev)
    ensures forall x :: x in r <==> x in prev && x.id != id
    ensures !HasId(r, id)
  {
    Seqs.Filter(prev, (item: PlaylistItem) => item.id != id)
  }

  /** Removing an id takes out every item carrying it and leaves every other item as often as
    * it was there. */
  lemma {:induction false} RemoveTrackCounts(prev: seq<PlaylistItem>, id: string)
    ensures forall x :: multiset(RemoveTrack(prev, id))[x] == if x.id != id then multiset(prev)[x] else 0
  {
    Seqs.FilterCounts(prev, (item: PlaylistItem) => item.id != id);
  }

  /** `RemoveTrack` one item at a time: the head stays unless it carries the id. */
  lemma {:induction false} RemoveTrackCons(prev: seq<PlaylistItem>, id: string)
    requires prev != []
    ensures RemoveTrack(prev, id)
         == if prev[0].id == id then RemoveTrack(prev[1..], id) else [prev[0]] + RemoveTrack(prev[1..], id)
  {
  }

  /** When ids are distinct and `id` is present, exactly one item is removed. */
  lemma {:induction false} RemoveTrackRemovesOne(prev: seq<PlaylistItem>, id: string)
    requires DistinctIds(prev) && HasId(prev, id)
    ensures |RemoveTrack(prev, id)| == |prev| - 1
  {
    if prev[0].id == id {
      assert RemoveTrack(prev, id) == RemoveTrack(prev[1..], id);
      RemoveKeepsAbsent(prev[1..], id);
    } else {
      assert RemoveTrack(prev, id) == [prev[0]] + RemoveTrack(prev[1..], id);
      var i :| 0 <= i < |prev| && prev[i].id == id;
      assert prev[1..][i - 1].id == id;
      RemoveTrackRemovesOne(prev[1..], id);
    }
  }

  /** Removing an id that does not occur changes nothing. */
  lemma {:induction false} RemoveKeepsAbsent(prev: seq<PlaylistItem>, id: string)
    requires !HasId(prev, id)
    ensures RemoveTrack(prev, id) == prev
  {
    if prev != [] {
      assert !HasId(prev[1..], id) by {
        forall i | 0 <= i < |prev[1..]| ensures prev[1..][i].id != id {
          assert prev[1..][i] == prev[i + 1];
        }
      }
      RemoveKeepsAbsent(prev[1..], id);
      assert prev == [prev[0]] + prev[1..];
    }
  }

  // ---------------------------------------------------------------- handleVote

  datatype VoteDirection = Up | Down

  /** The reducer of `handleVote`: the matching items gain one vote (`Up`) or lose one (`Down`);
    * nothing else changes. */
  function Vote(prev: seq<PlaylistItem>, id: string, direction: VoteDirection): (r: seq<PlaylistItem>)
    ensures |r| == |prev|
    ensures forall i :: 0 <= i < |r| ==>
      r[i].votes == prev[i].votes + (if prev[i].id != id then 0 else if direction == Up then 1 else -1)
    ensures forall i :: 0 <= i < |r| ==> r[i].(votes := prev[i].votes) == prev[i]
  {
    seq(|prev|, i requires 0 <= i < |prev| =>
      var item := prev[i];
      if item.id == id then item.(votes := item.votes + (if direction == Up then 1 else -1)) else item)
  }

  /** An up vote followed by a down vote on the same item restores the playlist. */
  lemma {:induction false} VoteUpThenDown(prev: seq<PlaylistItem>, id: string)
    ensures Vote(Vote(prev, id, Up), id, Down) == prev
  {
    var r := Vote(Vote(prev, id, Up), id, Down);
    assert forall i :: 0 <= i < |r| ==> r[i] == prev[i];
  }

  // ---------------------------------------------------------------- handleSetPlaying

  /** The reducer of `handleSetPlaying` (and the marking step of the skip reducers): an item is
    * playing exactly when its id is `id`; nothing else changes. */
  function SetPlaying(prev: seq<PlaylistItem>, id: string): (r: seq<PlaylistItem>)
    ensures |r| == |prev|
    ensures forall i :: 0 <= i < |r| ==> (r[i].isPlaying <==> prev[i].id == id)
    ensures forall i :: 0 <= i < |r| ==> r[i].(isPlaying := prev[i].isPlaying) == prev[i]
  {
    seq(|prev|, i requires 0 <= i < |prev| => prev[i].(isPlaying := prev[i].id == id))
  }

  /** With distinct ids, marking the id of the item at `k` leaves exactly that item playing. */
  lemma {:induction false} SetPlayingSelectsOne(prev: seq<PlaylistItem>, k: nat)
    requires DistinctIds(prev) && k < |prev|
    ensures OnlyPlaying(SetPlaying(prev, prev[k].id), k)
  {
    var r := SetPlaying(prev, prev[k].id);
    forall j | 0 <= j < |r| ensures r[j].isPlaying <==> j == k {
      if j < k {
        assert prev[j].id != prev[k].id;
      } else if k < j {
        assert prev[k].id != prev[j].id;
      }
    }
  }

  /** Marking an id that no item has leaves nothing playing. */
  lemma {:induction false} SetPlayingAbsent(prev: seq<PlaylistItem>, id: string)
    requires !HasId(prev, id)
    ensures forall j :: 0 <= j < |prev| ==> !SetPlaying(prev, id)[j].isPlaying
  {
  }

  /** Marking the item that is already the only one playing changes nothing. */
  lemma {:induction false} SetPlayingIdempotent(prev: seq<PlaylistItem>, k: nat)
    requires DistinctIds(prev) && OnlyPlaying(prev, k)
    ensures SetPlaying(prev, prev[k].id) == prev
  {
    var r := SetPlaying(prev, prev[k].id);
    SetPlayingSelectsOne(prev, k);
    forall j | 0 <= j < |r| ensures r[j] == prev[j] {
      assert r[j].isPlaying == prev[j].isPlaying;
    }
  }

  /** A second marking overrides the first. */
  lemma {:induction false} SetPlayingTwice(prev: seq<PlaylistItem>, a: string, b: string)
    ensures SetPlaying(SetPlaying(prev, a), b) == SetPlaying(prev, b)
  {
    var r := SetPlaying(SetPlaying(prev, a), b);
    assert forall j :: 0 <= j < |r| ==> r[j] == SetPlaying(prev, b)[j];
  }

  lemma {:induction false} SetPlayingKeepsIds(prev: seq<PlaylistItem>, id: string)
    ensures forall j :: 0 <= j < |prev| ==> SetPlaying(prev, id)[j].id == prev[j].id
    ensures DistinctIds(prev) ==> DistinctIds(SetPlaying(prev, id))
  {
  }

  // ---------------------------------------------------------------- derived values

  /** `totalDuration`: the sum of the queued tracks' durations in seconds. */
  function TotalDuration(s: seq<PlaylistItem>): (total: int)
    ensures (forall i :: 0 <= i < |s| ==> s[i].track.durationSeconds >= 0) ==>
      total >= 0 && forall i :: 0 <= i < |s| ==> s[i].track.durationSeconds <= total
  {
    if s == [] then 0
    else
      assert forall i :: 0 < i < |s| ==> s[i] == s[1..][i - 1];
      s[0].track.durationSeconds + TotalDuration(s[1..])
  }

  lemma {:induction false} TotalDurationAppend(a: seq<PlaylistItem>, b: seq<PlaylistItem>)
    ensures TotalDuration(a + b) == TotalDuration(a) + TotalDuration(b)
  {
    if a == [] {
      assert a + b == b;
    } else {
      assert (a + b)[0] == a[0] && (a + b)[1..] == a[1..] + b;
      TotalDurationAppend(a[1..], b);
    }
  }

  /** Adding a new track lengthens the queue by exactly that track's duration. */
  lemma {:induction false} AddTrackDuration(prev: seq<PlaylistItem>, track: Track, newId: string, addedAt: string)
    requires !HasTrack(prev, track.id)
    ensures TotalDuration(AddTrack(prev, track, newId, addedAt).playlist)
         == TotalDuration(prev) + track.durationSeconds
  {
    var r := AddTrack(prev, track, newId, addedAt).playlist;
    assert r == prev + [r[|prev|]];
    TotalDurationAppend(prev, [r[|prev|]]);
  }

  /** Votes and playing marks do not change the total duration. */
  lemma {:induction false} TotalDurationIgnoresMarks(a: seq<PlaylistItem>, b: seq<PlaylistItem>)
    requires |a| == |b| && forall i :: 0 <= i < |a| ==> a[i].track == b[i].track
    ensures TotalDuration(a) == TotalDuration(b)
  {
    if a != [] {
      TotalDurationIgnoresMarks(a[1..], b[1..]);
    }
  }

  /** The step of `playlist.reduce((max, item) => (item.votes > max.votes ? item : max))`. */
  function ReduceMostVoted(best: PlaylistItem, rest: seq<PlaylistItem>): (most: PlaylistItem)
    ensures most == best || most in rest
    ensures best.votes <= most.votes
    ensures forall j :: 0 <= j < |rest| ==> rest[j].votes <= most.votes
    decreases |rest|
  {
    if rest == [] then best
    else
      assert forall j :: 0 < j < |rest| ==> rest[j] == rest[1..][j - 1];
      ReduceMostVoted(if rest[0].votes > best.votes then rest[0] else best, rest[1..])
  }

  /** `k` is the earliest index holding the largest vote count. */
  predicate IsFirstMax(s: seq<PlaylistItem>, k: int) {
    && 0 <= k < |s|
    && (forall j :: 0 <= j < |s| ==> s[j].votes <= s[k].votes)
    && (forall j :: 0 <= j < k ==> s[j].votes < s[k].votes)
  }

  /** The index the reduction is holding after it has seen `s[..i]`, starting from `s[k]`. */
  function ReduceIndex(s: seq<PlaylistItem>, k: nat, i: nat): (m: nat)
    requires k < i <= |s|
    ensures k <= m < |s|
    decreases |s| - i
  {
    if i == |s| then k
    else ReduceIndex(s, if s[i].votes > s[k].votes then i else k, i + 1)
  }

  lemma {:induction false} ReduceTracksIndex(s: seq<PlaylistItem>, k: nat, i: nat)
    requires k < i <= |s|
    ensures ReduceMostVoted(s[k], s[i..]) == s[ReduceIndex(s, k, i)]
    decreases |s| - i
  {
    if i < |s| {
      var next := if s[i].votes > s[k].votes then i else k;
      assert s[i..][0] == s[i] && s[i..][1..] == s[i + 1..];
      ReduceTracksIndex(s, next, i + 1);
    }
  }

  lemma {:induction false} ReduceFindsFirstMax(s: seq<PlaylistItem>, k: nat, i: nat)
    requires k < i <= |s|
    requires forall j :: 0 <= j < i ==> s[j].votes <= s[k].votes
    requires forall j :: 0 <= j < k ==> s[j].votes < s[k].votes
    ensures IsFirstMax(s, ReduceIndex(s, k, i))
    decreases |s| - i
  {
    if i < |s| {
      ReduceFindsFirstMax(s, if s[i].votes > s[k].votes then i else k, i + 1);
    }
  }

  /** `mostVotedTrack`: no title for an empty queue, otherwise the title of the earliest item
    * with the largest vote count (the strict `>` keeps the first maximum). */
  function MostVotedTrack(s: seq<PlaylistItem>): (r: Option<string>)
    ensures s == [] <==> r.None?
    ensures s != [] ==> exists m :: IsFirstMax(s, m) && r == Some(s[m].track.title)
  {
    if s == [] then None
    else
      ReduceFindsFirstMax(s, 0, 1);
      ReduceTracksIndex(s, 0, 1);
      Some(ReduceMostVoted(s[0], s[1..]).track.title)
  }
}
