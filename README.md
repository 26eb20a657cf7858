# Vibes Music Player — a verified model of its playlist core

Vibes is a collaborative playlist web application. Listeners add tracks from a library to a
shared queue, vote on them and reorder them by drag and drop. Each queue item carries a
fractional ordering key called its *position*. The application also has a chat panel, a floating
player bubble, swipe gestures, a theme hook and a track API. This project models, in Dafny, the
deterministic logic behind those features and proves what that logic promises.

- `position.dfy` (module `Position`): the fractional position allocator `calculatePosition` and
  its order properties. Positions are modelled as `real`.
- `playlist.dfy` (module `Playlist`): the queue records and the pure `setPlaylist(prev => …)`
  reducers (add, remove, vote, set-playing). It also covers the derived total duration and the
  most-voted title.
- `playlist_order.dfy` (module `PlaylistOrder`) covers two things:
  - sorting by position, and the cyclic skip to next or previous;
  - the plan of a drag-and-drop move: splicing the dragged item back in and renumbering.
- `playlist_page.dfy` (module `PlaylistPage`): the page component as a class `Home`. It holds the
  playlist, the dragged item, the error, the playing flag, the play history and the
  `playlistIdRef` counter, and its methods are the event handlers. `SpliceIn` performs the
  in-place `splice` on an array.
- `player_store.dfy` (module `PlayerStore`): the zustand player store as a class with its four
  actions.
- `playlist_controls.dfy`, `player_bubble.dfy`, `swipe.dfy`, `chat_panel.dfy`,
  `track_library.dfy`, `tracks_route.dfy`, `theme.dfy`, `album_art.dfy`: one module per
  component, hook or route.
- `wrappers.dfy`, `seqs.dfy`, `numbers.dfy`, `text.dfy`: shared definitions:
  - `Option`;
  - subsequences and distinctness;
  - decimal text of numbers, JavaScript's truncating `%`, `padStart` and "m:ss" clock text;
  - JavaScript's whitespace set and `trim`, ASCII case mapping, `includes`, and the
    character-by-character (code-point) order of strings, which is the default `sort` order for
    text without characters above U+FFFF.

JavaScript behaviour that matters is written out:
- `parseInt` skips leading whitespace, accepts a sign, reads a `0x` prefix as hexadecimal and
  reads the longest digit prefix; its NaN is `None`.
- `String.prototype.replace` with a string pattern replaces only the first occurrence.
- `split(" ")` keeps empty pieces, and `word[0]` of an empty piece joins as nothing.
- `Math.min`/`Math.max` pass NaN through.
- `||` falls back on `""` as well as on `null`.

Clocks and storage enter as parameters: `now`, the stored theme value and the song
rows of the database.

## Model

| member | source | states |
|---|---|---|
| Position.CalculatePosition | lib/position.ts:26-31 | The new key is strictly above `prev` when there is no `next` or `prev < next`, and strictly below `next` when there is no `prev` or `prev < next`. |
| Position.PlacementRule | lib/position.ts:27-30 | No neighbours give exactly 1.0. Only `next` gives `next - 1`. Only `prev` gives `prev + 1`. Both give the midpoint, which is equally far from each neighbour. |
| Position.ZeroIsANeighbour | lib/position.ts:27-29 | A present 0 is a real neighbour: (0, none) gives 1, (none, 0) gives -1 and (0, 1) gives 0.5. |
| Position.DocumentedValues | lib/__tests__/position.test.ts:4-65 | The documented values: (1,2)→1.5, (none,1)→0, (3,none)→4, (none,none)→1, (1.25,1.5)→1.375, (none,5)→4 and (10,none)→11. |
| Position.InsertAt | lib/position.ts:22-26 | Inserting at slot `i` keeps every other key and places `calculatePosition` of the slot's neighbours at `i`. |
| Position.InsertKeepsStrictOrder | lib/position.ts:4-12 | Inserting at any slot of a strictly increasing queue of keys leaves it strictly increasing. |
| Position.StrictInsert | lib/position.ts:4-12 | Any key strictly between the slot's neighbours keeps a strictly increasing queue strictly increasing. |
| Position.WorkedExample | lib/position.ts:17-20 | The worked example: [] → [1] → [1,2] → [1,2,3] → [1,1.5,2,3] → [1,1.25,1.5,2,3]. |
| Position.NarrowingDescends | lib/__tests__/position.test.ts:39-47 | Inserting repeatedly into the shrinking gap `b := calculatePosition(a, b)` gives keys that all lie in (a, b) and strictly descend. |
| Position.DenseInsertions | lib/__tests__/position.test.ts:39-53 | The chain [a, b, mids…] has no duplicates. Sorted, it is strictly increasing and a permutation of the chain. |
| Position.EightRoundsFromOneToTwo | lib/__tests__/position.test.ts:39-53 | Eight rounds from [1, 2] give ten distinct keys, each new one strictly between 1 and 2. |
| Playlist.MaxPosition | app/page.tsx:289 | `Math.max(...positions, 0)` is at least 0, at least every position, and either 0 or one of the positions. |
| Playlist.AddTrack | app/page.tsx:278-297 | A track already queued leaves the playlist unchanged and sets the "already in the playlist" error. Otherwise exactly one item is appended, with the given id, the track, 0 votes and not playing. Its position is exactly `MaxPosition(prev) + 1`, the largest of 0 and the existing positions plus one: so at least 1, above every existing position, and 1 or one more than an existing position. |
| Playlist.RemoveTrack | app/page.tsx:305-307 | The result is an order-preserving subsequence holding exactly the items whose id differs, so no item with the id remains. |
| Playlist.RemoveTrackCounts | app/page.tsx:305-307 | Every item whose id differs stays exactly as often as it was queued; every item with the id goes. |
| Playlist.RemoveTrackRemovesOne | app/page.tsx:305-307 | With distinct ids, removing a present id shortens the queue by exactly one. |
| Playlist.RemoveKeepsAbsent | app/page.tsx:305-307 | Removing an absent id returns the queue unchanged. |
| Playlist.Vote | app/page.tsx:309-320 | The length is kept. Items with the id gain +1 for up or -1 for down. Every other field and every other item is unchanged. |
| Playlist.VoteUpThenDown | app/page.tsx:309-320 | An up vote followed by a down vote on the same id restores the queue. |
| Playlist.SetPlaying | app/page.tsx:400-405 | The length is kept. An item plays exactly when its id is the given one. Nothing but the playing flag changes. |
| Playlist.SetPlayingSelectsOne | app/page.tsx:400-405 | With distinct ids, marking the id of item `k` leaves exactly item `k` playing. |
| Playlist.SetPlayingAbsent | app/page.tsx:400-405 | Marking an absent id stops everything. |
| Playlist.SetPlayingIdempotent | app/page.tsx:400-405 | Marking the item that alone plays changes nothing. |
| Playlist.SetPlayingTwice | app/page.tsx:400-405 | Only the last mark counts. |
| Playlist.SetPlayingKeepsIds | app/page.tsx:400-405 | The ids are unchanged slot by slot, so distinct ids stay distinct. |
| Playlist.TotalDuration | app/page.tsx:526 | When no length is negative, the total is at least 0 and at least every single track's length. |
| Playlist.TotalDurationAppend | app/page.tsx:526 | The total duration of a concatenation is the sum of the totals. |
| Playlist.AddTrackDuration | app/page.tsx:526 | Adding a new track raises the total duration by exactly that track's length. |
| Playlist.TotalDurationIgnoresMarks | app/page.tsx:526 | Queues with the same tracks slot by slot have the same total, whatever their votes, positions or playing flags. |
| Playlist.ReduceMostVoted | app/page.tsx:529-530 | The `reduce` step returns its start or one of the items seen, with at least the start's votes and at least the votes of every item seen. |
| Playlist.ReduceTracksIndex | app/page.tsx:529-530 | The `reduce` with strict `>` returns the item at the index `ReduceIndex` follows. |
| Playlist.ReduceFindsFirstMax | app/page.tsx:529-530 | That index holds the earliest item with the most votes. |
| Playlist.MostVotedTrack | app/page.tsx:529-530 | There is no title exactly when the queue is empty. Otherwise the title is that of the earliest item with maximal votes. |
| PlaylistOrder.InsertByPosition | app/page.tsx:367 | Inserting into a position-sorted queue adds exactly the one item and keeps it sorted. |
| PlaylistOrder.SortByPosition | app/page.tsx:367 | `sort((a, b) => a.position - b.position)` yields a sorted permutation of the same length. |
| PlaylistOrder.SortSortedIsIdentity | app/page.tsx:367 | Sorting an already sorted queue changes nothing. |
| PlaylistOrder.SortKeepsIds | app/page.tsx:435 | Sorting keeps the multiset of ids. |
| PlaylistOrder.SortKeepsDistinctIds | app/page.tsx:435 | Sorting keeps ids distinct. |
| PlaylistOrder.FindPlaying | app/page.tsx:436 | `findIndex(item => item.is_playing)` returns the first playing slot, or -1 when nothing plays. |
| PlaylistOrder.FindId | app/page.tsx:368 | `findIndex` by id returns the first slot with the id, or -1 when there is none. |
| PlaylistOrder.NextIndex | app/page.tsx:437 | `(i + 1) % n` is the next slot, wrapping from the last to 0; nothing playing (-1) gives 0. |
| PlaylistOrder.PreviousIndex | app/page.tsx:474 | `(i - 1 + n) % n` is the previous slot, wrapping from 0 to the last. Nothing playing (-1) gives slot n-2, or 0 for a single item. |
| PlaylistOrder.SkipToNext | app/page.tsx:433-444 | The result has the same length and is sorted by position. |
| PlaylistOrder.SkipToPrevious | app/page.tsx:470-481 | The result has the same length and is sorted by position. |
| PlaylistOrder.SkipToNextMovesOn | app/page.tsx:433-444 | On a non-empty queue with distinct ids, exactly the slot after the playing one plays, and slot 0 when nothing played. Every other field of the sorted queue is kept. |
| PlaylistOrder.SkipToPreviousMovesBack | app/page.tsx:470-481 | On a non-empty queue with distinct ids, exactly the slot `(i - 1 + n) % n` plays. Every other field of the sorted queue is kept. |
| PlaylistOrder.SkipOnSorted | app/page.tsx:433-481 | On a sorted queue where one item plays, skipping is `handleSetPlaying` of the next or previous item. |
| PlaylistOrder.SkipNextThenPreviousRestores | app/page.tsx:433-481 | On such a queue with distinct ids, skipping forward and then back restores it. |
| PlaylistOrder.SkipKeepsIds | app/page.tsx:433-481 | Both skips keep the multiset of ids. |
| PlaylistOrder.TargetIndex | app/page.tsx:370-376 | `targetIndex` lies in -1..n: the target's sorted slot, one more after it, or n with no target. |
| PlaylistOrder.AnchorIndex | app/page.tsx:384 | `insertIndex` is -1, or a slot of the remaining items holding the item at `sorted[targetIndex]`. |
| PlaylistOrder.PlanDropWith | app/page.tsx:362-393 | The drop is ignored exactly when nothing is dragged or the item is dropped onto itself. Otherwise it only ends the drag exactly when the dragged item's sorted slot is `targetIndex` or the one before. A move splices at a slot inside the remaining items. |
| PlaylistOrder.PlanDrop | app/page.tsx:362-393 | The same three decisions for the handler with the drop-after slot counted once. |
| PlaylistOrder.PlanDropAsWritten | app/page.tsx:362-393 | The same three decisions for the handler as written (see Findings). |
| PlaylistOrder.PlanDropAgreesBefore | app/page.tsx:373-385 | Dropping before a target (`isAfter` false, as every call site passes), the written handler and the corrected one agree. |
| PlaylistOrder.Spliced | app/page.tsx:387 | `splice(at, 0, item)` puts the item at `at`, keeps the items before it and shifts the rest up by one. |
| PlaylistOrder.Renumbered | app/page.tsx:389-392 | Renumbering gives each item position index + 1 and changes nothing else. |
| PlaylistOrder.MovedIsRenumbered | app/page.tsx:389-392 | After a move the positions are exactly 1..n in slot order, so they are strictly increasing. |
| PlaylistOrder.RemoveTrackIds | app/page.tsx:383 | With distinct ids, filtering out the dragged id removes exactly that one id. |
| PlaylistOrder.SpliceBackPermutesIds | app/page.tsx:383-392 | Removing the dragged item, splicing it back anywhere and renumbering keeps the length and the multiset of ids, and keeps ids distinct. |
| PlaylistOrder.MovePermutesIds | app/page.tsx:362-396 | Every drag-and-drop move is a permutation of the queue's ids, with ids still distinct, for the handler as written and for the corrected one alike. |
| PlaylistOrder.PlanDropLandsBeforeAnchor | app/page.tsx:362-393 | After a corrected move the dragged item sits immediately before the item that was at `sorted[targetIndex]`. So dropping after an item lands right after it. |
| PlaylistOrder.PlanDropAsWrittenOvershoots | app/page.tsx:373-387 | As written, with `isAfter` the dragged item lands immediately after the item at `sorted[targetIndex]`, one slot past the target's successor. |
| PlaylistOrder.RemoveKeepsDistinct | app/page.tsx:305-307 | Removing by id keeps ids distinct. |
| PlaylistOrder.SpliceKeepsDistinct | app/page.tsx:387-392 | Splicing in an item with a new id and renumbering keeps ids distinct and adds exactly that id. |
| PlaylistOrder.DropFirstAfterSecondSteps | app/page.tsx:367-384 | For four items a, b, c, d in position order, dragging a after b: sorted order a b c d, remaining b c d, dragged index 0, target index 2, insert index 1. |
| PlaylistOrder.DropFirstAfterSecondAsWrittenPlan | app/page.tsx:385 | The written handler splices a into b c d at slot 2. |
| PlaylistOrder.DropFirstAfterSecondPlan | app/page.tsx:385 | The corrected handler splices at slot 1. |
| PlaylistOrder.DropAfterAsWrittenExample | app/page.tsx:362-396 | As written, the result is b, c, a, d. |
| PlaylistOrder.DropAfterExample | app/page.tsx:362-396 | Corrected, the result is b, a, c, d. |
| PlaylistOrder.RenumberedIsSorted | app/page.tsx:389-392 | A renumbered queue is in position order. |
| PlaylistOrder.DropOnQueueKeepsLast | app/page.tsx:367-381 | A drop on the queue's own zone leaves the queue alone when the dragged item is already last in position order. |
| PlaylistOrder.DropOnQueueMovesToEnd | app/page.tsx:383-392 | With distinct ids, taking the dragged item out, splicing it in at the end (where a drop on the queue's zone puts it when it is not already last) and renumbering keeps the length and the multiset of ids and keeps ids distinct. The result is in position order with the dragged item last. |
| PlaylistOrder.DropOnQueueLandsLast | app/page.tsx:362-396 | A drop on the queue's own zone always leaves the dragged item last in position order and keeps the multiset of ids. |
| PlaylistOrder.DropOnItemAsWiredLandsLast | app/page.tsx:774-794 | As wired, a drop on any item (the dragged one included) runs the item's handler and then the queue's. The dragged item ends last in position order, whatever the target (see Findings). |
| PlaylistOrder.DropFirstOnThirdPlan | app/page.tsx:367-385 | For a, b, c, d in position order, dropping a onto c splices a into b c d at slot 1. |
| PlaylistOrder.DropOnThirdOnce | app/page.tsx:362-396 | Handled once, that drop gives b, a, c, d renumbered. |
| PlaylistOrder.DropOnThirdExample | app/page.tsx:362-396 | Handled once, the ids come out b, a, c, d: a lands immediately before its target c. |
| PlaylistOrder.DropSecondOnQueuePlan | app/page.tsx:367-385 | On four items in position order, the queue's zone plans to move the second one to the end of the other three. |
| PlaylistOrder.DropSecondOnQueue | app/page.tsx:362-396 | That move gives ids first, third, fourth, second. |
| PlaylistOrder.DropOnThirdAsWiredExample | app/page.tsx:774-794 | As wired, the same drop of a onto c gives b, c, d, a. |
| PlaylistPage.ItemId | app/page.tsx:286 | The id is "p" followed by the counter's decimal digits. |
| PlaylistPage.ItemIdInjective | app/page.tsx:286 | Different counter values give different ids. |
| PlaylistPage.IssuedIsNotNext | app/page.tsx:173 | An id issued below the counter is never the id the counter issues next. |
| PlaylistPage.AppendedIssued | app/page.tsx:285-297 | Appending the item with the next id keeps ids distinct and all issued, with the counter one higher. |
| PlaylistPage.MovedIssued | app/page.tsx:383-392 | A planned move, as written or corrected, keeps ids distinct and all issued. |
| PlaylistPage.Take | app/page.tsx:421 | `slice(0, n)` is the prefix of length min(n, length). |
| PlaylistPage.SpliceIn | app/page.tsx:387 | The in-place `splice` on a fresh array yields exactly `Spliced`. |
| PlaylistPage.Home.constructor | app/page.tsx:84-138 | The page starts with an empty queue, nothing dragged, no error, paused, the three demo history entries and the counter at 2. |
| PlaylistPage.Home.AddTrack | app/page.tsx:276-303 | It keeps `Valid` (distinct issued ids, history at most 50). The new state is exactly `AddTrack`'s result with the next id: on rejection only the error is set, otherwise the playlist grows and the counter moves on by one. |
| PlaylistPage.Home.RemoveTrack | app/page.tsx:305-307 | It keeps `Valid`; only the playlist changes, to `RemoveTrack`'s result. |
| PlaylistPage.Home.Vote | app/page.tsx:309-320 | It keeps `Valid`; only the playlist changes, to `Vote`'s result. |
| PlaylistPage.Home.SetPlaying | app/page.tsx:398-426 | It keeps `Valid`. The playlist is marked and the page plays. The store's progress is reset. When the id is queued, the store is set to that track and playing, and a history entry for it is prepended to at most 49 older ones. |
| PlaylistPage.Home.DragStart | app/page.tsx:352-355 | It keeps `Valid`; only the dragged item is set. |
| PlaylistPage.Home.DropBetween | app/page.tsx:362-396 | One run of the handler, as the drop zones call it, with `isAfter` false. It keeps `Valid`. An ignored drop changes nothing. A kept drop only clears the drag. A move installs the renumbered splice and clears the drag. |
| PlaylistPage.Home.SkipToNext | app/page.tsx:433-444 | It keeps `Valid`; only the playlist changes, to `SkipToNext`'s result. |
| PlaylistPage.Home.SkipToPrevious | app/page.tsx:470-481 | It keeps `Valid`; only the playlist changes, to `SkipToPrevious`'s result. |
| PlaylistPage.Home.KeepsValid | app/page.tsx:433-481 | Either skip keeps the queue's ids distinct and issued. |
| PlayerStore.Store.constructor | store/use-player-store.ts:28-31 | The initial state: no track, paused, progress 0. |
| PlayerStore.Store.SetTrack | store/use-player-store.ts:32 | The new state is (track, playing, 0), even for no track. |
| PlayerStore.Store.TogglePlay | store/use-player-store.ts:33 | Only the playing flag flips. |
| PlayerStore.Store.SetIsPlaying | store/use-player-store.ts:34 | Only the playing flag changes. |
| PlayerStore.Store.SetProgress | store/use-player-store.ts:35 | Only the progress changes, to the value given, unclamped. |
| PlayerStore.ToggleTwice | store/use-player-store.ts:33 | Toggling twice restores the state. |
| PlaylistControls.NextMode | components/playlist-controls.tsx:20 | The next repeat mode always differs from the current one. |
| PlaylistControls.ThreeClicksReturn | components/playlist-controls.tsx:20-21 | Three clicks return to the start, visiting all three modes. |
| PlaylistControls.Controls.constructor | components/playlist-controls.tsx:17 | The mode starts as off. |
| PlaylistControls.Controls.HandleRepeatClick | components/playlist-controls.tsx:19-23 | The stored mode advances one step, and the mode reported to `onRepeat` is the new one. |
| PlaylistControls.ThreeClicksFromStart | components/playlist-controls.tsx:19-23 | From the start, three clicks report all, one, off. |
| PlaylistControls.DurationParts | components/playlist-controls.tsx:26-27 | For s ≥ 0: hours ≥ 0 and minutes in 0..59, with h·3600 + m·60 ≤ s < h·3600 + m·60 + 60. A negative s gives the truncated remainder's signs. |
| PlaylistControls.FormatDuration | components/playlist-controls.tsx:25-30 | The text always ends in the minutes' "m". |
| PlaylistControls.FormatDurationReads | components/playlist-controls.tsx:25-30 | For a length s ≥ 0 there are whole hours h and minutes m < 60 with h·3600 + m·60 ≤ s < h·3600 + m·60 + 60. The text is h in decimal followed by "h " (only when h > 0), then m in decimal, then "m". |
| PlaylistControls.HourShownIffFullHour | components/playlist-controls.tsx:28-29 | The text contains an "h" exactly when the length is at least an hour. |
| PlaylistControls.FormatIgnoresSeconds | components/playlist-controls.tsx:26-29 | Lengths in the same whole minute format identically. |
| PlaylistControls.SplitThroughMinutes | components/playlist-controls.tsx:26-27 | The hours and minutes are those of the whole minutes. |
| PlayerBubble.FormatRoundTrip | components/player/PlayerBubble.tsx:307-312 | For a positive time, `format` yields "m:ss" text, its seconds field below 60, that reads back as the whole seconds. |
| PlayerBubble.FormatOfNothing | components/player/PlayerBubble.tsx:308 | Zero, NaN and infinities give "0:00", a clock text that reads back as 0. |
| PlayerBubble.SecondsOfMinute | components/player/PlayerBubble.tsx:309-310 | For a time t ≥ 0, `floor(t % 60)` is floor(t) − 60·floor(t / 60), which lies in 0..59. |
| PlayerBubble.BubbleNextMode | components/player/PlayerBubble.tsx:158 | The bubble's next repeat mode always differs from the current one. |
| PlayerBubble.CyclesAreInverse | components/player/PlayerBubble.tsx:158 | The bubble's cycle off → one → all runs the controls' cycle backwards: each undoes the other. |
| PlayerBubble.Bubble.constructor | components/player/PlayerBubble.tsx:30-32 | The bubble starts mini, with repeat off. |
| PlayerBubble.Bubble.ToggleMini | components/player/PlayerBubble.tsx:152-155 | `isMini` flips, and `onMiniToggle` receives the value from before the flip. |
| PlayerBubble.Bubble.RepeatCycle | components/player/PlayerBubble.tsx:157-159 | The repeat mode advances one step of the bubble's cycle, and nothing else changes. |
| PlayerBubble.SeekFraction | components/player/PlayerBubble.tsx:141-146 | The seek fraction is within [0, 1], or NaN exactly for a click at the left edge of a bar of no width. |
| PlayerBubble.SeekFractionOnBar | components/player/PlayerBubble.tsx:144 | On a bar of positive width: the exact fraction inside the bar, 0 before it and 1 after it. |
| PlayerBubble.LineAt | components/player/PlayerBubble.tsx:112 | With at least one line the index is at most lines − 1, and a ratio of at least 0 gives an index of at least 0. |
| PlayerBubble.LyricIndex | components/player/PlayerBubble.tsx:111-113 | There is no index exactly when there are no lines. Otherwise the index is at most lines − 1. |
| PlayerBubble.LyricIndexFollowsTime | components/player/PlayerBubble.tsx:112 | For a positive duration and a time t ≥ 0, the index is a valid line. Before the end it is the k with k·d ≤ t·lines < (k+1)·d; at or after the end it is the last line. |
| PlayerBubble.LyricIndexMonotone | components/player/PlayerBubble.tsx:112 | The lyric line never moves backwards as time advances. |
| Swipe.Classify | hooks/use-swipe.ts:29-45 | The direction fired for the two differences. |
| Swipe.ClassifyConditions | hooks/use-swipe.ts:33-45 | Each direction fires exactly under its own condition, ties going to the vertical axis. Nothing fires exactly when the dominant difference lies within [-50, 50]. |
| Swipe.FiredSwipeIsLong | hooks/use-swipe.ts:31-45 | A fired swipe moved more than 50 on some axis. |
| Swipe.ReversedGesture | hooks/use-swipe.ts:29-45 | The reversed gesture fires the opposite direction, or again nothing. |
| Swipe.SwipeHandler.constructor | hooks/use-swipe.ts:13 | The start point begins at the origin. |
| Swipe.SwipeHandler.TouchStart | hooks/use-swipe.ts:15-20 | The start point is overwritten with the touch. |
| Swipe.SwipeHandler.TouchEnd | hooks/use-swipe.ts:22-48 | The callback fired is `Classify` of start minus end, so at most one fires. |
| Swipe.Gestures | hooks/use-swipe.ts:22-48 | A drag 80 left and 30 down fires left, a tap fires nothing, and an exact diagonal fires up. |
| TrackLibrary.Dedup | components/track-library.tsx:62 | `new Set(…)` has no duplicates and exactly the input's values. |
| TrackLibrary.SortIsSorted | components/track-library.tsx:62 | The default `sort` of distinct strings is strictly ascending in code-point order. |
| TrackLibrary.GenresListing | components/track-library.tsx:62 | `genres` is strictly ascending and holds exactly the genres of the tracks. |
| TrackLibrary.CategoriesListing | components/track-library.tsx:63-66 | `categories` is strictly ascending and holds exactly the non-empty categories of the tracks. |
| TrackLibrary.SortedListingUnique | components/track-library.tsx:62-66 | Two strictly ascending listings of the same values are equal. |
| TrackLibrary.SameGenresSameChoices | components/track-library.tsx:62 | Libraries with the same genres offer the same genre list. |
| TrackLibrary.Filtered | components/track-library.tsx:68-78 | `filtered` is an order-preserving subsequence of the tracks. It keeps a track exactly when the text search, the genre and the category all match. |
| TrackLibrary.FilteredCounts | components/track-library.tsx:68-78 | A matching track shows exactly as often as it is in the library; a track that does not match does not show. |
| TrackLibrary.NoFilterShowsAll | components/track-library.tsx:70-76 | An empty search with no (or an empty) genre and category shows every track. |
| TrackLibrary.SearchIgnoresCase | components/track-library.tsx:70-73 | Upper-casing the search text changes nothing. |
| TrackLibrary.SelectedGenreOnly | components/track-library.tsx:74 | With a genre selected, only that genre shows, and a non-empty result means the genre is listed. |
| ChatPanel.ContinuationNeedsSameSender | components/chat-panel.tsx:56-61 | The first message never continues, and neither does a message by a different sender. |
| ChatPanel.WindowEdges | components/chat-panel.tsx:60 | Exactly 60000 ms apart starts a new group; a same-sender message stamped earlier continues it. |
| ChatPanel.GroupHasOneSender | components/chat-panel.tsx:56-61 | A run of continuations all share the sender of the message that opened it. |
| ChatPanel.GroupSpan | components/chat-panel.tsx:60 | A run of continuations spans at most one minute per message after the first. |
| ChatPanel.ChatInput.constructor | components/chat-panel.tsx:33 | The box starts empty, with nothing sent. |
| ChatPanel.ChatInput.Type | components/chat-panel.tsx:33 | Typing replaces the box's text. |
| ChatPanel.ChatInput.HandleSend | components/chat-panel.tsx:42-47 | Whitespace-only input neither sends nor clears. Any other input is sent untrimmed and the box empties. |
| ChatPanel.ChatInput.HandleKeyDown | components/chat-panel.tsx:49-54 | Enter without Shift sends; any other key changes nothing. |
| ChatPanel.SendTwice | components/chat-panel.tsx:42-47 | "  hi " is sent untrimmed once; a second send of the emptied box does nothing. |
| TracksRoute.ParseUnsigned | app/api/tracks/route.ts:39 | `parseInt`'s unsigned part: a `0x` prefix selects hex, then the longest digit run counts. |
| TracksRoute.ParseIntOfDecimal | app/api/tracks/route.ts:39 | `parseInt` of a number's decimal text followed by a non-digit suffix is that number. |
| TracksRoute.ParseIntOfNegative | app/api/tracks/route.ts:39 | A minus sign before that text gives the negative number. |
| TracksRoute.HexPrefix | app/api/tracks/route.ts:39 | "0x" followed by text reads that text's hexadecimal digit run, or NaN when it has none. |
| TracksRoute.ParseIntHex | app/api/tracks/route.ts:39 | `parseInt("0x10")` is 16. |
| TracksRoute.Limit | app/api/tracks/route.ts:39 | A limit that is not NaN lies in [1, 200]. |
| TracksRoute.LimitCases | app/api/tracks/route.ts:39 | With no (or an empty) parameter the limit is 100. It is NaN exactly when `parseInt` is. A parsed number in range is kept. |
| TracksRoute.ParseLimitOf | app/api/tracks/route.ts:39 | A decimal parameter is clamped into [1, 200]. |
| TracksRoute.LimitAboveRange | app/api/tracks/route.ts:39 | "500" gives 200. |
| TracksRoute.LimitOfZero | app/api/tracks/route.ts:39 | "0" gives 1. |
| TracksRoute.LimitWithTrailingText | app/api/tracks/route.ts:39 | "25abc" gives 25. |
| TracksRoute.NegativeLimit | app/api/tracks/route.ts:39 | Any negative number gives 1. |
| TracksRoute.OrElse | app/api/tracks/route.ts:50-57 | The fallback `or` of JavaScript keeps a non-empty value and otherwise gives the fallback. |
| TracksRoute.DurationTextRoundTrip | app/api/tracks/route.ts:53 | For a length d ≥ 0 the text is "m:ss" with a seconds field below 60, and it reads back as d. |
| TracksRoute.MapSongFields | app/api/tracks/route.ts:46-58 | The row copies id, title, artist, genre and length. Missing album, category, audio and lyrics become "", and a missing cover becomes "/placeholder.svg". For a length ≥ 0 the duration text is "m:ss" with seconds below 60 and reads back as the length. |
| TracksRoute.MapSongs | app/api/tracks/route.ts:46 | The mapping keeps the number and order of the songs. |
| TracksRoute.Get | app/api/tracks/route.ts:35-60 | There is no result exactly when the limit is NaN. Otherwise the result holds the first `limit` songs, mapped. |
| TracksRoute.GetBounds | app/api/tracks/route.ts:39-44 | Without a parameter at most 100 rows come back. Otherwise between 1 and 200, unless no songs are stored. |
| Theme.ThemeClass | hooks/use-theme.ts:45 | The class starts with "theme-" and is one character shorter than "theme-" plus the name exactly when the name has a dash. |
| Theme.ClassOfDashedName | hooks/use-theme.ts:45 | For a name "a-b" whose `a` has no dash, the class is "theme-" + a + b; later dashes stay. |
| Theme.ClassOfPlainName | hooks/use-theme.ts:45 | A name without a dash is only prefixed with "theme-". |
| Theme.ClassOfNeonPulse | hooks/use-theme.ts:45 | "neon-pulse" gets the class "theme-neonpulse". |
| Theme.ClassOfSunsetFade | hooks/use-theme.ts:45 | "sunset-fade" gets the class "theme-sunsetfade". |
| Theme.ClassOfArcticWave | hooks/use-theme.ts:45 | "arctic-wave" gets the class "theme-arcticwave". |
| Theme.ClassOfVintageBrown | hooks/use-theme.ts:45 | "vintage-brown" gets the class "theme-vintagebrown". |
| Theme.ClassOfMinimalDark | hooks/use-theme.ts:45 | "minimal-dark" gets the class "theme-minimaldark". |
| Theme.ThemeClassInjective | hooks/use-theme.ts:40-47 | Different valid themes get different classes. |
| Theme.ThemeHook.constructor | hooks/use-theme.ts:16-17 | The hook starts with the default theme, not mounted, and no class applied. |
| Theme.ThemeHook.Reported | hooks/use-theme.ts:37 | Before mounting the hook reports the default. |
| Theme.ThemeHook.ReportsValid | hooks/use-theme.ts:37 | The hook only ever reports a valid theme. |
| Theme.ThemeHook.Mount | hooks/use-theme.ts:20-27 | A stored value is adopted and applied only when it is a valid theme; in every case the hook is then mounted. |
| Theme.ThemeHook.SetTheme | hooks/use-theme.ts:29-35 | A valid name becomes the state, is applied and is stored. Any other name changes nothing. |
| Theme.ThemeSurvivesReload | hooks/use-theme.ts:15-37 | A theme chosen in one visit is reported after the next visit mounts, while that visit's first render reports the default. |
| Theme.IgnoresForeignValue | hooks/use-theme.ts:20-27 | A stored value that is not a theme name leaves the default. |
| AlbumArt.SplitSpaces | components/album-art-display.tsx:11 | `split(" ")` gives at least one piece, and no piece contains a space. |
| AlbumArt.SplitJoin | components/album-art-display.tsx:11 | `split(" ")` then `join(" ")` gives the text back; no piece contains a space. |
| AlbumArt.FirstLetters | components/album-art-display.tsx:12-13 | Mapping to first characters and joining gives at most one character per piece. |
| AlbumArt.Initials | components/album-art-display.tsx:10-15 | The initials have at most two characters (under the ASCII case mapping; see Left out). |
| AlbumArt.LettersAreWordStarts | components/album-art-display.tsx:11-13 | Before cutting, the letters are exactly the first characters of the words, in order; empty pieces contribute nothing. |
| AlbumArt.InitialsOfWords | components/album-art-display.tsx:10-15 | The initials are the first two word starts, upper-cased letter by letter (ASCII case mapping; see Left out). |
| AlbumArt.TwoWords | components/album-art-display.tsx:10-15 | Two words separated by a space give their two first letters, upper-cased. |
| AlbumArt.NoWordsNoInitials | components/album-art-display.tsx:10-15 | An empty name, or a name of spaces only, has no initials. |
| Seqs.FilterCounts | app/page.tsx:306 | `filter` keeps each passing element exactly as often as it occurs and drops every failing one. |
| Numbers.ParseNatToString | app/api/tracks/route.ts:53 | The decimal text of a number reads back as that number. |
| Numbers.NatToStringInjective | app/page.tsx:286 | Different numbers have different decimal texts. |
| Numbers.PadStart2 | app/api/tracks/route.ts:53 | `padStart(2, "0")` keeps the text at the end and fills with zeros up to length 2. |
| Numbers.TruncRem | app/api/tracks/route.ts:53 | JavaScript's `%` lies strictly between -n and n, agrees with the mathematical remainder for a ≥ 0, and is at most 0 for a < 0. |
| Numbers.ClockRoundTrip | app/api/tracks/route.ts:53 | For seconds below 60, "m:ss" is a clock text (seconds field below 60) that reads back as m·60 + s. |
| Text.TrimEmptyIffBlank | components/chat-panel.tsx:43 | `trim()` is empty exactly when the text is all whitespace. |
| Text.StringLessIrreflexive | components/track-library.tsx:62 | Code-point order never puts a string before itself. |
| Text.StringLessTransitive | components/track-library.tsx:62 | Code-point order is transitive. |
| Text.StringLessTotal | components/track-library.tsx:62 | Of two different strings, one sorts first. |

## Left out

- `handleShuffle` (app/page.tsx:483-491) and the bot reply in `handleSendMessage`
  (app/page.tsx:228-250): they depend on `Math.random` and timers.
- `handleSendMessage` itself is not modelled. This includes the chat message `handleAddTrack`
  posts (app/page.tsx:300), which lies outside the playlist state.
- `handleVote`'s analytics update (app/page.tsx:322-328) is a floating-point average over a
  stale closure. Only the vote reducer is modelled.
- `handleToggleFavorite`, `handleTogglePlay`, the export, the keyboard shortcuts and the
  playback-progress interval of app/page.tsx are not part of this model.
- The display order `sortedPlaylist` (app/page.tsx:532-544) depends on `localeCompare` and date
  parsing, which are left out.
- `handleDropBetween`'s inputs: the `draggedItem` closure is read from the page state when the
  handler runs. React's batching of `setState` calls is flattened into one step per handler.
- Playlist.AddTrack: the counter advances only when an item is added. Under React's StrictMode
  the updater function runs twice and skips ids, which is not modelled.
- Positions, times, progress and seek fractions are `real`. IEEE-754 rounding, in particular
  the loss of precision after many midpoint insertions, is not modelled.
- PlaylistPage.Home.DropBetween: one call is one run of the handler. As wired, a drop on an item
  runs it twice, for the item and then for the enclosing queue (app/page.tsx:774-794). That
  second, bubbled run is modelled by PlaylistOrder.DropOnItemAsWired and its lemmas (see
  Findings), not by the class. The class stands for the intended single run.
- TrackLibrary.SortIsSorted: sorts in code-point order. JavaScript's default `sort` compares
  UTF-16 code units, which orders characters above U+FFFF (surrogate pairs) differently from
  characters between U+E000 and U+FFFF. The model agrees with it on text without such characters.
- PlaylistOrder.SortByPosition: the insertion sort places an item ahead of equal positions, but
  no contract states stability (items with equal positions keeping their relative order). Only
  sortedness and the permutation are proved.
- PlaylistPage.Home.DropBetween: takes no `isAfter`, since both call sites (app/page.tsx:779 and
  app/page.tsx:792) pass `false`, where the written and the corrected plans agree. Dropping after
  a target is modelled by the plan functions and their lemmas, not by the class.
- Text.ToLower: only ASCII letters are case-mapped. JavaScript's full Unicode case mapping is not
  modelled, so TrackLibrary.MatchesSearch is exact only for ASCII text. Strings are sequences of
  `char`, not UTF-16 code units.
- Text.ToUpper: only ASCII letters are case-mapped, the same way. JavaScript's `toUpperCase` can
  lengthen text ("ß" becomes "SS"), which is not modelled.
- AlbumArt.Initials: the bound of at most two characters holds under that ASCII case mapping. With
  JavaScript's full mapping an initial such as "ß" upper-cases to two characters, so the source
  can show up to four.
- TracksRoute.Get: the Prisma query is represented by the stored rows in creation order. A NaN
  limit gives `None`, since what Prisma does with `take: NaN` is not modelled. The faker
  fallback after a database error (app/api/tracks/route.ts:61-77) is random data and is left out.
- TracksRoute.DurationTextRoundTrip: stated for lengths of at least 0 only. A negative length
  yields "-m:-s"-style text that does not read back.
- `PlayerBubble`'s wavesurfer and audio wiring, the animation frame loop and its volume effect
  are browser I/O. Only the formulas they feed are modelled.
- The swipe hook's callbacks are optional in the source. The model returns the direction that
  would fire instead of calling anything.
- The theme hook's `localStorage` and `document.documentElement` are fields of the class, and
  the stored value at page load is a parameter.
- `Date.now()` and `new Date()` are the `now` parameter.
- The other components, API routes, socket server and database helpers of the repository are
  not part of this model.

## Findings

| source | as written | input that shows it | evidently intended | confidence | as-written member | corrected member |
|---|---|---|---|---|---|---|
| app/page.tsx:373-385 | With `isAfter` true, `targetIndex` is first moved one past the target (line 373). Then `finalIndex` adds one again to the remaining slot of `sorted[targetIndex]` (line 385). The dragged item lands one slot too far (PlaylistOrder.PlanDropAsWrittenOvershoots). | Items a, b, c, d in position order: drag a and drop it after b. The result is b, c, a, d. | Dropping after b gives b, a, c, d: the item lands immediately after its target (PlaylistOrder.PlanDropLandsBeforeAnchor, PlaylistOrder.DropAfterExample). Every call site passes `isAfter` false, where both agree (PlaylistOrder.PlanDropAgreesBefore), so the defect is latent. | not executed | PlaylistOrder.DropAfterAsWrittenExample | PlaylistOrder.PlanDropLandsBeforeAnchor |
| app/page.tsx:774-794 | Each queue item's drop zone (lines 782-794) sits inside the queue's drop zone (lines 774-781), and neither stops propagation. A drop on an item runs `handleDropBetween(item, false)` and then `handleDropBetween(null, false)`. Both read the same `draggedItem`, and the second update starts from the first one's result. The queue's handler moves the dragged item to the end (PlaylistOrder.DropOnItemAsWiredLandsLast). | Items a, b, c, d in position order: drag a and drop it onto c. The result is b, c, d, a. | The item's handler alone runs, and a lands immediately before c: b, a, c, d (PlaylistOrder.DropOnThirdExample, PlaylistOrder.PlanDropLandsBeforeAnchor). PlaylistPage.Home.DropBetween models that single run. | not executed | PlaylistOrder.DropOnThirdAsWiredExample | PlaylistOrder.PlanDropLandsBeforeAnchor |
