/** The track library panel: the genre and category choices it offers and the tracks it shows
  * for a search text and a selected genre and category. */
module TrackLibrary {
  import opened Wrappers
  import opened Playlist
  import Seqs
  import Text

  // ---------------------------------------------------------------- choices

  /** `[...new Set(s)]`: the values of `s` without repeats, each where it first occurs. */
  function Dedup(s: seq<string>): (r: seq<string>)
    ensures Seqs.Distinct(r)
    ensures forall x :: x in r <==> x in s
  {
    if s == [] then []
    else
      var init, last := s[..|s| - 1], s[|s| - 1];
      assert s == init + [last];
      var r := Dedup(init);
      if last in r then r else r + [last]
  }

  /** Every element comes before every later one in `sort()` order. */
  predicate StrictlySorted(s: seq<string>) {
    forall i, j :: 0 <= i < j < |s| ==> Text.StringLess(s[i], s[j])
  }

  /** One step of sorting: `x` goes before the first element it is below. */
  function InsertSorted(x: string, s: seq<string>): (r: seq<string>)
    ensures multiset(r) == multiset(s) + multiset{x}
  {
    if s == [] then [x]
    else
      assert s == [s[0]] + s[1..];
      if Text.StringLess(x, s[0]) then [x] + s
      else [s[0]] + InsertSorted(x, s[1..])
  }

  /** `Array.prototype.sort()` with its default comparison, as an insertion sort. */
  function SortStrings(s: seq<string>): (r: seq<string>)
    ensures multiset(r) == multiset(s)
  {
    if s == [] then []
    else
      assert s == [s[0]] + s[1..];
      InsertSorted(s[0], SortStrings(s[1..]))
  }

  /** Some track of the library has genre `g`. */
  predicate HasGenre(tracks: seq<Track>, g: string) {
    exists i :: 0 <= i < |tracks| && tracks[i].genre == g
  }

  /** `tracks.map((t) => t.genre)`. */
  function GenreValues(tracks: seq<Track>): (r: seq<string>)
    ensures forall g :: g in r <==> HasGenre(tracks, g)
  {
    if tracks == [] then []
    else
      assert forall i :: 0 < i < |tracks| ==> tracks[i] == tracks[1..][i - 1];
      assert forall i :: 0 <= i < |tracks| - 1 ==> tracks[1..][i] == tracks[i + 1];
      [tracks[0].genre] + GenreValues(tracks[1..])
  }

  /** `genres`: every genre of the library once, sorted. */
  function Genres(tracks: seq<Track>): seq<string> {
    SortStrings(Dedup(GenreValues(tracks)))
  }

  /** The categories `!!c` lets through: present and not empty, in library order. */
  function CategoryValues(tracks: seq<Track>): (r: seq<string>)
    ensures forall c :: c in r <==> c != "" && exists i :: 0 <= i < |tracks| && tracks[i].category == Some(c)
  {
    if tracks == [] then []
    else
      var rest := CategoryValues(tracks[1..]);
      assert forall i :: 0 < i < |tracks| ==> tracks[i] == tracks[1..][i - 1];
      assert forall i :: 0 <= i < |tracks| - 1 ==> tracks[1..][i] == tracks[i + 1];
      match tracks[0].category
      case Some(c) => if c != "" then [c] + rest else rest
      case None => rest
  }

  /** `categories`: every non-empty category of the library once, sorted. */
  function Categories(tracks: seq<Track>): seq<string> {
    SortStrings(Dedup(CategoryValues(tracks)))
  }

  /** Inserting a new string into a sorted list keeps it sorted. */
  lemma {:induction false} InsertKeepsSorted(x: string, s: seq<string>)
    requires StrictlySorted(s) && x !in s
    ensures StrictlySorted(InsertSorted(x, s))
  {
    if s == [] {
    } else if Text.StringLess(x, s[0]) {
      forall j | 0 < j < |s| ensures Text.StringLess(x, s[j]) {
        Text.StringLessTransitive(x, s[0], s[j]);
      }
    } else {
      Text.StringLessTotal(x, s[0]);
      InsertKeepsSorted(x, s[1..]);
      var r := InsertSorted(x, s[1..]);
      forall k | 0 <= k < |r| ensures Text.StringLess(s[0], r[k]) {
        assert r[k] in multiset(r);
        if r[k] != x {
          assert r[k] in s[1..];
        }
      }
    }
  }

  /** Sorting a list without repeats gives it in strictly ascending order. */
  lemma {:induction false} SortIsSorted(s: seq<string>)
    requires Seqs.Distinct(s)
    ensures StrictlySorted(SortStrings(s))
  {
    if s != [] {
      assert Seqs.Distinct(s[1..]) by {
        forall i, j | 0 <= i < j < |s[1..]| ensures s[1..][i] != s[1..][j] {
          assert s[1..][i] == s[i + 1] && s[1..][j] == s[j + 1];
        }
      }
      SortIsSorted(s[1..]);
      var t := SortStrings(s[1..]);
      assert s[0] !in t by {
        forall k | 0 <= k < |s[1..]| ensures s[1..][k] != s[0] {
          assert s[1..][k] == s[k + 1];
        }
        assert s[0] !in multiset(s[1..]);
        assert multiset(t) == multiset(s[1..]);
      }
      InsertKeepsSorted(s[0], t);
    }
  }

  /** `genres` lists, in ascending order and once each, exactly the genres of the library. */
  lemma {:induction false} GenresListing(tracks: seq<Track>)
    ensures StrictlySorted(Genres(tracks))
    ensures forall g :: g in Genres(tracks) <==> HasGenre(tracks, g)
  {
    var d := Dedup(GenreValues(tracks));
    SortIsSorted(d);
    forall g ensures g in Genres(tracks) <==> g in GenreValues(tracks) {
      assert g in Genres(tracks) <==> g in multiset(d);
    }
  }

  /** `categories` lists, in ascending order and once each, exactly the categories of the
    * library that are present and not empty. */
  lemma {:induction false} CategoriesListing(tracks: seq<Track>)
    ensures StrictlySorted(Categories(tracks))
    ensures forall c :: c in Categories(tracks) <==>
      c != "" && exists i :: 0 <= i < |tracks| && tracks[i].category == Some(c)
  {
    var d := Dedup(CategoryValues(tracks));
    SortIsSorted(d);
    forall c ensures c in Categories(tracks) <==> c in CategoryValues(tracks) {
      assert c in Categories(tracks) <==> c in multiset(d);
    }
  }

  /** Of two strings one below the other, the second is not below the first. */
  lemma {:induction false} StringLessAsymmetric(a: string, b: string)
    ensures Text.StringLess(a, b) ==> !Text.StringLess(b, a)
    decreases |a|
  {
    if a != [] && b != [] && a[0] == b[0] {
      StringLessAsymmetric(a[1..], b[1..]);
    }
  }

  /** The first element of a strictly sorted list is below every other member. */
  lemma {:induction false} FirstIsLeast(s: seq<string>, x: string)
    requires StrictlySorted(s) && x in s
    ensures x == s[0] || Text.StringLess(s[0], x)
  {
  }

  /** The members of a strictly sorted list after its first are the members other than the
    * first. */
  lemma {:induction false} TailMembers(s: seq<string>, x: string)
    requires StrictlySorted(s) && s != []
    ensures x in s[1..] <==> x in s && x != s[0]
  {
    assert s == [s[0]] + s[1..];
    Text.StringLessIrreflexive(x);
    if x in s[1..] {
      var k :| 0 <= k < |s[1..]| && s[1..][k] == x;
      assert s[k + 1] == x;
    }
  }

  /** A strictly sorted list is fixed by its members: however a sort arranges ties and however a
    * `Set` orders its values, the choices come out the same. */
  lemma {:induction false} SortedListingUnique(a: seq<string>, b: seq<string>)
    requires StrictlySorted(a) && StrictlySorted(b)
    requires forall x :: x in a <==> x in b
    ensures a == b
    decreases |a|
  {
    assert a != [] ==> a[0] in b;
    assert b != [] ==> b[0] in a;
    if a != [] && b != [] {
      FirstIsLeast(b, a[0]);
      FirstIsLeast(a, b[0]);
      StringLessAsymmetric(a[0], b[0]);
      assert a[0] == b[0];
      forall x ensures x in a[1..] <==> x in b[1..] {
        TailMembers(a, x);
        TailMembers(b, x);
      }
      SortedListingUnique(a[1..], b[1..]);
      assert a == [a[0]] + a[1..] && b == [b[0]] + b[1..];
    }
  }

  /** Libraries with the same genres, in whatever order and however often, offer the same genre
    * list. */
  lemma {:induction false} SameGenresSameChoices(t1: seq<Track>, t2: seq<Track>)
    requires forall g :: HasGenre(t1, g) <==> HasGenre(t2, g)
    ensures Genres(t1) == Genres(t2)
  {
    GenresListing(t1);
    GenresListing(t2);
    SortedListingUnique(Genres(t1), Genres(t2));
  }

  // ---------------------------------------------------------------- filter

  /** The search box matches, ignoring ASCII case, a piece of the title, the artist or the
    * album. */
  predicate MatchesSearch(track: Track, search: string) {
    var q := Text.ToLower(search);
    || Text.Contains(Text.ToLower(track.title), q)
    || Text.Contains(Text.ToLower(track.artist), q)
    || Text.Contains(Text.ToLower(track.album), q)
  }

  /** `matchesSearch && matchesGenre && matchesCategory`; a selection that is null or "" is no
    * constraint. */
  predicate Matches(track: Track, search: string, genre: Option<string>, category: Option<string>) {
    && MatchesSearch(track, search)
    && (genre.None? || genre.value == "" || track.genre == genre.value)
    && (category.None? || category.value == "" || track.category == category)
  }

  /** `filtered`: the tracks that match, in library order. */
  function Filtered(tracks: seq<Track>, search: string, genre: Option<string>, category: Option<string>): (r: seq<Track>)
    ensures Seqs.IsSubsequence(r, tracks)
    ensures forall t :: t in r <==> t in tracks && Matches(t, search, genre, category)
  {
    Seqs.Filter(tracks, t => Matches(t, search, genre, category))
  }

  /** A matching track shows as often as it is in the library; a track that does not match
    * does not show. */
  lemma {:induction false} FilteredCounts(tracks: seq<Track>, search: string, genre: Option<string>,
                                          category: Option<string>)
    ensures forall t :: multiset(Filtered(tracks, search, genre, category))[t]
                     == if Matches(t, search, genre, category) then multiset(tracks)[t] else 0
  {
    Seqs.FilterCounts(tracks, t => Matches(t, search, genre, category));
  }

  /** With an empty search and nothing selected the whole library shows. */
  lemma {:induction false} NoFilterShowsAll(tracks: seq<Track>, genre: Option<string>, category: Option<string>)
    requires genre == None || genre == Some("")
    requires category == None || category == Some("")
    ensures Filtered(tracks, "", genre, category) == tracks
  {
    forall t | t in tracks ensures Matches(t, "", genre, category) {
      Text.ContainsEmpty(Text.ToLower(t.title));
    }
    Seqs.FilterKeepsAll(tracks, t => Matches(t, "", genre, category));
  }

  /** Upper-casing any letters of the search text changes nothing that is shown. */
  lemma {:induction false} SearchIgnoresCase(tracks: seq<Track>, search: string, genre: Option<string>, category: Option<string>)
    ensures Filtered(tracks, Text.ToUpper(search), genre, category) == Filtered(tracks, search, genre, category)
  {
    assert Text.ToLower(Text.ToUpper(search)) == Text.ToLower(search);
    Seqs.FilterSameAnswers(tracks, t => Matches(t, Text.ToUpper(search), genre, category),
                           t => Matches(t, search, genre, category));
  }

  /** Selecting a genre shows only tracks of that genre, and only if it is one of the choices. */
  lemma {:induction false} SelectedGenreOnly(tracks: seq<Track>, search: string, g: string, category: Option<string>)
    requires g != ""
    ensures forall t :: t in Filtered(tracks, search, Some(g), category) ==> t.genre == g
    ensures Filtered(tracks, search, Some(g), category) != [] ==> g in Genres(tracks)
  {
    GenresListing(tracks);
    var r := Filtered(tracks, search, Some(g), category);
    if r != [] {
      assert r[0] in tracks;
      var i :| 0 <= i < |tracks| && tracks[i] == r[0];
    }
  }
}
