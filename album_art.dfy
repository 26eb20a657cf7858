/** The album art panel's initials: the first letter of each word of the artist's name, at most
  * two of them, upper-cased. */
module AlbumArt {
  import Text

  /** `s.split(" ")`: the pieces between single spaces, empty pieces included, so there is one
    * piece more than there are spaces. */
  function SplitSpaces(s: string): (pieces: seq<string>)
    ensures |pieces| >= 1
    ensures forall k :: 0 <= k < |pieces| ==> ' ' !in pieces[k]
  {
    if s == [] then [""]
    else if s[0] == ' ' then [""] + SplitSpaces(s[1..])
    else
      var rest := SplitSpaces(s[1..]);
      [[s[0]] + rest[0]] + rest[1..]
  }

  /** `pieces.join(" ")`. */
  function JoinSpaces(pieces: seq<string>): string
    requires |pieces| >= 1
  {
    if |pieces| == 1 then pieces[0] else pieces[0] + " " + JoinSpaces(pieces[1..])
  }

  /** Splitting at spaces and joining with spaces gives the text back. */
  lemma {:induction false} SplitJoin(s: string)
    ensures JoinSpaces(SplitSpaces(s)) == s
  {
    if s != [] {
      SplitJoin(s[1..]);
      var rest := SplitSpaces(s[1..]);
      if s[0] == ' ' {
        assert s == " " + s[1..];
      } else if |rest| == 1 {
        assert s == [s[0]] + s[1..];
      } else {
        assert JoinSpaces(rest) == rest[0] + " " + JoinSpaces(rest[1..]);
        var pieces := SplitSpaces(s);
        assert pieces[1..] == rest[1..];
        assert s == [s[0]] + s[1..];
      }
    }
  }

  /** `.map((word) => word[0]).join("")`: the first character of every piece; an empty piece
    * gives `undefined`, which `join` writes as nothing. */
  function FirstLetters(words: seq<string>): (r: string)
    ensures |r| <= |words|
  {
    if words == [] then ""
    else (if words[0] == "" then "" else [words[0][0]]) + FirstLetters(words[1..])
  }

  /** `.slice(0, 2)`. */
  function TakeTwo(s: string): (r: string)
    ensures |r| == if |s| < 2 then |s| else 2
    ensures r == s[..|r|]
  {
    if |s| < 2 then s else s[..2]
  }

  /** `initials`. */
  function Initials(artist: string): (r: string)
    ensures |r| <= 2
  {
    Text.ToUpper(TakeTwo(FirstLetters(SplitSpaces(artist))))
  }

  /** The characters of `s` that begin a word: not a space, and first or after a space
    * (`afterSpace` says whether the character before `s` was a space or there was none). */
  function WordStarts(s: string, afterSpace: bool): string {
    if s == [] then ""
    else (if afterSpace && s[0] != ' ' then [s[0]] else []) + WordStarts(s[1..], s[0] == ' ')
  }

  /** The letters taken from the pieces after the first are the word starts after the first
    * character. */
  lemma {:induction false} LettersAfterFirstPiece(s: string)
    ensures FirstLetters(SplitSpaces(s)[1..]) == WordStarts(s, false)
  {
    if s != [] {
      LettersAfterFirstPiece(s[1..]);
      var rest := SplitSpaces(s[1..]);
      if s[0] == ' ' {
        assert SplitSpaces(s)[1..] == rest;
        assert rest == [rest[0]] + rest[1..];
        assert rest[0] == [] <==> s[1..] == [] || s[1..][0] == ' ';
      } else {
        assert SplitSpaces(s)[1..] == rest[1..];
      }
    }
  }

  /** The initials, before cutting and upper-casing, are exactly the first characters of the
    * words of the name: leading and doubled spaces contribute nothing. */
  lemma {:induction false} LettersAreWordStarts(s: string)
    ensures FirstLetters(SplitSpaces(s)) == WordStarts(s, true)
  {
    LettersAfterFirstPiece(s);
    var pieces := SplitSpaces(s);
    assert FirstLetters(pieces) ==
      (if pieces[0] == "" then "" else [pieces[0][0]]) + FirstLetters(pieces[1..]);
    if s == [] {
    } else if s[0] == ' ' {
      assert pieces[0] == "";
      assert WordStarts(s, true) == WordStarts(s, false);
    } else {
      assert pieces[0] != "" && pieces[0][0] == s[0];
      assert WordStarts(s, true) == [s[0]] + WordStarts(s, false);
    }
  }

  /** So the initials are the first two word starts, upper-cased. */
  lemma {:induction false} InitialsOfWords(artist: string)
    ensures Initials(artist) == Text.ToUpper(TakeTwo(WordStarts(artist, true)))
  {
    LettersAreWordStarts(artist);
  }

  /** A word without spaces starts a word exactly when a space or nothing came before it. */
  lemma {:induction false} WordStartsOfWord(w: string, rest: string, afterSpace: bool)
    requires w != [] && ' ' !in w
    ensures WordStarts(w + rest, afterSpace) == (if afterSpace then [w[0]] else []) + WordStarts(rest, false)
    decreases |w|
  {
    var s := w + rest;
    var head: string := if afterSpace then [w[0]] else [];
    assert s[0] == w[0] && s[1..] == w[1..] + rest;
    assert WordStarts(s, afterSpace) == head + WordStarts(w[1..] + rest, false);
    if |w| > 1 {
      assert ' ' !in w[1..] by {
        assert forall k :: 0 <= k < |w| - 1 ==> w[1..][k] == w[k + 1];
      }
      WordStartsOfWord(w[1..], rest, false);
      assert [] + WordStarts(rest, false) == WordStarts(rest, false);
    } else {
      assert w[1..] + rest == rest;
    }
  }

  /** "Daft Punk" and the like: two words give their two first letters, upper-cased. */
  lemma {:induction false} TwoWords(a: string, b: string)
    requires a != [] && b != [] && ' ' !in a && ' ' !in b
    ensures Initials(a + " " + b) == Text.ToUpper([a[0], b[0]])
  {
    InitialsOfWords(a + " " + b);
    WordStartsOfWord(a, " " + b, true);
    assert a + " " + b == a + (" " + b);
    assert (" " + b)[1..] == b;
    WordStartsOfWord(b, "", true);
    assert b + "" == b;
  }

  /** An empty name, or one of spaces only, has no initials. */
  lemma {:induction false} NoWordsNoInitials(s: string, afterSpace: bool)
    requires forall k :: 0 <= k < |s| ==> s[k] == ' '
    ensures WordStarts(s, afterSpace) == ""
    ensures Initials(s) == ""
  {
    if s != [] {
      NoWordsNoInitials(s[1..], true);
    }
    InitialsOfWords(s);
  }
}
