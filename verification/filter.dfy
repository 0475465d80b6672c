/** The live search: `filterAndRender` narrows the movies of the loaded page
    to those whose title contains the trimmed, lower-cased search text. */
module Filter {
  import opened Values
  import opened Text
  import opened Seqs
  import opened Catalog

  /** The search text as the filter uses it: trimmed, then lower-cased. */
  function SearchKey(raw: string): string {
    Lower(Trim(raw))
  }

  /** A movie matches when it has a non-empty title whose lower-cased form
      contains `key`. */
  predicate TitleMatches(m: Movie, key: string) {
    TruthyStr(m.title) && Includes(Lower(m.title.value), key)
  }

  /** A movie matches exactly when it has a title, the title is not empty,
      and `key` occurs somewhere in the lower-cased title. */
  lemma TitleMatchesMeaning(m: Movie, key: string)
    ensures TitleMatches(m, key) <==>
              m.title.Some? && m.title.value != "" && exists i :: OccursAt(Lower(m.title.value), key, i)
  {
  }

  /** What the search promises, independently of how it is computed: `r`
      is a subsequence of the page; an empty key keeps the page as it is;
      otherwise every movie of `r` matches and every matching movie is kept
      as often as it occurs on the page. */
  ghost predicate Shows(movies: seq<Movie>, key: string, r: seq<Movie>) {
    && IsSubsequence(r, movies)
    && (key == "" ==> r == movies)
    && (key != "" ==> forall i :: 0 <= i < |r| ==> TitleMatches(r[i], key))
    && (key != "" ==> forall m :: multiset(r)[m] == if TitleMatches(m, key) then multiset(movies)[m] else 0)
  }

  /** The movies `filterAndRender` shows for search text `raw`. */
  function Visible(movies: seq<Movie>, raw: string): (r: seq<Movie>)
    ensures AllSpace(raw) ==> r == movies
    ensures |r| <= |movies|
  {
    var key := SearchKey(raw);
    if key != "" then Select(movies, (m: Movie) => TitleMatches(m, key)) else movies
  }

  /** The search result keeps its promise. */
  lemma VisibleShows(movies: seq<Movie>, raw: string)
    ensures Shows(movies, SearchKey(raw), Visible(movies, raw))
  {
    var key := SearchKey(raw);
    if key != "" {
      var p := (m: Movie) => TitleMatches(m, key);
      SelectCounts(movies, p);
      SelectIsSubsequence(movies, p);
    } else {
      SubsequenceReflexive(movies);
    }
  }

  /** No other list keeps that promise, so it determines the result. */
  lemma VisibleIsExact(movies: seq<Movie>, raw: string, r: seq<Movie>)
    requires Shows(movies, SearchKey(raw), r)
    ensures r == Visible(movies, raw)
  {
    var key := SearchKey(raw);
    if key != "" {
      SelectUnique(movies, (m: Movie) => TitleMatches(m, key), r);
    }
  }

  /** A search text that is not all white space has a non-empty key. */
  lemma NonBlankKey(raw: string)
    requires !AllSpace(raw)
    ensures SearchKey(raw) != ""
  {
  }

  /** For a search text that is not blank, a movie is shown iff it is on the
      page and its title matches; a movie without a title is never shown. */
  lemma VisibleMembers(movies: seq<Movie>, raw: string, m: Movie)
    requires !AllSpace(raw)
    ensures m in Visible(movies, raw) <==> m in movies && TitleMatches(m, SearchKey(raw))
    ensures !TruthyStr(m.title) ==> m !in Visible(movies, raw)
  {
    VisibleShows(movies, raw);
    var r := Visible(movies, raw);
    assert m in r <==> multiset(r)[m] > 0;
    assert m in movies <==> multiset(movies)[m] > 0;
  }

  /** Applying the same search again (the `input` event followed by the form
      `submit`) shows the same movies. */
  lemma VisibleIdempotent(movies: seq<Movie>, raw: string)
    ensures Visible(Visible(movies, raw), raw) == Visible(movies, raw)
  {
    var key := SearchKey(raw);
    if key != "" {
      SelectIdempotent(movies, (m: Movie) => TitleMatches(m, key));
    }
  }

  /** The search ignores the case of the search text. */
  lemma SearchIgnoresCase(movies: seq<Movie>, raw: string)
    ensures Visible(movies, Lower(raw)) == Visible(movies, raw)
  {
    TrimLowerCommute(raw);
    LowerIdempotent(Trim(raw));
  }

  /** `filterAndRender`'s `filter` loop: walks the page once, appending each
      matching movie. */
  method FilterMovies(movies: seq<Movie>, raw: string) returns (r: seq<Movie>)
    ensures r == Visible(movies, raw)
  {
    var key := SearchKey(raw);
    if key == "" {
      return movies;
    }
    var p := (m: Movie) => TitleMatches(m, key);
    r := [];
    var i := 0;
    while i < |movies|
      invariant 0 <= i <= |movies|
      invariant r == Select(movies[..i], p)
    {
      SelectSnoc(movies[..i], movies[i], p);
      assert movies[..i + 1] == movies[..i] + [movies[i]];
      if p(movies[i]) {
        r := r + [movies[i]];
      }
      i := i + 1;
    }
    assert movies[..i] == movies;
  }
}
