/** Concrete runs of the controller: example interactions of the gallery,
    stated as lemmas about the model. */
module Scenarios {
  import opened Values
  import opened Text
  import opened Catalog
  import opened Seqs
  import opened Filter
  import opened Pagination
  import opened View
  import opened Loader
  import opened Gallery

  function Titled(title: string): Movie {
    Movie(None, Some(title), None, None, None)
  }

  function DuneResponse(): FetchOutcome {
    Response(200, Json(Some([Titled("Dune")]), Some(Meta(Some(1), Some(5)))))
  }

  lemma DuneBar()
    ensures UpdatePagination(1, 5) == Controls(true, false, "Page 1 of 5")
  {
    assert DigitChar(1) == '1' && DigitChar(5) == '5';
    assert IntToString(1) == "1";
    assert IntToString(5) == "5";
    assert IndicatorText(1, 5) == "Page 1 of 5";
  }

  lemma DuneGrid()
    ensures RenderMovies(Visible([Titled("Dune")], "")) == Cards([Card(NoImage, "Dune", Titled("Dune"))])
  {
    assert Visible([Titled("Dune")], "") == [Titled("Dune")];
  }

  /** Page 1 of 5 holding "Dune": one card titled "Dune", indicator
      "Page 1 of 5", prev disabled, next enabled. */
  lemma DunePageScenario(s: State)
    requires s.currentSearch == ""
    ensures var t := Settle(s, DuneResponse());
            && t.grid == Cards([Card(NoImage, "Dune", Titled("Dune"))])
            && t.controls == Controls(true, false, "Page 1 of 5")
            && !t.spinnerVisible
  {
    var o := DuneResponse();
    assert Interpret(o) == Loaded(Page([Titled("Dune")], 1, 5));
    DuneBar();
    DuneGrid();
  }

  /** A body without `data`: one error element, empty indicator, both
      buttons disabled, page numbers untouched. */
  lemma EmptyBodyScenario(s: State)
    ensures var t := Settle(s, Response(200, Json(None, None)));
            && t.grid == Failure(LoadFailedText, FormatErrorMessage)
            && t.controls == Controls(true, true, "")
            && t.currentPage == s.currentPage && t.lastPage == s.lastPage
  {
  }

  lemma BetKey()
    ensures SearchKey("bet") == "bet"
  {
    assert !IsJsSpace('b') && !IsJsSpace('t');
    assert LeadingSpace("bet") == 0;
    assert TrailingSpaceStart("bet") == 3;
    assert "bet"[0..3] == "bet";
    assert Lower("bet") == "bet";
  }

  lemma BetMatches()
    ensures TitleMatches(Titled("Beta"), "bet")
    ensures !TitleMatches(Titled("Alpha"), "bet")
  {
    assert Lower("Beta") == "beta";
    assert Lower("Alpha") == "alpha";
    assert OccursAt("beta", "bet", 0);
    assert !Includes("ha", "bet");
    assert "pha"[..3][0] != "bet"[0] && "pha"[1..] == "ha";
    assert !Includes("pha", "bet");
    assert "lpha"[..3][0] != "bet"[0] && "lpha"[1..] == "pha";
    assert !Includes("lpha", "bet");
    assert "alpha"[..3][0] != "bet"[0] && "alpha"[1..] == "lpha";
    assert !Includes("alpha", "bet");
  }

  /** Searching "bet" over "Alpha" and "Beta" shows only "Beta". */
  lemma SearchBetScenario(s: State)
    requires s.allMovies == [Titled("Alpha"), Titled("Beta")]
    ensures Search(s, "bet").filteredMovies == [Titled("Beta")]
  {
    BetKey();
    BetMatches();
    var p := (m: Movie) => TitleMatches(m, "bet");
    assert Select(s.allMovies, p) == Select([Titled("Beta")], p);
  }

  /** A movie with twelve cast members shows the first ten, in order. */
  lemma TwelveCastScenario(casts: seq<CastMember>)
    requires |casts| == 12
    ensures var v := ShowModal(Movie(None, None, None, None, Some(casts))).cast;
            && v.CastList? && |v.members| == 10
            && forall i :: 0 <= i < 10 ==> v.members[i] == CastCardFor(casts[i])
  {
  }

  /** Escape hides the open overlay; a second Escape changes nothing. */
  lemma EscapeScenario(s: State, m: Movie)
    ensures var open := s.(modal := ShowModal(m));
            var once := Step(open, Dismissal(KeyDown("Escape"))).0;
            && !once.modal.visible
            && Step(once, Dismissal(KeyDown("Escape"))).0 == once
  {
  }
}
