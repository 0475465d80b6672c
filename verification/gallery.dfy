/** The gallery controller: the module-level variables of the page script
    gathered into one immutable state record, and each event handler as a
    transition over it. */
module Gallery {
  import opened Values
  import opened Catalog
  import opened Filter
  import opened Pagination
  import opened View
  import opened Loader

  datatype State = State(
    currentPage: int,
    lastPage: int,
    allMovies: seq<Movie>,
    currentSearch: string,
    filteredMovies: seq<Movie>,
    grid: Grid,
    spinnerVisible: bool,
    controls: Controls,
    modal: Modal
  )

  /** The variables' initial values. The grid, the spinner and the
      pagination bar start as the page markup has them; the model takes an
      empty grid, a hidden spinner and enabled buttons with no text. */
  const Initial := State(1, 1, [], "", [], Cards([]), false, Controls(false, false, ""), InitialModal)

  /** `filterAndRender()`: re-derives the visible movies from the loaded page
      and the stored search text and repaints the grid. */
  function FilterAndRender(s: State): (t: State)
    ensures t.filteredMovies == Visible(s.allMovies, s.currentSearch)
    ensures t.grid == RenderMovies(t.filteredMovies)
    ensures t.(filteredMovies := s.filteredMovies, grid := s.grid) == s
  {
    var v := Visible(s.allMovies, s.currentSearch);
    s.(filteredMovies := v, grid := RenderMovies(v))
  }

  /** `showSpinner()` at the start of `fetchMovies`. */
  function BeginLoad(s: State): (t: State)
    ensures t.spinnerVisible
    ensures t.(spinnerVisible := s.spinnerVisible) == s
  {
    s.(spinnerVisible := true)
  }

  /** `fetchMovies` from the moment its request settles. On success the page
      replaces the loaded movies, the page numbers come from `meta`, the
      filter is re-applied and the bar updated. On failure only the grid and
      the bar change. Either way the `finally` hides the spinner. */
  function Settle(s: State, o: FetchOutcome): (t: State)
    ensures !t.spinnerVisible
    ensures t.currentSearch == s.currentSearch && t.modal == s.modal
    ensures Interpret(o).Loaded? ==>
              && t.allMovies == Interpret(o).page.movies
              && t.currentPage == Interpret(o).page.currentPage
              && t.lastPage == Interpret(o).page.lastPage
              && t.filteredMovies == Visible(t.allMovies, t.currentSearch)
              && t.grid == RenderMovies(t.filteredMovies)
              && t.controls == UpdatePagination(t.currentPage, t.lastPage)
    ensures Interpret(o).Failed? ==>
              && t.allMovies == s.allMovies
              && t.currentPage == s.currentPage
              && t.lastPage == s.lastPage
              && t.filteredMovies == s.filteredMovies
              && t.grid == Failure(LoadFailedText, Interpret(o).message)
              && t.controls == Cleared
  {
    var settled :=
      match Interpret(o)
      case Loaded(page) =>
        var u := FilterAndRender(s.(allMovies := page.movies, lastPage := page.lastPage, currentPage := page.currentPage));
        u.(controls := UpdatePagination(u.currentPage, u.lastPage))
      case Failed(message) =>
        s.(grid := Failure(LoadFailedText, message), controls := Cleared);
    settled.(spinnerVisible := false)
  }

  /** The search form's `submit` and the search input's `input` handlers:
      both store the input's value and re-filter. */
  function Search(s: State, value: string): (t: State)
    ensures t.currentSearch == value
    ensures t.filteredMovies == Visible(s.allMovies, value)
    ensures t.grid == RenderMovies(t.filteredMovies)
    ensures t.(currentSearch := s.currentSearch, filteredMovies := s.filteredMovies, grid := s.grid) == s
  {
    FilterAndRender(s.(currentSearch := value))
  }

  /** A click on the prev button. A disabled button delivers no click; an
      enabled one runs the handler, which starts a load of the previous page
      only when there is one. Returns the new state and the page requested. */
  function ClickPrev(s: State): (r: (State, Option<int>))
    ensures r.1 == if s.controls.prevDisabled then None else PrevTarget(s.currentPage)
    ensures r.1.Some? ==> r.1.value == s.currentPage - 1 >= 1 && r.0 == BeginLoad(s)
    ensures r.1.None? ==> r.0 == s
  {
    if s.controls.prevDisabled then (s, None)
    else
      match PrevTarget(s.currentPage)
      case Some(p) => (BeginLoad(s), Some(p))
      case None => (s, None)
  }

  /** A click on the next button, as `ClickPrev`. */
  function ClickNext(s: State): (r: (State, Option<int>))
    ensures r.1 == if s.controls.nextDisabled then None else NextTarget(s.currentPage, s.lastPage)
    ensures r.1.Some? ==> r.1.value == s.currentPage + 1 <= s.lastPage && r.0 == BeginLoad(s)
    ensures r.1.None? ==> r.0 == s
  {
    if s.controls.nextDisabled then (s, None)
    else
      match NextTarget(s.currentPage, s.lastPage)
      case Some(p) => (BeginLoad(s), Some(p))
      case None => (s, None)
  }

  /** A click on the `i`-th card opens the overlay for its movie; there is
      nothing to click when the grid has no such card. */
  function ClickCard(s: State, i: int): (t: State)
    ensures s.grid.Cards? && 0 <= i < |s.grid.cards| ==> t.modal == ShowModal(s.grid.cards[i].movie)
    ensures t.(modal := s.modal) == s
  {
    if s.grid.Cards? && 0 <= i < |s.grid.cards| then s.(modal := ShowModal(s.grid.cards[i].movie)) else s
  }

  datatype Event =
    | SearchInput(value: string)
    | SearchSubmit(value: string)
    | PrevClick
    | NextClick
    | LoadSettled(outcome: FetchOutcome)
    | CardClick(index: int)
    | Dismissal(e: DismissEvent)

  /** One event: the resulting state and the page a new load was started
      for, if any. */
  function Step(s: State, e: Event): (State, Option<int>) {
    match e
    case SearchInput(value) => (Search(s, value), None)
    case SearchSubmit(value) => (Search(s, value), None)
    case PrevClick => ClickPrev(s)
    case NextClick => ClickNext(s)
    case LoadSettled(o) => (Settle(s, o), None)
    case CardClick(i) => (ClickCard(s, i), None)
    case Dismissal(d) => (s.(modal := Dismiss(s.modal, d)), None)
  }

  // ------------------------------------------------------------ invariants

  /** The visible movies are always the loaded page filtered by the stored
      search text. */
  predicate FilterConsistent(s: State) {
    s.filteredMovies == Visible(s.allMovies, s.currentSearch)
  }

  /** The bar either describes the stored page numbers or is cleared with
      both buttons disabled after a failed load. */
  predicate ControlsConsistent(s: State) {
    s.controls == UpdatePagination(s.currentPage, s.lastPage) || s.controls == Cleared
  }

  lemma InitialFilterConsistent()
    ensures FilterConsistent(Initial)
  {
  }

  /** Every event keeps the visible movies in step with the loaded page and
      the search text. */
  lemma StepKeepsFilterConsistent(s: State, e: Event)
    requires FilterConsistent(s)
    ensures FilterConsistent(Step(s, e).0)
  {
    var t := Step(s, e).0;
    match e
    case SearchInput(v) =>
      assert t == Search(s, v);
    case SearchSubmit(v) =>
      assert t == Search(s, v);
    case PrevClick =>
      assert t == s || t == BeginLoad(s);
    case NextClick =>
      assert t == s || t == BeginLoad(s);
    case LoadSettled(o) =>
      assert t == Settle(s, o);
      assert t.currentSearch == s.currentSearch;
      if Interpret(o).Failed? {
        assert t.filteredMovies == s.filteredMovies && t.allMovies == s.allMovies;
      }
    case CardClick(i) =>
      assert t.filteredMovies == s.filteredMovies && t.allMovies == s.allMovies && t.currentSearch == s.currentSearch;
    case Dismissal(d) =>
      assert t.filteredMovies == s.filteredMovies && t.allMovies == s.allMovies && t.currentSearch == s.currentSearch;
  }

  /** Every settled load leaves the bar consistent, whatever it showed
      before, and no other event disturbs that. */
  lemma StepKeepsControlsConsistent(s: State, e: Event)
    requires e.LoadSettled? || ControlsConsistent(s)
    ensures ControlsConsistent(Step(s, e).0)
  {
    var t := Step(s, e).0;
    match e
    case LoadSettled(o) =>
      assert t == Settle(s, o);
    case SearchInput(v) =>
      assert t.controls == s.controls && t.currentPage == s.currentPage && t.lastPage == s.lastPage;
    case SearchSubmit(v) =>
      assert t.controls == s.controls && t.currentPage == s.currentPage && t.lastPage == s.lastPage;
    case PrevClick =>
      assert t == s || t == BeginLoad(s);
    case NextClick =>
      assert t == s || t == BeginLoad(s);
    case CardClick(i) =>
      assert t.controls == s.controls && t.currentPage == s.currentPage && t.lastPage == s.lastPage;
    case Dismissal(d) =>
      assert t.controls == s.controls && t.currentPage == s.currentPage && t.lastPage == s.lastPage;
  }

  /** The spinner is visible while a request is outstanding and hidden once
      it settles, on the success and on every failure path. */
  lemma SpinnerLifecycle(s: State, e: Event)
    ensures Step(s, e).1.Some? ==> Step(s, e).0.spinnerVisible
    ensures e.LoadSettled? ==> !Step(s, e).0.spinnerVisible
    ensures !e.LoadSettled? && Step(s, e).1.None? ==> Step(s, e).0.spinnerVisible == s.spinnerVisible
  {
  }

  /** A successful load replaces the loaded page wholesale: what the page
      shows afterwards does not depend on the movies loaded before. */
  lemma LoadReplacesWholesale(s1: State, s2: State, o: FetchOutcome)
    requires Interpret(o).Loaded?
    requires s1.currentSearch == s2.currentSearch
    ensures Settle(s1, o).allMovies == Settle(s2, o).allMovies == Interpret(o).page.movies
    ensures Settle(s1, o).filteredMovies == Settle(s2, o).filteredMovies
    ensures Settle(s1, o).grid == Settle(s2, o).grid
    ensures Settle(s1, o).controls == Settle(s2, o).controls
  {
  }

  /** After a failed load neither button can start a load. */
  lemma NoNavigationAfterFailure(s: State, o: FetchOutcome)
    requires Interpret(o).Failed?
    ensures ClickPrev(Settle(s, o)).1.None? && ClickNext(Settle(s, o)).1.None?
  {
  }

  /** Pages requested by the buttons: prev never asks for a page below 1,
      next never for one beyond the last page, and from a page within
      `[1, lastPage]` both stay within it. */
  lemma NavigationBounds(s: State)
    ensures ClickPrev(s).1.Some? ==> ClickPrev(s).1.value == s.currentPage - 1 >= 1
    ensures ClickNext(s).1.Some? ==> ClickNext(s).1.value == s.currentPage + 1 <= s.lastPage
    ensures 1 <= s.currentPage <= s.lastPage ==>
              && (ClickPrev(s).1.Some? ==> 1 <= ClickPrev(s).1.value <= s.lastPage)
              && (ClickNext(s).1.Some? ==> 1 <= ClickNext(s).1.value <= s.lastPage)
  {
  }

  /** When the bar describes the page, a button delivers a click exactly
      when its handler would request a page. */
  lemma EnabledButtonsNavigate(s: State)
    requires s.controls == UpdatePagination(s.currentPage, s.lastPage)
    ensures ClickPrev(s).1.Some? <==> !s.controls.prevDisabled
    ensures ClickNext(s).1.Some? <==> !s.controls.nextDisabled
  {
  }

  /** The `input` event followed by `submit` with the same text shows the
      same thing as the `input` event alone; the grid is rebuilt, never
      accumulated. */
  lemma SearchIdempotent(s: State, value: string)
    ensures Search(Search(s, value), value) == Search(s, value)
  {
  }

  /** What a search shows depends only on the loaded page and the text, not
      on what the grid showed before. */
  lemma SearchForgetsPreviousGrid(s1: State, s2: State, value: string)
    requires s1.allMovies == s2.allMovies
    ensures Search(s1, value).grid == Search(s2, value).grid
    ensures Search(s1, value).filteredMovies == Search(s2, value).filteredMovies
  {
  }

  /** The requested page number only shapes the request URL: a successful
      response without a truthy `meta.current_page` puts the controller on
      page 1, whichever page was asked for. */
  lemma MissingMetaMeansFirstPage(s: State, status: int, movies: seq<Movie>)
    requires IsOk(status)
    ensures Settle(s, Response(status, Json(Some(movies), None))).currentPage == 1
    ensures Settle(s, Response(status, Json(Some(movies), None))).lastPage == 1
  {
  }

  /** Searching after a failed load repaints the grid from the page loaded
      before the failure, while the bar stays cleared. */
  lemma SearchAfterFailureShowsEarlierPage(s: State, o: FetchOutcome, value: string)
    requires Interpret(o).Failed?
    ensures var t := Search(Settle(s, o), value);
            && t.grid == RenderMovies(Visible(s.allMovies, value))
            && t.controls == Cleared
  {
  }

  // ------------------------------------------------------------------ runs

  /** The state after handling `events` in order. */
  function Run(s: State, events: seq<Event>): State
    decreases |events|
  {
    if |events| == 0 then s else Run(Step(s, events[0]).0, events[1..])
  }

  lemma {:induction false} RunKeepsFilterConsistent(s: State, events: seq<Event>)
    requires FilterConsistent(s)
    ensures FilterConsistent(Run(s, events))
    decreases |events|
  {
    if |events| > 0 {
      StepKeepsFilterConsistent(s, events[0]);
      RunKeepsFilterConsistent(Step(s, events[0]).0, events[1..]);
    }
  }

  /** In every state the page can reach, the visible movies are the loaded
      page filtered by the stored search text. */
  lemma ReachableFilterConsistent(events: seq<Event>)
    ensures FilterConsistent(Run(Initial, events))
  {
    InitialFilterConsistent();
    RunKeepsFilterConsistent(Initial, events);
  }

  lemma {:induction false} RunKeepsControlsConsistent(s: State, events: seq<Event>)
    requires ControlsConsistent(s)
    ensures ControlsConsistent(Run(s, events))
    decreases |events|
  {
    if |events| > 0 {
      StepKeepsControlsConsistent(s, events[0]);
      RunKeepsControlsConsistent(Step(s, events[0]).0, events[1..]);
    }
  }

  // -------------------------------------------------------- page ranges

  /** The stored page numbers satisfy `1 <= currentPage <= lastPage`. */
  predicate PagesInRange(s: State) {
    1 <= s.currentPage <= s.lastPage
  }

  /** The event is not a successful load whose `meta` lies outside
      `1 <= current_page <= last_page`. The script copies `meta` without
      checking it, so the range can only come from the API. */
  predicate MetaInRange(e: Event) {
    e.LoadSettled? && Interpret(e.outcome).Loaded? ==>
      1 <= Interpret(e.outcome).page.currentPage <= Interpret(e.outcome).page.lastPage
  }

  lemma StepKeepsPagesInRange(s: State, e: Event)
    requires PagesInRange(s) && MetaInRange(e)
    ensures PagesInRange(Step(s, e).0)
  {
    var t := Step(s, e).0;
    match e
    case LoadSettled(o) =>
      assert t == Settle(s, o);
    case SearchInput(v) =>
      assert t.currentPage == s.currentPage && t.lastPage == s.lastPage;
    case SearchSubmit(v) =>
      assert t.currentPage == s.currentPage && t.lastPage == s.lastPage;
    case PrevClick =>
      assert t == s || t == BeginLoad(s);
    case NextClick =>
      assert t == s || t == BeginLoad(s);
    case CardClick(i) =>
      assert t.currentPage == s.currentPage && t.lastPage == s.lastPage;
    case Dismissal(d) =>
      assert t.currentPage == s.currentPage && t.lastPage == s.lastPage;
  }

  lemma {:induction false} RunKeepsPagesInRange(s: State, events: seq<Event>)
    requires PagesInRange(s)
    requires forall i :: 0 <= i < |events| ==> MetaInRange(events[i])
    ensures PagesInRange(Run(s, events))
    decreases |events|
  {
    if |events| > 0 {
      StepKeepsPagesInRange(s, events[0]);
      RunKeepsPagesInRange(Step(s, events[0]).0, events[1..]);
    }
  }

  /** As long as every loaded page's `meta` is in range, the buttons only
      ever request pages within `[1, lastPage]`. */
  lemma ReachableNavigationInRange(events: seq<Event>)
    requires forall i :: 0 <= i < |events| ==> MetaInRange(events[i])
    ensures var t := Run(Initial, events);
            && (ClickPrev(t).1.Some? ==> 1 <= ClickPrev(t).1.value <= t.lastPage)
            && (ClickNext(t).1.Some? ==> 1 <= ClickNext(t).1.value <= t.lastPage)
  {
    RunKeepsPagesInRange(Initial, events);
    NavigationBounds(Run(Initial, events));
  }

  /** Without that premise the range is lost: `meta` of page 7 of 5 lets
      prev request page 6, beyond the last page, and `meta` of page -3 of 5
      lets next request page -2. */
  lemma UncheckedMetaLeavesRange(s: State)
    ensures var t := Settle(s, Response(200, Json(Some([]), Some(Meta(Some(7), Some(5))))));
            && t.currentPage == 7 && t.lastPage == 5
            && ClickPrev(t).1 == Some(6)
    ensures var t := Settle(s, Response(200, Json(Some([]), Some(Meta(Some(-3), Some(5))))));
            && t.currentPage == -3 && t.lastPage == 5
            && ClickNext(t).1 == Some(-2)
  {
  }
}
