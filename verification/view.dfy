/** `renderMovies`, `showModal` and `hideModal` as builders of a view
    description: what the grid and the detail overlay display. */
module View {
  import opened Values
  import opened Catalog

  const NoMoviesText := "No movies found."
  const LoadFailedText := "Could not load movies. Please try again later."
  const UntitledText := "Untitled"
  const NoDescriptionText := "No description available."
  const NoCastText := "No cast information."
  const UnknownCastName := "Unknown"
  /** Number of cast members the overlay lists at most. */
  const MaxCast := 10

  datatype Background = NoImage | ImageUrl(url: string)

  /** One poster card; `movie` is what a click on it opens in the overlay. */
  datatype Card = Card(background: Background, title: string, movie: Movie)

  /** The content of the main container. `Message` is the single
      "no results" element, `Failure` the single load-error element. */
  datatype Grid =
    | Cards(cards: seq<Card>)
    | Message(text: string)
    | Failure(headline: string, detail: string)

  function CardFor(m: Movie): (c: Card)
    ensures c.movie == m
    ensures c.title != ""
    ensures TruthyStr(m.title) ==> c.title == m.title.value
    ensures !TruthyStr(m.title) ==> c.title == UntitledText
    ensures c.background.NoImage? <==> !TruthyStr(m.posterPath)
    ensures c.background.ImageUrl? ==> c.background.url == m.posterPath.value
  {
    Card(if TruthyStr(m.posterPath) then ImageUrl(m.posterPath.value) else NoImage,
         StrOr(m.title, UntitledText), m)
  }

  /** `renderMovies(movies)`: the container is rebuilt from scratch, so the
      result depends on `movies` alone. */
  function RenderMovies(movies: seq<Movie>): (g: Grid)
    ensures |movies| == 0 <==> g == Message(NoMoviesText)
    ensures |movies| > 0 ==> g.Cards? && |g.cards| == |movies|
    ensures g.Cards? ==> forall i :: 0 <= i < |g.cards| ==> g.cards[i] == CardFor(movies[i])
  {
    if |movies| == 0 then Message(NoMoviesText)
    else Cards(seq(|movies|, i requires 0 <= i < |movies| => CardFor(movies[i])))
  }

  /** The movies a grid's cards open, in display order. */
  function CardMovies(g: Grid): seq<Movie> {
    if g.Cards? then seq(|g.cards|, i requires 0 <= i < |g.cards| => g.cards[i].movie) else []
  }

  /** Every movie rendered gets exactly one card, in input order: reading the
      cards back gives the list that was rendered. */
  lemma RenderRoundTrip(movies: seq<Movie>)
    ensures CardMovies(RenderMovies(movies)) == movies
  {
  }

  // ------------------------------------------------------------- overlay

  /** One cast entry: image source, image alt text, displayed name. */
  datatype CastCard = CastCard(imageSrc: string, imageAlt: string, name: string)

  datatype CastView = NoCastInfo | CastList(members: seq<CastCard>)

  /** The detail overlay; `visible` is the absence of the `hidden` class. */
  datatype Modal = Modal(
    posterSrc: string,
    posterAlt: string,
    title: string,
    description: string,
    cast: CastView,
    visible: bool
  )

  function CastCardFor(c: CastMember): (v: CastCard)
    ensures v.name != ""
    ensures TruthyStr(c.name) ==> v.name == c.name.value && v.imageAlt == c.name.value
    ensures !TruthyStr(c.name) ==> v.name == UnknownCastName
    ensures TruthyStr(c.profilePath) ==> v.imageSrc == c.profilePath.value
    ensures !TruthyStr(c.profilePath) ==> v.imageSrc == ""
  {
    CastCard(StrOr(c.profilePath, ""), StrOr(c.name, "Cast member"), StrOr(c.name, UnknownCastName))
  }

  function Min(a: int, b: int): int {
    if a <= b then a else b
  }

  /** The cast section: the first ten members in order, or the placeholder
      when the movie has no cast array or an empty one. */
  function CastSection(casts: Option<seq<CastMember>>): (v: CastView)
    ensures v == NoCastInfo <==> casts.None? || |casts.value| == 0
    ensures v.CastList? ==> |v.members| == Min(MaxCast, |casts.value|)
    ensures v.CastList? ==> forall i :: 0 <= i < |v.members| ==> v.members[i] == CastCardFor(casts.value[i])
  {
    if casts.Some? && |casts.value| > 0 then
      var shown := if |casts.value| <= MaxCast then casts.value else casts.value[..MaxCast];
      CastList(seq(|shown|, i requires 0 <= i < |shown| => CastCardFor(shown[i])))
    else NoCastInfo
  }

  /** `showModal(movie)`: every field of the overlay is rewritten, so what it
      shows depends on `movie` alone, and it is made visible. */
  function ShowModal(m: Movie): (r: Modal)
    ensures r.visible
    ensures r.title == CardFor(m).title
    ensures TruthyStr(m.overview) ==> r.description == m.overview.value
    ensures !TruthyStr(m.overview) ==> r.description == NoDescriptionText
    ensures r.posterSrc == StrOr(m.posterPath, "")
    ensures r.posterAlt == StrOr(m.title, "Movie Poster")
    ensures r.cast == CastSection(m.casts)
  {
    Modal(StrOr(m.posterPath, ""), StrOr(m.title, "Movie Poster"), StrOr(m.title, UntitledText),
          StrOr(m.overview, NoDescriptionText), CastSection(m.casts), true)
  }

  /** `hideModal()`: adds the `hidden` class and touches nothing else. */
  function HideModal(md: Modal): (r: Modal)
    ensures !r.visible
    ensures r.(visible := md.visible) == md
  {
    md.(visible := false)
  }

  /** Hiding an already hidden overlay changes nothing. */
  lemma HideIdempotent(md: Modal)
    ensures HideModal(HideModal(md)) == HideModal(md)
    ensures !md.visible ==> HideModal(md) == md
  {
  }

  /** The overlay before the first `showModal` is whatever the page markup
      holds; the model takes it hidden and empty. */
  const InitialModal := Modal("", "", "", "", NoCastInfo, false)

  /** The window-level events that may dismiss the overlay. */
  datatype DismissEvent =
    | CloseButtonClick
    | WindowClick(onBackdrop: bool)
    | KeyDown(key: string)

  /** The close button, a click whose target is the backdrop itself, and the
      Escape key hide the overlay; any other click or key leaves it as is. */
  function Dismiss(md: Modal, e: DismissEvent): (r: Modal)
    ensures (e.CloseButtonClick? || e == WindowClick(true) || e == KeyDown("Escape")) ==> r == HideModal(md)
    ensures (e == WindowClick(false) || (e.KeyDown? && e.key != "Escape")) ==> r == md
  {
    match e
    case CloseButtonClick => HideModal(md)
    case WindowClick(onBackdrop) => if onBackdrop then HideModal(md) else md
    case KeyDown(key) => if key == "Escape" then HideModal(md) else md
  }

  /** Every dismissal is idempotent: repeating the event is a no-op. */
  lemma DismissIdempotent(md: Modal, e: DismissEvent)
    ensures Dismiss(Dismiss(md, e), e) == Dismiss(md, e)
  {
  }
}
