# Movie gallery controller in Dafny

A model of the page script of a browser movie gallery. The script loads one
page of movies at a time from a remote API. It shows them as poster cards,
filters them live by title, moves between pages with prev/next buttons, and
opens a detail overlay with synopsis and cast for a clicked card.

The script keeps its state in module-level variables and paints the DOM.
Here that state is one immutable record, `Gallery.State`. Every handler is a
pure transition over it. The DOM is replaced by a view description:
`View.Grid` for the main container, `View.Modal` for the overlay and
`Pagination.Controls` for the pagination bar. The network is not modelled.
A load is split in two. `BeginLoad` shows the spinner when a button click
asks for a page. `Settle` takes the way the request ended
(`Loader.FetchOutcome`) as an input. The script's closing call
`fetchMovies()` is `BeginLoad(Initial)` with page 1 requested.

Modules:

- `Values`: optional JSON fields and JavaScript's `||` fallback on falsy values.
- `Text`: `trim`, ASCII `toLowerCase`, `includes`, and decimal text for integers, each with a characterising contract.
- `Seqs`: order-preserving selection (`filter`) and the subsequence relation.
- `Catalog`: the `Movie` and `CastMember` records.
- `Filter`: the search.
- `Pagination`: the bar and the button guards.
- `View`: cards and the overlay.
- `Loader`: what a settled request means.
- `Gallery`: the state record, the events and the invariants.
- `Scenarios`: example interactions of the gallery, stated as lemmas about the model.

Behaviour of the code that is easy to miss, which the model keeps:

- `meta.current_page` and `meta.last_page` fall back to 1 whenever they are
  falsy, so a value of 0 falls back too, not only a missing one.
- The placeholder text is "No cast information." with a full stop.
- The page number a load asks for never sets `currentPage`. Only the
  response's `meta` does (`Gallery.MissingMetaMeansFirstPage`).
- The page numbers are copied from `meta` without any check, so the
  guarantee that prev and next only request pages in `[1, lastPage]` is
  conditional on the API sending `1 <= current_page <= last_page`
  (`Gallery.ReachableNavigationInRange`). With `meta` of page 7 of 5, prev
  requests page 6; with page -3 of 5, next requests page -2
  (`Gallery.UncheckedMetaLeavesRange`).

## Model

| member | source | states |
|---|---|---|
| `Text.Trim` | script.js:49 | `trim` gives a string that neither starts nor ends with JavaScript white space or a line terminator; it is empty exactly when the input is all white space |
| `Text.TrimCutsOnlySpace` | script.js:49 | the trimmed text sits inside the input with only white space before and after it |
| `Text.TrimLowerCommute` | script.js:49 | trimming then lower-casing (the order the search uses) equals lower-casing then trimming |
| `Text.Lower` | script.js:49 | lower-casing keeps the length, turns every ASCII capital into the same small letter, keeps every other character, and leaves no ASCII capital |
| `Text.LowerIdempotent` | script.js:49 | lower-casing an already lower-cased string changes nothing |
| `Text.Includes` | script.js:52 | `includes` is true exactly when the needle occurs at some position of the haystack |
| `Text.IntToString` | script.js:140 | the text of an integer is canonical: a `-` exactly when it is negative, then decimal digits with no leading `0` unless the number is 0 |
| `Text.IntRoundTrip` | script.js:140 | the decimal text of an integer in a template literal reads back as that integer |
| `Text.IntTextCanonical` | script.js:140 | every canonical integer text is the text of the integer it reads as, so text and integer determine each other |
| `Seqs.SelectSnoc` | script.js:51-53 | appending one element to the input appends it to the filtered list exactly when it passes the test |
| `Seqs.SelectAppend` | script.js:51-53 | `filter` distributes over concatenation, so it never reorders |
| `Seqs.SelectCounts` | script.js:51-53 | a value occurs in the filtered list exactly as often as in the input when it passes, and never otherwise |
| `Seqs.SelectIsSubsequence` | script.js:51-53 | the filtered list is a subsequence of the input |
| `Seqs.SubsequenceCounts` | script.js:51-53 | a subsequence uses each value at most as often as the sequence it comes from |
| `Seqs.SelectAll` | script.js:51-53 | filtering with a test every element passes returns the input unchanged |
| `Seqs.SelectIdempotent` | script.js:51-53 | filtering twice with the same test is filtering once |
| `Seqs.SelectUnique` | script.js:51-53 | the filtered list is the only subsequence whose elements all pass and which keeps every occurrence of every passing value |
| `Filter.TitleMatchesMeaning` | script.js:51-52 | a movie matches exactly when its title is present and non-empty and the key occurs somewhere in the lower-cased title |
| `Filter.Visible` | script.js:48-56 | an empty or all-white-space search shows the whole page, in content and order; no search shows more movies than the page holds |
| `Filter.VisibleShows` | script.js:49-55 | the visible movies are a subsequence of the loaded page; an empty key keeps the page; otherwise every visible movie's title contains the key and every matching movie is kept as often as it occurs |
| `Filter.VisibleIsExact` | script.js:49-53 | no other list meets that description, so the search result is determined by it |
| `Filter.NonBlankKey` | script.js:49-50 | a search text that is not all white space takes the filtering branch |
| `Filter.VisibleMembers` | script.js:51-53 | for a search text that is not blank, a movie is shown iff it is on the page and its title matches; a movie with no title or an empty title is never shown |
| `Filter.VisibleIdempotent` | script.js:51-53 | searching the search result again with the same text gives the same list |
| `Filter.SearchIgnoresCase` | script.js:49 | the case of the search text does not change the result |
| `Filter.FilterMovies` | script.js:48-56 | the one-pass loop computes exactly the visible list |
| `Pagination.IndicatorRoundTrip` | script.js:140 | the indicator text "Page {current} of {last}" determines both page numbers |
| `Pagination.UpdatePagination` | script.js:137-141 | prev is disabled iff current <= 1, next iff current >= last, the indicator is exactly "Page {current} of {last}" in canonical decimal text and reads back as (current, last), and strictly between the bounds both buttons are enabled |
| `Pagination.PrevTarget` | script.js:143-145 | the prev handler asks for a page iff current > 1, and then for current - 1, which is at least 1 |
| `Pagination.NextTarget` | script.js:146-148 | the next handler asks for a page iff current < last, and then for current + 1, which is at most last |
| `Pagination.ButtonsAgreeWithHandlers` | script.js:137-148 | a button is disabled exactly when its handler would request nothing |
| `Pagination.NavigationStaysInRange` | script.js:143-148 | from a page in [1, last] every requested page is in [1, last] |
| `View.CardFor` | script.js:66-81 | a card opens its own movie; its title is the movie's title or "Untitled", never empty; its background is the poster URL or none when there is no poster |
| `View.RenderMovies` | script.js:60-84 | an empty list renders exactly the single "No movies found." message; otherwise one card per movie, card i built from movie i |
| `View.RenderRoundTrip` | script.js:66-83 | the movies the cards open, read in display order, are the rendered list |
| `View.CastCardFor` | script.js:95-109 | a cast entry shows the member's name or "Unknown", never empty, and the profile image or an empty source |
| `View.CastSection` | script.js:91-113 | with no cast array or an empty one the overlay shows only the placeholder; otherwise the first min(10, n) members, in order |
| `View.ShowModal` | script.js:86-116 | the overlay becomes visible and shows the movie's title, its overview or "No description available.", and its cast section, whatever it showed before |
| `View.HideModal` | script.js:118-120 | hiding makes the overlay invisible and leaves its content alone |
| `View.HideIdempotent` | script.js:118-120 | hiding twice is hiding once, and hiding a hidden overlay changes nothing |
| `View.Dismiss` | script.js:129-135 | the close button, a click on the backdrop itself and the Escape key all hide the overlay; other clicks and keys leave it unchanged |
| `View.DismissIdempotent` | script.js:129-135 | repeating a dismissal event is a no-op |
| `Loader.HttpErrorNamesStatus` | script.js:27 | the HTTP error message contains the status code |
| `Loader.CurrentPageOf` | script.js:35 | the current page is a truthy `meta.current_page`, otherwise 1; never 0 |
| `Loader.LastPageOf` | script.js:34 | the last page is a truthy `meta.last_page`, otherwise 1; never 0 |
| `Loader.Interpret` | script.js:26-35 | a load succeeds iff the status is 2xx and the body has a `data` array, and then yields that array with the page numbers from `meta`; a rejected fetch, a non-2xx status (message naming the status), an unreadable body and a body without `data` each fail with their own message |
| `Gallery.FilterAndRender` | script.js:48-58 | the visible movies are re-derived from the loaded page and stored search and the grid is rebuilt from them; nothing else changes |
| `Gallery.BeginLoad` | script.js:24 | starting a load shows the spinner and changes nothing else |
| `Gallery.Settle` | script.js:30-45 | on success the loaded page replaces the movies, the page numbers come from it, the search is re-applied and the bar describes the new page; on failure the movies, page numbers and visible list are untouched, the grid holds one error with the cause, and the bar is cleared with both buttons disabled; the spinner ends hidden on both paths |
| `Gallery.Search` | script.js:150-159 | a search stores the text, shows exactly the visible movies for it and leaves everything else alone |
| `Gallery.ClickCard` | script.js:81 | clicking an existing card opens the overlay for that card's movie and changes nothing else |
| `Gallery.StepKeepsFilterConsistent` | script.js:33-37 | every event keeps the visible list equal to the loaded page filtered by the stored search |
| `Gallery.StepKeepsControlsConsistent` | script.js:37-42 | after any settled load the bar either describes the stored page numbers or is cleared, and no other event breaks that |
| `Gallery.RunKeepsFilterConsistent` | script.js:33-37 | any sequence of events keeps the visible list in step with the loaded page and the search |
| `Gallery.ReachableFilterConsistent` | script.js:17-21 | from the initial variables, every reachable state shows the loaded page filtered by the stored search |
| `Gallery.RunKeepsControlsConsistent` | script.js:37-42 | any sequence of events keeps the bar consistent once it is |
| `Gallery.SpinnerLifecycle` | script.js:24-45 | the spinner is shown when a load starts and hidden when it settles, on every path |
| `Gallery.LoadReplacesWholesale` | script.js:33 | after a successful load the movies, visible list, grid and bar do not depend on the movies loaded before |
| `Gallery.NoNavigationAfterFailure` | script.js:41-42 | after a failed load neither button can start a load |
| `Gallery.ClickPrev` | script.js:143-145 | a disabled prev button requests nothing; an enabled one requests the page the handler's guard gives, current - 1 when current > 1, and only then starts a load; otherwise the state is unchanged |
| `Gallery.ClickNext` | script.js:146-148 | a disabled next button requests nothing; an enabled one requests current + 1 when current < last, and only then starts a load; otherwise the state is unchanged |
| `Gallery.NavigationBounds` | script.js:137-148 | in every state prev requests current - 1 >= 1 and next requests current + 1 <= last; from a page in [1, last] every request stays in [1, last] |
| `Gallery.StepKeepsPagesInRange` | script.js:33-35 | no event moves the page numbers out of `1 <= current <= last` unless it is a load whose `meta` is out of that range |
| `Gallery.RunKeepsPagesInRange` | script.js:33-35 | any sequence of events whose loads carry in-range `meta` keeps the page numbers in range |
| `Gallery.ReachableNavigationInRange` | script.js:143-148 | from the initial variables, as long as every loaded `meta` is in range, prev and next only request pages in [1, lastPage] |
| `Gallery.UncheckedMetaLeavesRange` | script.js:34-35 | the script does not check `meta`: page 7 of 5 makes prev request page 6, beyond the last page, and page -3 of 5 makes next request page -2 |
| `Gallery.EnabledButtonsNavigate` | script.js:137-148 | when the bar describes the page, a button starts a load exactly when it is enabled |
| `Gallery.SearchIdempotent` | script.js:150-159 | the `input` event followed by `submit` with the same text gives the same state as the `input` event alone |
| `Gallery.SearchForgetsPreviousGrid` | script.js:61 | what a search shows depends only on the loaded page and the text, never on the previous grid |
| `Gallery.MissingMetaMeansFirstPage` | script.js:34-35 | a successful response without `meta` puts the controller on page 1 of 1 |
| `Gallery.SearchAfterFailureShowsEarlierPage` | script.js:38-42 | a search after a failed load shows movies from the page loaded before the failure, while the bar stays cleared |
| `Scenarios.DunePageScenario` | script.js:33-37 | page 1 of 5 holding "Dune" shows one card "Dune", indicator "Page 1 of 5", prev disabled and next enabled |
| `Scenarios.EmptyBodyScenario` | script.js:30-42 | an empty object body shows the format error, an empty indicator and two disabled buttons |
| `Scenarios.SearchBetScenario` | script.js:48-53 | searching "bet" over "Alpha" and "Beta" shows only "Beta" |
| `Scenarios.TwelveCastScenario` | script.js:93-94 | a movie with twelve cast members shows the first ten, in order |
| `Scenarios.EscapeScenario` | script.js:133-135 | Escape hides the open overlay and a second Escape changes nothing |

## Left out

- The transport: the API base URL, `fetch`, and the parsing done by `response.json()`. The way a request ends is an input (`Loader.FetchOutcome`), so the requested page only shows up as the value a click returns.
- Overlapping loads. Every load settles through its own `Settle`, and a later settle overwrites an earlier one. Nothing in the script orders them.
- DOM plumbing: element lookup, `createElement`/`appendChild`, CSS classes, inline styles and listener registration. Only the view description is kept.
- The markup's initial state: the grid's content, the spinner, the buttons, the indicator and the detail overlay before the first load. `Gallery.Initial` assumes an empty grid, a hidden spinner, enabled buttons with no text, and a hidden, empty overlay (`View.InitialModal`). The bar-consistency lemmas therefore speak of states after a load has settled.
- Text.Lower: lower-cases ASCII letters only, because full Unicode case mapping is a large table that plays no part in the filter's structure.
- Text.IntToString: produces plain decimal digits, because JavaScript's exponent notation for magnitudes of 10^21 and above and its text for non-integer numbers are not modelled.
- Gallery.Settle: a `data` array with a `null` entry is not modelled. In the script the new movies and page numbers are stored first (script.js:33-35); `filterAndRender` then throws on the `null` entry, reading its title under a non-empty search or its poster when rendering, and the `catch` shows the error and clears the bar. That leaves a half-applied load: new movies and page numbers, an error grid, and a visible list that may be stale. `Loader.Body` has no way to express such an entry, so `Settle`'s failure contract (movies, page numbers and visible list untouched) covers only the failures it can express.
- View.ShowModal: a `null` among the first ten entries of `casts` is not modelled. The script would throw at that entry's `profile_path` after it had rewritten the poster, title and description and listed the entries before the `null`, and before it makes the overlay visible. A `null` at index 10 or later is never read, because only the first ten entries are kept.
- Numbers: page numbers and status codes are exact integers, while JavaScript numbers are IEEE doubles. Above 2^53, `JSON.parse` rounds `meta` values on arrival and `currentPage - 1` or `currentPage + 1` round too. For example, with current page 2^53 and last page 2^53 + 2, next would request page 2^53, the page already shown. `Pagination.PrevTarget` and `Pagination.NextTarget` promise exact subtraction and addition, so number arithmetic above 2^53 is not modelled.
- Pagination.PrevTarget: requests exactly current - 1, because the rounding of doubles above 2^53 is not modelled.
- Pagination.NextTarget: requests exactly current + 1, because the rounding of doubles above 2^53 is not modelled; in JavaScript next can re-request the page already shown there.
- Strings: JavaScript strings are sequences of UTF-16 code units, while the model's strings are sequences of Unicode scalar values. Lengths and positions differ for characters outside the Basic Multilingual Plane; `trim`, `includes` and ASCII lower-casing are not affected.
- Non-integer and non-numeric `meta` values, such as string page numbers, and titles that are not strings, which would make `toLowerCase` throw.
- The HTML injection of the error message into the error element. The message is kept as plain text.
