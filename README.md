# Command menu: search results, search state and selection targets

A model of the command palette in `components/command-menu.tsx`. The palette
of the movie and TV browsing application is opened from a button or with
Cmd-K. It sends the typed query to a search action and lists the movie
results it gets back. It also offers shortcut items that navigate elsewhere.
The model covers the three parts of the component that have behaviour:

- **The rendered result list** (`display_list.dfy`, module `DisplayList`).
  The stored results `data` are de-duplicated by lower-cased title. A
  position survives when `findIndex` on its title finds that same position,
  so the first occurrence wins. The entries whose `poster_path` is falsy are
  then dropped. De-duplication looks at the unfiltered list, so a first
  occurrence without a poster hides the later entries with the same title.
  The pipeline is `Displayed = WithPoster(Dedupe(data))`. It is proved equal
  to a one-pass reference definition: the entries at the positions that are
  the first occurrence of their title and have a poster, in their original
  order. From that follow:
  - every rendered item has a poster;
  - titles are distinct;
  - the result is a subsequence of `data`;
  - the ordering consequence described above;
  - de-duplication and the whole pipeline are idempotent.
- **The search state** (`search_state.dfy`, class `SearchState.MenuState`).
  The class holds the fields `data` and `isLoading`. `getMovieResults` is
  split at its `await` into `BeginSearch` (loading on) and `FinishSearch`
  (store the results if there are any, loading off). `GetMovieResults` runs
  the two steps in sequence, with the awaited response as a parameter. The
  pure function `NextData` specifies the new `data`. The lemmas about it say
  that stored results are never emptied, that applying a response twice is the
  same as applying it once, and that the last response with results wins.
- **Selection targets** (`routes.dfy`, module `Routes`). A movie item
  navigates to `/movies/<id>`. The shortcuts navigate to `/movies`,
  `/tv-shows` and `/`. The portfolio item opens an external page in a new tab.
  The movie id can be parsed back from its route, and distinct items have
  distinct targets.

`text.dfy` (module `Text`) holds the ASCII lower-casing and the decimal
rendering of ids. `option.dfy` holds the `Option` type.

## Model

| member | source | states |
|---|---|---|
| `DisplayList.FindIndex` | components/command-menu.tsx:75-77 | the result is -1 exactly when no entry has the key; otherwise it is an index whose entry has the key and no earlier entry has it |
| `DisplayList.WithPoster` | components/command-menu.tsx:79-81 | every kept entry is an entry of the input with a present, non-empty poster path, every input entry with such a poster is kept, and the list does not grow |
| `DisplayList.FirstOccurrenceWins` | components/command-menu.tsx:73-78 | position `i` passes the de-duplication test iff no earlier position has the same lower-cased title |
| `DisplayList.DedupeFromIsPick` | components/command-menu.tsx:72-78 | the de-duplicated list (from any start position) is exactly the entries at the surviving positions, in their original order |
| `DisplayList.DedupeKeepsPosition` | components/command-menu.tsx:73-78 | position `i` survives de-duplication iff no earlier position has the same lower-cased title |
| `DisplayList.DisplayedFromIsPick` | components/command-menu.tsx:72-101 | the rendered list equals the one-pass reference: the entries at the positions that are the first of their title and have a poster, in order |
| `DisplayList.DisplayedKeepsPosition` | components/command-menu.tsx:72-101 | position `i` is rendered iff no earlier position has the same lower-cased title and `i` has a poster |
| `DisplayList.DisplayedHavePosters` | components/command-menu.tsx:81 | every rendered movie has a present, non-empty `poster_path` |
| `DisplayList.DisplayedDistinctTitles` | components/command-menu.tsx:73-78 | no two rendered movies have equal lower-cased titles |
| `DisplayList.DedupeDistinctTitles` | components/command-menu.tsx:73-78 | the de-duplicated list has pairwise distinct lower-cased titles |
| `DisplayList.DisplayedIsSubsequence` | components/command-menu.tsx:72-101 | the rendered list is an order-preserving subsequence of `data` |
| `DisplayList.PosterlessFirstHidesTitle` | components/command-menu.tsx:73-81 | when the first entry of a title has no poster, no entry with that title is rendered, even a later one with a poster |
| `DisplayList.OrderMatters` | components/command-menu.tsx:73-81 | for a poster-less "Dune" followed by a "DUNE" with a poster, nothing is rendered; filtering posters first would have shown "DUNE" |
| `DisplayList.DedupeOfDistinct` | components/command-menu.tsx:73-78 | a list whose titles are already distinct passes de-duplication unchanged |
| `DisplayList.DedupeIdempotent` | components/command-menu.tsx:73-78 | de-duplicating the de-duplicated list changes nothing |
| `DisplayList.DisplayedIdempotent` | components/command-menu.tsx:72-101 | applying the whole rendering rule to its own output changes nothing |
| `Text.Lower` | components/command-menu.tsx:76 | lower-casing keeps the length, maps each ASCII capital to its small letter and leaves every other character alone |
| `Text.LowerIdempotent` | components/command-menu.tsx:76 | lower-casing a lower-cased title changes nothing |
| `SearchState.NextDataNeverEmpties` | components/command-menu.tsx:36-38 | once results are stored, no response empties them |
| `SearchState.NextDataIdempotent` | components/command-menu.tsx:36-38 | applying the same response twice gives the same results as applying it once |
| `SearchState.NextDataForgetsEarlier` | components/command-menu.tsx:36-38 | after a response with results, the stored results do not depend on the earlier ones |
| `SearchState.MenuState.constructor` | components/command-menu.tsx:28-30 | the component starts with no stored results; the loading flag is the hook's |
| `SearchState.MenuState.Shown` | components/command-menu.tsx:72-101 | what the current state renders has only entries with posters and has distinct titles |
| `SearchState.MenuState.BeginSearch` | components/command-menu.tsx:34 | loading is switched on and the stored results are untouched (only `isLoading` may change) |
| `SearchState.MenuState.FinishSearch` | components/command-menu.tsx:36-39 | the stored results become `NextData` of the old ones and the response, and loading ends false |
| `SearchState.MenuState.GetMovieResults` | components/command-menu.tsx:33-40 | the results are replaced by the response's when these are present and non-empty, are unchanged otherwise, and loading ends false either way |
| `Text.ParseDecimalOfDecimal` | components/command-menu.tsx:87 | the decimal text of an id reads back as that id |
| `Text.DecimalInjective` | components/command-menu.tsx:87 | different ids have different decimal texts |
| `Routes.MovieRouteRoundTrip` | components/command-menu.tsx:87 | selecting a movie navigates to a route starting with `/movies/` from which its id is recovered; no other item's route is a movie route |
| `Routes.ShortcutTargets` | components/command-menu.tsx:105-131 | the shortcut items navigate to `/movies`, `/tv-shows` and `/`, and only the portfolio item opens a new tab |
| `Routes.TargetsDistinct` | components/command-menu.tsx:86-131 | two different items never have the same target |

## Left out

- Text.Lower: lower-cases ASCII letters only. The source's `toLowerCase` follows Unicode case mapping, which the model does not reproduce. Titles that differ only in non-ASCII letter case count as different here.
- `indexOf(movie)` compares by object identity. The model takes a result's position as its own index, which is what the test means when the results are distinct objects. When one object occurs twice in the array, `indexOf` gives the first position for both. The second occurrence then passes the test too and would be rendered twice. That cannot happen with fresh response objects.
- The movie id is a non-negative integer rendered in decimal. The `Movie` type (`types/movie-result`) is not part of this model.
- The search action, its `await`, and out-of-order completion of overlapping requests are left out. That is asynchronous work against a server action that is not shown. The response is an input to `FinishSearch`/`GetMovieResults`, and the two steps run in sequence. A rejected search promise is not modelled either.
- The debounce (`useDebouncedCallback`, `SEARCH_DEBOUNCE`) is left out because it is wall-clock timing done by a third-party library.
- `useCMDKListener` is left out, together with the open/close state and `runCommand`. `runCommand` runs a command and closes the dialog, and the hook's source is not shown. The initial `isLoading` is therefore a constructor parameter.
- The side effects `router.push` and `window.open` and the helper `getPosterImageURL` are foreign calls. Only the destination (`Routes.TargetOf`) is modelled.
- JSX rendering, CSS classes, the dialog, list, avatar and button primitives, and the empty-state text are UI only.
