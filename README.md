# std.land search component, modelled in Dafny

std.land is a web page for fuzzy-searching the symbols of Deno's standard library
(classes, functions, enums, type aliases, files, …) and jumping to their source on
`deno.land/std`. This project models the page's search component: the state machine
that holds the query, the top results for it and the selected result row, the
translation of key presses into messages, the address a result opens, the icon a
result row shows and the key React tells rows apart by.

Layout:

- `wrappers.dfy` — `Option`, the `T | undefined` of TypeScript.
- `items.dfy` — `DenoItemType` and `SearchItem`, the records of the symbol index.
- `js_number.dfy` — JavaScript's truncating `%` (`Rem`) and the decimal text of an
  integral number (`Text`), each with its inverse or characterisation.
- `search_box.dfy` — the messages (`up`, `down`, `cancel`, `go`, `select i`) and the
  key-code mapping of the search box.
- `result_view.dfy` — `goToItem`'s address (`Url`, read back by `ParseUrl`), the icon by
  kind, and the React key of a result row.
- `search.dfy` — the meaning of each change as functions over a `State` value
  (`NextSelection`, `NavigationOf`, `Refreshed`, `Typed`, `Mounted`), the lemmas about
  them, and the class `SearchPanel` whose fields `query`, `results` and `selection` its
  methods update, each proved against those functions.

The fuzzy searcher is the constant field `SearchPanel.search`, a function from a query
to its ranked hits; nothing is assumed about it. Navigation is returned as a
`Navigation` value instead of assigned to `window.location.href`; `TypeError` stands for
the exception `goToItem` throws when it is handed the `undefined` that an out-of-range
index into the results yields. Key presses, hovers and edits are processed one at a
time against the current state.

## Model

| member | source | states |
|---|---|---|
| Items.TypeName | src/search.ts:5-15 | each kind's string value is non-empty and holds neither `-` nor `@` |
| Items.TypeNameRoundTrip | src/search.ts:5-15 | each of the nine kinds has its own string value, which reads back as that kind |
| JsNumber.Rem | src/components/Search.tsx:112 | `a % n` is the remainder of truncating division: below `n` in magnitude, with the sign of `a`, and `a` minus it is a multiple of `n` |
| JsNumber.Text | src/components/Search.tsx:57 | the text of an integral number is canonical: an optional minus sign, then digits with no leading zero (zero is `0`, never `-0`), holding neither `@` nor `#` |
| JsNumber.TextRoundTrip | src/components/Search.tsx:57 | the text a template literal gives an integral line number reads back as that number |
| JsNumber.TextInjective | src/components/Search.tsx:57 | distinct line numbers give distinct texts |
| SearchBox.KeyMessage | src/components/Search.tsx:31-36 | a key press sends only `up`, `down`, `go` or `cancel`, and only for the key code of that message; every other key sends nothing |
| SearchBox.KeyRoundTrip | src/components/Search.tsx:31-36 | ArrowDown, ArrowUp, Enter and Escape send `down`, `up`, `go` and `cancel` |
| ResultView.LinkedLine | src/components/Search.tsx:57 | the line is appended exactly when it is present and non-zero |
| ResultView.Url | src/components/Search.tsx:55-58 | the address is `https://deno.land/std/`, then the path, then `#L` and the line's text exactly when the line is linked, and nothing more otherwise |
| ResultView.UrlRoundTrip | src/components/Search.tsx:55-58 | for a path without `#`, the address is `https://deno.land/std/` + path, followed by `#L` + line when the line is linked, and reads back as exactly that path and line |
| ResultView.SameUrlIffSameTarget | src/components/Search.tsx:55-58 | two rows open the same address if and only if they share the path and the linked line |
| ResultView.IconFor | src/components/Search.tsx:73-81 | class gets the class symbol, function the method symbol, enum the enum symbol and type alias the link icon, each exactly for that kind; the file icon is drawn exactly for the other five kinds; every colour is a `#` colour string |
| ResultView.IconDistinguishesKinds | src/components/Search.tsx:73-81 | class, function, enum and type alias each get their own icon, the other five kinds share the file icon, and only the file icon's colour depends on the colour scheme |
| ResultView.RowKey | src/components/Search.tsx:161 | the key is the path, `-`, the name, `-`, then (after the type) `@` and the line's text (`undefined` when absent) |
| ResultView.RowKeyDeterminesKindAndLine | src/components/Search.tsx:161 | equal row keys imply equal kinds and equal line numbers, whatever the names and paths contain, and equal names for rows of the same path |
| Search.Moved | src/components/Search.tsx:110-113 | moving with nothing selected gives 0; moving a selected row by a non-negative offset stays in `[0, n)` |
| Search.NextSelection | src/components/Search.tsx:115-132 | with no results every message leaves the selection; `cancel` clears it, `select i` sets it to `i`, `go` keeps it, and a fitting message keeps an in-range selection in range |
| Search.NavigationOf | src/components/Search.tsx:115-132 | only `go` with results navigates; it opens one of the results and never throws while the selection is in range |
| Search.GoTarget | src/components/Search.tsx:124 | `go` opens the selected row, or the first row when nothing is selected |
| Search.DownStep | src/components/Search.tsx:110-123 | `down` moves a selected row to the next one, and from the last row to 0 |
| Search.UpStep | src/components/Search.tsx:110-122 | `up` moves a selected row to the previous one, and from row 0 to the last row |
| Search.FromNothingSelected | src/components/Search.tsx:110-123 | with nothing selected, `up` and `down` both select row 0 |
| Search.UpDownInverse | src/components/Search.tsx:110-123 | `up` after `down`, and `down` after `up`, come back to the selected row |
| Search.DownTimesAdvance | src/components/Search.tsx:110-123 | `k` presses of `down` move row `s` to `(s + k) mod n` |
| Search.DownCycle | src/components/Search.tsx:110-123 | `n` presses of `down` over `n` rows come back to the starting row |
| Search.TopHits | src/components/Search.tsx:138-141 | the shown results are the first `min(6, hits)` hits, in ranking order |
| Search.Reclamped | src/components/Search.tsx:145-149 | no results clear the selection; nothing selected stays so; a selected index becomes one that differs from it by a multiple of the new length and has its sign (JavaScript's remainder), which is in range when the index is non-negative |
| Search.ReclampKeepsFittingSelection | src/components/Search.tsx:145-149 | a selection that still fits the new results is kept unchanged (0 stays 0) |
| Search.Refreshed | src/components/Search.tsx:135-150 | an empty query changes nothing; otherwise the results become the top hits (at most 6) and the selection is re-clamped to them (cleared when there are no hits); an in-range selection stays in range |
| Search.Typed | src/components/Search.tsx:135-159 | setting the query records the text; the same text changes nothing; clearing the box keeps results and selection; a new non-empty text shows its top hits with the selection re-clamped; an in-range selection stays in range |
| Search.Mounted | src/components/Search.tsx:102-150 | after mounting nothing is selected; with an empty query the results are the initial ones (or none), otherwise the top hits of the query replace them |
| Search.Step | src/components/Search.tsx:30-67 | key presses and hovers leave query and results alone; an unmapped key and a hover beside the rows change nothing; a mapped key moves the selection as its message does in `NextSelection`; a hover over a row selects it; an edit is `Typed` with the searcher's hits |
| Search.StepKeepsSelectionInRange | src/components/Search.tsx:115-150 | a key press, a hover over a displayed row or an edit keeps the selection in range |
| Search.ReplayKeepsSelectionInRange | src/components/Search.tsx:115-150 | any sequence of events from an in-range state keeps the selection in range |
| Search.SessionKeepsSelectionInRange | src/components/Search.tsx:63-159 | in every session after mounting, the selection designates a displayed row or nothing, so `go` never throws |
| Search.SearchPanel.constructor | src/components/Search.tsx:102-108 | the initial state is the props with the query effect run once, and the selection is in range |
| Search.SearchPanel.QueryChanged | src/components/Search.tsx:135-150 | the effect updates results and selection as `Refreshed` says and keeps the selection in range |
| Search.SearchPanel.SetQuery | src/components/Search.tsx:159 | `onChange` updates the state as `Typed` says and keeps the selection in range |
| Search.SearchPanel.MoveSelection | src/components/Search.tsx:110-113 | the selection becomes `Moved` of the old one |
| Search.SearchPanel.Process | src/components/Search.tsx:115-132 | the selection becomes `NextSelection` and the navigation is `NavigationOf`; results and query are untouched; a message that fits the displayed rows keeps a valid panel valid |
| Search.SearchPanel.Click | src/components/Search.tsx:86 | clicking a row opens that row's address, the same one `go` opens when that row is selected |
| Search.SearchPanel.KeyDown | src/components/Search.tsx:30-42 | a mapped key has its default prevented and its message processed; any other key changes nothing |

## Left out

- The fuzzy matching and ranking of the external search library, and `createSearcher`
  (src/search.ts:17-25): the searcher is an arbitrary function from query to hits.
- The redirect decision on top-two match scores in src/pages/[[...id]].tsx:73-93: it runs
  in the page's server-side handler, not in the search component.
- React rendering and scheduling: `useCallback` and `useEffect` timing, stale closures,
  batching of state updates, and the `useHover` hook; events are applied one at a time.
- The assignment to `window.location.href`: navigation is a returned value.
- `window.matchMedia`: the colour-scheme preference is the `darkMode` parameter of `IconFor`.
- The height style `results.length * 3.5` rem and the `selected` CSS class: styling only.
- JsNumber.Text: models integral line numbers only; JavaScript writes magnitudes of
  10^21 and more in exponent form, and non-integral numbers and NaN are not modelled.
- Numbers are unbounded integers, not IEEE doubles, so precision loss above 2^53 is not modelled.
- Search.NavigationOf: says that `go` opens one of the results rather than which one; the
  exact row is stated by `Search.GoTarget`.
- src/pages/donate.tsx, src/components/PopulatedHead.tsx, src/pages/index.tsx and the
  API route are static markup or plumbing with no logic to model.
