# AricaGo catalog view: the query layer

This project models the query layer of the `AricaGoApp` page controller of the AricaGo
tourist-attraction page. The controller keeps a JSON catalog of attractions in memory and
answers four kinds of user action over it:

- selecting a category, where the sentinel `todos` shows the featured attractions;
- typing a search term;
- looking up an attraction by id;
- rendering a list of attractions as cards.

## How the catalog is represented

A JSON object is modelled by the sequence of its `(key, value)` entries (`Catalog.Entry`). The
sequence is in the order in which `Object.keys` and `for...in` enumerate them. A value is either
an array of elements (`List`) or any other JSON value (`Other`). For another value the model keeps
only whether it is truthy and whether its `length` property is the number 0 (the empty string, or
an object such as `{"length": 0}`). An array element is an attraction record (`Record`) or a number
(`Number`); the featured list under the key `destacados` is an array of numbers. The catalog
before loading is the initial `[]`. An empty array has no keys, so it is the empty entry sequence.

## Where JavaScript throws

Where the code throws a `TypeError`, the model has an explicit outcome: `Result.Throws` for a
computed selection, and `View.Thrown` for what the page shows. A `View` is one of three things:
the no-results placeholder, a sequence of cards, or `Thrown`. `Thrown` means the handler threw
before the cards container was written. There are three such cases:

- A search of two or more characters reaches a number in an array, reads `.nombre` of it and
  throws. Every catalog whose featured list is non-empty is such a catalog.
- Showing `todos` reads `.destacados.map`. This throws when the catalog was never loaded, or
  when it has no array under `destacados`.
- Selecting a key whose value is truthy but not an array hands that value to the renderer.
  When its `length` is not 0, the renderer calls its `.map`, which no JSON value other than an
  array has as a function, and throws. A truthy value whose `length` is 0, such as
  `{"length": 0}`, shows the no-results placeholder instead (data/js/app.js:115).

## Behaviour worth noting

- The short-term test uses the raw `termino.length` (data/js/app.js:72), with no trimming. So
  `" a"` is searched, not treated as a short term.
- The search loop visits every array-valued key, the featured-id list under `destacados`
  included, and reads `.nombre` of each of its numbers (data/js/app.js:78-82, 95). So on
  `{playas: [{id: 1, nombre: "Playa Chinchorro"}], destacados: [1]}` searching `"chin"` throws
  instead of showing attraction 1. The lemma `Examples.SampleSearchThrows` states this, and
  `Examples.SampleSearchFinds` shows that the same search finds the beach once the featured list
  is removed.
- A failed load is only logged (data/js/app.js:19-21), so the catalog stays at its initial `[]`
  (data/js/app.js:3), and the featured display that follows throws on `[].destacados.map`
  (data/js/app.js:58). The lemma `Views.FeaturedUnloadedThrows` states this.

## Model

| member | source | states |
|---|---|---|
| `Text.Lower` | data/js/app.js:93-99 | lower-casing keeps the length and maps each character on its own |
| `Text.Includes` | data/js/app.js:95-99 | `includes` holds exactly when the term occurs in the string at some position; the empty term occurs everywhere |
| `Text.LowerIdempotent` | data/js/app.js:93 | lower-casing an already lower-cased term changes nothing |
| `Search.Matches` | data/js/app.js:92-102 | the match of one record: the lower-cased term is included in one of its lower-cased text fields or specialty tags |
| `Search.MatchesIff` | data/js/app.js:92-102 | a record matches exactly when the lower-cased term is a substring of the lower-cased name, description or location, or of some lower-cased specialty tag; a missing tag list contributes false |
| `Search.MatchesIgnoresCase` | data/js/app.js:92-102 | a record matches a term exactly when it matches the lower-cased term |
| `Search.MatchElement` | data/js/app.js:95 | the match of an array element throws exactly when the element is a number, and is the record's match otherwise |
| `Search.Filter` | data/js/app.js:80-84 | the matching records of one array, in array order |
| `Search.Collected` | data/js/app.js:78-86 | the matches of every array-valued key, in key order and then array order |
| `Search.Scan` | data/js/app.js:77-86 | the nested scan throws exactly when some array-valued key holds a number, and yields the collected matches otherwise |
| `Search.FilterAppend` | data/js/app.js:80-84 | scanning one array over a concatenation gives the two parts' matches in order |
| `Search.FilterMembers` | data/js/app.js:80-84 | every record kept from an array matches, and every matching record of the array is kept |
| `Search.FilterCount` | data/js/app.js:80-84 | no deduplication: a matching record is kept as often as it occurs, a non-matching one never |
| `Search.CollectedAppend` | data/js/app.js:78-86 | the catalog scan over concatenated key sequences gives the two parts' matches in key order |
| `Search.CollectedCount` | data/js/app.js:78-86 | no deduplication across keys: a matching record occurs as often as it is held by all the array-valued keys together, a non-matching one never |
| `Search.CollectedMembers` | data/js/app.js:78-86 | the scan yields exactly the matching records held by array-valued keys; non-array keys add nothing |
| `Search.FilterIgnoresCase` | data/js/app.js:92-101 | terms with the same lower-cased form keep the same records of an array |
| `Search.CollectedIgnoresCase` | data/js/app.js:77-86 | terms with the same lower-cased form collect the same records from the catalog |
| `Views.SearchView` | data/js/app.js:71-90 | what a search shows: the current category for a term shorter than two characters, otherwise the rendered scan or the throw |
| `Views.SearchIgnoresCase` | data/js/app.js:71-90 | two terms that differ only in letter case produce the same view |
| `Views.SearchThrowsOnFeaturedIds` | data/js/app.js:77-86 | a term of two or more characters throws on every catalog whose `destacados` array holds a number |
| `Views.SearchFindsMatches` | data/js/app.js:77-89 | over a catalog whose arrays hold only records, the view is the in-order matches, and a record is among them exactly when it matches and is held by an array-valued key |
| `App.ScanArray` | data/js/app.js:80-84 | the inner loop over one array yields its matching records in order, and throws exactly when the array holds a number |
| `App.AricaGoApp.Search` | data/js/app.js:71-90 | a term shorter than two characters (raw length) shows the current category again; otherwise the nested loops yield the scan's matches, or throw exactly when an array holds a number; the current category is unchanged |
| `Finder.FindIn` | data/js/app.js:107 | `find` returns `None` exactly when no record has the id; otherwise it returns the first record with that id |
| `Finder.Lookup` | data/js/app.js:104-112 | the lookup is `None` exactly when no array-valued key holds a record with the id; a returned attraction has the requested id |
| `Finder.LookupFirst` | data/js/app.js:105-109 | a returned attraction is what `find` gives on the first array-valued key that holds the id; no earlier array-valued key holds it |
| `App.AricaGoApp.FindById` | data/js/app.js:104-112 | the `for...in` loop with early return computes the lookup |
| `Finder.ResolveOne` | data/js/app.js:58-60 | one featured element resolved: a found attraction comes from a number equal to its id |
| `Finder.Resolve` | data/js/app.js:58-60 | the featured selection is no longer than the id list |
| `Finder.ResolveListed` | data/js/app.js:58-60 | every selected attraction's id is in the featured list |
| `Finder.ResolveAppend` | data/js/app.js:58-60 | resolving a concatenation of id lists resolves each part, keeping list order |
| `Finder.ResolveComplete` | data/js/app.js:58-60 | every listed id that the catalog holds appears in the selection as its first record |
| `Finder.ResolveAllFound` | data/js/app.js:58-60 | when every id is found, the selection has one attraction per id, in list order, each the lookup of that id |
| `Finder.Featured` | data/js/app.js:58-60 | the featured selection: the resolved `destacados` array, or a throw when it is missing or not an array |
| `Finder.FeaturedThrowsIff` | data/js/app.js:58 | in a well-formed catalog, reading the featured list throws exactly when `destacados` is missing or not an array, and so it throws on the catalog that was never loaded |
| `Views.FeaturedView` | data/js/app.js:56-63 | the featured display: the rendered featured selection, or the throw of reading it |
| `App.AricaGoApp.ShowFeatured` | data/js/app.js:56-63 | the loop calls the id lookup for each featured id, keeps the ones found in order, and renders them; it throws exactly when no key `destacados` holds an array |
| `Views.FeaturedSelection` | data/js/app.js:49-50 | `todos` shows the `destacados` list resolved through the lookup |
| `Views.FeaturedUnloadedThrows` | data/js/app.js:3 | before any catalog is loaded, showing `todos` throws |
| `Views.ResultsView` | data/js/app.js:65-69 | a category's display: the list under its key; the placeholder when the key is missing or falsy, or holds a truthy value whose `length` is 0; a throw on any other truthy non-array value |
| `App.AricaGoApp.ShowResults` | data/js/app.js:65-69 | computes the category's display; a key holding an array shows exactly that array's cards |
| `Views.CategorySelectsList` | data/js/app.js:65-69 | in a well-formed catalog, a present key other than `todos` shows its list unchanged |
| `Views.CategoryAbsent` | data/js/app.js:67 | a missing key other than `todos` shows the no-results placeholder |
| `Views.CategoryView` | data/js/app.js:49-53 | the dispatch: the featured display for `todos`, the category's display otherwise |
| `App.AricaGoApp.FilterByCategory` | data/js/app.js:39-54 | the current category becomes the argument, and the view is the featured list for `todos` and the key's list otherwise |
| `Catalog.Get` | data/js/app.js:67 | property access yields nothing exactly when no entry has the key, and otherwise the value of an entry with that key |
| `Catalog.GetAt` | data/js/app.js:67 | in a well-formed catalog, reading an entry's key yields that entry's value |
| `Renderer.CategoryLabel` | data/js/app.js:147-155 | a category shows unchanged exactly when it is not one of the four table keys; a badge text is never a table key, so it maps to itself |
| `Renderer.CardOf` | data/js/app.js:127-129 | a record's card carries the record and its category's badge; a number's card is blank |
| `Renderer.CardsOf` | data/js/app.js:126-144 | one card per entry, the i-th card built from the i-th entry |
| `Renderer.Render` | data/js/app.js:114-145 | the no-results placeholder exactly when the list is empty, otherwise one card per entry in input order; rendering an array never throws |
| `App.AricaGoApp.constructor` | data/js/app.js:2-4 | the catalog starts as `[]` and the current category as `todos` |
| `App.AricaGoApp.Load` | data/js/app.js:14-22 | a loaded document replaces the catalog; a failed load leaves it unchanged |
| `App.AricaGoApp.Init` | data/js/app.js:8-12 | after loading, the page shows the featured list of the resulting catalog |
| `Examples.SampleFeatured` | data/js/app.js:56-63 | on the one-beach catalog, `todos` shows the beach under the badge `Playa` |
| `Examples.SampleSearchThrows` | data/js/app.js:77-95 | on the one-beach catalog with `destacados: [1]`, searching `chin` throws |
| `Examples.SampleShortTerm` | data/js/app.js:71-75 | a one-character term shows the current category again |
| `Examples.SampleSearchFinds` | data/js/app.js:92-101 | without the featured list, `CHIN` finds the beach by its name and `SURF` by its specialty tag |

## Left out

- Fetching and parsing the catalog document, and the console logging (data/js/app.js:14-22), are
  network I/O. `AricaGoApp.Load` takes the parsed document as a parameter, or `None` for a failed
  fetch or parse. The asynchronous ordering of `init` after the constructor is not modelled.
- The model assumes that the document is a JSON object. A document that parses to an array,
  string or `null` is not modelled.
- `setupEventListeners` and the `classList` updates in `filtrarPorCategoria` (data/js/app.js:24-37,
  43-46) are DOM wiring. The model does not include the throw that happens when `querySelector`
  finds no element for the category.
- The HTML template text of a card (data/js/app.js:126-144) is not modelled. A card is the
  attraction with its badge. A card built from a number is `BlankCard`, whose fields would all
  read `undefined`.
- `mostrarDetalle` (data/js/app.js:157-164) is an `alert` and a log around `FindById`.
- Array elements are attraction records with every text field present, or numbers. Elements of
  other shapes are not modelled: strings, `null`, or objects that lack `nombre`.
- App.AricaGoApp.ShowResults: inherited property names are not modelled. Before loading, the
  catalog is the array `[]`, so a category named after an `Array.prototype` method such as `map`
  reads a truthy function and throws in the code, where the model shows the placeholder. After
  loading, names from `Object.prototype` (for example `constructor`, or `toString`, whose
  `length` is 0) are likewise read as inherited functions. `Renderer.CategoryLabel` has the same
  gap for such names passed to `getCategoriaNombre`.
- `Text.Lower`: lower-cases ASCII letters only, because JavaScript's full Unicode case mapping
  is not modelled. Every case-insensitivity lemma holds relative to this function.
- `App.AricaGoApp.Search`: the length test counts characters, where JavaScript counts UTF-16
  code units. The two agree on text within the Basic Multilingual Plane.
- The order of `Object.keys` (integer-like keys first, then insertion order) is taken as given
  by the order of the entry sequence.
- Ids are mathematical integers. JSON numbers that are not integers are not modelled.
