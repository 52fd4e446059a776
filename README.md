# NetworkEducationApp core, modelled in Dafny

This project models the bookkeeping and selection logic of the
`NetworkEducationApp` controller (`JavaSeript/main1.js`) of a static,
Arabic-language website that teaches computer networking. The DOM calls are
left out. The controller is written to:

- load the user's learning progress and settings from local storage, and use
  defaults when a stored document is missing or corrupt;
- mark a lesson page (a file name starting with `Network_`) as completed the
  first time it is visited, save the progress map and show an achievement
  toast;
- add one minute to the current page's entry every minute;
- compute the progress bar over four hard-coded lesson identifiers;
- run a naive in-page search: substring match on lower-cased text, a stable
  sort by relevance, the first ten hits;
- toggle a dark theme and save that choice in the settings;
- offer pure helpers: the page file name, the lesson titles, the
  page-specific dispatch table and a `throttle` gate.

As the file stands, only the first two of these steps run on their own. `init` awaits
the load (and with it the first-visit completion), then calls `setupNavigation`,
which calls `setupBreadcrumbNavigation` (`JavaSeript/main1.js:65`). No method of
that name is defined in the file. The resulting `TypeError` is caught and logged
by `init` (`JavaSeript/main1.js:23-24`). The progress tracking with its
per-minute tick, the theme button, the search box
(`JavaSeript/main1.js:52-54`) and the page-specific dispatch
(`JavaSeript/main1.js:17`) are therefore never set up, unless another script
supplies the missing methods. The model states what each of these operations
does when it is reached.

Modules, one per concern of the controller:

- `Pages` (`pages.dfy`): `getCurrentPageName`'s last-path-segment rule, `getPageTitle`, and the `setupPageSpecificFeatures` switch as a function into `PageKind`.
- `Progress` (`progress.dfy`): the entry and settings records, stored documents as seen by `getFromStorage`, the default settings, visit-based completion (`Visited`), the study-time tick (`Ticked`) and the progress-bar figures (`Bar`).
- `Search` (`search.dfy`): `searchContent` as a method whose loop builds the matches, with the sort and the cut to ten; `performSmartSearch`'s length guard.
- `Throttling` (`throttle.dfy`): the wrapper returned by `throttle` as a class with its `inThrottle` flag, and a history of calls and timer expiries.
- `NetworkApp` (`app.dfy`): the `App` class, whose fields are the controller's `learningProgress`, `settings` and `currentUser`, plus the `dark-theme` body class (`dark`), local storage (`storage`) and the toasts shown (`achievements`). Its methods update these fields in place, as the source does.

The clock (`new Date().toISOString()`) is the parameter `now`. The URL path is
the constructor parameter `pathname`. Whether a storage write succeeds is the
constructor parameter `storageWritable`. `calculateRelevance` is the
function-typed parameter `relevance`, about which nothing is assumed. The
document is the sequence of the `textContent` of its `h1`–`h6`, `p`, `li` and
`td` elements, in document order. A search hit refers to its element by its
position in that sequence.

Behaviour of the code worth noting:

- **Two theme toggles.** They restore the stored settings only when the stored
  theme already named the state of the body class (`ToggleTwice`).
  `applyThemeSettings` is not defined in the file, so the body class at load is
  a free parameter and may disagree with the stored theme.
- **The progress bar never counts a visit to a `.html` page.** The bar counts
  the keys `Network_Basics`, `Network_Devices`, `Network_Protocols` and
  `Network_Security`. A visit records the page's file name, such as
  `Network_Basics.html`. Such a visit therefore leaves the bar where it was
  (`HtmlVisitNeverCounts`, `FirstVisitOnEmptyStorage`). The model keeps the
  keys as written.
- **The back-to-top scroll handler never runs its callback.** It calls
  `this.throttle(...)` and throws away the returned wrapper. Visibility is
  therefore not throttled, and it never changes. `throttle` is modelled only as
  a standalone gate.
- **The study-time tick is never saved.** It changes the in-memory map only, so
  the minutes are lost when the page closes.

## Model

| member | source | states |
|---|---|---|
| Pages.LastSegmentSpec | JavaSeript/main1.js:507-509 | the page name is a suffix of the path without any '/', and it is either the whole path or directly preceded by a '/' |
| Pages.LastSegment | JavaSeript/main1.js:507-509 | `split('/').pop()`: the text after the last `/` of the path, or the whole path when it has none; characterised by `Pages.LastSegmentSpec` |
| Pages.LastSegmentOfJoin | JavaSeript/main1.js:507-509 | a page served as `dir/name` is known by `name`, whatever the directory |
| Pages.Dispatch | JavaSeript/main1.js:438-458 | the `switch` on the page name: the four lesson pages, the home page, the two authentication pages, and every other name to no set-up; related to the titles by `Pages.DispatchAgreesWithTitles` |
| Pages.PageTitle | JavaSeript/main1.js:511-519 | a non-empty title, the table's entry for a listed page, and the default title exactly when the page is not in the table |
| Pages.DispatchAgreesWithTitles | JavaSeript/main1.js:438-453 | the dispatch table sends a page to a lesson set-up exactly when the title table lists it, so every dispatched lesson has a real title |
| Pages.TitledPagesAreLessonNamed | JavaSeript/main1.js:511-519 | every titled page starts with `Network_`, so it is eligible for visit-based completion |
| Pages.DispatchInjectiveOutsideAuth | JavaSeript/main1.js:438-458 | two names that reach the same non-authentication set-up are the same name; only the two authentication pages share one |
| Progress.DefaultSettings | JavaSeript/main1.js:38-47 | the six default settings: light theme, Arabic, animations and auto-save on, medium font, automatic video quality |
| Progress.GetFromStorage | JavaSeript/main1.js:491-497 | a missing key and a parse error both read as `null`; any other document is returned as parsed |
| Progress.OrElse | JavaSeript/main1.js:31-32 | the `||` fallback: a parsed value of the expected shape is kept, and `null` or another falsy value selects the fallback |
| Progress.LoadProgress | JavaSeript/main1.js:31 | the progress map read from storage, the empty map when the document is missing, corrupt or falsy |
| Progress.LoadSettings | JavaSeript/main1.js:32 | the settings read from storage, the default settings when the document is missing, corrupt or falsy |
| Progress.LoadFallsBackToDefaults | JavaSeript/main1.js:29-47 | a missing, unparsable or falsy stored document loads as the empty progress map and exactly the six default settings |
| Progress.SavedProgressReloads | JavaSeript/main1.js:491-505 | a document written by `saveToStorage` is truthy, so the `||` fallbacks never replace it on the next load (the JSON text itself is not modelled) |
| Progress.Visited | JavaSeript/main1.js:186-196 | the map after a visit: a new completed entry for a lesson page not yet in the map, otherwise the map as it was; characterised by the three visit lemmas below |
| Progress.VisitCreatesOneEntry | JavaSeript/main1.js:186-196 | a first visit to a lesson page adds exactly one key, holding an entry completed at the visit time with no time and no score, and keeps every other entry |
| Progress.VisitOtherwiseNoOp | JavaSeript/main1.js:188-189 | an existing entry, an empty name or a name not starting with `Network_` leaves the map unchanged (no overwrite, no new `completedAt`) |
| Progress.VisitIdempotent | JavaSeript/main1.js:186-200 | visiting the same page again at any later time changes nothing |
| Progress.Ticked | JavaSeript/main1.js:205-210 | a tick keeps the key set, adds exactly 1 to the current page's `timeSpent` when it has an entry, and changes no other entry |
| Progress.TickKeepsBar | JavaSeript/main1.js:205-210 | a tick never changes the progress bar |
| Progress.TickKeepsCompleted | JavaSeript/main1.js:168 | rewriting an entry with the same `completed` flag keeps the list of completed lessons |
| Progress.CompletedAmong | JavaSeript/main1.js:167-168 | the completed list holds exactly the given keys whose entry is completed, and is no longer than the key list |
| Progress.Bar | JavaSeript/main1.js:166-183 | four lessons in all, the completed count is the number of the four literal lesson keys whose entry is completed, and a percentage of 25 per completed lesson, so one of 0, 25, 50, 75, 100 |
| Progress.CompletedCount | JavaSeript/main1.js:167-168 | over a duplicate-free key list the filter names each completed key once, so its length is the number of keys whose entry is completed |
| Progress.OneLessonCompleted | JavaSeript/main1.js:166-169 | a map with one completed entry under `Network_Basics` shows 1 of 4 lessons and 25 per cent |
| Progress.CompletedIgnoresOtherKeys | JavaSeript/main1.js:167-168 | writing an entry under a key outside the lesson list leaves the completed list unchanged |
| Progress.CompletedAfterAdding | JavaSeript/main1.js:167-168 | a completed entry under a fresh key raises the count by one exactly when the key is in the (duplicate-free) lesson list |
| Progress.VisitProgress | JavaSeript/main1.js:186-196 | a visit raises the completed count by one exactly when it adds an entry under one of the four literal lesson keys, and otherwise leaves it |
| Progress.HtmlEntriesNeverCount | JavaSeript/main1.js:167-169 | an entry stored under a key ending in `.html` never changes the progress bar |
| Progress.HtmlVisitNeverCounts | JavaSeript/main1.js:186-196 | a visit to a page whose name ends in `.html` never changes the progress bar |
| Search.Lower | JavaSeript/main1.js:319-320 | lower-casing keeps the length, maps each character on its own and leaves no ASCII capital |
| Search.LowerIdempotent | JavaSeript/main1.js:326 | lower-casing twice is lower-casing once |
| Search.Contains | JavaSeript/main1.js:327 | `includes`: whether the query occurs in the text; characterised by `Search.ContainsIff` |
| Search.ContainsIff | JavaSeript/main1.js:327 | `includes` holds exactly when the query occurs at some position of the text |
| Search.Matches | JavaSeript/main1.js:322-334 | the `forEach` that collects, in document order, each element whose lower-cased text contains the query, with its text and relevance; characterised by the three lemmas below |
| Search.MatchesAreHits | JavaSeript/main1.js:325-333 | every collected match is an element whose lower-cased text contains the query, with its own text and the relevance of its lower-cased text |
| Search.MatchesInDocumentOrder | JavaSeript/main1.js:325-333 | the matches are collected in strictly increasing document order |
| Search.MatchesComplete | JavaSeript/main1.js:325-333 | every element whose lower-cased text contains the query is collected |
| Search.InsertByRelevance | JavaSeript/main1.js:336 | inserting one match adds exactly that match to the multiset |
| Search.SortByRelevance | JavaSeript/main1.js:336 | the sort is a permutation of its input |
| Search.InsertKeepsRanked | JavaSeript/main1.js:336 | inserting a later match after all at least as relevant keeps the list ranked by relevance, then by document order |
| Search.SortRanks | JavaSeript/main1.js:336 | the stable sort of matches in document order ranks them by descending relevance, ties keeping document order |
| Search.SearchResults | JavaSeript/main1.js:317-337 | the matches, stably sorted by descending relevance and cut to the first ten; characterised by the four lemmas below |
| Search.SearchResultsAreHits | JavaSeript/main1.js:325-336 | at most ten results, each an element whose lower-cased text contains the lower-cased query, with its original text and its relevance |
| Search.SearchResultsRanked | JavaSeript/main1.js:336 | the results are in non-increasing relevance, ties in document order |
| Search.RankedPrefixIsBest | JavaSeript/main1.js:336 | in a ranked list, everything kept by a cut ranks above everything cut off |
| Search.SearchResultsAreBest | JavaSeript/main1.js:336 | every hit left out of the results ranks below every hit kept |
| Search.SearchResultsComplete | JavaSeript/main1.js:325-336 | when fewer than ten results come back, every hit of the document is among them |
| Search.SearchContent | JavaSeript/main1.js:317-337 | the loop over the elements followed by sort and cut yields exactly the specified results, at most ten |
| Search.PerformSmartSearch | JavaSeript/main1.js:307-315 | the panel is hidden, with no search, exactly when the query is shorter than two characters; otherwise it shows the search results |
| Throttling.RunsBoundedByExpiries | JavaSeript/main1.js:478-489 | the wrapped function runs at most once more often than the timer has expired |
| Throttling.RunsMatchExpiries | JavaSeript/main1.js:478-489 | in any history the wrapper can produce, the runs equal the expiries, plus one while a timer is pending |
| Throttling.OneRunPerWindow | JavaSeript/main1.js:478-489 | between two expiries the function runs once if the gate was open and the wrapper was called, and otherwise not at all |
| Throttling.Throttle.constructor | JavaSeript/main1.js:479 | a new wrapper starts open with no history |
| Throttling.Throttle.Invoke | JavaSeript/main1.js:480-487 | a call runs the function exactly when the gate was open, and leaves it closed |
| Throttling.Throttle.Expire | JavaSeript/main1.js:486 | the timer, which exists only while the gate is closed, reopens it on expiry without running anything |
| NetworkApp.ToggledSettings | JavaSeript/main1.js:374-375 | after a toggle the theme is `dark` exactly when the body was not dark before |
| NetworkApp.ToggleTwice | JavaSeript/main1.js:373-376 | two toggles leave the theme naming the restored body class, and restore the settings exactly when they agreed with it before |
| NetworkApp.App.constructor | JavaSeript/main1.js:6-36 | construction loads the three documents with their fallbacks, then records the visit to the page named by the path, saving and toasting only on a first lesson visit |
| NetworkApp.App.LoadUserData | JavaSeript/main1.js:29-36 | the loaded user, progress and settings come from storage with the empty-map and default-settings fallbacks, followed by a visit |
| NetworkApp.App.UpdateLearningProgress | JavaSeript/main1.js:186-200 | the map becomes the visited map; storage and toasts change, by one save and one toast naming the lesson, only when the visit adds an entry |
| NetworkApp.App.UpdateTime | JavaSeript/main1.js:205-210 | the map becomes the ticked map; storage and every other field are untouched |
| NetworkApp.App.ToggleTheme | JavaSeript/main1.js:373-376 | the body flag flips, the theme is `dark` exactly when the flag is now set, nothing else in the settings changes, and the settings are saved |
| NetworkApp.App.SaveProgress | JavaSeript/main1.js:499-505 | the progress document is replaced by the current map, unless the write fails |
| NetworkApp.App.SaveSettings | JavaSeript/main1.js:499-505 | the settings document is replaced by the current settings, unless the write fails |
| NetworkApp.FirstVisitOnEmptyStorage | JavaSeript/main1.js:29-36 | on empty storage a first visit to `Network_Basics.html` yields exactly one completed entry under that name, the default settings, one toast with that lesson's title, and the progress bar of that map, still at 0 of 4 |

## Left out

- `JavaSeript/animations1.js`: reveal-on-scroll, hover styles and the click ripple are inline style writes and pixel geometry with no behavioural contract.
- Widget construction and styling are DOM output and not modelled: the back-to-top button, search box, theme button, achievement toast and progress-bar markup.
- Timers, event listeners and browser APIs are not modelled: the 300 ms search debounce, the Enter key, the Alt+1/Alt+2 shortcuts, smooth scrolling, active nav links, the lazy-image observer and the service-worker registration. The per-minute interval appears only as the `UpdateTime` step it repeats.
- Functions the file calls but does not define are not modelled: `validateForm`, `setupPasswordStrength`, the per-page set-up routines, `displaySearchResults`, `checkForAchievements`, `applyThemeSettings`, breadcrumb and quick navigation, responsive design, loading states, image and video optimisation, skip links and focus indicators. The dispatch table is modelled only up to which `PageKind` it selects.
- `calculateRelevance` is also called without being defined in the file, and is the free parameter `relevance` here. If no other script defines it, the source's search would fail on its first hit.
- `init` is modelled as the constructor's load step. Its later steps are widget, listener and timer set-up. As written, the first of them throws on the undefined `setupBreadcrumbNavigation`, and the `catch` logs the error and skips the rest, so the tick, the theme toggle, the search and the dispatch are never wired up. The model does not represent that wiring or its failure.
- JSON encoding and `localStorage` are foreign. A stored document is modelled already decoded: absent, unparsable, `null`, another falsy value, or a value of the expected shape. A truthy document of some other shape is not modelled.
- `currentUser` is loaded and kept, but nothing reads it.
- Progress.Bar: models the fill width and the text's counts as numbers. The Arabic status text and the CSS gradient are not built. JavaScript computes the percentage in floating point, which is exact for a total of four.
- Search.Lower: lower-cases ASCII letters only. JavaScript's `toLowerCase` also folds non-ASCII cased letters; the site's Arabic text has no case.
- Search.PerformSmartSearch: measures a query's length in Unicode scalar values. JavaScript counts UTF-16 code units, so a single character outside the Basic Multilingual Plane passes the guard there but not here.
- Search.SearchContent: relevance is an integer. A JavaScript relevance that is a fraction or NaN, and the comparator's behaviour on NaN, are not modelled.
- Progress.Ticked: `timeSpent` is an unbounded integer, where JavaScript uses a double. The difference matters only past 2^53 minutes.
- Pages.PageTitle: looks names up in a plain map. In JavaScript, a name such as `constructor` would find an inherited property. `getPageTitle` is only called with names starting with `Network_`, so this cannot arise.
- NetworkApp.App.constructor: whether storage writes succeed is one flag for the whole page. A progress write that fails, for example on quota, while a later settings write succeeds is not expressible.
- Throttling.Throttle.Invoke: the wrapped function is taken to return normally and not to call the wrapper again. In the source the function runs before the flag is set, so a throw leaves the gate open with no timer started, and a re-entrant call runs the function a second time. `RunsBoundedByExpiries` and `OneRunPerWindow` hold only for such well-behaved functions.
- NetworkApp.App.ToggleTheme: does not model the theme button's icon and label. If that button is missing, the source throws after the settings are saved.
