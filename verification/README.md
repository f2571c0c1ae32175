# Portfolio page router, modelled in Dafny

The portfolio site is one React component, `App`. Its only behaviour beyond
static markup is a small page router. It keeps the current page (a string)
and a mobile-menu flag, and keeps them in step with the browser's session
history:

- `navigateToPage(p)` shows `p`, closes the menu and pushes `{ page: p }` with fragment `#p`;
- the `popstate` handler restores `state?.page || 'home'` and closes the menu;
- a one-shot initialisation replaces a falsy history state with `{ page: 'home' }`;
- the menu button flips the menu flag, and the mobile Resume link closes the menu;
- `renderCurrentPage` chooses one of four views;
- the two navigation lists highlight the item whose id equals the current page.

The model keeps each handler as a pure transition on an immutable `App`
value: page, menu flag and session history. The session history is a sequence
of entries plus a cursor. Push truncates the forward entries and appends.
Replace overwrites the current entry. Back and forward move the cursor and
hand that entry's state to the `popstate` handler.

Files:

- `history.dfy` (module `SessionHistory`): history states, entries, and push, replace, back and forward.
- `router.dfy` (module `PageRouter`): the component's state and its handlers.
- `views.dfy` (module `Views`): the render dispatch and the navigation highlight.
- `session.dfy` (module `Session`): sequences of events and the invariants that hold across them.

The page is kept as a string. The `popstate` handler does not normalise
unknown identifiers: it passes any truthy `page` value through unchanged, and
only the renderer maps unknown values to the home view.
`Session.UnknownPagePassesThrough` shows an entry carrying `blog`. After going
back to it the page is `blog`, the home view is rendered and no navigation
item is highlighted.

On mount the page is always `home`. The initialisation only writes the
history when the current state is falsy, so a reload on an entry carrying
`{ page: 'projects' }` shows `home` while the entry says `projects`.
`PageRouter.MountInitializeSynced` states exactly when mount and
initialisation agree with the current entry.

## Model

| member | source | states |
|---|---|---|
| `SessionHistory.Push` | src/App.tsx:34 | pushing drops the forward entries, keeps every entry up to the cursor, appends the new entry and makes it current (length becomes cursor + 2) |
| `SessionHistory.Replace` | src/App.tsx:23 | replacing changes only the current entry; length, cursor and all other entries are kept |
| `SessionHistory.Back` | src/App.tsx:13-17 | the back button is possible exactly when the cursor is above 0; it moves the cursor back by one and leaves the entries alone |
| `SessionHistory.Forward` | src/App.tsx:13-17 | the forward button is possible exactly when an entry follows the cursor; it moves the cursor forward by one and leaves the entries alone |
| `SessionHistory.BackForwardInverse` | src/App.tsx:13-17 | back then forward, and forward then back, return to the same history |
| `SessionHistory.PushThenBack` | src/App.tsx:34 | after a push there is nothing forward, and back lands on the entry that was current before the push |
| `SessionHistory.ReplaceLaws` | src/App.tsx:23 | replacing with the current entry is a no-op; a second replace overrides the first |
| `PageRouter.PageFromState` | src/App.tsx:14 | a truthy string in the state's `page` field is restored as is; a falsy state, a missing field or the empty string gives `home`; the result is never empty |
| `PageRouter.Mount` | src/App.tsx:5-7 | the component starts on page `home` with the menu closed and the history as the browser gives it |
| `PageRouter.Initialize` | src/App.tsx:22-24 | a falsy current state becomes `{ page: 'home' }` with fragment `#home`; a truthy one is left as it is; the page, menu, length, cursor and other entries never change; afterwards the current state is truthy |
| `PageRouter.Navigate` | src/App.tsx:31-35 | the page becomes exactly `p` and the menu is closed whatever it was; the entries up to the cursor are kept and one entry `{ page: p }` with fragment `#p` is appended and becomes current |
| `PageRouter.OnPopState` | src/App.tsx:13-17 | the page becomes what the delivered state restores (never empty), the menu is closed, and the history is not written |
| `PageRouter.ToggleMenu` | src/App.tsx:174 | the menu flag is flipped; page and history are unchanged |
| `PageRouter.CloseMenu` | src/App.tsx:212-217 | the Resume link closes the menu; page and history are unchanged |
| `PageRouter.GoBack` | src/App.tsx:13-17 | a back press, when possible, moves the cursor back one entry without changing the entries; the page is what that entry restores and the menu is closed |
| `PageRouter.GoForward` | src/App.tsx:13-17 | a forward press, when possible, moves the cursor forward one entry without changing the entries; the page is what that entry restores and the menu is closed |
| `PageRouter.StateRoundTrip` | src/App.tsx:14 | a pushed `{ page: p }` restores `p` exactly when `p` is not empty; the empty string comes back as `home` |
| `PageRouter.NavigateSynced` | src/App.tsx:31-35 | after navigating, the page agrees with the current entry exactly when the target is not empty |
| `PageRouter.NavigateBackForward` | src/App.tsx:31-35 | back after navigating returns to the page of the previous entry (the page that was shown, if it was in sync); forward then returns to the navigated state |
| `PageRouter.TraversalSyncs` | src/App.tsx:13-17 | after any back or forward press the page agrees with the current entry |
| `PageRouter.InitializeIdempotent` | src/App.tsx:22-24 | running the initialisation a second time changes nothing |
| `PageRouter.MountInitializeSynced` | src/App.tsx:5-24 | after mount and initialisation the page agrees with the current entry exactly when that entry restores `home` |
| `PageRouter.MenuLaws` | src/App.tsx:174 | toggling twice restores the flag; closing is idempotent; toggling an open menu is closing it; closing a closed menu is a no-op |
| `Views.Render` | src/App.tsx:616-623 | `about`, `projects` and `contact` select their own views, and every other string selects Home (in both directions) |
| `Views.RenderViewId` | src/App.tsx:616-623 | each view is rendered for its own id; a page maps back to itself through the dispatch exactly when it is one of the four ids |
| `Views.Highlighted` | src/App.tsx:139-152 | every highlighted entry is an item of the list whose id equals the page, every item whose id equals the page is highlighted, and something is highlighted exactly when some item has that id |
| `Views.HighlightedCons` | src/App.tsx:149 | each item is tested on its own: the head of a list is highlighted exactly when its id equals the page, ahead of the rest of the list's highlights |
| `Views.AtMostOneHighlighted` | src/App.tsx:139-152 | with distinct ids at most one item is highlighted, and exactly one when the page is one of the ids |
| `Views.NavIdsListed` | src/App.tsx:139-144 | the ids of the site's list are exactly `home`, `about`, `projects` and `contact` |
| `Views.NavItemsHighlighted` | src/App.tsx:191-204 | in the site's list the highlight is the single item for `home`, `about`, `projects` or `contact`, and empty for any other page |
| `Views.NavHighlight` | src/App.tsx:191-204 | in the site's list (the same in the desktop bar and the mobile menu) exactly one item is highlighted for a known id, and it names the rendered view; none for any other page |
| `Session.Step` | src/App.tsx:13-35 | only a click changes the history length; only the menu button opens the menu; only a click or a traversal changes the page; a click shows its target and makes `{ page: target }` current |
| `Session.Run` | src/App.tsx:13-35 | a session without clicks never changes the history length |
| `Session.StepWellformed` | src/App.tsx:139-147 | one event with a known click target keeps the page and every entry's page among the four ids |
| `Session.RunWellformed` | src/App.tsx:139-147 | a session whose clicks all target the four ids never leaves them, for the page or for any history entry |
| `Session.StepSynced` | src/App.tsx:13-35 | one event, with a non-empty click target, keeps the page in agreement with the current entry |
| `Session.RunSynced` | src/App.tsx:13-35 | once in sync, a session whose clicks target non-empty pages stays in sync |
| `Session.StartWellformed` | src/App.tsx:22-24 | mount and initialisation over a history whose entries restore known ids start a well-formed app |
| `Session.LoadNavigateBack` | src/App.tsx:13-35 | first load, a Projects click, then back: `home` with one entry, then `projects` with two, then `home` with two and the cursor at 0 |
| `Session.UnknownPagePassesThrough` | src/App.tsx:14-15 | going back to an entry carrying `blog` sets page `blog`; the home view is rendered and no item is highlighted |

## Left out

- JSX markup, class strings, icons, the `isLoaded` fade-in and `PageTransition`: these are presentation only.
- `GlassCard` and the bodies of the four views: they are static templates with no state.
- The `skills` and `projects` arrays and the hard-coded links: they are content. The contact email differs between src/App.tsx:537 (`@gmail.com`) and src/App.tsx:579 (`@email.com`). This is a content inconsistency, not behaviour.
- `scrollToSection`: a DOM lookup and a scroll side effect.
- Listener registration and removal, and React's state and effect scheduling. Each handler is one atomic transition, and two state setters in one handler are applied together.
- The real browser history. The URL fragment is kept as an opaque string on each entry, and is never parsed or loaded. Entries of other documents, and fragment navigations typed by the user, are not modelled.
- Traversals of more than one entry at once (picking from the back button's history list, `history.go(n)`) are not modelled. `Back` and `Forward` move the cursor by exactly one. Such a jump would also fire `popstate` with the landed entry's state, and the handler would treat it the same way.
- A truthy `page` value that is not a string, such as a number. The component only ever writes strings, and such a value would pass through the handler unchanged. Any falsy state (`null`, `undefined`) is one value, `Null`.
