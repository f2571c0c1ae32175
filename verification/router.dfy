/**
  The page router of the portfolio's `App` component: the current page, the
  mobile-menu flag, and the session history the component writes to and reacts
  to. Every handler runs to completion, so each is a pure transition from one
  `App` value to the next.
 */
module PageRouter {
  import opened SessionHistory

  const HomeId: string := "home"

  /** The component's state (`currentPage`, `isMobileMenuOpen`) together with
      the browser session history it is synchronised with. */
  datatype App = App(page: string, menuOpen: bool, history: History)
  {
    predicate Valid()
    {
      history.Valid()
    }
  }

  /** The state object `navigateToPage(p)` pushes: `{ page: p }`. */
  function StateFor(p: string): HistoryState
  {
    Record(Str(p))
  }

  /** The entry `navigateToPage(p)` pushes: state `{ page: p }`, fragment `#p`. */
  function EntryFor(p: string): Entry
  {
    Entry(StateFor(p), "#" + p)
  }

  /** `event.state?.page || 'home'`: the carried page when it is truthy, and
      `home` for a falsy state, a missing field or the empty string. */
  function PageFromState(s: HistoryState): (p: string)
    ensures p != ""
    ensures s.Record? && s.page.Str? && s.page.s != "" ==> p == s.page.s
    ensures p != HomeId ==> s.Record? && s.page.Str? && s.page.s == p
  {
    if s.Record? && s.page.Str? && s.page.s != "" then s.page.s else HomeId
  }

  /** The state right after mounting: page `home`, menu closed, and the
      session history as the browser hands it over. */
  function Mount(h: History): (a: App)
    requires h.Valid()
    ensures a.Valid()
    ensures a.page == HomeId && !a.menuOpen
    ensures a.history.entries == h.entries && a.history.cursor == h.cursor
  {
    App(HomeId, false, h)
  }

  /** The one-shot initialisation: a falsy current history state is replaced
      by `{ page: 'home' }` with fragment `#home`; a truthy one is left as is.
      The page and the menu are never touched. */
  function Initialize(a: App): (r: App)
    requires a.Valid()
    ensures r.Valid()
    ensures r.page == a.page && r.menuOpen == a.menuOpen
    ensures |r.history.entries| == |a.history.entries| && r.history.cursor == a.history.cursor
    ensures IsTruthy(r.history.Current().state)
    ensures IsTruthy(a.history.Current().state) ==> r == a
    ensures !IsTruthy(a.history.Current().state) ==> r.history.Current() == EntryFor(HomeId)
    ensures forall i :: 0 <= i < |a.history.entries| && i != a.history.cursor ==>
              r.history.entries[i] == a.history.entries[i]
  {
    if !IsTruthy(a.history.Current().state) then
      a.(history := Replace(a.history, EntryFor(HomeId)))
    else
      a
  }

  /** `navigateToPage(p)`: show `p`, close the menu, push `{ page: p }` with
      fragment `#p`. */
  function Navigate(a: App, p: string): (r: App)
    requires a.Valid()
    ensures r.Valid()
    ensures r.page == p && !r.menuOpen
    ensures |r.history.entries| == a.history.cursor + 2
    ensures r.history.cursor == a.history.cursor + 1
    ensures r.history.Current() == EntryFor(p)
    ensures forall i :: 0 <= i <= a.history.cursor ==> r.history.entries[i] == a.history.entries[i]
  {
    App(p, false, Push(a.history, EntryFor(p)))
  }

  /** The `popstate` handler, given the state the browser delivers: the page
      is restored from it, the menu is closed, and the history is not written. */
  function OnPopState(a: App, s: HistoryState): (r: App)
    ensures r.page == PageFromState(s) && r.page != ""
    ensures !r.menuOpen
    ensures r.history == a.history
  {
    a.(page := PageFromState(s), menuOpen := false)
  }

  /** The mobile menu button: flips the menu flag. */
  function ToggleMenu(a: App): (r: App)
    ensures r.menuOpen != a.menuOpen
    ensures r.page == a.page && r.history == a.history
  {
    a.(menuOpen := !a.menuOpen)
  }

  /** The Resume link inside the mobile menu: closes the menu. */
  function CloseMenu(a: App): (r: App)
    ensures !r.menuOpen
    ensures r.page == a.page && r.history == a.history
  {
    a.(menuOpen := false)
  }

  /** The browser's back button: the cursor moves back one entry and the
      `popstate` handler receives that entry's state. `None` when there is no
      earlier entry, in which case no event reaches the component. */
  function GoBack(a: App): (r: Option<App>)
    requires a.Valid()
    ensures r.Some? <==> a.history.cursor > 0
    ensures r.Some? ==> r.value.Valid()
    ensures r.Some? ==> r.value.history.entries == a.history.entries
    ensures r.Some? ==> r.value.history.cursor + 1 == a.history.cursor
    ensures r.Some? ==> r.value.page == PageFromState(a.history.entries[a.history.cursor - 1].state)
    ensures r.Some? ==> !r.value.menuOpen
  {
    match Back(a.history)
    case None => None
    case Some(h) => Some(OnPopState(a.(history := h), h.Current().state))
  }

  /** The browser's forward button, symmetric to `GoBack`. */
  function GoForward(a: App): (r: Option<App>)
    requires a.Valid()
    ensures r.Some? <==> a.history.cursor + 1 < |a.history.entries|
    ensures r.Some? ==> r.value.Valid()
    ensures r.Some? ==> r.value.history.entries == a.history.entries
    ensures r.Some? ==> r.value.history.cursor == a.history.cursor + 1
    ensures r.Some? ==> r.value.page == PageFromState(a.history.entries[a.history.cursor + 1].state)
    ensures r.Some? ==> !r.value.menuOpen
  {
    match Forward(a.history)
    case None => None
    case Some(h) => Some(OnPopState(a.(history := h), h.Current().state))
  }

  /** The displayed page agrees with what the `popstate` handler would restore
      from the current history entry. */
  predicate Synced(a: App)
  {
    a.Valid() && a.page == PageFromState(a.history.Current().state)
  }

  /** A pushed state restores exactly the page it was pushed for, unless that
      page is the empty string, which the handler's fallback turns into `home`. */
  lemma StateRoundTrip(p: string)
    ensures PageFromState(StateFor(p)) == p <==> p != ""
    ensures p == "" ==> PageFromState(StateFor(p)) == HomeId
  {
  }

  /** Navigating keeps the page and the current entry in agreement exactly
      when the target is not the empty string. */
  lemma NavigateSynced(a: App, p: string)
    requires a.Valid()
    ensures Synced(Navigate(a, p)) <==> p != ""
  {
  }

  /** Back after a navigation returns to the page the previous entry carries
      (the page that was shown, when the app was in sync), and forward again
      restores exactly the state the navigation produced. */
  lemma NavigateBackForward(a: App, p: string)
    requires a.Valid() && p != ""
    ensures GoBack(Navigate(a, p)).Some?
    ensures GoBack(Navigate(a, p)).value.page == PageFromState(a.history.Current().state)
    ensures Synced(a) ==> GoBack(Navigate(a, p)).value.page == a.page
    ensures GoForward(GoBack(Navigate(a, p)).value) == Some(Navigate(a, p))
  {
  }

  /** A history traversal always leaves the app in sync. */
  lemma TraversalSyncs(a: App)
    requires a.Valid()
    ensures GoBack(a).Some? ==> Synced(GoBack(a).value)
    ensures GoForward(a).Some? ==> Synced(GoForward(a).value)
  {
  }

  /** Running the initialisation twice is the same as running it once. */
  lemma InitializeIdempotent(a: App)
    requires a.Valid()
    ensures Initialize(Initialize(a)) == Initialize(a)
  {
  }

  /** Right after mounting, the initialisation leaves the app in sync exactly
      when the current entry restores `home`. A reload on an entry carrying
      `{ page: 'projects' }` therefore shows `home` while the entry says
      `projects`. */
  lemma MountInitializeSynced(h: History)
    requires h.Valid()
    ensures Synced(Initialize(Mount(h))) <==> PageFromState(h.Current().state) == HomeId
  {
  }

  /** The menu button twice restores the flag; closing is idempotent. */
  lemma MenuLaws(a: App)
    ensures ToggleMenu(ToggleMenu(a)) == a
    ensures CloseMenu(CloseMenu(a)) == CloseMenu(a)
    ensures a.menuOpen ==> ToggleMenu(a) == CloseMenu(a)
    ensures !a.menuOpen ==> CloseMenu(a) == a
  {
  }
}
