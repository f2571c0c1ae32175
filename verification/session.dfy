/**
  A browsing session: the user's clicks and the browser's back/forward
  buttons, each delivered to the router as one atomic transition. The lemmas
  here state what holds over whole sessions: which events can open the menu
  or grow the history, that a session driven by the site's own buttons keeps
  the page among the four known ids, and that the page stays in agreement
  with the current history entry.
 */
module Session {
  import opened SessionHistory
  import opened PageRouter
  import opened Views

  /** The inputs the component reacts to. `Click(p)` is any button calling
      `navigateToPage(p)`. */
  datatype Event =
    | Click(target: string)
    | MenuButton
    | ResumeLink
    | BrowserBack
    | BrowserForward

  /** One event. A back or forward press with no entry to move to reaches
      nothing and leaves the app as it is. */
  function Step(a: App, e: Event): (r: App)
    requires a.Valid()
    ensures r.Valid()
    ensures |r.history.entries| != |a.history.entries| ==> e.Click?
    ensures r.menuOpen && !a.menuOpen ==> e.MenuButton?
    ensures r.page != a.page ==> e.Click? || e.BrowserBack? || e.BrowserForward?
    ensures e.Click? ==> r.page == e.target && r.history.Current() == EntryFor(e.target)
  {
    match e
    case Click(p) => Navigate(a, p)
    case MenuButton => ToggleMenu(a)
    case ResumeLink => CloseMenu(a)
    case BrowserBack => (match GoBack(a) case Some(b) => b case None => a)
    case BrowserForward => (match GoForward(a) case Some(b) => b case None => a)
  }

  /** Events in order. */
  function Run(a: App, es: seq<Event>): (r: App)
    requires a.Valid()
    ensures r.Valid()
    ensures (forall i :: 0 <= i < |es| ==> !es[i].Click?) ==>
              |r.history.entries| == |a.history.entries|
    decreases |es|
  {
    if |es| == 0 then a else Run(Step(a, es[0]), es[1..])
  }

  /** Every click in the session targets one of the four navigation ids, as
      every `navigateToPage` call site of the site does. */
  predicate ClicksKnown(es: seq<Event>)
  {
    forall i :: 0 <= i < |es| && es[i].Click? ==> es[i].target in NavIds
  }

  /** No click in the session targets the empty string. */
  predicate ClicksNonEmpty(es: seq<Event>)
  {
    forall i :: 0 <= i < |es| && es[i].Click? ==> es[i].target != ""
  }

  /** The page is a known id, and so is the page every history entry would
      restore. */
  predicate Wellformed(a: App)
  {
    && a.Valid()
    && a.page in NavIds
    && forall i :: 0 <= i < |a.history.entries| ==> PageFromState(a.history.entries[i].state) in NavIds
  }

  lemma StepWellformed(a: App, e: Event)
    requires Wellformed(a)
    requires e.Click? ==> e.target in NavIds
    ensures Wellformed(Step(a, e))
  {
  }

  /** A session of site-button clicks, menu presses and browser traversals
      never leaves the known pages, whatever its length. */
  lemma {:induction false} RunWellformed(a: App, es: seq<Event>)
    requires Wellformed(a) && ClicksKnown(es)
    ensures Wellformed(Run(a, es))
    decreases |es|
  {
    if |es| > 0 {
      StepWellformed(a, es[0]);
      assert ClicksKnown(es[1..]) by {
        forall i | 0 <= i < |es[1..]| && es[1..][i].Click?
          ensures es[1..][i].target in NavIds
        {
          assert es[1..][i] == es[i + 1];
        }
      }
      RunWellformed(Step(a, es[0]), es[1..]);
    }
  }

  lemma StepSynced(a: App, e: Event)
    requires Synced(a)
    requires e.Click? ==> e.target != ""
    ensures Synced(Step(a, e))
  {
  }

  /** Once in sync, a session whose clicks all name a non-empty page stays in
      sync: the page shown is always what the current entry restores. */
  lemma {:induction false} RunSynced(a: App, es: seq<Event>)
    requires Synced(a) && ClicksNonEmpty(es)
    ensures Synced(Run(a, es))
    decreases |es|
  {
    if |es| > 0 {
      StepSynced(a, es[0]);
      assert ClicksNonEmpty(es[1..]) by {
        forall i | 0 <= i < |es[1..]| && es[1..][i].Click?
          ensures es[1..][i].target != ""
        {
          assert es[1..][i] == es[i + 1];
        }
      }
      RunSynced(Step(a, es[0]), es[1..]);
    }
  }

  /** Mounting and initialising over a history whose entries all restore a
      known id gives a well-formed app. */
  lemma StartWellformed(h: History)
    requires h.Valid()
    requires forall i :: 0 <= i < |h.entries| ==> PageFromState(h.entries[i].state) in NavIds
    ensures Wellformed(Initialize(Mount(h)))
  {
    NavIdsListed();
  }

  /** First load with an empty state, a click on Projects, then the back
      button: `home` with one entry, `projects` with two, then `home` again
      with still two entries and the cursor on the first. */
  lemma LoadNavigateBack()
    ensures var a0 := Initialize(Mount(History([Entry(Null, "")], 0)));
      && a0.page == "home" && !a0.menuOpen
      && a0.history.entries == [EntryFor("home")]
      && var a1 := Step(a0, Click("projects"));
      && a1.page == "projects" && |a1.history.entries| == 2 && a1.history.cursor == 1
      && Render(a1.page) == ProjectsView
      && var a2 := Step(a1, BrowserBack);
      && a2.page == "home" && |a2.history.entries| == 2 && a2.history.cursor == 0
      && Render(a2.page) == HomeView
  {
  }

  /** An entry the component did not write, carrying an unknown page such as
      `blog`, is restored as is by the back button: the page becomes `blog`,
      the home view is rendered and no navigation item is highlighted. */
  lemma UnknownPagePassesThrough()
    ensures var a := App("about", false, History([Entry(Record(Str("blog")), "#blog"), EntryFor("about")], 1));
      && var b := Step(a, BrowserBack);
      && b.page == "blog"
      && b.page !in NavIds
      && Render(b.page) == HomeView
      && Highlighted(NavItems, b.page) == []
  {
  }
}
