/**
  What the router's state selects on screen: the view `renderCurrentPage`
  dispatches to, and which items of the navigation lists are highlighted.
  The views' contents are static templates and are not modelled.
 */
module Views {

  datatype View = HomeView | AboutView | ProjectsView | ContactView

  /** `renderCurrentPage`: `about`, `projects` and `contact` select their own
      views; every other string, `home` included, selects the home view. */
  function Render(page: string): (v: View)
    ensures v == AboutView <==> page == "about"
    ensures v == ProjectsView <==> page == "projects"
    ensures v == ContactView <==> page == "contact"
    ensures v == HomeView <==> page != "about" && page != "projects" && page != "contact"
  {
    match page
    case "about" => AboutView
    case "projects" => ProjectsView
    case "contact" => ContactView
    case _ => HomeView
  }

  /** The page identifier naming each view. */
  function ViewId(v: View): string
  {
    match v
    case HomeView => "home"
    case AboutView => "about"
    case ProjectsView => "projects"
    case ContactView => "contact"
  }

  /** An entry of a navigation list (its icon is not modelled). */
  datatype NavItem = NavItem(id: string, caption: string)

  /** The four-item list shown both in the desktop bar and in the mobile menu. */
  const NavItems: seq<NavItem> := [
    NavItem("home", "Home"),
    NavItem("about", "About"),
    NavItem("projects", "Projects"),
    NavItem("contact", "Contact")
  ]

  /** The page identifiers the navigation lists can request. */
  const NavIds: set<string> := set i | 0 <= i < |NavItems| :: NavItems[i].id

  /** The four ids, written out. */
  lemma NavIdsListed()
    ensures NavIds == {"home", "about", "projects", "contact"}
  {
    assert NavItems[0].id == "home" && NavItems[1].id == "about";
    assert NavItems[2].id == "projects" && NavItems[3].id == "contact";
  }

  /** No two items of a list share an id. */
  predicate DistinctIds(items: seq<NavItem>)
  {
    forall i, j :: 0 <= i < j < |items| ==> items[i].id != items[j].id
  }

  predicate HasId(items: seq<NavItem>, id: string)
  {
    exists i :: 0 <= i < |items| && items[i].id == id
  }

  /** The items drawn highlighted: those with `currentPage === item.id`, in
      list order. */
  function Highlighted(items: seq<NavItem>, page: string): (r: seq<NavItem>)
    ensures |r| <= |items|
    ensures forall k :: 0 <= k < |r| ==> r[k] in items && r[k].id == page
    ensures forall k :: 0 <= k < |items| && items[k].id == page ==> items[k] in r
    ensures |r| > 0 <==> HasId(items, page)
  {
    if |items| == 0 then []
    else
      var rest := Highlighted(items[1..], page);
      assert HasId(items, page) <==> items[0].id == page || HasId(items[1..], page) by {
        if HasId(items[1..], page) {
          var i :| 0 <= i < |items[1..]| && items[1..][i].id == page;
          assert items[i + 1].id == page;
        }
        if HasId(items, page) && items[0].id != page {
          var i :| 0 <= i < |items| && items[i].id == page;
          assert items[1..][i - 1].id == page;
        }
      }
      assert forall x :: x in items[1..] ==> x in items;
      assert forall k :: 1 <= k < |items| ==> items[k] == items[1..][k - 1];
      if items[0].id == page then [items[0]] + rest else rest
  }

  /** In a list with distinct ids at most one item is highlighted. */
  lemma {:induction false} AtMostOneHighlighted(items: seq<NavItem>, page: string)
    requires DistinctIds(items)
    ensures |Highlighted(items, page)| <= 1
    ensures |Highlighted(items, page)| == 1 <==> HasId(items, page)
  {
    if |items| > 0 {
      assert DistinctIds(items[1..]) by {
        forall i, j | 0 <= i < j < |items[1..]|
          ensures items[1..][i].id != items[1..][j].id
        {
          assert items[1..][i] == items[i + 1] && items[1..][j] == items[j + 1];
        }
      }
      AtMostOneHighlighted(items[1..], page);
      if items[0].id == page {
        forall i | 0 <= i < |items[1..]|
          ensures items[1..][i].id != page
        {
          assert items[1..][i] == items[i + 1];
        }
      }
    }
  }

  /** One step of `Highlighted`: the head is kept when it matches. */
  lemma HighlightedCons(x: NavItem, rest: seq<NavItem>, page: string)
    ensures Highlighted([x] + rest, page) == (if x.id == page then [x] else []) + Highlighted(rest, page)
  {
    assert ([x] + rest)[1..] == rest;
  }

  /** The highlighted part of the site's list, item by item from the end. */
  lemma NavItemsHighlighted(page: string)
    ensures Highlighted(NavItems, page) ==
      if page == "home" then [NavItems[0]]
      else if page == "about" then [NavItems[1]]
      else if page == "projects" then [NavItems[2]]
      else if page == "contact" then [NavItems[3]]
      else []
  {
    var s := NavItems;
    HighlightedCons(s[3], [], page);
    HighlightedCons(s[2], [s[3]], page);
    HighlightedCons(s[1], [s[2], s[3]], page);
    HighlightedCons(s[0], [s[1], s[2], s[3]], page);
    assert [s[3]] + [] == [s[3]];
    assert [s[2]] + [s[3]] == [s[2], s[3]];
    assert [s[1]] + [s[2], s[3]] == [s[1], s[2], s[3]];
    assert [s[0]] + [s[1], s[2], s[3]] == s;
  }

  /** For the site's navigation list: exactly one item is highlighted when the
      page is one of the four ids, and none otherwise; the highlighted item is
      the one naming the view that is rendered. */
  lemma NavHighlight(page: string)
    ensures page in NavIds ==> |Highlighted(NavItems, page)| == 1
    ensures page in NavIds ==> Highlighted(NavItems, page)[0].id == ViewId(Render(page))
    ensures page !in NavIds ==> Highlighted(NavItems, page) == []
  {
    NavIdsListed();
    NavItemsHighlighted(page);
  }

  /** Each view is rendered for its own id, and the dispatch maps a page back
      to itself exactly for the four known ids. */
  lemma RenderViewId(v: View, page: string)
    ensures Render(ViewId(v)) == v
    ensures ViewId(Render(page)) == page <==> page in NavIds
  {
    NavIdsListed();
  }
}
