/**
  The browser's session history, as far as the portfolio's router sees it:
  a non-empty sequence of entries and a cursor on the current one. Each entry
  carries the state object handed to `pushState`/`replaceState` and the URL
  fragment written with it.

  `Push` drops every entry after the cursor and appends, `Replace` overwrites
  the current entry, and `Back`/`Forward` move the cursor by one when there is
  an entry to move to.
 */
module SessionHistory {

  datatype Option<+T> = None | Some(value: T)

  /** The value read as `state.page`: absent, or a string. */
  datatype PageField = Missing | Str(s: string)

  /** A history state object. `Null` stands for every JavaScript-falsy state
      (`null`, `undefined`); `Record` for a truthy one, whose `page` field may
      be missing. */
  datatype HistoryState = Null | Record(page: PageField)

  /** JavaScript truthiness of a history state (the test `!history.state`). */
  predicate IsTruthy(s: HistoryState)
  {
    s.Record?
  }

  datatype Entry = Entry(state: HistoryState, fragment: string)

  datatype History = History(entries: seq<Entry>, cursor: nat)
  {
    /** The browser always has a current entry. */
    predicate Valid()
    {
      cursor < |entries|
    }

    function Current(): Entry
      requires Valid()
    {
      entries[cursor]
    }
  }

  /** `history.pushState`: forward entries are discarded, the new entry is
      appended and becomes current. */
  function Push(h: History, e: Entry): (r: History)
    requires h.Valid()
    ensures r.Valid()
    ensures |r.entries| == h.cursor + 2
    ensures r.cursor == h.cursor + 1
    ensures r.Current() == e
    ensures forall i :: 0 <= i <= h.cursor ==> r.entries[i] == h.entries[i]
  {
    History(h.entries[..h.cursor + 1] + [e], h.cursor + 1)
  }

  /** `history.replaceState`: only the current entry changes. */
  function Replace(h: History, e: Entry): (r: History)
    requires h.Valid()
    ensures r.Valid()
    ensures |r.entries| == |h.entries|
    ensures r.cursor == h.cursor
    ensures r.Current() == e
    ensures forall i :: 0 <= i < |h.entries| && i != h.cursor ==> r.entries[i] == h.entries[i]
  {
    History(h.entries[h.cursor := e], h.cursor)
  }

  /** The back button: one entry back, if there is one. */
  function Back(h: History): (r: Option<History>)
    requires h.Valid()
    ensures r.Some? <==> h.cursor > 0
    ensures r.Some? ==> r.value.Valid() && r.value.entries == h.entries && r.value.cursor + 1 == h.cursor
  {
    if h.cursor == 0 then None else Some(History(h.entries, h.cursor - 1))
  }

  /** The forward button: one entry forward, if there is one. */
  function Forward(h: History): (r: Option<History>)
    requires h.Valid()
    ensures r.Some? <==> h.cursor + 1 < |h.entries|
    ensures r.Some? ==> r.value.Valid() && r.value.entries == h.entries && r.value.cursor == h.cursor + 1
  {
    if h.cursor + 1 < |h.entries| then Some(History(h.entries, h.cursor + 1)) else None
  }

  /** Back and Forward undo each other. */
  lemma BackForwardInverse(h: History)
    requires h.Valid()
    ensures Back(h).Some? ==> Forward(Back(h).value) == Some(h)
    ensures Forward(h).Some? ==> Back(Forward(h).value) == Some(h)
  {
  }

  /** After a push there is nothing forward, and going back lands on the entry
      that was current before the push, with the entries up to it intact. */
  lemma PushThenBack(h: History, e: Entry)
    requires h.Valid()
    ensures Forward(Push(h, e)) == None
    ensures Back(Push(h, e)).Some?
    ensures Back(Push(h, e)).value.cursor == h.cursor
    ensures Back(Push(h, e)).value.Current() == h.Current()
    ensures Back(Push(h, e)).value.entries[..h.cursor + 1] == h.entries[..h.cursor + 1]
  {
  }

  /** Replacing with the current entry changes nothing, and replacing twice
      keeps only the second entry. */
  lemma ReplaceLaws(h: History, e: Entry, e': Entry)
    requires h.Valid()
    ensures Replace(h, h.Current()) == h
    ensures Replace(Replace(h, e), e') == Replace(h, e')
  {
  }
}
