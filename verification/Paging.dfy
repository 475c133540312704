/** Keyset paging of observations: the store's order and cursor filter (internal/store/memory.go) and the
    page protocol of the API (internal/api/api.go). */
module Paging {
  import opened Wrappers
  import opened Observations
  import opened Strings

  // ---------------------------------------------------------------- the order of rows

  /** Newest first; among equals the greater id first. */
  predicate Before(a: Observation, b: Observation) {
    a.lastSeen > b.lastSeen || (a.lastSeen == b.lastSeen && Less(b.id, a.id))
  }

  lemma BeforeIsStrict(a: Observation, b: Observation)
    ensures Before(a, b) ==> !Before(b, a) && a != b
    ensures a.id != b.id ==> Before(a, b) || Before(b, a)
  {
    if Less(b.id, a.id) { LessIsAsymmetric(b.id, a.id); }
    if Less(a.id, b.id) { LessIsAsymmetric(a.id, b.id); }
    LessIsTotal(a.id, b.id);
  }

  lemma BeforeIsTransitive(a: Observation, b: Observation, c: Observation)
    requires Before(a, b) && Before(b, c)
    ensures Before(a, c)
  {
    if a.lastSeen == b.lastSeen == c.lastSeen { LessIsTransitive(c.id, b.id, a.id); }
  }

  predicate Sorted(rows: seq<Observation>) {
    forall j, k :: 0 <= j < k < |rows| ==> Before(rows[j], rows[k])
  }

  function Rows(list: seq<Observation>): set<Observation> {
    set o | o in list
  }

  /** list is rows in the store's order, each row once. */
  predicate Lists(list: seq<Observation>, rows: set<Observation>) {
    Sorted(list) && Rows(list) == rows
  }

  lemma FirstIsFirst(list: seq<Observation>, other: seq<Observation>)
    requires list != [] && Sorted(list) && Sorted(other) && Rows(list) == Rows(other)
    ensures other != [] && other[0] == list[0]
  {
    assert list[0] in Rows(other);
    assert other[0] in Rows(list);
    BeforeIsStrict(list[0], other[0]);
  }

  lemma RowsOfTail(list: seq<Observation>)
    requires list != [] && Sorted(list)
    ensures Sorted(list[1..]) && Rows(list[1..]) == Rows(list) - {list[0]}
  {
    forall o | o in list[1..]
      ensures o != list[0]
    {
      BeforeIsStrict(list[0], o);
    }
    assert list == [list[0]] + list[1..];
  }

  lemma EmptyExactlyWhenNoRows(list: seq<Observation>)
    ensures Rows(list) == {} <==> list == []
  {
    if list != [] { assert list[0] in Rows(list); }
  }

  /** There is only one such list, so "the list" of a set of rows is well defined. */
  lemma {:induction false} ListIsUnique(list: seq<Observation>, other: seq<Observation>, rows: set<Observation>)
    requires Lists(list, rows) && Lists(other, rows)
    ensures list == other
  {
    EmptyExactlyWhenNoRows(list);
    EmptyExactlyWhenNoRows(other);
    if list == [] {
    } else {
      FirstIsFirst(list, other);
      RowsOfTail(list);
      RowsOfTail(other);
      ListIsUnique(list[1..], other[1..], rows - {list[0]});
      assert list == [list[0]] + list[1..] && other == [other[0]] + other[1..];
    }
  }

  predicate DistinctIDs(rows: seq<Observation>) {
    forall j, k :: 0 <= j < k < |rows| ==> rows[j].id != rows[k].id
  }

  /** Inserts o into a sorted list. */
  method Insert(list: seq<Observation>, o: Observation) returns (out: seq<Observation>)
    requires Sorted(list) && forall k :: 0 <= k < |list| ==> list[k].id != o.id
    ensures Lists(out, Rows(list) + {o})
  {
    var n := 0;
    while n < |list| && Before(list[n], o)
      invariant n <= |list|
      invariant forall k :: 0 <= k < n ==> Before(list[k], o)
    {
      n := n + 1;
    }
    out := list[..n] + [o] + list[n..];
    forall k | n <= k < |list|
      ensures Before(o, list[k])
    {
      BeforeIsStrict(o, list[n]);
      if k > n { BeforeIsTransitive(o, list[n], list[k]); }
    }
    assert list == list[..n] + list[n..];
  }

  /** Rows in the store's order, whatever order they come in. */
  method Sort(rows: seq<Observation>) returns (out: seq<Observation>)
    requires DistinctIDs(rows)
    ensures Lists(out, Rows(rows))
  {
    out := [];
    for n := 0 to |rows|
      invariant Lists(out, Rows(rows[..n]))
    {
      assert forall k :: 0 <= k < |out| ==> out[k] in Rows(rows[..n]);
      out := Insert(out, rows[n]);
      assert rows[..n + 1] == rows[..n] + [rows[n]];
    }
    assert rows[..|rows|] == rows;
  }

  // ---------------------------------------------------------------- filters and cursors

  /** An empty string leaves a field free; text stands for the substring search. beforeTime 0 is no cursor. */
  datatype Filter = Filter(
    hostID: string, severity: string, verdict: Option<Verdict>, status: Option<Status>, source: string, ruleID: string,
    text: Observation -> bool, beforeTime: nat, beforeID: string)

  predicate Matches(o: Observation, f: Filter) {
    && (f.hostID == "" || o.hostID == f.hostID)
    && (f.severity == "" || o.severity == f.severity)
    && (f.verdict.None? || o.verdict == f.verdict.value)
    && (f.status.None? || o.status == f.status.value)
    && (f.source == "" || o.source == f.source)
    && (f.ruleID == "" || o.ruleID == f.ruleID)
    && f.text(o)
  }

  predicate PastCursor(o: Observation, time: nat, id: string) {
    time == 0 || !(o.lastSeen > time || (o.lastSeen == time && (o.id == id || Less(id, o.id))))
  }

  function Matching(obs: Table, f: Filter): set<Observation> {
    set o | o in obs.Values && Matches(o, f)
  }

  function Past(rows: set<Observation>, time: nat, id: string): set<Observation> {
    set o | o in rows && PastCursor(o, time, id)
  }

  datatype Cursor = Cursor(time: nat, id: string)
  datatype Page = Page(rows: seq<Observation>, next: Option<Cursor>)

  /** What decodeCursor accepts. */
  predicate Valid(c: Cursor) {
    c.time != 0 && c.id != ""
  }

  function AfterCursor(rows: set<Observation>, c: Option<Cursor>): set<Observation> {
    match c case None => rows case Some(c) => Past(rows, c.time, c.id)
  }

  function PageOf(list: seq<Observation>, limit: nat): Page
    requires limit > 0
  {
    if |list| > limit then Page(list[..limit], Some(Cursor(list[limit - 1].lastSeen, list[limit - 1].id)))
      else Page(list, None)
  }

  /** page answers a request for the given rows from the given cursor. */
  ghost predicate Answers(page: Page, rows: set<Observation>, limit: nat, c: Option<Cursor>)
    requires limit > 0
  {
    && (c.Some? ==> Valid(c.value))
    && exists list :: Lists(list, AfterCursor(rows, c)) && page == PageOf(list, limit)
  }

  /** A client that follows cursors until none is issued. */
  ghost predicate Traverses(pages: seq<Page>, rows: set<Observation>, limit: nat, c: Option<Cursor>)
    requires limit > 0
    decreases |pages|
  {
    && pages != []
    && Answers(pages[0], rows, limit, c)
    && if |pages| == 1 then pages[0].next.None?
      else pages[0].next.Some? && Traverses(pages[1..], rows, limit, pages[0].next)
  }

  function Concatenated(pages: seq<Page>): seq<Observation> {
    if pages == [] then [] else pages[0].rows + Concatenated(pages[1..])
  }

  // ---------------------------------------------------------------- completeness

  /** The rows past the cursor of a row are the rows listed after it. */
  lemma CursorSplitsList(list: seq<Observation>, k: nat)
    requires Sorted(list) && k < |list| && list[k].lastSeen != 0
    ensures Lists(list[k + 1..], Past(Rows(list), list[k].lastSeen, list[k].id))
  {
    forall j | 0 <= j < |list|
      ensures PastCursor(list[j], list[k].lastSeen, list[k].id) <==> j > k
    {
      LessIsTotal(list[j].id, list[k].id);
      if Less(list[j].id, list[k].id) { LessIsAsymmetric(list[j].id, list[k].id); }
      if j < k { BeforeIsStrict(list[j], list[k]); } else if j > k { BeforeIsStrict(list[k], list[j]); }
    }
  }

  ghost predicate Addressable(rows: set<Observation>) {
    forall o :: o in rows ==> o.lastSeen != 0 && o.id != ""
  }

  /** Where a traversal stands after the first n rows. */
  predicate CursorAt(list: seq<Observation>, n: nat, c: Option<Cursor>)
    requires n <= |list|
  {
    if c.None? then n == 0 else 0 < n && c.value == Cursor(list[n - 1].lastSeen, list[n - 1].id)
  }

  /** A page fetched after the first n rows of the list shows the rows that follow, and carries a cursor
      exactly when rows remain after it. */
  lemma PageShowsNext(page: Page, list: seq<Observation>, limit: nat, n: nat, c: Option<Cursor>)
    requires limit > 0 && Sorted(list) && Addressable(Rows(list)) && n <= |list| && CursorAt(list, n, c)
    requires Answers(page, Rows(list), limit, c)
    ensures page == PageOf(list[n..], limit)
    ensures page.next.Some? <==> n + |page.rows| < |list|
  {
    var shown :| Lists(shown, AfterCursor(Rows(list), c)) && page == PageOf(shown, limit);
    if c.Some? {
      CursorSplitsList(list, n - 1);
      ListIsUnique(shown, list[n..], AfterCursor(Rows(list), c));
    } else {
      assert list[0..] == list;
      ListIsUnique(shown, list, Rows(list));
    }
  }

  /** Every page but the last is full, and the last is not empty unless it is the only one. */
  predicate NoneWasted(pages: seq<Page>, limit: nat)
    requires pages != []
  {
    && (forall k :: 0 <= k < |pages| - 1 ==> |pages[k].rows| == limit)
    && (|pages| > 1 ==> pages[|pages| - 1].rows != [])
  }

  lemma {:induction false} TraversalFrom(pages: seq<Page>, list: seq<Observation>, limit: nat, n: nat,
                                         c: Option<Cursor>)
    requires limit > 0 && Sorted(list) && Addressable(Rows(list)) && n <= |list| && CursorAt(list, n, c)
    requires Traverses(pages, Rows(list), limit, c)
    ensures Concatenated(pages) == list[n..]
    decreases |pages|
  {
    PageShowsNext(pages[0], list, limit, n, c);
    if |pages| == 1 {
      assert Concatenated(pages[1..]) == [];
    } else {
      TraversalFrom(pages[1..], list, limit, n + limit, pages[0].next);
      assert list[n..][limit..] == list[n + limit..];
    }
  }

  lemma {:induction false} TraversalWastesNone(pages: seq<Page>, list: seq<Observation>, limit: nat, n: nat,
                                               c: Option<Cursor>)
    requires limit > 0 && Sorted(list) && Addressable(Rows(list)) && n <= |list| && CursorAt(list, n, c)
    requires Traverses(pages, Rows(list), limit, c)
    ensures NoneWasted(pages, limit)
    ensures n < |list| ==> pages[|pages| - 1].rows != []
    decreases |pages|
  {
    PageShowsNext(pages[0], list, limit, n, c);
    if |pages| == 1 {
    } else {
      TraversalWastesNone(pages[1..], list, limit, n + limit, pages[0].next);
    }
  }

  /** Keyset paging is complete: with any page size, following the cursors shows exactly the matching rows
      in order, none lost and none repeated, in as few pages as they fill. */
  lemma PagingIsComplete(pages: seq<Page>, list: seq<Observation>, rows: set<Observation>, limit: nat)
    requires limit > 0 && Lists(list, rows) && Addressable(rows) && Traverses(pages, rows, limit, None)
    ensures Concatenated(pages) == list
    ensures NoneWasted(pages, limit)
  {
    TraversalFrom(pages, list, limit, 0, None);
    TraversalWastesNone(pages, list, limit, 0, None);
    assert list[0..] == list;
  }

  /** Following the cursors never gets stuck: from any point of the list there is a traversal. */
  lemma {:induction false} TraversalExists(list: seq<Observation>, limit: nat, n: nat, c: Option<Cursor>)
    returns (pages: seq<Page>)
    requires limit > 0 && Sorted(list) && Addressable(Rows(list)) && n <= |list| && CursorAt(list, n, c)
    ensures Traverses(pages, Rows(list), limit, c)
    decreases |list| - n
  {
    var page := PageOf(list[n..], limit);
    if c.Some? {
      assert list[n - 1] in Rows(list);
      CursorSplitsList(list, n - 1);
    }
    assert list[0..] == list;
    assert Answers(page, Rows(list), limit, c) by {
      assert Lists(list[n..], AfterCursor(Rows(list), c));
    }
    if page.next.None? {
      pages := [page];
    } else {
      var rest := TraversalExists(list, limit, n + limit, page.next);
      pages := [page] + rest;
      assert pages[1..] == rest;
    }
  }
}
