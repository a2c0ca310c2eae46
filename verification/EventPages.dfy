/** The event feed: newest first, one page at a time, continued by a cursor on (ts, id). */
module EventPages {
  import opened Options

  /** Ids are compared as numbers; ZERO is the zero time, which no event carries. */
  datatype Event = Event(id: nat, cameraId: string, ts: int, typ: string, eventLabel: Option<string>, acked: bool)

  const ZERO := 0

  /** Empty strings and ZERO stand for a filter that is not set. */
  datatype ListFilter = ListFilter(cameraId: string, typ: string, eventLabel: string, from: int, to: int,
                                   unacked: bool, limit: int, cursorTs: int, cursorId: nat)

  // ---- the query ---------------------------------------------------------------------------

  /** (ts, id) row comparison. */
  predicate Less(ts: int, id: nat, ts': int, id': nat) {
    ts < ts' || (ts == ts' && id < id')
  }

  predicate Selected(e: Event, f: ListFilter) {
    && (f.cameraId != "" ==> e.cameraId == f.cameraId)
    && (f.typ != "" ==> e.typ == f.typ)
    && (f.eventLabel != "" ==> e.eventLabel == Some(f.eventLabel))
    && (f.from != ZERO ==> e.ts >= f.from)
    && (f.to != ZERO ==> e.ts <= f.to)
    && (f.unacked ==> !e.acked)
    && (f.cursorTs != ZERO ==> Less(e.ts, e.id, f.cursorTs, f.cursorId))
  }

  function Matching(table: seq<Event>, f: ListFilter): seq<Event> {
    if table == [] then []
    else (if Selected(table[0], f) then [table[0]] else []) + Matching(table[1..], f)
  }

  function Insert(e: Event, sorted: seq<Event>): seq<Event> {
    if sorted == [] || Less(sorted[0].ts, sorted[0].id, e.ts, e.id) then [e] + sorted
    else [sorted[0]] + Insert(e, sorted[1..])
  }

  function Newest(rows: seq<Event>): seq<Event> {
    if rows == [] then [] else Insert(rows[0], Newest(rows[1..]))
  }

  /** The selected rows, newest first. */
  function Query(table: seq<Event>, f: ListFilter): seq<Event> {
    Newest(Matching(table, f))
  }

  // ---- one page ----------------------------------------------------------------------------

  function Limit(limit: int): nat {
    if limit <= 0 || limit > 200 then 50 else limit
  }

  datatype Cursor = End | At(ts: int, id: nat)

  function Page(table: seq<Event>, f: ListFilter): seq<Event> {
    var all := Query(table, f);
    if |all| > Limit(f.limit) then all[..Limit(f.limit)] else all
  }

  function Next(table: seq<Event>, f: ListFilter): Cursor {
    var page := Page(table, f);
    if |Query(table, f)| > |page| && page != [] then At(page[|page| - 1].ts, page[|page| - 1].id) else End
  }

  /** Fetches one row more than the page holds, to learn whether there is a next page. */
  method List(table: seq<Event>, f: ListFilter) returns (events: seq<Event>, cursor: Cursor)
    ensures events == Page(table, f) && cursor == Next(table, f)
  {
    var limit := f.limit;
    if limit <= 0 || limit > 200 {
      limit := 50;
    }
    var all := Query(table, f);
    events := if |all| > limit + 1 then all[..limit + 1] else all;
    cursor := End;
    if |events| > limit {
      var last := events[limit - 1];
      cursor := At(last.ts, last.id);
      events := events[..limit];
    }
  }

  /** A page is the front of the query, as long as asked for, 50 rows when that is not between 1 and 200, and ends the
      feed exactly when it is all of it. */
  lemma PageIsFront(table: seq<Event>, f: ListFilter)
    ensures var all, page := Query(table, f), Page(table, f);
      var n := if 1 <= f.limit <= 200 then f.limit else 50;
      && |page| == (if |all| < n then |all| else n) && page == all[..|page|]
      && (Next(table, f).End? <==> |all| <= n)
  {
  }

  // ---- order and contents of a query -------------------------------------------------------

  /** Strictly newest first: no two rows share (ts, id). */
  ghost predicate Descending(rows: seq<Event>) {
    forall i, j :: 0 <= i < j < |rows| ==> Less(rows[j].ts, rows[j].id, rows[i].ts, rows[i].id)
  }

  /** (ts, id) identifies a row of the table, and every row has a time. */
  ghost predicate Keyed(table: seq<Event>) {
    && (forall i, j :: 0 <= i < j < |table| ==> (table[i].ts, table[i].id) != (table[j].ts, table[j].id))
    && (forall i :: 0 <= i < |table| ==> table[i].ts != ZERO)
  }

  lemma {:induction false} MatchingIs(table: seq<Event>, f: ListFilter)
    ensures forall e :: e in Matching(table, f) <==> e in table && Selected(e, f)
  {
    if table != [] {
      MatchingIs(table[1..], f);
      assert table == [table[0]] + table[1..];
    }
  }

  lemma {:induction false} MatchingKeyed(table: seq<Event>, f: ListFilter)
    requires Keyed(table)
    ensures Keyed(Matching(table, f))
  {
    if table != [] {
      MatchingKeyed(table[1..], f);
      MatchingIs(table[1..], f);
      forall e | e in Matching(table[1..], f)
        ensures (e.ts, e.id) != (table[0].ts, table[0].id)
      {
        var j :| 0 <= j < |table[1..]| && table[1..][j] == e;
        assert table[j + 1] == e;
      }
    }
  }

  lemma {:induction false} InsertKeeps(e: Event, sorted: seq<Event>)
    requires Descending(sorted)
    requires forall x :: x in sorted ==> (x.ts, x.id) != (e.ts, e.id)
    ensures Descending(Insert(e, sorted))
    ensures forall x :: x in Insert(e, sorted) <==> x == e || x in sorted
  {
    if sorted != [] && !Less(sorted[0].ts, sorted[0].id, e.ts, e.id) {
      InsertKeeps(e, sorted[1..]);
      var rest := Insert(e, sorted[1..]);
      assert sorted == [sorted[0]] + sorted[1..];
      forall x | x in rest ensures Less(x.ts, x.id, sorted[0].ts, sorted[0].id) {
        if x != e {
          var j :| 0 <= j < |sorted[1..]| && sorted[1..][j] == x;
          assert sorted[j + 1] == x;
        }
      }
    }
  }

  lemma {:induction false} NewestSorts(rows: seq<Event>)
    requires Keyed(rows)
    ensures Descending(Newest(rows))
    ensures forall x :: x in Newest(rows) <==> x in rows
  {
    if rows != [] {
      NewestSorts(rows[1..]);
      assert rows == [rows[0]] + rows[1..];
      forall x | x in Newest(rows[1..]) ensures (x.ts, x.id) != (rows[0].ts, rows[0].id) {
        var j :| 0 <= j < |rows[1..]| && rows[1..][j] == x;
        assert rows[j + 1] == x;
      }
      InsertKeeps(rows[0], Newest(rows[1..]));
    }
  }

  /** A query returns exactly the selected rows, each once, strictly newest first. */
  lemma QueryIsExact(table: seq<Event>, f: ListFilter)
    requires Keyed(table)
    ensures Descending(Query(table, f))
    ensures forall e :: e in Query(table, f) <==> e in table && Selected(e, f)
  {
    hide Keyed, Descending, Newest, Matching, Selected;
    MatchingKeyed(table, f);
    MatchingIs(table, f);
    NewestSorts(Matching(table, f));
  }

  lemma NoFewer(a: seq<Event>, b: seq<Event>)
    requires forall e :: e in a ==> e in b
    ensures a != [] ==> b != []
  {
    if a != [] {
      assert a[0] in b;
    }
  }

  lemma SameFirst(a: seq<Event>, b: seq<Event>)
    requires Descending(a) && Descending(b) && a != [] && b != []
    requires forall e :: e in a <==> e in b
    ensures a[0] == b[0]
  {
    assert a[0] in b && b[0] in a;
    var i :| 0 <= i < |b| && b[i] == a[0];
    var j :| 0 <= j < |a| && a[j] == b[0];
  }

  lemma TailMembers(a: seq<Event>)
    requires Descending(a) && a != []
    ensures Descending(a[1..])
    ensures forall e :: e in a[1..] <==> e in a && e != a[0]
  {
    assert a == [a[0]] + a[1..];
  }

  lemma {:induction false} DescendingIsUnique(a: seq<Event>, b: seq<Event>)
    requires Descending(a) && Descending(b)
    requires forall e :: e in a <==> e in b
    ensures a == b
    decreases |a|
  {
    NoFewer(a, b);
    NoFewer(b, a);
    if a != [] && b != [] {
      SameFirst(a, b);
      TailMembers(a);
      TailMembers(b);
      DescendingIsUnique(a[1..], b[1..]);
      assert a == [a[0]] + a[1..] && b == [b[0]] + b[1..];
    }
  }

  // ---- following cursors -------------------------------------------------------------------

  /** The filter of the next page, with a limit of its own. */
  function Continue(f: ListFilter, c: Cursor, limit: int): ListFilter
    requires c.At?
  {
    f.(cursorTs := c.ts, cursorId := c.id, limit := limit)
  }

  lemma {:induction false} SuffixIsBelow(rows: seq<Event>, n: nat, e: Event)
    requires Descending(rows) && 0 < n <= |rows|
    ensures e in rows[n..] <==> e in rows && Less(e.ts, e.id, rows[n - 1].ts, rows[n - 1].id)
  {
    if e in rows && Less(e.ts, e.id, rows[n - 1].ts, rows[n - 1].id) {
      var i :| 0 <= i < |rows| && rows[i] == e;
      assert i >= n;
      assert rows[n..][i - n] == e;
    }
  }

  /** Behind the cursor of a selected row, the rows selected are those selected before and older. */
  lemma CursorNarrows(e: Event, last: Event, f: ListFilter, limit: int)
    requires Selected(last, f) && last.ts != ZERO
    ensures Selected(e, Continue(f, At(last.ts, last.id), limit)) <==>
      Selected(e, f) && Less(e.ts, e.id, last.ts, last.id)
  {
  }

  /** The next page starts where this one ended: the query behind the cursor is the rest of this one. */
  lemma NextQueryIsTheRest(table: seq<Event>, f: ListFilter, limit: int)
    requires Keyed(table) && Next(table, f).At?
    ensures Query(table, Continue(f, Next(table, f), limit)) == Query(table, f)[|Page(table, f)|..]
    ensures 0 < |Page(table, f)| < |Query(table, f)|
    ensures Page(table, f) == Query(table, f)[..|Page(table, f)|]
  {
    var all, n := Query(table, f), |Page(table, f)|;
    var g := Continue(f, Next(table, f), limit);
    QueryIsExact(table, f);
    QueryIsExact(table, g);
    hide Query;
    var last := all[n - 1];
    assert last in all;
    forall e ensures e in Query(table, g) <==> e in all[n..] {
      SuffixIsBelow(all, n, e);
      CursorNarrows(e, last, f, limit);
    }
    assert Descending(all[n..]);
    DescendingIsUnique(Query(table, g), all[n..]);
  }

  /** All pages from f on, page k asking for limits(k) rows. */
  function Follow(table: seq<Event>, f: ListFilter, limits: nat -> int, k: nat): seq<seq<Event>>
    requires Keyed(table)
    decreases |Query(table, f)|
  {
    var next := Next(table, f);
    if next.End? then [Page(table, f)]
    else
      NextQueryIsTheRest(table, f, limits(k + 1));
      [Page(table, f)] + Follow(table, Continue(f, next, limits(k + 1)), limits, k + 1)
  }

  function Flatten(pages: seq<seq<Event>>): seq<Event> {
    if pages == [] then [] else pages[0] + Flatten(pages[1..])
  }

  lemma Joined(page: seq<Event>, rest: seq<seq<Event>>)
    ensures Flatten([page] + rest) == page + Flatten(rest)
  {
    assert ([page] + rest)[1..] == rest;
  }

  /** Following the cursors ends, whatever limits are asked for, and the pages put together are the
      whole query: every selected event exactly once, newest first. */
  lemma {:induction false} PagesAreTheQuery(table: seq<Event>, f: ListFilter, limits: nat -> int, k: nat)
    requires Keyed(table)
    ensures var rows := Flatten(Follow(table, f, limits, k));
      && rows == Query(table, f) && Descending(rows)
      && forall e :: e in rows <==> e in table && Selected(e, f)
    decreases |Query(table, f)|
  {
    QueryIsExact(table, f);
    var next, page := Next(table, f), Page(table, f);
    if next.End? {
      assert Flatten([page]) == page + [];
    } else {
      NextQueryIsTheRest(table, f, limits(k + 1));
      var g := Continue(f, next, limits(k + 1));
      PagesAreTheQuery(table, g, limits, k + 1);
      Joined(page, Follow(table, g, limits, k + 1));
    }
  }
}
