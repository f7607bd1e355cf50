/** Keyset pagination of the library catalogue: following cursors is sorting and slicing. */
module LibraryPage {
  import opened Common
  import opened Ordering
  import Base64Text

  /** A catalogue row, one for each item and category.  `sortValue` is the value of the sort expression. */
  datatype Row = Row(
    mediaItemId: int, title: string, category: string, fileCount: nat, firstPath: string,
    tmdbId: Option<string>, sortValue: string)

  datatype SortKey = ByTitle | ByCategory | ByRelativePath
  datatype Direction = Asc | Desc

  datatype Cursor = Cursor(
    sortKey: SortKey, direction: Direction, sortValue: string, mediaItemId: int, category: string, scope: string)

  /** `scope` is the digest of the category and query filters. */
  datatype Options = Options(limit: nat, sortKey: SortKey, direction: Direction, scope: string)

  /** Primary order by the sort value in the chosen direction, then by item and category, ascending. */
  predicate Before(d: Direction, a: Row, b: Row) {
    After(d, a.sortValue, a.mediaItemId, a.category, b)
  }

  /** The condition that a cursor adds to the query. */
  predicate After(d: Direction, sortValue: string, mediaItemId: int, category: string, row: Row) {
    || (if d.Desc? then StringLess(row.sortValue, sortValue) else StringLess(sortValue, row.sortValue))
    || (row.sortValue == sortValue
        && (row.mediaItemId > mediaItemId || (row.mediaItemId == mediaItemId && StringLess(category, row.category))))
  }

  ghost predicate SameKey(a: Row, b: Row) {
    a.sortValue == b.sortValue && a.mediaItemId == b.mediaItemId && a.category == b.category
  }

  lemma BeforeIsTotal(d: Direction, a: Row, b: Row)
    ensures Before(d, a, b) || Before(d, b, a) || SameKey(a, b)
    ensures !(Before(d, a, b) && Before(d, b, a)) && !(Before(d, a, b) && SameKey(a, b))
  {
    StringLessTotal(a.sortValue, b.sortValue);
    StringLessTotal(a.category, b.category);
  }

  lemma BeforeIsTransitive(d: Direction, a: Row, b: Row, c: Row)
    requires Before(d, a, b) && Before(d, b, c)
    ensures Before(d, a, c)
  {
    if StringLess(a.sortValue, b.sortValue) && StringLess(b.sortValue, c.sortValue) {
      StringLessTransitive(a.sortValue, b.sortValue, c.sortValue);
    }
    if StringLess(c.sortValue, b.sortValue) && StringLess(b.sortValue, a.sortValue) {
      StringLessTransitive(c.sortValue, b.sortValue, a.sortValue);
    }
    if StringLess(a.category, b.category) && StringLess(b.category, c.category) {
      StringLessTransitive(a.category, b.category, c.category);
    }
  }

  // ---------- ORDER BY ----------

  function Insert(d: Direction, row: Row, sorted: seq<Row>): (r: seq<Row>)
    ensures forall x :: x in r <==> x == row || x in sorted
  {
    if sorted == [] || Before(d, row, sorted[0]) then [row] + sorted
    else [sorted[0]] + Insert(d, row, sorted[1..])
  }

  function Sort(d: Direction, rows: seq<Row>): (r: seq<Row>)
    ensures forall x :: x in r <==> x in rows
  {
    if rows == [] then [] else Insert(d, rows[0], Sort(d, rows[1..]))
  }

  /** No two rows of a grouped catalogue share item and category. */
  ghost predicate DistinctKeys(rows: seq<Row>) {
    rows != [] ==> (forall r :: r in rows[1..] ==> !SameKey(rows[0], r)) && DistinctKeys(rows[1..])
  }

  ghost predicate Sorted(d: Direction, rows: seq<Row>) {
    rows != [] ==> (forall r :: r in rows[1..] ==> Before(d, rows[0], r)) && Sorted(d, rows[1..])
  }

  lemma {:induction false} InsertSorts(d: Direction, row: Row, sorted: seq<Row>)
    requires Sorted(d, sorted) && forall r :: r in sorted ==> !SameKey(row, r)
    ensures Sorted(d, Insert(d, row, sorted))
  {
    if sorted == [] {
      assert [row][1..] == [];
    } else if Before(d, row, sorted[0]) {
      forall r | r in sorted ensures Before(d, row, r) {
        if r != sorted[0] {
          BeforeIsTransitive(d, row, sorted[0], r);
        }
      }
      assert ([row] + sorted)[1..] == sorted;
    } else {
      InsertSorts(d, row, sorted[1..]);
      BeforeIsTotal(d, row, sorted[0]);
      var rest := Insert(d, row, sorted[1..]);
      assert ([sorted[0]] + rest)[1..] == rest;
    }
  }

  lemma {:induction false} SortSorts(d: Direction, rows: seq<Row>)
    requires DistinctKeys(rows)
    ensures Sorted(d, Sort(d, rows))
  {
    if rows != [] {
      SortSorts(d, rows[1..]);
      InsertSorts(d, rows[0], Sort(d, rows[1..]));
    }
  }

  /** WHERE before ORDER BY selects what it would select after. */
  lemma {:induction false} FilterInsert(d: Direction, p: Row -> bool, row: Row, sorted: seq<Row>)
    requires Sorted(d, sorted)
    ensures Filter(p, Insert(d, row, sorted)) == if p(row) then Insert(d, row, Filter(p, sorted)) else Filter(p, sorted)
  {
    if sorted == [] {
      assert [row][1..] == [];
    } else if Before(d, row, sorted[0]) {
      assert ([row] + sorted)[1..] == sorted;
      var kept := Filter(p, sorted);
      if kept != [] && kept[0] != sorted[0] {
        assert kept[0] in sorted;
        BeforeIsTransitive(d, row, sorted[0], kept[0]);
      }
    } else {
      FilterInsert(d, p, row, sorted[1..]);
      var rest := Insert(d, row, sorted[1..]);
      assert ([sorted[0]] + rest)[1..] == rest;
      if p(sorted[0]) {
        var kept := Filter(p, sorted[1..]);
        assert ([sorted[0]] + kept)[1..] == kept;
      }
    }
  }

  lemma {:induction false} FilterSort(d: Direction, p: Row -> bool, rows: seq<Row>)
    requires DistinctKeys(rows)
    ensures Sort(d, Filter(p, rows)) == Filter(p, Sort(d, rows))
  {
    if rows != [] {
      FilterSort(d, p, rows[1..]);
      SortSorts(d, rows[1..]);
      FilterInsert(d, p, rows[0], Sort(d, rows[1..]));
      if p(rows[0]) {
        assert ([rows[0]] + Filter(p, rows[1..]))[1..] == Filter(p, rows[1..]);
      }
    }
  }

  // ---------- One page ----------

  function AfterCursor(o: Options, c: Cursor): Row -> bool {
    (row: Row) => After(o.direction, c.sortValue, c.mediaItemId, c.category, row)
  }

  function Selected(rows: seq<Row>, o: Options, cursor: Option<Cursor>): seq<Row> {
    if cursor.None? then rows else Filter(AfterCursor(o, cursor.value), rows)
  }

  function Take<T>(s: seq<T>, n: nat): seq<T> {
    if n <= |s| then s[..n] else s
  }

  function CursorOf(row: Row, o: Options): Cursor {
    Cursor(o.sortKey, o.direction, row.sortValue, row.mediaItemId, row.category, o.scope)
  }

  /** The rows of the page, and the cursor of its last row when one more row was fetched. */
  function Page(rows: seq<Row>, o: Options, cursor: Option<Cursor>): (seq<Row>, Option<Cursor>) {
    var fetched := Take(Sort(o.direction, Selected(rows, o, cursor)), o.limit + 1);
    var shown := Take(fetched, o.limit);
    (shown, if |fetched| <= o.limit || shown == [] then None else Some(CursorOf(Last(shown), o)))
  }

  datatype Entry = Entry(
    mediaItemId: int, title: string, category: string, relativePrefix: string, fileCount: nat, tmdbId: Option<string>)

  /** The entry of a row, or none when its path is too short to have a prefix. */
  function EntryOf(row: Row, prefixOf: string -> Option<string>): Option<Entry> {
    var prefix := prefixOf(row.firstPath);
    if prefix.None? then None
    else Some(Entry(row.mediaItemId, row.title, row.category, prefix.value, row.fileCount, row.tmdbId))
  }

  function Entries(rows: seq<Row>, prefixOf: string -> Option<string>): seq<Entry> {
    if rows == [] then []
    else Entries(Front(rows), prefixOf)
         + (if EntryOf(Last(rows), prefixOf).Some? then [EntryOf(Last(rows), prefixOf).value] else [])
  }

  method LibraryPageEntries(fetched: seq<Row>, o: Options, prefixOf: string -> Option<string>)
    returns (entries: seq<Entry>, next: Option<Cursor>)
    ensures entries == Entries(Take(fetched, o.limit), prefixOf)
    ensures next == if |fetched| <= o.limit || o.limit == 0 then None else Some(CursorOf(fetched[o.limit - 1], o))
  {
    var shown := Take(fetched, o.limit);
    entries := [];
    for i := 0 to |shown|
      invariant entries == Entries(shown[..i], prefixOf)
    {
      var entry := EntryOf(shown[i], prefixOf);
      assert Front(shown[..i + 1]) == shown[..i];
      if entry.None? {
        continue;
      }
      entries := entries + [entry.value];
    }
    assert shown[..|shown|] == shown;
    if |fetched| <= o.limit || shown == [] {
      return entries, None;
    }
    return entries, Some(CursorOf(Last(shown), o));
  }

  // ---------- Following cursors ----------

  /** The rows after row `i` of a sorted catalogue are those from `i + 1` on. */
  lemma {:induction false} AfterIsSuffix(o: Options, sorted: seq<Row>, i: nat)
    requires Sorted(o.direction, sorted) && i < |sorted|
    ensures Filter(AfterCursor(o, CursorOf(sorted[i], o)), sorted) == sorted[i + 1..]
    decreases |sorted|
  {
    var p := AfterCursor(o, CursorOf(sorted[i], o));
    if i == 0 {
      BeforeIsTotal(o.direction, sorted[0], sorted[0]);
      FilterAll(p, sorted[1..]);
    } else {
      AfterIsSuffix(o, sorted[1..], i - 1);
      assert sorted[1..][i - 1] == sorted[i];
      BeforeIsTotal(o.direction, sorted[0], sorted[i]);
    }
  }

  /** The query with a cursor for row `i - 1` selects the rows from `i` on, in order. */
  lemma SelectedIsSuffix(rows: seq<Row>, o: Options, i: nat, cursor: Option<Cursor>)
    requires DistinctKeys(rows) && i <= |Sort(o.direction, rows)|
    requires cursor == if i == 0 then None else Some(CursorOf(Sort(o.direction, rows)[i - 1], o))
    ensures Sort(o.direction, Selected(rows, o, cursor)) == Sort(o.direction, rows)[i..]
  {
    hide Sort, Sorted, DistinctKeys, Filter, CursorOf, AfterCursor;
    var all := Sort(o.direction, rows);
    SortSorts(o.direction, rows);
    if i > 0 {
      FilterSort(o.direction, AfterCursor(o, cursor.value), rows);
      AfterIsSuffix(o, all, i - 1);
    } else {
      assert all[0..] == all;
    }
  }

  /** The page that a cursor for row `i - 1` leads to starts at row `i`, and its cursor, if any, is for its last row. */
  lemma PageIsSlice(rows: seq<Row>, o: Options, i: nat, cursor: Option<Cursor>)
    requires DistinctKeys(rows) && o.limit > 0
    requires i <= |Sort(o.direction, rows)|
    requires cursor == if i == 0 then None else Some(CursorOf(Sort(o.direction, rows)[i - 1], o))
    ensures var all, (shown, next) := Sort(o.direction, rows), Page(rows, o, cursor);
            var end := if i + o.limit < |all| then i + o.limit else |all|;
            && shown == all[i..end]
            && next == if end < |all| then Some(CursorOf(all[end - 1], o)) else None
  {
    hide Sort, Selected, DistinctKeys, Take, CursorOf;
    SelectedIsSuffix(rows, o, i, cursor);
    SliceOfSlice(Sort(o.direction, rows), i, o.limit);
  }

  lemma SliceOfSlice<T>(all: seq<T>, i: nat, limit: nat)
    requires i <= |all| && limit > 0
    ensures var fetched := Take(all[i..], limit + 1);
            var end := if i + limit < |all| then i + limit else |all|;
            && Take(fetched, limit) == all[i..end]
            && (|fetched| > limit <==> end < |all|)
            && (end < |all| ==> Take(fetched, limit) != [] && Last(Take(fetched, limit)) == all[end - 1])
  {
  }

  /** All rows that a reader sees who starts at a cursor and follows every next one. */
  ghost function Followed(rows: seq<Row>, o: Options, i: nat, cursor: Option<Cursor>): seq<Row>
    requires DistinctKeys(rows) && o.limit > 0
    requires i <= |Sort(o.direction, rows)|
    requires cursor == if i == 0 then None else Some(CursorOf(Sort(o.direction, rows)[i - 1], o))
    decreases |Sort(o.direction, rows)| - i
  {
    var (shown, next) := Page(rows, o, cursor);
    PageIsSlice(rows, o, i, cursor);
    if next.None? then shown else shown + Followed(rows, o, i + |shown|, next)
  }

  lemma {:induction false} FollowedFrom(rows: seq<Row>, o: Options, i: nat, cursor: Option<Cursor>)
    requires DistinctKeys(rows) && o.limit > 0
    requires i <= |Sort(o.direction, rows)|
    requires cursor == if i == 0 then None else Some(CursorOf(Sort(o.direction, rows)[i - 1], o))
    ensures Followed(rows, o, i, cursor) == Sort(o.direction, rows)[i..]
    decreases |Sort(o.direction, rows)| - i
  {
    hide Sort, Page, DistinctKeys, CursorOf;
    var all := Sort(o.direction, rows);
    var (shown, next) := Page(rows, o, cursor);
    PageIsSlice(rows, o, i, cursor);
    if next.Some? {
      FollowedFrom(rows, o, i + |shown|, next);
      assert all[i..i + |shown|] + all[i + |shown|..] == all[i..];
    }
  }

  /** Following cursors from the first page over a fixed catalogue visits exactly the catalogue in
      its order, each row once, for every page size, sort key and direction. */
  lemma FollowingVisitsAll(rows: seq<Row>, o: Options)
    requires DistinctKeys(rows) && o.limit > 0
    ensures Followed(rows, o, 0, None) == Sort(o.direction, rows)
    ensures Sorted(o.direction, Sort(o.direction, rows))
    ensures forall r :: r in Followed(rows, o, 0, None) <==> r in rows
  {
    FollowedFrom(rows, o, 0, None);
    SortSorts(o.direction, rows);
    assert Sort(o.direction, rows)[0..] == Sort(o.direction, rows);
  }

  /** On the columns: the sort values rise or fall as asked, and where they are equal the item ids rise, and where those
      are, too, the categories. */
  ghost predicate InOrder(d: Direction, a: Row, b: Row) {
    && (d == Asc ==> StringLess(a.sortValue, b.sortValue) || a.sortValue == b.sortValue)
    && (d == Desc ==> StringLess(b.sortValue, a.sortValue) || a.sortValue == b.sortValue)
    && (a.sortValue == b.sortValue ==> a.mediaItemId <= b.mediaItemId)
    && (a.sortValue == b.sortValue && a.mediaItemId == b.mediaItemId ==> StringLess(a.category, b.category))
  }

  lemma {:induction false} SortedPair(d: Direction, sorted: seq<Row>, i: nat, j: nat)
    requires Sorted(d, sorted) && i < j < |sorted|
    ensures InOrder(d, sorted[i], sorted[j])
  {
    if i == 0 {
      assert sorted[j] in sorted[1..];
      StringLessTotal(sorted[i].sortValue, sorted[j].sortValue);
    } else {
      SortedPair(d, sorted[1..], i - 1, j - 1);
    }
  }

  /** Whoever follows the cursors sees the rows in the order asked for. */
  lemma FollowingIsInOrder(rows: seq<Row>, o: Options, i: nat, j: nat)
    requires DistinctKeys(rows) && o.limit > 0 && i < j < |Followed(rows, o, 0, None)|
    ensures InOrder(o.direction, Followed(rows, o, 0, None)[i], Followed(rows, o, 0, None)[j])
  {
    FollowingVisitsAll(rows, o);
    hide Sort, Sorted, Followed, DistinctKeys, InOrder;
    SortedPair(o.direction, Sort(o.direction, rows), i, j);
  }

  lemma {:induction false} EntriesConcat(a: seq<Row>, b: seq<Row>, prefixOf: string -> Option<string>)
    ensures Entries(a + b, prefixOf) == Entries(a, prefixOf) + Entries(b, prefixOf)
  {
    if b == [] {
      assert a + b == a;
    } else {
      EntriesConcat(a, Front(b), prefixOf);
      assert Front(a + b) == a + Front(b);
    }
  }

  /** Each row has one entry at its place, with its columns and the prefix of its first path, or none if that has no prefix. */
  lemma RowIsShown(before: seq<Row>, row: Row, behind: seq<Row>, prefixOf: string -> Option<string>)
    returns (e: Option<Entry>)
    ensures Entries(before + [row] + behind, prefixOf) ==
            Entries(before, prefixOf) + (if e.Some? then [e.value] else []) + Entries(behind, prefixOf)
    ensures e.None? <==> prefixOf(row.firstPath).None?
    ensures e.Some? ==>
              && e.value.mediaItemId == row.mediaItemId && e.value.title == row.title && e.value.category == row.category
              && prefixOf(row.firstPath) == Some(e.value.relativePrefix)
              && e.value.fileCount == row.fileCount && e.value.tmdbId == row.tmdbId
  {
    e := EntryOf(row, prefixOf);
    EntriesConcat(before + [row], behind, prefixOf);
    EntriesConcat(before, [row], prefixOf);
    assert Front([row]) == [];
  }

  /** The entries shown on the page at a cursor and on all that follow it. */
  ghost function FollowedEntries(
    rows: seq<Row>, o: Options, i: nat, cursor: Option<Cursor>, prefixOf: string -> Option<string>): seq<Entry>
    requires DistinctKeys(rows) && o.limit > 0
    requires i <= |Sort(o.direction, rows)|
    requires cursor == if i == 0 then None else Some(CursorOf(Sort(o.direction, rows)[i - 1], o))
    decreases |Sort(o.direction, rows)| - i
  {
    var (shown, next) := Page(rows, o, cursor);
    PageIsSlice(rows, o, i, cursor);
    if next.None? then Entries(shown, prefixOf)
    else Entries(shown, prefixOf) + FollowedEntries(rows, o, i + |shown|, next, prefixOf)
  }

  /** What the pages show one after the other is what the whole catalogue would show at once. */
  lemma {:induction false} FollowingShowsAll(
    rows: seq<Row>, o: Options, i: nat, cursor: Option<Cursor>, prefixOf: string -> Option<string>)
    requires DistinctKeys(rows) && o.limit > 0
    requires i <= |Sort(o.direction, rows)|
    requires cursor == if i == 0 then None else Some(CursorOf(Sort(o.direction, rows)[i - 1], o))
    ensures FollowedEntries(rows, o, i, cursor, prefixOf) == Entries(Sort(o.direction, rows)[i..], prefixOf)
    decreases |Sort(o.direction, rows)| - i
  {
    hide Sort, Page, DistinctKeys, CursorOf, Entries;
    var all := Sort(o.direction, rows);
    var (shown, next) := Page(rows, o, cursor);
    PageIsSlice(rows, o, i, cursor);
    if next.Some? {
      FollowingShowsAll(rows, o, i + |shown|, next, prefixOf);
      assert all[i..] == shown + all[i + |shown|..];
      EntriesConcat(shown, all[i + |shown|..], prefixOf);
    } else {
      assert shown == all[i..];
    }
  }

  // ---------- The text of a cursor ----------

  const LIBRARY_CATEGORIES := ["movies", "shows", "anime"]

  /** What the payload of a cursor says once it is read back; the fields are checked one by one. */
  datatype Payload = Payload(version: int, cursor: Cursor)

  /** JSON is an injective map to bytes here, read back by its inverse. */
  datatype Json = Json(dumps: Payload -> seq<Base64Text.Byte>, loads: seq<Base64Text.Byte> -> Option<Payload>) {
    ghost predicate Valid() {
      forall p :: loads(dumps(p)) == Some(p)
    }
  }

  function EncodeCursor(c: Cursor, json: Json): string {
    Base64Text.EncodeUnpadded(json.dumps(Payload(1, c)))
  }

  predicate CursorFits(p: Payload, o: Options) {
    && p.version == 1 && p.cursor.mediaItemId >= 1 && p.cursor.category in LIBRARY_CATEGORIES
    && p.cursor.scope == o.scope && p.cursor.sortKey == o.sortKey && p.cursor.direction == o.direction
  }

  function DecodeCursor(text: string, o: Options, json: Json): Option<Cursor> {
    var bytes := Base64Text.DecodeUnpadded(text);
    if bytes.None? then None
    else
      var payload := json.loads(bytes.value);
      if payload.Some? && CursorFits(payload.value, o) then Some(payload.value.cursor) else None
  }

  /** A cursor taken from a page is read back unchanged under the same filters and sort, and refused
      under any other. */
  lemma CursorRoundTrip(row: Row, made: Options, o: Options, json: Json)
    requires json.Valid() && row.mediaItemId >= 1 && row.category in LIBRARY_CATEGORIES
    ensures DecodeCursor(EncodeCursor(CursorOf(row, made), json), o, json) ==
            if made.scope == o.scope && made.sortKey == o.sortKey && made.direction == o.direction
            then Some(CursorOf(row, made)) else None
  {
    var payload := Payload(1, CursorOf(row, made));
    Base64Text.UnpaddedRoundTrip(json.dumps(payload));
    assert json.loads(json.dumps(payload)) == Some(payload);
  }

  /** Only a cursor of this version, for an item and a category that there can be, and for these filters and this sort, is
      read at all. */
  lemma ReadCursorFits(text: string, o: Options, json: Json)
    ensures var c := DecodeCursor(text, o, json);
            c.Some? ==>
              && c.value.mediaItemId >= 1 && c.value.category in {"movies", "shows", "anime"}
              && c.value.scope == o.scope && c.value.sortKey == o.sortKey && c.value.direction == o.direction
              && exists bytes :: Base64Text.DecodeUnpadded(text) == Some(bytes) && json.loads(bytes) == Some(Payload(1, c.value))
  {
    var bytes := Base64Text.DecodeUnpadded(text);
    if DecodeCursor(text, o, json).Some? {
      assert json.loads(bytes.value).Some?;
    }
  }
}
