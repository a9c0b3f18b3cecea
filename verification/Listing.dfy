/**
 * The S3 listing loops: batches of rows fetched past a cursor, folders skipped
 * by their upper bound, resumable at the marker each page returns.
 */
module Listing {
  import opened Options
  import opened KeyOrder
  import opened ListingSpec
  import opened ListingSteps

  /** Where the next query starts: after a key, after one version of a key, or
      at a key. */
  datatype Cursor = Cursor(key: string, version: string, inclusive: bool)

  /** What the loops carry from batch to batch. */
  datatype Progress = Progress(
    rows: seq<nat>,
    folders: seq<string>,
    seen: set<string>,
    lastMarker: nat,
    cursor: Cursor)

  datatype Stop = Continue | Truncated | Exhausted

  /** The progress holds exactly these items, at most `max` of them. */
  ghost predicate Holds(items: seq<Item>, max: nat, p: Progress) {
    && |items| <= max
    && p.rows == RowsOf(items) && p.folders == FoldersOf(items)
    && p.seen == (set c | c in p.folders)
  }

  /** The rows before `pos` have been listed, and row `lastMarker` is one after
      which the listing can resume. */
  ghost predicate Listed(v: View, after: string, lo: nat, max: nat, pos: nat, p: Progress) {
    && lo <= pos <= |v.keys|
    && Holds(v.Items(after, lo, pos), max, p)
    && (lo < pos ==> lo <= p.lastMarker < pos && v.Items(after, p.lastMarker + 1, pos) == [])
  }

  /** At the last row the progress is the whole listing. */
  lemma ListedAtEnd(v: View, after: string, lo: nat, max: nat, p: Progress)
    requires Listed(v, after, lo, max, |v.keys|, p)
    ensures IsPage(v, after, lo, max, Page(p.rows, p.folders, false, p.lastMarker))
  {
  }

  /** A full page before a row with something to list is a truncated page. */
  lemma ListedAndFull(v: View, after: string, lo: nat, max: nat, pos: nat, p: Progress)
    requires 0 < max && Listed(v, after, lo, max, pos, p) && pos < |v.keys|
    requires |v.Items(after, lo, pos)| == max && v.ItemAt(after, pos) != []
    ensures IsPage(v, after, lo, max, Page(p.rows, p.folders, true, p.lastMarker))
  {
    hide RowsOf, FoldersOf, View.ItemAt, View.Items;
    NoItems(v, after, lo);
    ItemsSplit(v, after, lo, p.lastMarker + 1, pos);
    assert IsMarker(v, after, lo, p.lastMarker, max);
    MoreThanFull(v, after, lo, pos);
  }

  lemma NoItems(v: View, after: string, lo: nat)
    requires lo <= |v.keys|
    ensures v.Items(after, lo, lo) == []
  {
  }

  lemma MoreThanFull(v: View, after: string, lo: nat, pos: nat)
    requires lo <= pos < |v.keys| && v.ItemAt(after, pos) != []
    ensures var n := |v.Items(after, lo, pos)|;
            |v.Listing(after, lo)| > n && v.Listing(after, lo)[..n] == v.Items(after, lo, pos)
  {
    ItemsSplit(v, after, lo, pos + 1, |v.keys|);
    assert v.Items(after, lo, pos + 1) == v.Items(after, lo, pos) + v.ItemAt(after, pos);
  }

  /** List one row outside folders and move the cursor past it. */
  method ListRow(v: View, after: string, ghost lo: nat, max: nat, pos: nat, cursor: Cursor, p: Progress)
      returns (p': Progress)
    requires Listed(v, after, lo, max, pos, p) && pos < |v.keys| && v.Group(pos).None?
    requires |p.rows| + |p.folders| < max
    ensures Scanned(v, lo, pos + 1) && Listed(v, after, lo, max, pos + 1, p') && p'.cursor == cursor
  {
    AddItem(v.Items(after, lo, pos), Row(pos));
    ItemCounts(v.Items(after, lo, pos), "");
    p' := p.(rows := p.rows + [pos], lastMarker := pos, cursor := cursor);
  }

  /** Nothing is listed where a scan starts. */
  lemma NothingListed(v: View, after: string, lo: nat, max: nat, cursor: Cursor)
    requires lo <= |v.keys|
    ensures Listed(v, after, lo, max, lo, Progress([], [], {}, 0, cursor))
  {
  }

  /** What is listed does not depend on the cursor. */
  lemma AnyCursor(v: View, after: string, lo: nat, max: nat, pos: nat, p: Progress, cursor: Cursor)
    requires Listed(v, after, lo, max, pos, p)
    ensures Listed(v, after, lo, max, pos, p.(cursor := cursor))
  {
  }

  lemma MakeListed(v: View, after: string, lo: nat, max: nat, pos: nat, p: Progress)
    requires lo < pos <= |v.keys| && Holds(v.Items(after, lo, pos), max, p)
    requires lo <= p.lastMarker < pos && v.Items(after, p.lastMarker + 1, pos) == []
    ensures Listed(v, after, lo, max, pos, p)
  {
  }

  lemma SeenGrows(folders: seq<string>, c: string)
    ensures (set x | x in folders + [c]) == (set x | x in folders) + {c}
  {
  }

  /** A folder is added to the progress as it is to the items. */
  lemma FolderHeld(items: seq<Item>, max: nat, c: string, p: Progress, p': Progress)
    requires Holds(items, max, p) && |items| < max
    requires p'.rows == p.rows && p'.folders == p.folders + [c] && p'.seen == p.seen + {c}
    ensures Holds(items + [Folder(c)], max, p')
  {
    AddItem(items, Folder(c));
    SeenGrows(p.folders, c);
  }

  lemma SameHeld(items: seq<Item>, max: nat, p: Progress, p': Progress)
    requires Holds(items, max, p) && p'.rows == p.rows && p'.folders == p.folders && p'.seen == p.seen
    ensures Holds(items, max, p')
  {
  }

  /** Passing the folder at `pos` keeps the progress good. */
  lemma FolderIsGood(v: View, after: string, lo: nat, max: nat, pos: nat, c: string, p: Progress, p': Progress)
    requires v.Valid() && StartsAfter(v, after, lo) && Scanned(v, lo, pos) && Listed(v, after, lo, max, pos, p)
    requires pos < |v.keys| && v.Group(pos) == Some(c)
    requires AtMost(c, after) ==> p' == p.(lastMarker := pos)
    requires !AtMost(c, after) ==> |v.Items(after, lo, pos)| < max
    requires !AtMost(c, after) ==> p' == p.(seen := p.seen + {c}, folders := p.folders + [c], lastMarker := pos)
    ensures Scanned(v, lo, FolderEnd(v, pos)) && Listed(v, after, lo, max, FolderEnd(v, pos), p')
  {
    hide AtMost, StartsAfter, Holds, View.Items, View.Valid;
    FolderStep(v, after, lo, pos, c);
    var items, end := v.Items(after, lo, pos), FolderEnd(v, pos);
    if AtMost(c, after) {
      assert items + [] == items;
      SameHeld(items, max, p, p');
    } else {
      FolderHeld(items, max, c, p, p');
    }
    MakeListed(v, after, lo, max, end, p');
  }

  /** List the folder at `pos`, or pass over one that is not above the marker;
      stop when it is new and the page is full. */
  method ListFolder(v: View, after: string, ghost lo: nat, max: nat, pos: nat, c: string, p: Progress)
    returns (p': Progress, full: bool)
    requires v.Valid() && StartsAfter(v, after, lo) && Scanned(v, lo, pos) && Listed(v, after, lo, max, pos, p)
    requires pos < |v.keys| && v.Group(pos) == Some(c)
    ensures full <==> |v.Items(after, lo, pos)| == max && v.ItemAt(after, pos) != []
    ensures full ==> p' == p
    ensures !full ==> Scanned(v, lo, FolderEnd(v, pos)) && Listed(v, after, lo, max, FolderEnd(v, pos), p')
    ensures !full ==> p'.cursor == p.cursor
  {
    FolderIsNew(v, after, lo, pos, c);
    FolderItem(v, after, lo, pos, c);
    ItemCounts(v.Items(after, lo, pos), c);
    NotLess(after, c);
    SameFolder(v, pos, pos, c);
    full := false;
    p' := p;
    if c !in p.seen && (after == "" || Less(after, c)) {
      if |p.rows| + |p.folders| >= max { return p, true; }
      p' := p'.(seen := p.seen + {c}, folders := p.folders + [c]);
    }
    p' := p'.(lastMarker := pos);
    FolderIsGood(v, after, lo, max, pos, c, p, p');
  }

  // ------------------------------------------------------------------ queries

  /** The row of one version of a key. */
  function FindRow(keys: seq<string>, versions: seq<string>, key: string, version: string): (r: Option<nat>)
    requires |versions| == |keys|
    ensures r.Some? ==> r.value < |keys| && keys[r.value] == key && versions[r.value] == version
    ensures r.None? ==> forall i :: 0 <= i < |keys| ==> keys[i] != key || versions[i] != version
  {
    if |keys| == 0 then None
    else if keys[|keys| - 1] == key && versions[|keys| - 1] == version then Some(|keys| - 1)
    else FindRow(keys[..|keys| - 1], versions[..|keys| - 1], key, version)
  }

  /** Where a query for rows past the cursor starts. A version that is gone
      leaves only its key as the boundary. */
  function QueryStart(keys: seq<string>, versions: seq<string>, c: Cursor): (lo: nat)
    requires |versions| == |keys|
    ensures lo <= |keys|
  {
    if c.key == "" || c.version == "" || c.inclusive then FirstRow(keys, c.key, c.inclusive)
    else match FindRow(keys, versions, c.key, c.version)
         case Some(i) => i + 1
         case None => FirstRow(keys, c.key, false)
  }

  /** Rows that share a key are distinct versions; a listing of current objects
      has no versions, so its keys are distinct. */
  ghost predicate Distinct(keys: seq<string>, versions: seq<string>) {
    && |versions| == |keys|
    && forall i, j :: 0 <= i < j < |keys| && keys[i] == keys[j]
           ==> versions[i] != versions[j] && versions[i] != "" && versions[j] != ""
  }

  lemma CursorAtRow(v: View, versions: seq<string>, i: nat)
    requires v.Valid() && Distinct(v.keys, versions) && i < |v.keys|
    ensures QueryStart(v.keys, versions, Cursor(v.keys[i], versions[i], false)) == i + 1
  {
    if versions[i] == "" {
      var lo := FirstRow(v.keys, v.keys[i], false);
      forall k | 0 <= k <= i ensures !Past(v.keys[k], v.keys[i], false) { NotLess(v.keys[i], v.keys[k]); }
      if i + 1 < |v.keys| { assert Past(v.keys[i + 1], v.keys[i], false); }
    }
  }

  lemma QueryStartsAfter(v: View, versions: seq<string>, key: string, version: string)
    requires v.Valid() && |versions| == |v.keys|
    ensures StartsAfter(v, key, QueryStart(v.keys, versions, Cursor(key, version, false)))
  {
    StartIsAfter(v, key);
  }

  // -------------------------------------------------------------------- loops

  /** The page is full before a row that has something to list. */
  ghost predicate FullAt(v: View, after: string, lo: nat, max: nat, pos: nat) {
    lo <= pos < |v.keys| && |v.Items(after, lo, pos)| == max && v.ItemAt(after, pos) != []
  }

  /** How a scan may stop at `pos`. */
  ghost predicate Stopped(v: View, versions: seq<string>, after: string, lo: nat, max: nat, pos: nat, p: Progress,
                          stop: Stop)
    requires |versions| == |v.keys|
  {
    match stop
    case Truncated => FullAt(v, after, lo, max, pos)
    case Exhausted => pos == |v.keys|
    case Continue => QueryStart(v.keys, versions, p.cursor) == pos
  }

  /** Visit the first row of a folder: the rest of the folder is skipped. */
  method VisitFolder(v: View, versions: seq<string>,
                     after: string, ghost lo: nat, max: nat, i: nat, c: string, from: Progress)
    returns (p: Progress, stop: Stop, skip: string, ghost pos: nat)
    requires v.Valid() && |versions| == |v.keys|
    requires StartsAfter(v, after, lo) && i < |v.keys| && v.Group(i) == Some(c) && Scanned(v, lo, i)
    requires Listed(v, after, lo, max, i, from)
    ensures Scanned(v, lo, pos) && Listed(v, after, lo, max, pos, p)
    ensures Stopped(v, versions, after, lo, max, pos, p, stop)
    ensures stop.Continue? ==> i < pos && SkipsTo(v, skip, i + 1, pos)
  {
    hide Listed, StartsAfter, AtMost, Less;
    var full;
    p, full := ListFolder(v, after, lo, max, i, c, from);
    if full { return p, Truncated, "", i; }
    JumpReachesEnd(v, i, c);
    pos := FolderEnd(v, i);
    match PrefixUpperBound(c)
    case None => return p, Exhausted, "", pos;
    case Some(u) =>
      AnyCursor(v, after, lo, max, pos, p, Cursor(u, "", true));
      return p.(cursor := Cursor(u, "", true)), Continue, u, pos;
  }

  lemma FullBeforeRow(v: View, after: string, lo: nat, max: nat, i: nat, p: Progress)
    requires Listed(v, after, lo, max, i, p) && i < |v.keys| && v.Group(i).None? && |p.rows| + |p.folders| >= max
    ensures FullAt(v, after, lo, max, i)
  {
    ItemCounts(v.Items(after, lo, i), "");
  }

  /** Visit the row a scan stands at; rows below `skip` are passed with it. */
  method VisitRow(v: View, versions: seq<string>,
                  after: string, ghost lo: nat, max: nat, i: nat, from: Progress, skipped: string)
    returns (p: Progress, stop: Stop, skip: string, ghost pos: nat)
    requires v.Valid() && Distinct(v.keys, versions)
    requires StartsAfter(v, after, lo) && i < |v.keys| && Scanned(v, lo, i) && Listed(v, after, lo, max, i, from)
    requires skipped == "" || !Less(v.keys[i], skipped)
    ensures Scanned(v, lo, pos) && Listed(v, after, lo, max, pos, p)
    ensures Stopped(v, versions, after, lo, max, pos, p, stop)
    ensures stop.Continue? ==> i < pos && SkipsTo(v, skip, i + 1, pos)
  {
    hide Listed, FullAt, StartsAfter, AtMost, Less;
    match v.Group(i)
    case Some(c) =>
      p, stop, skip, pos := VisitFolder(v, versions, after, lo, max, i, c, from);
    case None =>
      if |from.rows| + |from.folders| >= max {
        FullBeforeRow(v, after, lo, max, i, from);
        return from, Truncated, skipped, i;
      }
      p := ListRow(v, after, lo, max, i, Cursor(v.keys[i], versions[i], false), from);
      CursorAtRow(v, versions, i);
      NothingSkipped(v, skipped, i);
      return p, Continue, skipped, i + 1;
  }

  lemma NothingSkipped(v: View, skip: string, i: nat)
    requires v.Valid() && i < |v.keys| && (skip == "" || !Less(v.keys[i], skip))
    ensures SkipsTo(v, skip, i + 1, i + 1)
  {
    forall k | i + 1 <= k < |v.keys| ensures skip == "" || !Less(v.keys[k], skip) {
      NotLess(v.keys[i], skip);
      if skip != "" { AtMostTransitive(skip, v.keys[i], v.keys[k]); }
      NotLess(v.keys[k], skip);
    }
  }

  /** One batch of rows: list rows and folders, and jump over each folder by its
      upper bound, also past the end of the batch. */
  method ScanBatch(v: View, versions: seq<string>,
                   after: string, ghost lo: nat, max: nat, start: nat, n: nat, from: Progress)
    returns (p: Progress, stop: Stop, ghost pos: nat)
    requires v.Valid() && Distinct(v.keys, versions) && StartsAfter(v, after, lo)
    requires 0 < n && start + n <= |v.keys| && Scanned(v, lo, start) && Listed(v, after, lo, max, start, from)
    ensures Scanned(v, lo, pos) && Listed(v, after, lo, max, pos, p)
    ensures Stopped(v, versions, after, lo, max, pos, p, stop)
    ensures stop.Continue? ==> start + n <= pos
  {
    hide Listed, StartsAfter;
    p, stop, pos := from, Continue, start;
    var skipUntil := "";
    for j := 0 to n
      invariant start + j <= pos && Scanned(v, lo, pos) && Listed(v, after, lo, max, pos, p) && stop.Continue?
      invariant j == 0 ==> pos == start
      invariant SkipsTo(v, skipUntil, start + j, pos)
      invariant j > 0 ==> QueryStart(v.keys, versions, p.cursor) == pos
    {
      var i := start + j;
      if skipUntil != "" && Less(v.keys[i], skipUntil) { continue; }
      p, stop, skipUntil, pos := VisitRow(v, versions, after, lo, max, i, p, skipUntil);
      if !stop.Continue? { return; }
    }
  }

  /** List one page of the rows that begin with the prefix, past the marker:
      batch after batch until the page is full or the rows end. */
  method ListPage(v: View, versions: seq<string>, keyMarker: string, versionMarker: string, max: nat, batch: nat)
    returns (page: Page)
    requires v.Valid() && Distinct(v.keys, versions) && 0 < batch && 0 < max
    ensures IsPage(v, keyMarker, QueryStart(v.keys, versions, Cursor(keyMarker, versionMarker, false)), max, page)
  {
    hide Listed, StartsAfter, QueryStart, IsPage;
    var p := Progress([], [], {}, 0, Cursor(keyMarker, versionMarker, false));
    ghost var lo := QueryStart(v.keys, versions, p.cursor);
    QueryStartsAfter(v, versions, keyMarker, versionMarker);
    NothingListed(v, keyMarker, lo, max, p.cursor);
    ghost var pos := lo;
    while true
      invariant Scanned(v, lo, pos) && Listed(v, keyMarker, lo, max, pos, p)
      invariant QueryStart(v.keys, versions, p.cursor) == pos
      decreases |v.keys| - pos
    {
      var start := QueryStart(v.keys, versions, p.cursor);
      var n := BatchSize(|v.keys|, start, batch);
      if n == 0 {
        ListedAtEnd(v, keyMarker, lo, max, p);
        return Page(p.rows, p.folders, false, p.lastMarker);
      }
      var stop;
      p, stop, pos := ScanBatch(v, versions, keyMarker, lo, max, start, n, p);
      if stop.Truncated? {
        ListedAndFull(v, keyMarker, lo, max, pos, p);
        return Page(p.rows, p.folders, true, p.lastMarker);
      }
      if stop.Exhausted? || n < batch {
        ListedAtEnd(v, keyMarker, lo, max, p);
        return Page(p.rows, p.folders, false, p.lastMarker);
      }
    }
  }

  // -------------------------------------------------------------- entry points

  datatype VersionRow = VersionRow(key: string, version: string)

  /** The rows a query with a prefix filter sees. */
  function WithPrefix(table: seq<VersionRow>, prefix: string): seq<VersionRow> {
    if table == [] then []
    else
      var last := table[|table| - 1];
      WithPrefix(table[..|table| - 1], prefix) + if prefix <= last.key then [last] else []
  }

  function KeysOf(rows: seq<VersionRow>): seq<string> { seq(|rows|, i requires 0 <= i < |rows| => rows[i].key) }
  function VersionsOf(rows: seq<VersionRow>): seq<string> { seq(|rows|, i requires 0 <= i < |rows| => rows[i].version) }

  /** Rows in key order; rows that share a key carry distinct version ids. */
  ghost predicate IsTable(table: seq<VersionRow>) {
    && (forall i :: 0 <= i < |table| ==> table[i].key != "")
    && (forall i, j :: 0 <= i < j < |table| ==> InOrder(table[i], table[j]))
  }

  predicate InOrder(a: VersionRow, b: VersionRow) {
    Less(a.key, b.key) || (a.key == b.key && a.version != b.version && a.version != "" && b.version != "")
  }

  lemma {:induction false} FilteredHolds(table: seq<VersionRow>, prefix: string)
    ensures forall r :: r in WithPrefix(table, prefix) <==> r in table && prefix <= r.key
  {
    if table != [] {
      var n := |table| - 1;
      FilteredHolds(table[..n], prefix);
      assert table == table[..n] + [table[n]];
    }
  }

  lemma {:induction false} FilteredIsTable(table: seq<VersionRow>, prefix: string)
    requires IsTable(table)
    ensures IsTable(WithPrefix(table, prefix))
  {
    hide InOrder;
    if table != [] {
      var n := |table| - 1;
      FilteredIsTable(table[..n], prefix);
      FilteredHolds(table[..n], prefix);
      var rows := WithPrefix(table[..n], prefix);
      forall i | 0 <= i < |rows| ensures InOrder(rows[i], table[n]) {
        assert rows[i] in table[..n];
        var k :| 0 <= k < n && table[k] == rows[i];
      }
    }
  }

  function ViewOf(table: seq<VersionRow>, prefix: string, delimiter: string): View {
    Grouped(KeysOf(WithPrefix(table, prefix)), prefix, delimiter)
  }

  lemma ViewIsValid(table: seq<VersionRow>, prefix: string, delimiter: string)
    requires IsTable(table)
    ensures ViewOf(table, prefix, delimiter).Valid()
    ensures Distinct(KeysOf(WithPrefix(table, prefix)), VersionsOf(WithPrefix(table, prefix)))
  {
    FilteredIsTable(table, prefix);
    FilteredHolds(table, prefix);
    var rows := WithPrefix(table, prefix);
    forall i | 0 <= i < |rows| ensures prefix <= rows[i].key { assert rows[i] in rows; }
    forall i, j | 0 <= i < j < |rows| ensures AtMost(rows[i].key, rows[j].key) { assert InOrder(rows[i], rows[j]); }
    GroupedIsValid(KeysOf(rows), prefix, delimiter);
    forall i, j | 0 <= i < j < |rows| && rows[i].key == rows[j].key
      ensures rows[i].version != rows[j].version && rows[i].version != "" && rows[j].version != ""
    {
      assert InOrder(rows[i], rows[j]);
      LessIrreflexive(rows[i].key);
    }
  }

  /** Where a listing past a (key, version) marker starts. */
  function StartOf(table: seq<VersionRow>, prefix: string, keyMarker: string, versionMarker: string): nat {
    var rows := WithPrefix(table, prefix);
    QueryStart(KeysOf(rows), VersionsOf(rows), Cursor(keyMarker, versionMarker, false))
  }

  /** One page of a bucket's rows. With a version id in every row this is the
      listing of object versions; without any, the listing of current objects. */
  method List(table: seq<VersionRow>, prefix: string, delimiter: string,
              keyMarker: string, versionMarker: string, maxKeys: int, batch: nat)
    returns (rows: seq<VersionRow>, folders: seq<string>, truncated: bool, next: VersionRow, ghost page: Page)
    requires IsTable(table) && 0 < batch
    ensures maxKeys <= 0 ==> rows == [] && folders == [] && !truncated
    ensures maxKeys > 0 ==> PageAt(table, prefix, delimiter, VersionRow(keyMarker, versionMarker), maxKeys, page)
    ensures maxKeys > 0 ==> folders == page.folders && truncated == page.truncated
    ensures maxKeys > 0 ==> RowsAre(WithPrefix(table, prefix), page.rows, rows)
    ensures !truncated ==> next == VersionRow("", "")
    ensures truncated
       ==> page.marker < |WithPrefix(table, prefix)| && next == WithPrefix(table, prefix)[page.marker] && next.key != ""
    ensures truncated ==> StartOf(table, prefix, next.key, next.version) == page.marker + 1
  {
    page := Page([], [], false, 0);
    if maxKeys <= 0 { return [], [], false, VersionRow("", ""), page; }
    ViewIsValid(table, prefix, delimiter);
    var matching := WithPrefix(table, prefix);
    var v := ViewOf(table, prefix, delimiter);
    var p := ListPage(v, VersionsOf(matching), keyMarker, versionMarker, maxKeys, batch);
    RowsInRange(v, keyMarker, StartOf(table, prefix, keyMarker, versionMarker), maxKeys, p);
    rows := seq(|p.rows|, k requires 0 <= k < |p.rows| => matching[p.rows[k]]);
    folders, truncated, page := p.folders, p.truncated, p;
    next := VersionRow("", "");
    if truncated {
      next := matching[p.marker];
      FilteredIsTable(table, prefix);
      CursorAtRow(v, VersionsOf(matching), p.marker);
    }
  }

  /** The table rows with the given numbers. */
  ghost predicate RowsAre(matching: seq<VersionRow>, numbers: seq<nat>, rows: seq<VersionRow>) {
    |rows| == |numbers| && forall k :: 0 <= k < |rows| ==> numbers[k] < |matching| && rows[k] == matching[numbers[k]]
  }

  /** The listing past a (key, version) marker. */
  function Whole(table: seq<VersionRow>, prefix: string, delimiter: string, marker: VersionRow): seq<Item> {
    var v, lo := ViewOf(table, prefix, delimiter), StartOf(table, prefix, marker.key, marker.version);
    if lo <= |v.keys| then v.Listing(marker.key, lo) else []
  }

  /** The row is listed past a key. */
  predicate IsPast(key: string, r: VersionRow) { key == "" || Less(key, r.key) }

  /** What the listing past a key is, in terms of the table: a row for each row with
      the prefix and no delimiter after it, a folder for each folder above the key,
      both only of rows past the key. */
  lemma RowsExactly(table: seq<VersionRow>, prefix: string, delimiter: string, key: string, k: nat)
    requires IsTable(table) && k < |WithPrefix(table, prefix)|
    ensures Row(k) in Whole(table, prefix, delimiter, VersionRow(key, ""))
       <==> CommonPrefix(WithPrefix(table, prefix)[k].key, prefix, delimiter).None?
            && IsPast(key, WithPrefix(table, prefix)[k])
  {
    var v, lo := ViewOf(table, prefix, delimiter), StartOf(table, prefix, key, "");
    StartsPast(table, prefix, delimiter, key, k);
    ItemsExact(v, key, lo, |v.keys|, Row(k));
  }

  lemma FoldersExactly(table: seq<VersionRow>, prefix: string, delimiter: string, key: string, c: string)
    requires IsTable(table)
    ensures Folder(c) in Whole(table, prefix, delimiter, VersionRow(key, ""))
       <==> !AtMost(c, key) && exists r :: r in table && InFolder(r, prefix, delimiter, c) && IsPast(key, r)
  {
    var v, lo := ViewOf(table, prefix, delimiter), StartOf(table, prefix, key, "");
    var rows := WithPrefix(table, prefix);
    ViewIsValid(table, prefix, delimiter);
    FilteredHolds(table, prefix);
    QueryStartsAfter(v, VersionsOf(rows), key, "");
    ItemsExact(v, key, lo, |v.keys|, Folder(c));
    if i :| lo <= i < |v.keys| && v.Group(i) == Some(c) {
      StartsPast(table, prefix, delimiter, key, i);
      assert rows[i] in rows && InFolder(rows[i], prefix, delimiter, c);
    }
    if r :| r in table && InFolder(r, prefix, delimiter, c) && IsPast(key, r) {
      assert r in rows;
      var i :| 0 <= i < |rows| && rows[i] == r;
      StartsPast(table, prefix, delimiter, key, i);
      assert v.Group(i) == Some(c);
    }
  }

  predicate InFolder(r: VersionRow, prefix: string, delimiter: string, c: string) {
    prefix <= r.key && CommonPrefix(r.key, prefix, delimiter) == Some(c)
  }

  /** A query past a key starts at the first row past it. */
  lemma StartsPast(table: seq<VersionRow>, prefix: string, delimiter: string, key: string, k: nat)
    requires IsTable(table) && k < |WithPrefix(table, prefix)|
    ensures var v, lo := ViewOf(table, prefix, delimiter), StartOf(table, prefix, key, "");
            lo <= |v.keys| && v.Valid() && StartsAfter(v, key, lo)
    ensures k >= StartOf(table, prefix, key, "") <==> IsPast(key, WithPrefix(table, prefix)[k])
  {
    var v, lo := ViewOf(table, prefix, delimiter), StartOf(table, prefix, key, "");
    ViewIsValid(table, prefix, delimiter);
    QueryStartsAfter(v, VersionsOf(WithPrefix(table, prefix)), key, "");
    assert lo == FirstRow(v.keys, key, false);
    if lo <= k && key != "" {
      assert Past(v.keys[lo], key, false);
      AtMostTransitive(key, v.keys[lo], v.keys[k]);
    }
  }

  /** A page from a marker, as List returns it. */
  ghost predicate PageAt(table: seq<VersionRow>, prefix: string, delimiter: string, marker: VersionRow, max: nat,
                         page: Page) {
    var lo := StartOf(table, prefix, marker.key, marker.version);
    IsPage(ViewOf(table, prefix, delimiter), marker.key, lo, max, page)
  }

  /** The last page is what is left. */
  lemma LastPage(table: seq<VersionRow>, prefix: string, delimiter: string, marker: VersionRow, max: nat, page: Page)
    requires PageAt(table, prefix, delimiter, marker, max, page) && !page.truncated
    ensures page.rows == RowsOf(Whole(table, prefix, delimiter, marker))
    ensures page.folders == FoldersOf(Whole(table, prefix, delimiter, marker))
  {
  }

  /** A truncated page and what is left after its marker make up the listing, and
      the marker is ahead. */
  lemma NextPage(table: seq<VersionRow>, prefix: string, delimiter: string, marker: VersionRow, max: nat, page: Page,
                 next: VersionRow)
    requires IsTable(table) && PageAt(table, prefix, delimiter, marker, max, page) && page.truncated
    requires page.marker < |WithPrefix(table, prefix)| && next == WithPrefix(table, prefix)[page.marker]
    ensures StartOf(table, prefix, next.key, next.version) == page.marker + 1
    ensures var whole, rest := Whole(table, prefix, delimiter, marker), Whole(table, prefix, delimiter, next);
            RowsOf(whole) == page.rows + RowsOf(rest) && FoldersOf(whole) == page.folders + FoldersOf(rest)
    ensures StartOf(table, prefix, marker.key, marker.version) < page.marker + 1
  {
    var v := ViewOf(table, prefix, delimiter);
    ViewIsValid(table, prefix, delimiter);
    QueryStartsAfter(v, VersionsOf(WithPrefix(table, prefix)), marker.key, marker.version);
    CursorAtRow(v, VersionsOf(WithPrefix(table, prefix)), page.marker);
    PageThenRest(v, marker.key, StartOf(table, prefix, marker.key, marker.version), max, page);
  }

  lemma RowsFollow(matching: seq<VersionRow>, a: seq<nat>, x: seq<VersionRow>, b: seq<nat>, y: seq<VersionRow>)
    requires RowsAre(matching, a, x) && RowsAre(matching, b, y)
    ensures RowsAre(matching, a + b, x + y)
  {
  }

  /** A client that asks for page after page, each from the marker of the one
      before, gets every row and every folder above its first marker, once and in order. */
  method ListAll(table: seq<VersionRow>, prefix: string, delimiter: string, first: VersionRow, maxKeys: int, batch: nat)
    returns (rows: seq<VersionRow>, folders: seq<string>)
    requires IsTable(table) && 0 < batch && 0 < maxKeys
    ensures RowsAre(WithPrefix(table, prefix), RowsOf(Whole(table, prefix, delimiter, first)), rows)
    ensures folders == FoldersOf(Whole(table, prefix, delimiter, first))
  {
    hide IsTable, IsPage, StartOf, Whole, RowsOf, FoldersOf, WithPrefix, ViewOf;
    ghost var numbers: seq<nat> := [];
    var marker := first;
    rows, folders := [], [];
    while true
      invariant RowsAre(WithPrefix(table, prefix), numbers, rows)
      invariant RowsOf(Whole(table, prefix, delimiter, first))
          == numbers + RowsOf(Whole(table, prefix, delimiter, marker))
      invariant FoldersOf(Whole(table, prefix, delimiter, first))
             == folders + FoldersOf(Whole(table, prefix, delimiter, marker))
      decreases |WithPrefix(table, prefix)| - StartOf(table, prefix, marker.key, marker.version)
    {
      var pageRows, pageFolders, truncated, next;
      ghost var page;
      pageRows, pageFolders, truncated, next, page :=
        List(table, prefix, delimiter, marker.key, marker.version, maxKeys, batch);
      RowsFollow(WithPrefix(table, prefix), numbers, rows, page.rows, pageRows);
      rows, folders, numbers := rows + pageRows, folders + pageFolders, numbers + page.rows;
      if !truncated {
        LastPage(table, prefix, delimiter, marker, maxKeys, page);
        return;
      }
      NextPage(table, prefix, delimiter, marker, maxKeys, page, next);
      marker := next;
    }
  }

  lemma {:induction false} ListedRowsInRange(v: View, after: string, lo: nat, hi: nat)
    requires hi <= |v.keys|
    ensures forall item :: item in v.Items(after, lo, hi) && item.Row? ==> item.index < |v.keys|
  {
    if lo < hi { ListedRowsInRange(v, after, lo, hi - 1); }
  }

  lemma {:induction false} RowsAreItems(items: seq<Item>, k: nat)
    requires k < |RowsOf(items)|
    ensures Row(RowsOf(items)[k]) in items
  {
    var init := items[..|items| - 1];
    if k < |RowsOf(init)| { RowsAreItems(init, k); }
  }

  lemma RowsInRange(v: View, after: string, lo: nat, max: nat, page: Page)
    requires IsPage(v, after, lo, max, page)
    ensures forall k :: 0 <= k < |page.rows| ==> page.rows[k] < |v.keys|
  {
    var items := v.Listing(after, lo);
    var shown := if |items| <= max then items else items[..max];
    ListedRowsInRange(v, after, lo, |v.keys|);
    forall k | 0 <= k < |page.rows| ensures page.rows[k] < |v.keys| {
      RowsAreItems(shown, k);
      assert Row(page.rows[k]) in items;
    }
  }
}
