/**
 * The admin folder listing: the same listing as S3's without the key that
 * equals the prefix, computed with another skip rule. A folder is passed row by
 * row within a batch; only a folder that reaches the end of a full batch is
 * jumped over, by the bound that replaces its final "/" with "0".
 */
module AdminListing {
  import opened Options
  import opened KeyOrder
  import opened ListingSpec
  import opened ListingSteps
  import opened Listing

  /** Rows of a folder from `pos` on list what their first row lists, and row m
      among them leaves nothing for the others. */
  lemma PartOfFolder(v: View, after: string, lo: nat, pos: nat, m: nat, end: nat)
    requires lo <= pos <= m < end <= |v.keys| && v.Group(pos).Some?
    requires forall i :: pos <= i < end ==> v.Group(i) == v.Group(pos)
    ensures v.Items(after, lo, end) == v.Items(after, lo, pos) + v.ItemAt(after, pos)
    ensures v.Items(after, m + 1, end) == []
  {
    RestOfFolder(v, after, pos, end);
    RestOfFolder(v, after, m, end);
    ItemsSplit(v, after, lo, pos + 1, end);
  }

  /** A row lists its folder exactly when that is above the marker and not yet
      among the folders of the page. */
  lemma FolderItemBySeen(v: View, after: string, lo: nat, pos: nat, c: string)
    requires v.Valid() && StartsAfter(v, after, lo) && lo <= pos < |v.keys| && v.Group(pos) == Some(c)
    ensures v.ItemAt(after, pos)
         == if AtMost(c, after) || c in FoldersOf(v.Items(after, lo, pos)) then [] else [Folder(c)]
  {
    ItemCounts(v.Items(after, lo, pos), c);
    ItemsExact(v, after, lo, pos, Folder(c));
    SameFolder(v, pos, pos, c);
    if v.Repeats(pos) {
      if pos == lo { EnteredBeforeMarker(v, after, lo, c); }
      else { assert v.Group(pos - 1) == Some(c); }
    } else if i :| lo <= i < pos && v.Group(i) == Some(c) {
      FolderIsContiguous(v, i, pos, c);
    }
  }

  /** The bound replaces the final "/" by the next character. */
  function AdminUpperBound(c: string, delimiter: string): Option<string> {
    if delimiter != "/" || |c| == 0 || c[|c| - 1] != '/' then None else Some(c[..|c| - 1] + "0")
  }

  lemma AdminBoundIsUpperBound(c: string, delimiter: string)
    requires AdminUpperBound(c, delimiter).Some?
    ensures PrefixUpperBound(c) == AdminUpperBound(c, delimiter)
  {
  }

  /** The last row of the batch that continues the folder at `i`. */
  method LastOfFolder(v: View, i: nat, e: nat, c: string) returns (last: nat)
    requires v.Valid() && i < e <= |v.keys| && v.Group(i) == Some(c)
    ensures i <= last < e && forall k :: i <= k <= last ==> v.Group(k) == Some(c)
    ensures last + 1 < e ==> v.Group(last + 1) != Some(c)
  {
    last := i;
    while last + 1 < e && c <= v.keys[last + 1]
      invariant i <= last < e && forall k :: i <= k <= last ==> v.Group(k) == Some(c)
    {
      SameFolder(v, i, last + 1, c);
      last := last + 1;
    }
    if last + 1 < e && v.Group(last + 1) == Some(c) { SameFolder(v, last + 1, last + 1, c); }
  }

  /** Where the scan goes after a folder: past its last row of the batch, or by
      a jump when the folder fills the rest of a full batch and has a bound. */
  method AdvancePastFolder(v: View, delimiter: string, i: nat, e: nat, full: bool, c: string)
    returns (last: nat, cursor: Cursor, ghost pos: nat)
    requires v.Valid() && i < e <= |v.keys| && v.Group(i) == Some(c)
    ensures i <= last < pos <= |v.keys| && last < e && forall k :: i <= k < pos ==> v.Group(k) == Some(c)
    ensures cursor.inclusive ==> full && e <= pos && FirstRow(v.keys, cursor.key, true) == pos
    ensures !cursor.inclusive ==> pos <= e && cursor.key == v.keys[pos - 1] && pos == last + 1
  {
    last := LastOfFolder(v, i, e, c);
    pos := last + 1;
    cursor := Cursor(v.keys[last], "", false);
    if last != e - 1 || !full { return; }
    match AdminUpperBound(c, delimiter)
    case None =>
    case Some(upper) =>
      if AtMost(upper, cursor.key) { return; }
      AdminBoundIsUpperBound(c, delimiter);
      JumpReachesEnd(v, last, c);
      pos := FolderEnd(v, last);
      cursor := Cursor(upper, "", true);
  }

  /** Add the folder of row `i` to the page unless it is not new; stop when it is
      new and the page is full. */
  method NoteFolder(v: View, after: string, ghost lo: nat, max: nat, i: nat, c: string, from: Progress)
    returns (p: Progress, truncated: bool)
    requires v.Valid() && StartsAfter(v, after, lo) && i < |v.keys| && v.Group(i) == Some(c)
    requires Listed(v, after, lo, max, i, from)
    ensures truncated <==> |v.Items(after, lo, i)| == max && v.ItemAt(after, i) != []
    ensures truncated ==> p == from
    ensures !truncated ==> Noted(after, max, c, from, p)
  {
    FolderItemBySeen(v, after, lo, i, c);
    ItemCounts(v.Items(after, lo, i), c);
    SameFolder(v, i, i, c);
    if (after != "" && AtMost(c, after)) || c in from.seen { return from, false; }
    if |from.rows| + |from.folders| >= max { return from, true; }
    return from.(seen := from.seen + {c}, folders := from.folders + [c]), false;
  }

  ghost predicate Noted(after: string, max: nat, c: string, from: Progress, p: Progress) {
    if AtMost(c, after) || c in from.seen then p == from
    else |from.rows| + |from.folders| < max && p == from.(seen := from.seen + {c}, folders := from.folders + [c])
  }

  /** What a folder's rows `i` to `pos` list, with any of them as marker. */
  lemma FolderItems(v: View, after: string, lo: nat, i: nat, last: nat, pos: nat, c: string)
    requires v.Valid() && StartsAfter(v, after, lo)
    requires lo <= i <= last < pos <= |v.keys| && v.Group(i) == Some(c)
    requires forall k :: i <= k < pos ==> v.Group(k) == Some(c)
    ensures v.Items(after, last + 1, pos) == []
    ensures v.Items(after, lo, pos) == v.Items(after, lo, i)
              + if AtMost(c, after) || c in FoldersOf(v.Items(after, lo, i)) then [] else [Folder(c)]
  {
    PartOfFolder(v, after, lo, i, last, pos);
    FolderItemBySeen(v, after, lo, i, c);
  }

  /** The progress after those rows. */
  lemma FolderListed(v: View, after: string, lo: nat, max: nat, i: nat, last: nat, pos: nat, c: string,
                     cursor: Cursor, from: Progress, p: Progress)
    requires Listed(v, after, lo, max, i, from) && Noted(after, max, c, from, p) && i <= last < pos <= |v.keys|
    requires v.Items(after, last + 1, pos) == []
    requires v.Items(after, lo, pos) == v.Items(after, lo, i)
               + if AtMost(c, after) || c in FoldersOf(v.Items(after, lo, i)) then [] else [Folder(c)]
    ensures Listed(v, after, lo, max, pos, p.(lastMarker := last, cursor := cursor))
  {
    NotedMatches(after, max, c, v.Items(after, lo, i), v.Items(after, lo, pos), from,
                 p.(lastMarker := last, cursor := cursor));
    MakeListed(v, after, lo, max, pos, p.(lastMarker := last, cursor := cursor));
  }

  lemma NotedMatches(after: string, max: nat, c: string, items: seq<Item>, items': seq<Item>, from: Progress,
                     p: Progress)
    requires Holds(items, max, from)
    requires Noted(after, max, c, from, p.(lastMarker := from.lastMarker, cursor := from.cursor))
    requires items' == items + if AtMost(c, after) || c in FoldersOf(items) then [] else [Folder(c)]
    ensures Holds(items', max, p)
  {
    hide AtMost;
    ItemCounts(items, c);
    if AtMost(c, after) || c in from.seen { assert items' == items; } else { FolderHeld(items, max, c, from, p); }
  }

  /** Take in the folder at `i` as far as the batch reaches, or to its end. */
  method PassFolder(v: View, delimiter: string, after: string, ghost lo: nat, max: nat, i: nat, e: nat, full: bool,
                    c: string, from: Progress)
    returns (p: Progress, truncated: bool, next: nat, ghost pos: nat)
    requires v.Valid() && StartsAfter(v, after, lo) && i < e <= |v.keys| && v.Group(i) == Some(c)
    requires Listed(v, after, lo, max, i, from)
    ensures Listed(v, after, lo, max, pos, p)
    ensures truncated ==> FullAt(v, after, lo, max, pos)
    ensures !truncated ==> i < pos && CursorAt(v, p.cursor, pos)
    ensures !truncated ==> if p.cursor.inclusive then full && e <= pos else next == pos <= e
  {
    p, truncated := NoteFolder(v, after, lo, max, i, c, from);
    next, pos := i, i;
    if truncated { return; }
    var last, cursor;
    last, cursor, pos := AdvancePastFolder(v, delimiter, i, e, full, c);
    FolderItems(v, after, lo, i, last, pos, c);
    FolderListed(v, after, lo, max, i, last, pos, c, cursor, from, p);
    p := p.(lastMarker := last, cursor := cursor);
    next := last + 1;
  }

  /** List the row at `i`, or stop when the page is full. */
  method PassRow(v: View, after: string, ghost lo: nat, max: nat, i: nat, from: Progress)
    returns (p: Progress, truncated: bool)
    requires i < |v.keys| && v.Group(i).None? && Listed(v, after, lo, max, i, from)
    ensures truncated ==> p == from && FullAt(v, after, lo, max, i)
    ensures !truncated ==> Listed(v, after, lo, max, i + 1, p) && CursorAt(v, p.cursor, i + 1) && !p.cursor.inclusive
  {
    ItemCounts(v.Items(after, lo, i), "");
    if |from.rows| + |from.folders| >= max { return from, true; }
    p := ListRow(v, after, lo, max, i, Cursor(v.keys[i], "", false), from);
    truncated := false;
  }

  /** One batch: the rows from `b` to `e`, `full` if the query returned as many
      rows as asked for. Ends past the batch, or at the end of a jump. */
  method ScanBatch(v: View, delimiter: string, after: string, ghost lo: nat, max: nat, b: nat, e: nat, full: bool,
                   from: Progress)
    returns (p: Progress, stop: Stop, ghost pos: nat)
    requires v.Valid() && StartsAfter(v, after, lo) && b <= e <= |v.keys| && Listed(v, after, lo, max, b, from)
    ensures Listed(v, after, lo, max, pos, p) && !stop.Exhausted?
    ensures stop.Truncated? ==> FullAt(v, after, lo, max, pos)
    ensures stop.Continue?
       ==> e <= pos && (if b == e then p == from && pos == b else b < pos && CursorAt(v, p.cursor, pos))
    ensures stop.Continue? && !full ==> pos == e
  {
    hide Listed, StartsAfter;
    p, stop, pos := from, Continue, b;
    var i := b;
    while i < e
      invariant b <= i <= e && pos == i && stop.Continue? && Listed(v, after, lo, max, i, p)
      invariant if i == b then p == from else CursorAt(v, p.cursor, i)
    {
      match v.Group(i)
      case Some(c) =>
        var truncated, next;
        p, truncated, next, pos := PassFolder(v, delimiter, after, lo, max, i, e, full, c, p);
        if truncated { return p, Truncated, pos; }
        if p.cursor.inclusive { return p, Continue, pos; }
        i := next;
      case None =>
        var truncated;
        p, truncated := PassRow(v, after, lo, max, i, p);
        if truncated { return p, Truncated, pos; }
        i, pos := i + 1, i + 1;
    }
  }

  /** The cursor stands just before `pos`: at the bound of a folder, or after the
      key of the row before. */
  ghost predicate CursorAt(v: View, cursor: Cursor, pos: nat) {
    && 0 < pos <= |v.keys|
    && if cursor.inclusive then FirstRow(v.keys, cursor.key, true) == pos else cursor.key == v.keys[pos - 1]
  }

  ghost predicate Strict(keys: seq<string>) {
    && (forall i :: 0 <= i < |keys| ==> keys[i] != "")
    && forall i, j :: 0 <= i < j < |keys| ==> Less(keys[i], keys[j])
  }

  /** A query from the cursor a batch leaves starts where the batch stopped. */
  lemma CursorStarts(v: View, cursor: Cursor, pos: nat)
    requires Strict(v.keys) && CursorAt(v, cursor, pos)
    ensures FirstRow(v.keys, cursor.key, cursor.inclusive) == pos
  {
    if !cursor.inclusive {
      forall k | 0 <= k < pos ensures !Past(v.keys[k], cursor.key, false) {
        NotLess(cursor.key, v.keys[k]);
        assert v.keys[k] == cursor.key || Less(v.keys[k], v.keys[pos - 1]);
      }
      if pos < |v.keys| { assert Past(v.keys[pos], cursor.key, false); }
    }
  }

  /** All listed keys lie above the prefix itself. */
  ghost predicate Under(keys: seq<string>, prefix: string) {
    forall i :: 0 <= i < |keys| ==> Less(prefix, keys[i])
  }

  /** The row of the prefix itself is fetched only before all others. */
  lemma PrefixRowIsFirst(v: View, prefix: string, key: string, inclusive: bool)
    requires prefix != "" && Under(v.keys, prefix) && Past(prefix, key, inclusive)
    ensures FirstRow(v.keys, key, inclusive) == 0 && FirstRow(v.keys, prefix, false) == 0
    ensures !Past(prefix, prefix, false)
  {
    LessIrreflexive(prefix);
    if |v.keys| > 0 && key != "" { AtMostTransitive(key, prefix, v.keys[0]); }
  }

  /** List one page. The rows of `v` leave out the key that equals the prefix;
      `hidden` says that the table has it, and the first query then returns it. */
  method ListPage(v: View, hidden: bool, prefix: string, delimiter: string, after: string, max: nat, batch: nat)
    returns (page: Page)
    requires v.Valid() && Strict(v.keys) && 0 < batch && 0 < max && (hidden ==> prefix != "" && Under(v.keys, prefix))
    ensures IsPage(v, after, FirstRow(v.keys, after, false), max, page)
  {
    hide Listed, StartsAfter, Past, Under;
    var p := Progress([], [], {}, 0, Cursor(after, "", false));
    ghost var lo := FirstRow(v.keys, after, false);
    StartIsAfter(v, after);
    NothingListed(v, after, lo, max, p.cursor);
    ghost var pos := lo;
    while true
      invariant Listed(v, after, lo, max, pos, p) && FirstRow(v.keys, p.cursor.key, p.cursor.inclusive) == pos
      decreases |v.keys| - pos, hidden && Past(prefix, p.cursor.key, p.cursor.inclusive)
    {
      var start := FirstRow(v.keys, p.cursor.key, p.cursor.inclusive);
      var extra := if hidden && Past(prefix, p.cursor.key, p.cursor.inclusive) then 1 else 0;
      var n := Least(batch, |v.keys| - start + extra);
      if n == 0 {
        ListedAtEnd(v, after, lo, max, p);
        return Page(p.rows, p.folders, false, p.lastMarker);
      }
      if extra == 1 {
        PrefixRowIsFirst(v, prefix, p.cursor.key, p.cursor.inclusive);
        AnyCursor(v, after, lo, max, pos, p, Cursor(prefix, "", false));
        p := p.(cursor := Cursor(prefix, "", false));
      }
      var stop;
      p, stop, pos := ScanBatch(v, delimiter, after, lo, max, start, start + n - extra, n == batch, p);
      if stop.Truncated? {
        ListedAndFull(v, after, lo, max, pos, p);
        return Page(p.rows, p.folders, true, p.lastMarker);
      }
      if n < batch {
        ListedAtEnd(v, after, lo, max, p);
        return Page(p.rows, p.folders, false, p.lastMarker);
      }
      if start < pos { CursorStarts(v, p.cursor, pos); }
    }
  }

  // --------------------------------------------------------------- entry point

  predicate Shown(key: string, prefix: string) { prefix <= key && (prefix == "" || key != prefix) }

  /** The keys the listing shows. */
  function Visible(keys: seq<string>, prefix: string): seq<string> {
    if keys == [] then []
    else
      var last := keys[|keys| - 1];
      Visible(keys[..|keys| - 1], prefix) + if Shown(last, prefix) then [last] else []
  }

  lemma {:induction false} VisibleIsStrict(keys: seq<string>, prefix: string)
    requires Strict(keys)
    ensures Strict(Visible(keys, prefix))
    ensures forall k :: k in Visible(keys, prefix) <==> k in keys && Shown(k, prefix)
  {
    if keys != [] {
      var n := |keys| - 1;
      VisibleIsStrict(keys[..n], prefix);
      var shown := Visible(keys[..n], prefix);
      forall i | 0 <= i < |shown| ensures Less(shown[i], keys[n]) {
        assert shown[i] in keys[..n];
        var k :| 0 <= k < n && keys[k] == shown[i];
      }
      assert keys == keys[..n] + [keys[n]];
    }
  }

  function ViewOf(keys: seq<string>, prefix: string, delimiter: string): View {
    Grouped(Visible(keys, prefix), prefix, delimiter)
  }

  lemma ViewIsValid(keys: seq<string>, prefix: string, delimiter: string)
    requires Strict(keys)
    ensures ViewOf(keys, prefix, delimiter).Valid() && Strict(ViewOf(keys, prefix, delimiter).keys)
    ensures prefix != "" ==> Under(ViewOf(keys, prefix, delimiter).keys, prefix)
  {
    VisibleIsStrict(keys, prefix);
    var shown := Visible(keys, prefix);
    forall i | 0 <= i < |shown| ensures prefix <= shown[i] && (prefix != "" ==> Less(prefix, shown[i])) {
      assert shown[i] in shown;
      PrefixAtMost(prefix, shown[i]);
    }
    GroupedIsValid(shown, prefix, delimiter);
  }

  /** One page of a bucket for the admin listing: the page of the simple listing
      over the shown keys, resumable at the key it returns. */
  method ListBucketObjectEntries(keys: seq<string>, prefix: string, delimiter: string, after: string, maxKeys: int,
                                 batch: nat)
    returns (objects: seq<string>, folders: seq<string>, truncated: bool, next: string, ghost page: Page)
    requires Strict(keys) && 0 < batch
    ensures maxKeys <= 0 ==> objects == [] && folders == [] && !truncated
    ensures maxKeys > 0 ==> PageAt(keys, prefix, delimiter, after, maxKeys, page)
    ensures maxKeys > 0 ==> folders == page.folders && truncated == page.truncated
    ensures maxKeys > 0 ==> KeysAre(Visible(keys, prefix), page.rows, objects)
    ensures !truncated ==> next == ""
    ensures truncated
       ==> page.marker < |Visible(keys, prefix)| && next == Visible(keys, prefix)[page.marker] && next != ""
    ensures truncated ==> FirstRow(Visible(keys, prefix), next, false) == page.marker + 1
  {
    page := Page([], [], false, 0);
    if maxKeys <= 0 { return [], [], false, "", page; }
    ViewIsValid(keys, prefix, delimiter);
    var v := ViewOf(keys, prefix, delimiter);
    var p := ListPage(v, prefix != "" && prefix in keys, prefix, delimiter, after, maxKeys, batch);
    RowsInRange(v, after, FirstRow(v.keys, after, false), maxKeys, p);
    objects := seq(|p.rows|, k requires 0 <= k < |p.rows| => v.keys[p.rows[k]]);
    folders, truncated, next, page := p.folders, p.truncated, "", p;
    if truncated {
      next := v.keys[p.marker];
      CursorStarts(v, Cursor(next, "", false), p.marker + 1);
    }
  }

  /** The shown keys past a marker, as a listing. */
  function Whole(keys: seq<string>, prefix: string, delimiter: string, marker: string): seq<Item> {
    var v := ViewOf(keys, prefix, delimiter);
    v.Listing(marker, FirstRow(v.keys, marker, false))
  }

  predicate IsPast(marker: string, key: string) { marker == "" || Less(marker, key) }

  /** What the listing past a marker is, in terms of the bucket's keys: an object for
      each shown key with no delimiter after the prefix, a folder for each folder
      above the marker, both only of keys past the marker. */
  lemma ObjectsExactly(keys: seq<string>, prefix: string, delimiter: string, marker: string, k: nat)
    requires Strict(keys) && k < |Visible(keys, prefix)|
    ensures Row(k) in Whole(keys, prefix, delimiter, marker)
       <==> CommonPrefix(Visible(keys, prefix)[k], prefix, delimiter).None? && IsPast(marker, Visible(keys, prefix)[k])
  {
    var v := ViewOf(keys, prefix, delimiter);
    StartsPast(keys, prefix, delimiter, marker, k);
    ItemsExact(v, marker, FirstRow(v.keys, marker, false), |v.keys|, Row(k));
  }

  /** The keys shown are those that begin with the prefix, but for the prefix itself. */
  lemma ShownExactly(keys: seq<string>, prefix: string, key: string)
    requires Strict(keys)
    ensures key in Visible(keys, prefix) <==> key in keys && prefix <= key && (key == prefix ==> prefix == "")
  {
    VisibleIsStrict(keys, prefix);
  }

  lemma FoldersExactly(keys: seq<string>, prefix: string, delimiter: string, marker: string, c: string)
    requires Strict(keys)
    ensures Folder(c) in Whole(keys, prefix, delimiter, marker)
       <==> !AtMost(c, marker) && exists key :: key in Visible(keys, prefix) && IsPast(marker, key)
                                             && CommonPrefix(key, prefix, delimiter) == Some(c)
  {
    var v := ViewOf(keys, prefix, delimiter);
    var shown, lo := Visible(keys, prefix), FirstRow(v.keys, marker, false);
    ViewIsValid(keys, prefix, delimiter);
    StartIsAfter(v, marker);
    ItemsExact(v, marker, lo, |v.keys|, Folder(c));
    if i :| lo <= i < |v.keys| && v.Group(i) == Some(c) {
      StartsPast(keys, prefix, delimiter, marker, i);
      assert shown[i] in shown;
    }
    if key :| key in shown && IsPast(marker, key) && CommonPrefix(key, prefix, delimiter) == Some(c) {
      var i :| 0 <= i < |shown| && shown[i] == key;
      StartsPast(keys, prefix, delimiter, marker, i);
      assert v.Group(i) == Some(c);
    }
  }

  lemma StartsPast(keys: seq<string>, prefix: string, delimiter: string, marker: string, k: nat)
    requires Strict(keys) && k < |Visible(keys, prefix)|
    ensures var v := ViewOf(keys, prefix, delimiter);
            v.Valid() && StartsAfter(v, marker, FirstRow(v.keys, marker, false))
    ensures k >= FirstRow(Visible(keys, prefix), marker, false) <==> IsPast(marker, Visible(keys, prefix)[k])
  {
    var v := ViewOf(keys, prefix, delimiter);
    ViewIsValid(keys, prefix, delimiter);
    StartIsAfter(v, marker);
    var lo := FirstRow(v.keys, marker, false);
    if lo <= k && marker != "" {
      assert Past(v.keys[lo], marker, false);
      AtMostTransitive(marker, v.keys[lo], v.keys[k]);
    }
  }

  ghost predicate PageAt(keys: seq<string>, prefix: string, delimiter: string, marker: string, max: nat, page: Page) {
    IsPage(ViewOf(keys, prefix, delimiter), marker, FirstRow(Visible(keys, prefix), marker, false), max, page)
  }

  lemma LastPage(keys: seq<string>, prefix: string, delimiter: string, marker: string, max: nat, page: Page)
    requires PageAt(keys, prefix, delimiter, marker, max, page) && !page.truncated
    ensures page.rows == RowsOf(Whole(keys, prefix, delimiter, marker))
    ensures page.folders == FoldersOf(Whole(keys, prefix, delimiter, marker))
  {
  }

  lemma NextPage(keys: seq<string>, prefix: string, delimiter: string, marker: string, max: nat, page: Page,
                 next: string)
    requires Strict(keys) && PageAt(keys, prefix, delimiter, marker, max, page) && page.truncated
    requires page.marker < |Visible(keys, prefix)| && next == Visible(keys, prefix)[page.marker]
    requires FirstRow(Visible(keys, prefix), next, false) == page.marker + 1
    ensures var whole, rest := Whole(keys, prefix, delimiter, marker), Whole(keys, prefix, delimiter, next);
            RowsOf(whole) == page.rows + RowsOf(rest) && FoldersOf(whole) == page.folders + FoldersOf(rest)
    ensures FirstRow(Visible(keys, prefix), marker, false) < page.marker + 1
  {
    var v := ViewOf(keys, prefix, delimiter);
    ViewIsValid(keys, prefix, delimiter);
    StartIsAfter(v, marker);
    PageThenRest(v, marker, FirstRow(v.keys, marker, false), max, page);
  }

  ghost predicate KeysAre(shown: seq<string>, numbers: seq<nat>, objects: seq<string>) {
    |objects| == |numbers| && forall k :: 0 <= k < |objects| ==> numbers[k] < |shown| && objects[k] == shown[numbers[k]]
  }

  lemma KeysFollow(shown: seq<string>, a: seq<nat>, x: seq<string>, b: seq<nat>, y: seq<string>)
    requires KeysAre(shown, a, x) && KeysAre(shown, b, y)
    ensures KeysAre(shown, a + b, x + y)
  {
  }

  /** Following the returned keys from any start gives every shown object and every
      folder past it, once and in order. */
  method ListAllEntries(keys: seq<string>, prefix: string, delimiter: string, first: string, maxKeys: int, batch: nat)
    returns (objects: seq<string>, folders: seq<string>)
    requires Strict(keys) && 0 < batch && 0 < maxKeys
    ensures KeysAre(Visible(keys, prefix), RowsOf(Whole(keys, prefix, delimiter, first)), objects)
    ensures folders == FoldersOf(Whole(keys, prefix, delimiter, first))
  {
    hide Strict, IsPage, FirstRow, Whole, RowsOf, FoldersOf, Visible, ViewOf;
    ghost var numbers: seq<nat> := [];
    var marker := first;
    objects, folders := [], [];
    while true
      invariant KeysAre(Visible(keys, prefix), numbers, objects)
      invariant RowsOf(Whole(keys, prefix, delimiter, first))
          == numbers + RowsOf(Whole(keys, prefix, delimiter, marker))
      invariant FoldersOf(Whole(keys, prefix, delimiter, first))
          == folders + FoldersOf(Whole(keys, prefix, delimiter, marker))
      decreases |Visible(keys, prefix)| - FirstRow(Visible(keys, prefix), marker, false)
    {
      var pageObjects, pageFolders, truncated, next;
      ghost var page;
      pageObjects, pageFolders, truncated, next, page :=
        ListBucketObjectEntries(keys, prefix, delimiter, marker, maxKeys, batch);
      KeysFollow(Visible(keys, prefix), numbers, objects, page.rows, pageObjects);
      objects, folders, numbers := objects + pageObjects, folders + pageFolders, numbers + page.rows;
      if !truncated {
        LastPage(keys, prefix, delimiter, marker, maxKeys, page);
        return;
      }
      NextPage(keys, prefix, delimiter, marker, maxKeys, page, next);
      marker := next;
    }
  }
}
