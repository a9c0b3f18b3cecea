/**
 * The moves a batched scan makes over a listing, shared by the three listing
 * loops: fetch rows past a cursor, list a row, list or pass over a folder.
 */
module ListingSteps {
  import opened Options
  import opened KeyOrder
  import opened ListingSpec

  predicate Past(key: string, cursor: string, inclusive: bool) {
    cursor == "" || Less(cursor, key) || (inclusive && key == cursor)
  }

  /** Where a query past the cursor starts. */
  function FirstRow(keys: seq<string>, cursor: string, inclusive: bool): (lo: nat)
    ensures lo <= |keys|
    ensures forall i :: 0 <= i < lo ==> !Past(keys[i], cursor, inclusive)
    ensures lo < |keys| ==> Past(keys[lo], cursor, inclusive)
  {
    if |keys| == 0 || Past(keys[0], cursor, inclusive) then 0
    else
      var r := FirstRow(keys[1..], cursor, inclusive);
      assert forall i :: 0 < i < r + 1 ==> keys[i] == keys[1..][i - 1];
      r + 1
  }

  function Least(a: int, b: int): int { if a < b then a else b }

  /** The number of rows a query returns when it starts at `lo`. */
  function BatchSize(total: nat, lo: nat, batch: nat): nat
    requires lo <= total
  { Least(batch, total - lo) }

  lemma StartIsAfter(v: View, after: string)
    requires v.Valid()
    ensures StartsAfter(v, after, FirstRow(v.keys, after, false))
  {
    var lo := FirstRow(v.keys, after, false);
    forall i | 0 <= i < lo ensures AtMost(v.keys[i], after) { NotLess(after, v.keys[i]); }
    forall i | lo <= i < |v.keys| ensures AtMost(after, v.keys[i]) {
      if after != "" { AtMostTransitive(after, v.keys[lo], v.keys[i]); }
    }
  }

  /** A scan stands between folders, never inside one it has entered. */
  ghost predicate Scanned(v: View, lo: nat, pos: nat) {
    lo <= pos <= |v.keys| && (lo < pos < |v.keys| ==> !v.Repeats(pos))
  }

  /** The first row after `pos` outside its folder. */
  function FolderEnd(v: View, pos: nat): (end: nat)
    requires pos < |v.keys|
    ensures pos < end <= |v.keys|
    ensures forall i :: pos <= i < end ==> v.Group(i) == v.Group(pos)
    ensures end < |v.keys| ==> v.Group(end) != v.Group(pos)
    decreases |v.keys| - pos
  {
    if pos + 1 == |v.keys| || v.Group(pos + 1) != v.Group(pos) then pos + 1 else FolderEnd(v, pos + 1)
  }

  /** A folder that was entered before the marker is not above it. */
  lemma EnteredBeforeMarker(v: View, after: string, lo: nat, c: string)
    requires v.Valid() && StartsAfter(v, after, lo) && lo < |v.keys| && v.Group(lo) == Some(c) && v.Repeats(lo)
    ensures AtMost(c, after)
  {
    SameFolder(v, lo - 1, lo - 1, c);
    PrefixAtMost(c, v.keys[lo - 1]);
    AtMostTransitive(c, v.keys[lo - 1], after);
  }

  /** The row a scan stands at lists its folder unless that is not above the marker. */
  lemma FolderItem(v: View, after: string, lo: nat, pos: nat, c: string)
    requires v.Valid() && StartsAfter(v, after, lo) && Scanned(v, lo, pos)
    requires pos < |v.keys| && v.Group(pos) == Some(c)
    ensures v.ItemAt(after, pos) == if AtMost(c, after) then [] else [Folder(c)]
  {
    if pos == lo && v.Repeats(pos) { EnteredBeforeMarker(v, after, lo, c); }
  }

  lemma NextItem(v: View, after: string, lo: nat, pos: nat)
    requires lo <= pos < |v.keys|
    ensures v.Items(after, lo, pos + 1) == v.Items(after, lo, pos) + v.ItemAt(after, pos)
  {
  }

  /** A folder above the marker is listed by its first row, and its other rows
      add nothing. */
  lemma FolderStep(v: View, after: string, lo: nat, pos: nat, c: string)
    requires v.Valid() && StartsAfter(v, after, lo) && Scanned(v, lo, pos)
    requires pos < |v.keys| && v.Group(pos) == Some(c)
    ensures var end := FolderEnd(v, pos);
            && v.Items(after, lo, end) == v.Items(after, lo, pos) + (if AtMost(c, after) then [] else [Folder(c)])
            && v.Items(after, pos + 1, end) == []
            && Scanned(v, lo, end)
  {
    hide StartsAfter, AtMost, View.Items, View.ItemAt, View.Valid;
    var end := FolderEnd(v, pos);
    NextItem(v, after, lo, pos);
    RestOfFolder(v, after, pos, end);
    ItemsSplit(v, after, lo, pos + 1, end);
    FolderItem(v, after, lo, pos, c);
  }

  lemma RestOfFolder(v: View, after: string, pos: nat, end: nat)
    requires pos < end <= |v.keys| && v.Group(pos).Some?
    requires forall i :: pos <= i < end ==> v.Group(i) == v.Group(pos)
    ensures v.Items(after, pos + 1, end) == []
  {
    forall i | pos + 1 <= i < end ensures v.Repeats(i) { assert v.Group(i - 1) == v.Group(pos); }
    ItemsInFolder(v, after, pos + 1, end);
  }

  /** The folder of the row a scan stands at has not been listed in this page. */
  lemma FolderIsNew(v: View, after: string, lo: nat, pos: nat, c: string)
    requires v.Valid() && StartsAfter(v, after, lo) && Scanned(v, lo, pos)
    requires pos < |v.keys| && v.Group(pos) == Some(c)
    ensures Folder(c) !in v.Items(after, lo, pos)
  {
    ItemsExact(v, after, lo, pos, Folder(c));
    SameFolder(v, pos, pos, c);
    forall i | lo <= i < pos && v.Group(i) == Some(c) ensures false {
      FolderIsContiguous(v, i, pos, c);
    }
  }

  /** From row `from` on, the rows before `pos` are skipped and no later one is. */
  ghost predicate SkipsTo(v: View, skip: string, from: nat, pos: nat) {
    && (forall i :: from <= i < pos && i < |v.keys| ==> skip != "" && Less(v.keys[i], skip))
    && (forall i :: pos <= i < |v.keys| ==> skip == "" || !Less(v.keys[i], skip))
  }

  /** A query from a folder's upper bound continues at the folder's end. */
  lemma JumpReachesEnd(v: View, pos: nat, c: string)
    requires v.Valid() && pos < |v.keys| && v.Group(pos) == Some(c)
    ensures match PrefixUpperBound(c)
            case None => FolderEnd(v, pos) == |v.keys|
            case Some(u) =>
              FirstRow(v.keys, u, true) == FolderEnd(v, pos) && SkipsTo(v, u, pos + 1, FolderEnd(v, pos))
  {
    var end := FolderEnd(v, pos);
    match PrefixUpperBound(c)
    case None => if end < |v.keys| { FolderUpToBound(v, pos, end, c); }
    case Some(u) =>
      forall i | 0 <= i < end ensures Less(v.keys[i], u) && !Past(v.keys[i], u, true) {
        if i < pos {
          FolderUpToBound(v, pos, pos, c);
          AtMostTransitive(v.keys[i], v.keys[pos], u);
        } else {
          FolderUpToBound(v, pos, i, c);
        }
        NotLess(u, v.keys[i]);
        LessIrreflexive(u);
      }
      forall i | end <= i < |v.keys| ensures !Less(v.keys[i], u) && Past(v.keys[i], u, true) {
        FolderUpToBound(v, pos, end, c);
        NotLess(v.keys[end], u);
        AtMostTransitive(u, v.keys[end], v.keys[i]);
        NotLess(v.keys[i], u);
      }
      BoundIsNotEmpty(v, pos, c);
  }

  lemma BoundIsNotEmpty(v: View, pos: nat, c: string)
    requires v.Valid() && pos < |v.keys| && PrefixUpperBound(c).Some? && v.Group(pos) == Some(c)
    ensures PrefixUpperBound(c).value != ""
  {
    SameFolder(v, pos, pos, c);
    UpperBoundContract(c, v.keys[pos]);
  }

  // ------------------------------------------------------- what a page returns

  function RowsOf(items: seq<Item>): seq<nat> {
    if items == [] then []
    else
      var last := items[|items| - 1];
      RowsOf(items[..|items| - 1]) + if last.Row? then [last.index] else []
  }

  function FoldersOf(items: seq<Item>): seq<string> {
    if items == [] then []
    else
      var last := items[|items| - 1];
      FoldersOf(items[..|items| - 1]) + if last.Folder? then [last.name] else []
  }

  lemma AddItem(items: seq<Item>, item: Item)
    ensures RowsOf(items + [item]) == RowsOf(items) + if item.Row? then [item.index] else []
    ensures FoldersOf(items + [item]) == FoldersOf(items) + if item.Folder? then [item.name] else []
  {
    assert (items + [item])[..|items|] == items;
  }

  lemma {:induction false} ItemCounts(items: seq<Item>, name: string)
    ensures |RowsOf(items)| + |FoldersOf(items)| == |items|
    ensures name in FoldersOf(items) <==> Folder(name) in items
  {
    if items != [] { ItemCounts(items[..|items| - 1], name); }
  }

  /** A page of at most `max` items of a listing, and how to go on. */
  datatype Page = Page(rows: seq<nat>, folders: seq<string>, truncated: bool, marker: nat)

  ghost predicate IsPage(v: View, after: string, lo: nat, max: nat, page: Page) {
    && lo <= |v.keys|
    && var items := v.Listing(after, lo);
    var shown := if |items| <= max then items else items[..max];
    && page.rows == RowsOf(shown) && page.folders == FoldersOf(shown)
    && page.truncated == (|items| > max)
    && (page.truncated ==> IsMarker(v, after, lo, page.marker, max))
  }

  /** A client that follows the markers: each page resumes after the row whose
      key the page before returned, until one is not truncated. */
  ghost predicate Walk(v: View, after: string, lo: nat, max: nat, pages: seq<Page>)
    decreases |pages|
  {
    && |pages| > 0 && IsPage(v, after, lo, max, pages[0])
    && if pages[0].truncated then Walk(v, v.keys[pages[0].marker], pages[0].marker + 1, max, pages[1..])
       else |pages| == 1
  }

  function AllRows(pages: seq<Page>): seq<nat> {
    if pages == [] then [] else pages[0].rows + AllRows(pages[1..])
  }

  function AllFolders(pages: seq<Page>): seq<string> {
    if pages == [] then [] else pages[0].folders + AllFolders(pages[1..])
  }

  lemma {:induction false} Joined(a: seq<Item>, b: seq<Item>)
    ensures RowsOf(a + b) == RowsOf(a) + RowsOf(b)
    ensures FoldersOf(a + b) == FoldersOf(a) + FoldersOf(b)
  {
    if b == [] {
      assert a + b == a;
    } else {
      var init, last := b[..|b| - 1], b[|b| - 1];
      Joined(a, init);
      AddItem(a + init, last);
      AddItem(init, last);
      assert b == init + [last];
      assert a + b == (a + init) + [last];
    }
  }

  /** A truncated page and the listing after its marker make up the whole. */
  lemma PageThenRest(v: View, after: string, lo: nat, max: nat, page: Page)
    requires v.Valid() && StartsAfter(v, after, lo) && IsPage(v, after, lo, max, page) && page.truncated
    ensures var rest := v.Listing(v.keys[page.marker], page.marker + 1);
            && RowsOf(v.Listing(after, lo)) == page.rows + RowsOf(rest)
            && FoldersOf(v.Listing(after, lo)) == page.folders + FoldersOf(rest)
            && |v.Listing(after, lo)| == max + |rest|
            && StartsAfter(v, v.keys[page.marker], page.marker + 1)
  {
    var items := v.Listing(after, lo);
    ResumeListsTheRest(v, after, lo, page.marker, max);
    Joined(items[..max], items[max..]);
    assert items == items[..max] + items[max..];
  }

  /** Following the markers lists every row and every folder of the listing once
      and in order. */
  lemma {:induction false} WalkListsEverything(v: View, after: string, lo: nat, max: nat, pages: seq<Page>)
    requires v.Valid() && max > 0 && StartsAfter(v, after, lo) && Walk(v, after, lo, max, pages)
    ensures AllRows(pages) == RowsOf(v.Listing(after, lo))
    ensures AllFolders(pages) == FoldersOf(v.Listing(after, lo))
    decreases |pages|
  {
    var page := pages[0];
    if page.truncated {
      PageThenRest(v, after, lo, max, page);
      WalkListsEverything(v, v.keys[page.marker], page.marker + 1, max, pages[1..]);
    } else {
      assert pages[1..] == [];
    }
  }

  /** A walk ends: every truncated page takes `max` items off the listing. */
  lemma {:induction false} WalkIsShort(v: View, after: string, lo: nat, max: nat, pages: seq<Page>)
    requires v.Valid() && max > 0 && StartsAfter(v, after, lo) && Walk(v, after, lo, max, pages)
    ensures |pages| <= |v.Listing(after, lo)| + 1
    decreases |pages|
  {
    var page := pages[0];
    if page.truncated {
      PageThenRest(v, after, lo, max, page);
      WalkIsShort(v, v.keys[page.marker], page.marker + 1, max, pages[1..]);
    }
  }
}
