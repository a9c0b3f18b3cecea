/**
 * What a listing with a prefix, a delimiter and a marker must return, row by
 * row and without batches, and why following its markers loses nothing.
 */
module ListingSpec {
  import opened Options
  import opened KeyOrder

  /** The first position where d occurs in s. */
  function IndexOf(s: string, d: string): Option<nat> {
    if d <= s then Some(0)
    else if |s| == 0 then None
    else match IndexOf(s[1..], d) case None => None case Some(i) => Some(i + 1)
  }

  /** The folder a key falls into: the prefix up to and including the first
      delimiter after it. */
  function CommonPrefix(key: string, prefix: string, delimiter: string): Option<string> {
    if delimiter == "" then None
    else
      var suffix := if prefix <= key then key[|prefix|..] else key;
      match IndexOf(suffix, delimiter)
      case None => None
      case Some(i) => if i <= |suffix| then Some(prefix + suffix[..i] + delimiter) else None
  }

  lemma {:induction false} IndexOfFirst(s: string, d: string)
    ensures match IndexOf(s, d)
            case Some(i) => i + |d| <= |s| && s[i..i + |d|] == d && forall j :: 0 <= j < i ==> !(d <= s[j..])
            case None => forall j :: 0 <= j <= |s| ==> !(d <= s[j..])
  {
    if d <= s {
      assert s[0..|d|] == d;
    } else if |s| > 0 {
      IndexOfFirst(s[1..], d);
      forall j | 1 <= j <= |s| ensures s[j..] == s[1..][j - 1..] {}
      match IndexOf(s[1..], d)
      case None =>
      case Some(i) => assert s[i + 1..i + 1 + |d|] == s[1..][i..i + |d|];
    }
  }

  /** The first occurrence is found again in any string that agrees up to its end. */
  lemma {:induction false} IndexOfStable(s: string, t: string, d: string, i: nat)
    requires IndexOf(s, d) == Some(i) && i + |d| <= |t| && i + |d| <= |s| && s[..i + |d|] == t[..i + |d|]
    ensures IndexOf(t, d) == Some(i)
  {
    assert s[..|d|] == s[..i + |d|][..|d|] == t[..|d|];
    if i > 0 {
      assert s[1..][..i - 1 + |d|] == s[..i + |d|][1..] == t[1..][..i - 1 + |d|];
      IndexOfStable(s[1..], t[1..], d, i - 1);
    }
  }

  /** A folder holds exactly the keys that begin with its name. */
  lemma FolderHoldsItsKeys(a: string, b: string, prefix: string, delimiter: string, c: string)
    requires prefix <= a && CommonPrefix(a, prefix, delimiter) == Some(c)
    ensures c <= a && prefix <= c && |c| > |prefix|
    ensures prefix <= b && c <= b ==> CommonPrefix(b, prefix, delimiter) == Some(c)
  {
    var s := a[|prefix|..];
    IndexOfFirst(s, delimiter);
    var i := IndexOf(s, delimiter).value;
    assert s[..i + |delimiter|] == s[..i] + delimiter;
    assert a == prefix + s;
    assert c == a[..|prefix| + i + |delimiter|];
    if prefix <= b && c <= b {
      var t := b[|prefix|..];
      assert t[..i + |delimiter|] == b[|prefix|..|prefix| + i + |delimiter|] == c[|prefix|..] == s[..i + |delimiter|];
      IndexOfStable(s, t, delimiter, i);
      assert t[..i] == t[..i + |delimiter|][..i] == s[..i];
    }
  }

  /** The delimiter stands at position j of the key, and nowhere between the prefix and there. */
  ghost predicate FirstDelimiter(key: string, prefix: string, delimiter: string, j: int) {
    && |prefix| <= j <= |key| && delimiter <= key[j..]
    && forall i :: |prefix| <= i < j ==> !(delimiter <= key[i..])
  }

  lemma Suffixes(key: string, n: nat, j: int)
    requires n <= j <= |key|
    ensures key[n..][j - n..] == key[j..]
  {
  }

  /** The search finds a first occurrence if there is one. */
  lemma IndexOfExactly(s: string, d: string, i: nat)
    requires i <= |s| && d <= s[i..] && forall j :: 0 <= j < i ==> !(d <= s[j..])
    ensures IndexOf(s, d) == Some(i)
  {
    IndexOfFirst(s, d);
    var k := IndexOf(s, d).value;
    assert s[k..][..|d|] == s[k..k + |d|];
    assert d <= s[k..];
  }

  /** The folder of a key is the key up to and including the first delimiter after the prefix. */
  lemma FolderAtFirst(key: string, prefix: string, delimiter: string, j: int)
    requires prefix <= key && delimiter != "" && FirstDelimiter(key, prefix, delimiter, j)
    ensures CommonPrefix(key, prefix, delimiter) == Some(key[..j] + delimiter)
  {
    var s, n := key[|prefix|..], |prefix|;
    Suffixes(key, n, j);
    forall i | 0 <= i < j - n ensures !(delimiter <= s[i..]) { Suffixes(key, n, n + i); }
    IndexOfExactly(s, delimiter, j - n);
    assert key[..j] == prefix + s[..j - n];
  }

  /** A key has a folder exactly when the delimiter occurs after the prefix. */
  lemma FolderExactly(key: string, prefix: string, delimiter: string)
    requires prefix <= key && delimiter != ""
    ensures CommonPrefix(key, prefix, delimiter).Some? <==> exists j :: FirstDelimiter(key, prefix, delimiter, j)
    ensures CommonPrefix(key, prefix, delimiter).None?
       <==> forall j :: |prefix| <= j <= |key| ==> !(delimiter <= key[j..])
  {
    var s, n := key[|prefix|..], |prefix|;
    IndexOfFirst(s, delimiter);
    if CommonPrefix(key, prefix, delimiter).Some? {
      var i := IndexOf(s, delimiter).value;
      Suffixes(key, n, n + i);
      assert s[i..][..|delimiter|] == s[i..i + |delimiter|];
      forall j | n <= j < n + i ensures !(delimiter <= key[j..]) { Suffixes(key, n, j); }
      assert FirstDelimiter(key, prefix, delimiter, n + i);
    } else {
      forall j | n <= j <= |key| ensures !(delimiter <= key[j..]) { Suffixes(key, n, j); }
    }
  }

  /** Without a delimiter there are no folders. */
  lemma NoDelimiterNoFolder(key: string, prefix: string)
    ensures CommonPrefix(key, prefix, "").None?
  {
  }

  datatype Item = Row(index: nat) | Folder(name: string)

  /** The rows of a bucket that begin with a prefix, in key order, each with the
      folder it falls into. Several rows may share a key when they are versions
      of one object. */
  datatype View = View(keys: seq<string>, groups: seq<Option<string>>) {

    ghost predicate Valid() {
      && |groups| == |keys|
      && (forall i :: 0 <= i < |keys| ==> keys[i] != "")
      && (forall i, j :: 0 <= i < j < |keys| ==> AtMost(keys[i], keys[j]))
      && (forall i, j :: 0 <= i < |keys| && 0 <= j < |keys| ==> OneFolder(i, j))
    }

    /** A row's folder begins its key, and every row that the folder begins is in it. */
    ghost predicate OneFolder(i: int, j: int)
      requires 0 <= i < |keys| == |groups| && 0 <= j < |keys|
    {
      groups[i].Some? ==>
        && groups[i].value <= keys[i] && groups[i].value != ""
        && (groups[i].value <= keys[j] ==> groups[j] == groups[i])
    }

    function Group(i: nat): Option<string>
      requires i < |keys|
    { if i < |groups| then groups[i] else None }

    /** The row is not the first of its folder. */
    predicate Repeats(i: nat)
      requires i < |keys|
    { i > 0 && Group(i).Some? && Group(i - 1) == Group(i) }

    /** What one row adds to a listing after a marker: itself, its folder, or
        nothing when the folder was listed by an earlier row or page. */
    function ItemAt(after: string, i: nat): seq<Item>
      requires i < |keys|
    {
      match Group(i)
      case None => [Row(i)]
      case Some(c) => if AtMost(c, after) || Repeats(i) then [] else [Folder(c)]
    }

    function Items(after: string, lo: nat, hi: nat): seq<Item>
      requires hi <= |keys|
    {
      if hi <= lo then [] else Items(after, lo, hi - 1) + ItemAt(after, hi - 1)
    }

    /** The listing after a marker whose rows start at `lo`. */
    function Listing(after: string, lo: nat): seq<Item>
      requires lo <= |keys|
    { Items(after, lo, |keys|) }

    function Name(item: Item): string {
      match item
      case Row(i) => if i < |keys| then keys[i] else ""
      case Folder(c) => c
    }
  }

  lemma SameFolder(v: View, i: nat, j: nat, c: string)
    requires v.Valid() && i < |v.keys| && j < |v.keys| && v.Group(i) == Some(c)
    ensures c <= v.keys[i] && c != "" && (c <= v.keys[j] ==> v.Group(j) == Some(c))
  {
    assert v.OneFolder(i, j);
  }

  /** The view of the keys that begin with `prefix`, grouped at `delimiter`. */
  function Grouped(keys: seq<string>, prefix: string, delimiter: string): View {
    View(keys, seq(|keys|, i requires 0 <= i < |keys| => CommonPrefix(keys[i], prefix, delimiter)))
  }

  lemma GroupedIsValid(keys: seq<string>, prefix: string, delimiter: string)
    requires forall i :: 0 <= i < |keys| ==> prefix <= keys[i] && keys[i] != ""
    requires forall i, j :: 0 <= i < j < |keys| ==> AtMost(keys[i], keys[j])
    ensures Grouped(keys, prefix, delimiter).Valid()
  {
    var v := Grouped(keys, prefix, delimiter);
    forall i, j | 0 <= i < |keys| && 0 <= j < |keys| ensures v.OneFolder(i, j) {
      if v.groups[i].Some? { FolderHoldsItsKeys(keys[i], keys[j], prefix, delimiter, v.groups[i].value); }
    }
  }

  /** Two adjacent ranges of rows list one after the other. */
  lemma {:induction false} ItemsSplit(v: View, after: string, lo: nat, mid: nat, hi: nat)
    requires lo <= mid <= hi <= |v.keys|
    ensures v.Items(after, lo, hi) == v.Items(after, lo, mid) + v.Items(after, mid, hi)
    decreases hi - mid
  {
    if mid < hi { ItemsSplit(v, after, lo, mid, hi - 1); }
  }

  /** A range of rows that all stay in the folder of the row before adds nothing. */
  lemma {:induction false} ItemsInFolder(v: View, after: string, lo: nat, hi: nat)
    requires 0 < lo <= hi <= |v.keys|
    requires forall i :: lo <= i < hi ==> v.Repeats(i)
    ensures v.Items(after, lo, hi) == []
    decreases hi - lo
  {
    if lo < hi {
      ItemsInFolder(v, after, lo, hi - 1);
      assert v.Repeats(hi - 1);
      assert v.ItemAt(after, hi - 1) == [];
    }
  }

  /** Rows between two members of a folder are members too. */
  lemma FolderIsContiguous(v: View, i: nat, j: nat, c: string)
    requires v.Valid() && i <= j < |v.keys| && v.Group(i) == Some(c)
    requires c <= v.keys[j]
    ensures forall k :: i <= k <= j ==> v.Group(k) == Some(c)
  {
    SameFolder(v, i, j, c);
    forall k | i <= k <= j ensures v.Group(k) == Some(c) {
      AtMostBetween(v, i, j, k, c);
      SameFolder(v, i, k, c);
    }
  }

  lemma AtMostBetween(v: View, i: nat, j: nat, k: nat, c: string)
    requires v.Valid() && i <= k <= j < |v.keys| && c <= v.keys[i] && c <= v.keys[j]
    ensures c <= v.keys[k]
  {
    UpperBoundContract(c, v.keys[i]);
    UpperBoundContract(c, v.keys[j]);
    UpperBoundContract(c, v.keys[k]);
    AtMostTransitive(c, v.keys[i], v.keys[k]);
    if PrefixUpperBound(c).Some? { AtMostTransitive(v.keys[k], v.keys[j], PrefixUpperBound(c).value); }
  }

  /** From a member of a folder on, the rows below the folder's upper bound are
      exactly its members. */
  lemma FolderUpToBound(v: View, i: nat, j: nat, c: string)
    requires v.Valid() && i <= j < |v.keys| && v.Group(i) == Some(c)
    ensures (PrefixUpperBound(c).Some? ==> Less(v.keys[j], PrefixUpperBound(c).value)) <==> v.Group(j) == Some(c)
    ensures v.Group(j) == Some(c) <==> c <= v.keys[j]
  {
    SameFolder(v, i, j, c);
    PrefixAtMost(c, v.keys[i]);
    AtMostTransitive(c, v.keys[i], v.keys[j]);
    UpperBoundContract(c, v.keys[j]);
    if v.Group(j) == Some(c) { SameFolder(v, j, j, c); }
  }

  // ------------------------------------------------------------------ markers

  /** `lo` is where a scan after the marker starts. */
  ghost predicate StartsAfter(v: View, after: string, lo: nat) {
    && lo <= |v.keys|
    && (forall i :: 0 <= i < lo ==> AtMost(v.keys[i], after))
    && (forall i :: lo <= i < |v.keys| ==> AtMost(after, v.keys[i]))
  }

  /** Moving the marker forward over listed rows does not change what the rows
      beyond it add. */
  lemma {:induction false} MarkerMoves(v: View, after: string, lo: nat, m: nat, hi: nat)
    requires v.Valid() && StartsAfter(v, after, lo) && lo <= m < hi <= |v.keys|
    ensures v.Items(v.keys[m], m + 1, hi) == v.Items(after, m + 1, hi)
    decreases hi
  {
    if m + 1 < hi {
      MarkerMoves(v, after, lo, m, hi - 1);
      var i := hi - 1;
      match v.Group(i)
      case None =>
      case Some(c) =>
        SameFolder(v, i, m, c);
        PrefixAtMost(c, v.keys[i]);
        if AtMost(c, v.keys[m]) {
          UpperBoundContract(c, v.keys[m]);
          UpperBoundContract(c, v.keys[i]);
          if PrefixUpperBound(c).Some? { AtMostTransitive(v.keys[m], v.keys[i], PrefixUpperBound(c).value); }
          FolderIsContiguous(v, m, i, c);
        } else {
          NotLess(v.keys[m], c);
          if AtMost(c, after) { AtMostTransitive(c, after, v.keys[m]); }
        }
    }
  }

  /** The rows up to m list the first k items: a page of those k items may
      return the key of row m as its marker. */
  ghost predicate IsMarker(v: View, after: string, lo: nat, m: nat, k: nat) {
    lo <= m < |v.keys| && |v.Items(after, lo, m + 1)| == k
  }

  /** Resuming at such a marker lists exactly what the page left out. */
  lemma ResumeListsTheRest(v: View, after: string, lo: nat, m: nat, k: nat)
    requires v.Valid() && StartsAfter(v, after, lo) && IsMarker(v, after, lo, m, k)
    ensures k <= |v.Listing(after, lo)|
    ensures v.Listing(v.keys[m], m + 1) == v.Listing(after, lo)[k..]
    ensures StartsAfter(v, v.keys[m], m + 1)
  {
    ItemsSplit(v, after, lo, m + 1, |v.keys|);
    MarkerMoves(v, after, lo, m, |v.keys|);
  }

  // ------------------------------------------------------------------ meaning

  /** A listing has a row exactly for each row outside folders, and a folder
      exactly for each folder above the marker that still has a row. */
  lemma {:induction false} ItemsExact(v: View, after: string, lo: nat, hi: nat, item: Item)
    requires v.Valid() && StartsAfter(v, after, lo) && lo <= hi <= |v.keys|
    ensures item in v.Items(after, lo, hi) <==>
              match item
              case Row(i) => lo <= i < hi && v.Group(i).None?
              case Folder(c) => !AtMost(c, after) && exists i :: lo <= i < hi && v.Group(i) == Some(c)
    decreases hi
  {
    if lo < hi {
      ItemsExact(v, after, lo, hi - 1, item);
      if item.Folder? && v.Group(hi - 1) == Some(item.name) && v.Repeats(hi - 1) && !AtMost(item.name, after) {
        if hi - 1 == lo {
          SameFolder(v, lo - 1, lo - 1, item.name);
          PrefixAtMost(item.name, v.keys[lo - 1]);
          AtMostTransitive(item.name, v.keys[lo - 1], after);
        }
      }
      assert item.Folder?
          ==> (v.Group(hi - 1) == Some(item.name) ==> exists i :: lo <= i < hi && v.Group(i) == Some(item.name));
    }
  }

  /** Every listed name is above the name of the last row listed before, so a
      listing is in order and lists nothing twice. */
  lemma {:induction false} ItemsOrdered(v: View, after: string, lo: nat, hi: nat, a: nat, b: nat)
    requires v.Valid() && StartsAfter(v, after, lo) && lo <= hi <= |v.keys|
    requires a < b < |v.Items(after, lo, hi)|
    ensures var s := v.Items(after, lo, hi);
            AtMost(v.Name(s[a]), v.Name(s[b])) && s[a] != s[b]
            && (s[a].Folder? || s[b].Folder? ==> Less(v.Name(s[a]), v.Name(s[b])))
    decreases hi
  {
    var s, r := v.Items(after, lo, hi), v.Items(after, lo, hi - 1);
    if b < |r| {
      ItemsOrdered(v, after, lo, hi - 1, a, b);
    } else {
      assert s[a] in r && s[b] == v.ItemAt(after, hi - 1)[0];
      ItemsExact(v, after, lo, hi - 1, s[a]);
      NewItemIsAbove(v, after, lo, hi - 1, s[a]);
    }
  }

  lemma NewItemIsAbove(v: View, after: string, lo: nat, i: nat, item: Item)
    requires v.Valid() && StartsAfter(v, after, lo) && lo <= i < |v.keys|
    requires item in v.Items(after, lo, i) && v.ItemAt(after, i) != []
    ensures var next := v.ItemAt(after, i)[0];
            AtMost(v.Name(item), v.Name(next)) && item != next
            && (item.Folder? || next.Folder? ==> Less(v.Name(item), v.Name(next)))
  {
    ItemsExact(v, after, lo, i, item);
    var next := v.ItemAt(after, i)[0];
    // The row that listed the earlier item.
    var k :| lo <= k < i && (if item.Row? then k == item.index else v.Group(k) == Some(item.name));
    if item.Folder? {
      SameFolder(v, k, i, item.name);
      PrefixAtMost(item.name, v.keys[k]);
      AtMostTransitive(item.name, v.keys[k], v.keys[i]);
    }
    match next
    case Row(_) =>
      if item.Folder? && v.keys[i] == item.name { assert false; }
    case Folder(c) =>
      SameFolder(v, i, k, c);
      if c <= v.keys[k] { FolderIsContiguous(v, k, i, c); }
      BelowFolder(v, k, i, c);
      if item.Folder? { AtMostTransitive(item.name, v.keys[k], c); }
  }

  /** A row before a folder that is not in it lies below the folder's name. */
  lemma BelowFolder(v: View, k: nat, i: nat, c: string)
    requires v.Valid() && k < i < |v.keys| && v.Group(i) == Some(c) && !(c <= v.keys[k])
    ensures Less(v.keys[k], c)
  {
    NotLess(v.keys[k], c);
    SameFolder(v, i, i, c);
    if AtMost(c, v.keys[k]) {
      UpperBoundContract(c, v.keys[i]);
      UpperBoundContract(c, v.keys[k]);
      if PrefixUpperBound(c).Some? { AtMostTransitive(v.keys[k], v.keys[i], PrefixUpperBound(c).value); }
    }
  }
}
