/**
 * Entity-tag lists in If-Match and If-None-Match headers: the grammar of sections
 * 5.6.1 and 8.8.3 of RFC 9110, the reader that scans a header value, and the
 * fallback for values that lost their outer quotes on the way.
 */
module EntityTags {
  import opened Options

  datatype Tag = Tag(weak: bool, text: string)

  predicate IsSpace(c: char) { c == ' ' || c == '\t' }

  predicate IsGap(c: char) { IsSpace(c) || c == ',' }

  predicate IsTagChar(c: char) { c as int >= 0x21 && c as int != 0x7f && c != '"' }

  predicate AllSpace(s: string) { forall i :: 0 <= i < |s| ==> IsSpace(s[i]) }

  predicate AllGap(s: string) { forall i :: 0 <= i < |s| ==> IsGap(s[i]) }

  predicate AllTagChars(s: string) { forall i :: 0 <= i < |s| ==> IsTagChar(s[i]) }

  // ----------------------------------------------------------------- grammar

  function Quoted(text: string): string { "\"" + text + "\"" }

  function Print(tag: Tag): string { if tag.weak then "W/" + Quoted(tag.text) else Quoted(tag.text) }

  /** The tags, each after its own separator, and what follows the last. */
  function Join(gaps: seq<string>, tags: seq<Tag>, tail: string): string
    requires |gaps| == |tags|
  {
    if tags == [] then tail else gaps[0] + Print(tags[0]) + Join(gaps[1..], tags[1..], tail)
  }

  /** Spaces, tabs and commas. */
  predicate IsSeparator(s: string) { forall i :: 0 <= i < |s| ==> s[i] in [' ', '\t', ','] }

  /** Any commas and white space, with at least one comma between two tags. */
  predicate Separates(gaps: seq<string>, tail: string) {
    && IsSeparator(tail)
    && (forall i :: 0 <= i < |gaps| ==> IsSeparator(gaps[i]))
    && (forall i :: 1 <= i < |gaps| ==> ',' in gaps[i])
  }

  /** The characters of an entity tag in section 8.8.3 of RFC 9110. */
  predicate IsEtagChar(c: char) { c as int == 0x21 || 0x23 <= c as int <= 0x7e || c as int >= 0x80 }

  predicate AllValid(tags: seq<Tag>) {
    forall i :: 0 <= i < |tags| ==> forall k :: 0 <= k < |tags[i].text| ==> IsEtagChar(tags[i].text[k])
  }

  /** The reader's characters and separators are those of the grammar. */
  lemma SameCharacters(s: string)
    ensures AllTagChars(s) <==> forall k :: 0 <= k < |s| ==> IsEtagChar(s[k])
    ensures AllGap(s) <==> IsSeparator(s)
  {
    forall k | 0 <= k < |s| ensures IsTagChar(s[k]) <==> IsEtagChar(s[k]) {
      assert '"' as int == 0x22;
    }
  }

  ghost predicate IsListOf(value: string, tags: seq<Tag>) {
    AllValid(tags)
    && exists gaps: seq<string>, tail: string ::
         |gaps| == |tags| && Separates(gaps, tail) && value == Join(gaps, tags, tail)
  }

  // ------------------------------------------------------------------ reader

  function SkipSpace(s: string): (r: string)
    ensures |r| <= |s|
  { if s != "" && IsSpace(s[0]) then SkipSpace(s[1..]) else s }

  function SkipGap(s: string): (r: string)
    ensures |r| <= |s|
  { if s != "" && IsGap(s[0]) then SkipGap(s[1..]) else s }

  function TrimEnd(s: string): (r: string)
    ensures |r| <= |s|
  { if s != "" && IsSpace(s[|s| - 1]) then TrimEnd(s[..|s| - 1]) else s }

  function Trim(s: string): string { TrimEnd(SkipSpace(s)) }

  /** Where the first quote is, or the length when there is none. */
  function QuoteAt(s: string): (n: nat)
    ensures n <= |s|
  { if s == "" || s[0] == '"' then 0 else 1 + QuoteAt(s[1..]) }

  /** A quoted text at the front of a value, and what follows it. */
  function FirstQuoted(v: string): (r: Option<(string, string)>)
    ensures r.Some? ==> |r.value.1| < |v|
  {
    if |v| < 2 || v[0] != '"' then None else
    var end := QuoteAt(v[1..]);
    if end == |v| - 1 || !AllTagChars(v[1..1 + end]) then None
    else Some((v[1..1 + end], v[end + 2..]))
  }

  /** One tag at the front of a value, and what follows it. */
  function FirstTag(v: string): (r: Option<(Tag, string)>)
    ensures r.Some? ==> |r.value.1| < |v|
  {
    var weak := "W/" <= v;
    match FirstQuoted(if weak then v[2..] else v)
    case None => None
    case Some((text, rest)) => Some((Tag(weak, text), rest))
  }

  /** The tags of a value, read from its front, or none when it is not a list. */
  function Read(s: string): (r: Option<seq<Tag>>)
    decreases |s|
  {
    var v := SkipGap(s);
    if v == "" then Some([]) else
    match FirstTag(v)
    case None => None
    case Some((tag, rest)) => Prefixed(tag, SkipSpace(rest), Read(SkipSpace(rest)))
  }

  /** A tag must be followed by nothing or a comma. */
  function Prefixed(tag: Tag, rest: string, tags: Option<seq<Tag>>): Option<seq<Tag>> {
    if tags.None? || (rest != "" && rest[0] != ',') then None else Some([tag] + tags.value)
  }

  lemma {:induction false} QuoteAtReads(text: string, rest: string)
    requires '"' !in text
    ensures QuoteAt(text + "\"" + rest) == |text|
  {
    var s := text + "\"" + rest;
    if text == "" {
      assert s[0] == '"';
    } else {
      assert s[0] == text[0] && s[1..] == text[1..] + "\"" + rest;
      QuoteAtReads(text[1..], rest);
    }
  }

  lemma {:induction false} QuoteAtIsQuote(s: string)
    requires QuoteAt(s) < |s|
    ensures s[QuoteAt(s)] == '"'
  {
    if s[0] != '"' { QuoteAtIsQuote(s[1..]); }
  }

  lemma FirstQuotedReads(text: string, rest: string)
    requires AllTagChars(text)
    ensures FirstQuoted(Quoted(text) + rest) == Some((text, rest))
  {
    var v := Quoted(text) + rest;
    assert v[1..] == text + "\"" + rest;
    QuoteAtReads(text, rest);
    assert v[1..1 + |text|] == text && v[|text| + 2..] == rest;
  }

  lemma FirstQuotedIsQuoted(v: string)
    requires FirstQuoted(v).Some?
    ensures v == Quoted(FirstQuoted(v).value.0) + FirstQuoted(v).value.1 && AllTagChars(FirstQuoted(v).value.0)
  {
    var end := QuoteAt(v[1..]);
    QuoteAtIsQuote(v[1..]);
    assert v == [v[0]] + v[1..1 + end] + [v[1 + end]] + v[end + 2..];
  }

  lemma FirstTagReads(tag: Tag, rest: string)
    requires AllTagChars(tag.text)
    ensures FirstTag(Print(tag) + rest) == Some((tag, rest))
  {
    var v := Print(tag) + rest;
    var body := Quoted(tag.text) + rest;
    if tag.weak {
      assert v == "W/" + body && v[2..] == body && "W/" <= v;
    } else {
      assert v == body && v[0] == '"';
    }
    FirstQuotedReads(tag.text, rest);
  }

  lemma Regroup(a: string, b: string, c: string)
    ensures a + (b + c) == a + b + c
  {
  }

  lemma FirstTagIsPrinted(v: string)
    requires FirstTag(v).Some?
    ensures v == Print(FirstTag(v).value.0) + FirstTag(v).value.1 && AllTagChars(FirstTag(v).value.0.text)
  {
    hide FirstQuoted, AllTagChars, Quoted;
    var body := if "W/" <= v then v[2..] else v;
    FirstQuotedIsQuoted(body);
    if "W/" <= v {
      assert v == "W/" + body;
      Regroup("W/", Quoted(FirstQuoted(body).value.0), FirstQuoted(body).value.1);
    }
  }

  lemma {:induction false} SplitGap(s: string) returns (g: string)
    ensures s == g + SkipGap(s) && AllGap(g)
  {
    if s != "" && IsGap(s[0]) {
      var g' := SplitGap(s[1..]);
      g := [s[0]] + g';
      assert s == [s[0]] + s[1..];
      Regroup([s[0]], g', SkipGap(s));
    } else {
      g := "";
    }
  }

  lemma {:induction false} SplitSpace(s: string) returns (g: string)
    ensures s == g + SkipSpace(s) && AllSpace(g)
  {
    if s != "" && IsSpace(s[0]) {
      var g' := SplitSpace(s[1..]);
      g := [s[0]] + g';
      assert s == [s[0]] + s[1..];
      Regroup([s[0]], g', SkipSpace(s));
    } else {
      g := "";
    }
  }

  lemma {:induction false} SkipGapPast(g: string, s: string)
    requires AllGap(g)
    ensures SkipGap(g + s) == SkipGap(s)
  {
    if g == "" {
      assert g + s == s;
    } else {
      assert (g + s)[1..] == g[1..] + s;
      SkipGapPast(g[1..], s);
    }
  }

  /** Leading white space and commas make no difference. */
  lemma ReadSkips(g: string, s: string)
    requires AllGap(g)
    ensures Read(g + s) == Read(s)
  {
    SkipGapPast(g, s);
  }

  lemma ReadSkipsSpace(s: string)
    ensures Read(SkipSpace(s)) == Read(s)
  {
    var g := SplitSpace(s);
    ReadSkips(g, SkipSpace(s));
  }

  lemma ReadSkipsGap(s: string)
    ensures Read(SkipGap(s)) == Read(s)
  {
    var g := SplitGap(s);
    ReadSkips(g, SkipGap(s));
  }

  lemma ReadTagFirst(g: string, tag: Tag, rest: string)
    requires AllGap(g) && AllTagChars(tag.text)
    ensures Read(g + Print(tag) + rest) == Prefixed(tag, SkipSpace(rest), Read(rest))
  {
    var v := Print(tag) + rest;
    assert g + Print(tag) + rest == g + v;
    ReadSkips(g, v);
    FirstTagReads(tag, rest);
    ReadSkipsSpace(rest);
    assert v[0] == '"' || v[0] == 'W';
  }

  lemma {:induction false} GapThenComma(g: string, s: string)
    requires AllGap(g) && ',' in g
    ensures SkipSpace(g + s) != "" && SkipSpace(g + s)[0] == ','
  {
    if g[0] == ',' {
      assert (g + s)[0] == ',';
    } else {
      assert (g + s)[1..] == g[1..] + s;
      assert g == [g[0]] + g[1..];
      GapThenComma(g[1..], s);
    }
  }

  lemma GapIsNothing(g: string)
    requires AllGap(g)
    ensures Read(g) == Some([])
  {
    assert g + "" == g;
    SkipGapPast(g, "");
  }

  /** Every list of well-formed tags, however separated, reads back as those tags. */
  lemma {:induction false} ReadsEveryList(gaps: seq<string>, tags: seq<Tag>, tail: string)
    requires |gaps| == |tags| && Separates(gaps, tail) && AllValid(tags)
    ensures Read(Join(gaps, tags, tail)) == Some(tags)
    decreases |tags|
  {
    hide Read, SkipGap, SkipSpace, Print, AllTagChars, AllGap, IsSeparator;
    SameCharacters(tail);
    if tags == [] {
      GapIsNothing(tail);
    } else {
      SameCharacters(gaps[0]);
      SameCharacters(tags[0].text);
      ReadTagFirst(gaps[0], tags[0], Join(gaps[1..], tags[1..], tail));
      RestIsSeparated(gaps[1..], tags[1..], tail);
      ReadsEveryList(gaps[1..], tags[1..], tail);
      assert tags == [tags[0]] + tags[1..];
    }
  }

  lemma {:induction false} SpacesThenGap(g: string)
    requires AllGap(g)
    ensures SkipSpace(g) == "" || SkipSpace(g)[0] == ','
  {
    if g != "" && IsSpace(g[0]) { SpacesThenGap(g[1..]); }
  }

  lemma RestIsSeparated(gaps: seq<string>, tags: seq<Tag>, tail: string)
    requires |gaps| == |tags| && Separates(gaps, tail) && (gaps != [] ==> ',' in gaps[0])
    ensures var r := SkipSpace(Join(gaps, tags, tail)); r == "" || r[0] == ','
  {
    if tags == [] {
      SpacesThenGap(tail);
    } else {
      var rest := Print(tags[0]) + Join(gaps[1..], tags[1..], tail);
      GapThenComma(gaps[0], rest);
      assert gaps[0] + Print(tags[0]) + Join(gaps[1..], tags[1..], tail) == gaps[0] + rest;
    }
  }

  /** Puts white space before a list. */
  function Widened(w: string, gaps: seq<string>, tail: string): (r: (seq<string>, string))
    ensures |r.0| == |gaps|
  { if gaps == [] then ([], w + tail) else ([w + gaps[0]] + gaps[1..], tail) }

  lemma WidenedJoins(w: string, gaps: seq<string>, tags: seq<Tag>, tail: string)
    requires |gaps| == |tags|
    ensures var (gaps', tail') := Widened(w, gaps, tail); Join(gaps', tags, tail') == w + Join(gaps, tags, tail)
  {
    if tags != [] {
      var (gaps', _) := Widened(w, gaps, tail);
      var rest := Join(gaps[1..], tags[1..], tail);
      assert gaps'[1..] == gaps[1..];
      assert w + gaps[0] + Print(tags[0]) + rest == w + (gaps[0] + Print(tags[0]) + rest);
    }
  }

  lemma JoinFirst(g: string, tag: Tag, gaps: seq<string>, tags: seq<Tag>, tail: string)
    requires |gaps| == |tags|
    ensures Join([g] + gaps, [tag] + tags, tail) == g + Print(tag) + Join(gaps, tags, tail)
  {
    assert ([g] + gaps)[1..] == gaps && ([tag] + tags)[1..] == tags;
  }

  lemma StartsWithComma(gaps: seq<string>, tags: seq<Tag>, tail: string)
    requires |gaps| == |tags| && tags != []
    requires var r := Join(gaps, tags, tail); r == "" || r[0] == ','
    ensures ',' in gaps[0]
  {
    var p := Print(tags[0]);
    var r := gaps[0] + p + Join(gaps[1..], tags[1..], tail);
    assert p[0] == '"' || p[0] == 'W';
    assert r[|gaps[0]|] == p[0];
  }

  lemma Separated(g: string, w: string, gaps: seq<string>, tail: string)
    requires Separates(gaps, tail) && AllGap(g) && AllSpace(w) && (gaps != [] ==> ',' in gaps[0])
    ensures var (gaps', tail') := Widened(w, gaps, tail); Separates([g] + gaps', tail')
  {
    var (gaps', tail') := Widened(w, gaps, tail);
    if gaps != [] {
      var i :| 0 <= i < |gaps[0]| && gaps[0][i] == ',';
      assert gaps'[0][|w| + i] == ',';
      assert forall j :: 1 <= j < |gaps'| ==> gaps'[j] == gaps[j];
    }
  }

  lemma ReadStep(s: string) returns (g: string, tag: Tag, w: string, r: string)
    requires Read(s).Some? && SkipGap(s) != ""
    ensures s == g + Print(tag) + (w + r) && AllGap(g) && AllSpace(w) && AllGap(w) && AllTagChars(tag.text) && |r| < |s|
    ensures (r == "" || r[0] == ',') && Read(r).Some? && Read(s).value == [tag] + Read(r).value
  {
    var v := SkipGap(s);
    g := SplitGap(s);
    FirstTagIsPrinted(v);
    tag := FirstTag(v).value.0;
    var rest := FirstTag(v).value.1;
    r := SkipSpace(rest);
    w := SplitSpace(rest);
    assert g + (Print(tag) + rest) == g + Print(tag) + rest;
  }

  /** And only lists are read: a value that reads as tags was made of them. */
  lemma {:induction false} ReadsOnlyLists(s: string)
    requires Read(s).Some?
    ensures IsListOf(s, Read(s).value)
    decreases |s|
  {
    if SkipGap(s) == "" {
      var g := SplitGap(s);
      assert s == Join([], [], s) && Separates([], s);
    } else {
      var g, tag, w, r := ReadStep(s);
      var tags := Read(r).value;
      ReadsOnlyLists(r);
      var gaps: seq<string>, tail: string :| |gaps| == |tags| && Separates(gaps, tail) && r == Join(gaps, tags, tail);
      ListFirst(g, tag, w, gaps, tags, tail);
    }
  }

  lemma ListFirst(g: string, tag: Tag, w: string, gaps: seq<string>, tags: seq<Tag>, tail: string)
    requires |gaps| == |tags| && Separates(gaps, tail) && AllValid(tags) && AllGap(g) && AllSpace(w)
    requires AllTagChars(tag.text)
    requires var r := Join(gaps, tags, tail); r == "" || r[0] == ','
    ensures IsListOf(g + Print(tag) + (w + Join(gaps, tags, tail)), [tag] + tags)
  {
    if tags != [] { StartsWithComma(gaps, tags, tail); }
    var (gaps', tail') := Widened(w, gaps, tail);
    WidenedJoins(w, gaps, tags, tail);
    JoinFirst(g, tag, gaps', tags, tail');
    Separated(g, w, gaps, tail);
    assert Join([g] + gaps', [tag] + tags, tail') == g + Print(tag) + (w + Join(gaps, tags, tail));
  }

  // ---------------------------------------------------- trailing white space

  lemma {:induction false} SkipGapAppend(s: string, c: char)
    requires IsSpace(c)
    ensures SkipGap(s + [c]) == if SkipGap(s) == "" then "" else SkipGap(s) + [c]
  {
    if s == "" {
      assert s + [c] == [c];
      assert SkipGap([c]) == SkipGap([c][1..]);
    } else {
      assert (s + [c])[1..] == s[1..] + [c];
      if IsGap(s[0]) { SkipGapAppend(s[1..], c); }
    }
  }

  lemma {:induction false} SkipSpaceAppend(s: string, c: char)
    requires IsSpace(c)
    ensures SkipSpace(s + [c]) == if SkipSpace(s) == "" then "" else SkipSpace(s) + [c]
  {
    if s == "" {
      assert s + [c] == [c];
      assert SkipSpace([c]) == SkipSpace([c][1..]);
    } else {
      assert (s + [c])[1..] == s[1..] + [c];
      if IsSpace(s[0]) { SkipSpaceAppend(s[1..], c); }
    }
  }

  lemma FirstTagAppend(v: string, c: char)
    requires v != "" && IsSpace(c)
    ensures FirstTag(v).None? ==> FirstTag(v + [c]).None?
    ensures FirstTag(v).Some? ==> FirstTag(v + [c]) == Some((FirstTag(v).value.0, FirstTag(v).value.1 + [c]))
  {
    hide FirstTag, Print, AllTagChars;
    if FirstTag(v).Some? {
      var (tag, rest) := FirstTag(v).value;
      FirstTagIsPrinted(v);
      assert v + [c] == Print(tag) + (rest + [c]);
      FirstTagReads(tag, rest + [c]);
    } else if FirstTag(v + [c]).Some? {
      var (tag, rest) := FirstTag(v + [c]).value;
      FirstTagIsPrinted(v + [c]);
      EndsWithQuote(tag);
      DropLast(v, c, Print(tag), rest);
      FirstTagReads(tag, rest[..|rest| - 1]);
    }
  }

  lemma EndsWithQuote(tag: Tag)
    ensures Print(tag) != "" && Print(tag)[|Print(tag)| - 1] == '"'
  {
  }

  lemma DropLast(v: string, c: char, p: string, rest: string)
    requires v + [c] == p + rest && p != "" && p[|p| - 1] != c
    ensures rest != "" && v == p + rest[..|rest| - 1]
  {
    var s := v + [c];
    assert s[|v|] == c && s[|p| - 1] == p[|p| - 1];
    assert s[..|v|] == v;
  }

  lemma {:induction false} ReadAppend(s: string, c: char)
    requires IsSpace(c)
    ensures Read(s + [c]) == Read(s)
    decreases |s|
  {
    SkipGapAppend(s, c);
    var v := SkipGap(s);
    if v != "" {
      FirstTagAppend(v, c);
      if FirstTag(v).Some? {
        FirstTagIsPrinted(v);
        var rest := FirstTag(v).value.1;
        SkipSpaceAppend(rest, c);
        ReadAppend(SkipSpace(rest), c);
      }
    }
  }

  lemma {:induction false} ReadTrimEnd(s: string)
    ensures Read(TrimEnd(s)) == Read(s)
  {
    if s != "" && IsSpace(s[|s| - 1]) {
      ReadTrimEnd(s[..|s| - 1]);
      assert s == s[..|s| - 1] + [s[|s| - 1]];
      ReadAppend(s[..|s| - 1], s[|s| - 1]);
    }
  }

  lemma ReadTrim(s: string)
    ensures Read(Trim(s)) == Read(s)
  {
    ReadTrimEnd(SkipSpace(s));
    ReadSkipsSpace(s);
  }

  // ------------------------------------------------------------- comparison

  /** Strong comparison wants both tags strong; weak comparison only the text
      (section 8.8.3.2 of RFC 9110). A stored tag is strong. */
  predicate Equal(tag: Tag, etag: string, strong: bool) { (!strong || !tag.weak) && tag.text == etag }

  ghost predicate AnyEqual(tags: seq<Tag>, etag: string, strong: bool) {
    exists i :: 0 <= i < |tags| && Equal(tags[i], etag, strong)
  }

  /** The reader: it accepts exactly `*` and lists of tags, and a list matches
      exactly when one of its tags compares equal. */
  method ReadList(etag: string, value: string, strong: bool) returns (matches: bool, valid: bool)
    ensures valid <==> Trim(value) == "*" || Read(value).Some?
    ensures Trim(value) == "*" ==> matches
    ensures Trim(value) != "*" && valid ==> (matches <==> AnyEqual(Read(value).value, etag, strong))
    ensures !valid ==> !matches
  {
    var v := Trim(value);
    ReadTrim(value);
    if v == "*" { return true, true; }
    matches := false;
    ghost var seen: seq<Tag> := [];
    assert Read(v).Some? ==> seen + Read(v).value == Read(v).value;
    while true
      invariant Read(value) == Continued(seen, Read(v))
      invariant matches <==> AnyEqual(seen, etag, strong)
      decreases |v|
    {
      ReadSkipsGap(v);
      v := SkipGap(v);
      if v == "" {
        assert seen + [] == seen;
        return matches, true;
      }
      var first := FirstTag(v);
      if first.None? { return false, false; }
      var (tag, rest) := first.value;
      matches := matches || Equal(tag, etag, strong);
      v := SkipSpace(rest);
      Continue(seen, tag, v);
      if v != "" && v[0] != ',' { return false, false; }
      Extend(seen, tag, etag, strong);
      seen := seen + [tag];
    }
  }

  function Continued(seen: seq<Tag>, rest: Option<seq<Tag>>): Option<seq<Tag>> {
    if rest.Some? then Some(seen + rest.value) else None
  }

  lemma Continue(seen: seq<Tag>, tag: Tag, rest: string)
    ensures Continued(seen, Prefixed(tag, rest, Read(rest)))
         == if rest != "" && rest[0] != ',' then None else Continued(seen + [tag], Read(rest))
  {
    if Read(rest).Some? { assert seen + ([tag] + Read(rest).value) == seen + [tag] + Read(rest).value; }
  }

  lemma Extend(seen: seq<Tag>, tag: Tag, etag: string, strong: bool)
    ensures AnyEqual(seen + [tag], etag, strong) <==> AnyEqual(seen, etag, strong) || Equal(tag, etag, strong)
  {
    var all := seen + [tag];
    assert all[|seen|] == tag;
    if AnyEqual(seen, etag, strong) {
      var i :| 0 <= i < |seen| && Equal(seen[i], etag, strong);
      assert all[i] == seen[i];
    }
  }

  // ------------------------------------------------ values without outer quotes

  /** The verdict on a header value; none when it is not valid. */
  ghost function Verdict(etag: string, value: string, strong: bool): Option<bool> {
    if Trim(value) == "*" then Some(true)
    else if Read(value).Some? then Some(AnyEqual(Read(value).value, etag, strong))
    else None
  }

  lemma StarIsNoList()
    ensures Read("*").None?
  {
    assert SkipGap("*") == "*";
  }

  /** A list of tags is valid, and matches exactly when one of them compares equal. */
  lemma ListVerdict(etag: string, value: string, tags: seq<Tag>, strong: bool)
    requires IsListOf(value, tags)
    ensures Verdict(etag, value, strong)
         == Some(exists i :: 0 <= i < |tags| && tags[i].text == etag && !(strong && tags[i].weak))
  {
    var gaps: seq<string>, tail: string :| |gaps| == |tags| && Separates(gaps, tail) && value == Join(gaps, tags, tail);
    ReadsEveryList(gaps, tags, tail);
    ReadTrim(value);
    StarIsNoList();
    assert forall i :: 0 <= i < |tags|
               ==> (Equal(tags[i], etag, strong) <==> tags[i].text == etag && !(strong && tags[i].weak));
  }

  /** A star with white space around it. */
  ghost predicate IsStar(value: string) {
    exists l: string, r: string :: AllBlank(l) && AllBlank(r) && value == l + "*" + r
  }

  predicate AllBlank(s: string) { forall i :: 0 <= i < |s| ==> s[i] in [' ', '\t'] }

  lemma StarExactly(value: string)
    ensures Trim(value) == "*" <==> IsStar(value)
  {
    if Trim(value) == "*" {
      var l := SplitSpace(value);
      var r := SplitEnd(SkipSpace(value));
      assert value == l + "*" + r && AllBlank(l) && AllBlank(r);
    }
    if l: string, r: string :| AllBlank(l) && AllBlank(r) && value == l + "*" + r {
      SkipSpacePast(l, "*" + r);
      assert value == l + ("*" + r);
      TrimEndPast("*", r);
    }
  }

  lemma {:induction false} SkipSpacePast(l: string, s: string)
    requires AllBlank(l) && s != "" && !IsSpace(s[0])
    ensures SkipSpace(l + s) == s
  {
    if l == "" {
      assert l + s == s;
    } else {
      assert (l + s)[1..] == l[1..] + s;
      SkipSpacePast(l[1..], s);
    }
  }

  lemma {:induction false} TrimEndPast(s: string, r: string)
    requires AllBlank(r) && s != "" && !IsSpace(s[|s| - 1])
    ensures TrimEnd(s + r) == s
  {
    if r == "" {
      assert s + r == s;
    } else {
      assert (s + r)[..|s + r| - 1] == s + r[..|r| - 1];
      TrimEndPast(s, r[..|r| - 1]);
    }
  }

  /** Nothing else is valid but a star. */
  lemma ValidExactly(etag: string, value: string, strong: bool)
    ensures Verdict(etag, value, strong).Some? <==> IsStar(value) || exists tags :: IsListOf(value, tags)
    ensures IsStar(value) ==> Verdict(etag, value, strong) == Some(true)
  {
    StarExactly(value);
    if Trim(value) != "*" && Read(value).Some? { ReadsOnlyLists(value); }
    if tags :| IsListOf(value, tags) { ListVerdict(etag, value, tags, strong); }
  }

  /** A value that is not valid as it stands is read with its quotes put back. */
  ghost function Restored(etag: string, value: string, strong: bool): bool {
    var first := Verdict(etag, value, strong);
    if first.Some? then first.value else Verdict(etag, Quoted(value), strong) == Some(true)
  }

  /** Strips any number of quotes from both ends. */
  function TrimQuotes(s: string): string {
    if s != "" && s[0] == '"' then TrimQuotes(s[1..])
    else if s != "" && s[|s| - 1] == '"' then TrimQuotes(s[..|s| - 1])
    else s
  }

  predicate AllQuotes(s: string) { forall i :: 0 <= i < |s| ==> s[i] == '"' }

  predicate NoOuterQuotes(s: string) { s != "" ==> s[0] != '"' && s[|s| - 1] != '"' }

  /** Trimming takes off quotes and nothing else, and leaves none at either end. */
  lemma {:induction false} TrimQuotesExactly(s: string) returns (l: string, r: string)
    ensures s == l + TrimQuotes(s) + r && AllQuotes(l) && AllQuotes(r) && NoOuterQuotes(TrimQuotes(s))
    decreases |s|
  {
    l, r := "", "";
    if s != "" && s[0] == '"' {
      var l', r' := TrimQuotesExactly(s[1..]);
      l, r := "\"" + l', r';
      assert s == "\"" + s[1..];
    } else if s != "" && s[|s| - 1] == '"' {
      var l', r' := TrimQuotesExactly(s[..|s| - 1]);
      l, r := l', r' + "\"";
      assert s == s[..|s| - 1] + "\"";
    }
  }

  /** So a tag in quotes is the tag. */
  lemma QuotedTagIsTrimmed(t: string)
    requires NoOuterQuotes(t)
    ensures TrimQuotes(Quoted(t)) == t && TrimQuotes(t) == t
  {
    var q := Quoted(t);
    assert q[0] == '"' && q[1..] == t + "\"";
    var e := t + "\"";
    if t != "" { assert e[0] == t[0] && e[|e| - 1] == '"' && e[..|e| - 1] == t; }
    else { assert e == "\"" && e[1..] == "" && TrimQuotes(e) == TrimQuotes(e[1..]); }
  }

  method ReadETagMatches(etag: string, value: string, strong: bool) returns (matches: bool)
    ensures matches == Restored(TrimQuotes(etag), value, strong)
  {
    var bare := TrimQuotes(etag);
    var valid;
    matches, valid := ReadList(bare, value, strong);
    if !valid {
      matches, valid := ReadList(bare, "\"" + value + "\"", strong);
    }
  }

  /** What lies between quotes when reading starts inside or outside them. */
  function Inside(s: string, inside: bool): set<char> {
    if s == "" then {}
    else if s[0] == '"' then Inside(s[1..], !inside)
    else (if inside then {s[0]} else {}) + Inside(s[1..], inside)
  }

  /** Whether reading a value ends on the other side of the quotes. */
  predicate Odd(s: string) { s != "" && (Odd(s[1..]) != (s[0] == '"')) }

  lemma {:induction false} InsideConcat(a: string, b: string, inside: bool)
    ensures Inside(a + b, inside) == Inside(a, inside) + Inside(b, inside != Odd(a))
  {
    if a == "" {
      assert a + b == b;
    } else {
      assert (a + b)[0] == a[0] && (a + b)[1..] == a[1..] + b;
      InsideConcat(a[1..], b, if a[0] == '"' then !inside else inside);
    }
  }

  lemma {:induction false} InsideUnquoted(t: string, inside: bool)
    requires '"' !in t
    ensures !Odd(t) && forall c :: c in Inside(t, inside) <==> inside && c in t
  {
    if t != "" {
      assert t == [t[0]] + t[1..];
      InsideUnquoted(t[1..], inside);
    }
  }

  /** Text between quotes is inside to a reader that starts outside, and outside
      to one that starts inside. */
  lemma InsideQuoted(t: string, rest: string, inside: bool)
    ensures Inside("\"" + t + "\"" + rest, inside) == Inside(t, !inside) + Inside(rest, inside != Odd(t))
  {
    var s := "\"" + t + "\"" + rest;
    assert s[0] == '"' && s[1..] == t + ("\"" + rest);
    InsideConcat(t, "\"" + rest, !inside);
    var q := "\"" + rest;
    assert q[0] == '"' && q[1..] == rest;
  }

  const SEPARATORS: set<char> := {' ', '\t', ',', 'W', '/'}

  lemma InsidePrinted(tag: Tag, rest: string, inside: bool)
    requires AllTagChars(tag.text)
    ensures inside ==> Inside(Print(tag) + rest, true) <= SEPARATORS + Inside(rest, true)
    ensures !inside ==> forall c :: c in Inside(Print(tag) + rest, false) <==> c in tag.text || c in Inside(rest, false)
  {
    var body := Quoted(tag.text) + rest;
    InsideQuoted(tag.text, rest, inside);
    InsideUnquoted(tag.text, !inside);
    if tag.weak {
      assert Print(tag) + rest == "W/" + body;
      InsideConcat("W/", body, inside);
      InsideUnquoted("W/", inside);
    }
  }

  lemma InsideGap(g: string, rest: string, inside: bool)
    requires AllGap(g)
    ensures inside ==> Inside(g + rest, true) <= SEPARATORS + Inside(rest, true)
    ensures !inside ==> Inside(g + rest, false) == Inside(rest, false)
  {
    InsideConcat(g, rest, inside);
    InsideUnquoted(g, inside);
  }

  /** In a list only separators lie outside the quotes. */
  lemma {:induction false} SeparatorsOutside(s: string)
    requires Read(s).Some?
    ensures Inside(s, true) <= SEPARATORS
    decreases |s|
  {
    hide Read, SkipGap, Inside, Print, AllTagChars;
    if SkipGap(s) == "" {
      var g := SplitGap(s);
      InsideUnquoted(s, true);
    } else {
      var g, tag, w, r := ReadStep(s);
      SeparatorsOutside(r);
      assert s == g + (Print(tag) + (w + r));
      InsideGap(w, r, true);
      InsidePrinted(tag, w + r, true);
      InsideGap(g, Print(tag) + (w + r), true);
    }
  }

  lemma ReadNothing(s: string)
    requires SkipGap(s) == ""
    ensures Read(s) == Some([])
  {
  }

  predicate TextWithin(tag: Tag, chars: set<char>) { forall c :: c in tag.text ==> c in chars }

  /** In a list the tags' texts lie inside the quotes. */
  lemma {:induction false} TextsInside(s: string)
    requires Read(s).Some?
    ensures forall i :: 0 <= i < |Read(s).value| ==> TextWithin(Read(s).value[i], Inside(s, false))
    decreases |s|
  {
    hide Read, SkipGap, Inside, Print, AllTagChars, AllGap;
    if SkipGap(s) == "" {
      ReadNothing(s);
    } else {
      var g, tag, w, r := ReadStep(s);
      TextsInside(r);
      assert s == g + (Print(tag) + (w + r));
      InsideGap(w, r, false);
      InsidePrinted(tag, w + r, false);
      InsideGap(g, Print(tag) + (w + r), false);
      var tags := Read(r).value;
      forall i | 0 <= i < |[tag] + tags| ensures TextWithin(([tag] + tags)[i], Inside(s, false)) {
        if i > 0 { assert TextWithin(tags[i - 1], Inside(r, false)); }
      }
    }
  }

  /** A stored tag: a hexadecimal digest, with a part count when it is of a multipart object. */
  predicate IsStored(etag: string) {
    etag != "" && forall i :: 0 <= i < |etag| ==> '0' <= etag[i] <= '9' || 'a' <= etag[i] <= 'f' || etag[i] == '-'
  }

  /** If a quoted value and its inner part are both lists, neither matches a stored tag. */
  lemma BothListsMatchNothing(etag: string, v: string, strong: bool)
    requires Read(v).Some? && Read(Quoted(v)).Some? && IsStored(etag)
    ensures !AnyEqual(Read(v).value, etag, strong) && !AnyEqual(Read(Quoted(v)).value, etag, strong)
  {
    SeparatorsOutside(v);
    TextsInside(v);
    SeparatorsOutside(Quoted(v));
    TextsInside(Quoted(v));
    assert "\"" + v + "\"" + "" == Quoted(v);
    InsideQuoted(v, "", false);
    InsideQuoted(v, "", true);
    assert etag[0] in etag && etag[0] !in SEPARATORS;
  }

  /** A quoted value that is read although its inner part is all `*` and white space is just that star. */
  lemma StarHasNoSpace(v: string)
    requires Trim(v) == "*" && Read(Quoted(v)).Some?
    ensures v == "*"
  {
    StarIsUnquoted(v);
    var h := Quoted(v);
    assert SkipGap(h) == h;
    FirstTagIsPrinted(h);
    assert !("W/" <= h);
    assert h[1..] == v + "\"" + "";
    QuoteAtReads(v, "");
    assert h[1..1 + |v|] == v;
    NoSpaceToTrim(v);
  }

  lemma StarIsUnquoted(v: string)
    requires Trim(v) == "*"
    ensures '"' !in v
  {
    var g := SplitSpace(v);
    var t := SplitEnd(SkipSpace(v));
  }

  lemma {:induction false} SplitEnd(s: string) returns (t: string)
    ensures s == TrimEnd(s) + t && AllSpace(t)
  {
    if s != "" && IsSpace(s[|s| - 1]) {
      var t' := SplitEnd(s[..|s| - 1]);
      t := t' + [s[|s| - 1]];
      assert s == s[..|s| - 1] + [s[|s| - 1]];
    } else {
      t := "";
    }
  }

  lemma NoSpaceToTrim(v: string)
    requires AllTagChars(v)
    ensures Trim(v) == v
  {}

  /** Every valid list header whose outer quotes were stripped gets the verdict
      it would have had with them, with the one exception of a quoted star. */
  lemma StrippingKeepsVerdict(etag: string, v: string, strong: bool)
    requires IsStored(etag) && Verdict(etag, Quoted(v), strong).Some?
    ensures Some(Restored(etag, v, strong)) == Verdict(etag, Quoted(v), strong) <==> v != "*"
  {
    QuotedIsNotStar(v);
    if Trim(v) == "*" {
      StarHasNoSpace(v);
      StarMatchesNothing(etag, strong);
    } else {
      assert v != "*" by { NoSpaceToTrim("*"); }
      if Read(v).Some? { BothListsMatchNothing(etag, v, strong); }
    }
  }

  lemma QuotedIsNotStar(v: string)
    ensures Trim(Quoted(v)) != "*"
  {
    var h := Quoted(v);
    assert h[|h| - 1] == '"';
    assert Trim(h) == h && |h| >= 2;
  }

  lemma StarMatchesNothing(etag: string, strong: bool)
    requires IsStored(etag)
    ensures Read(Quoted("*")) == Some([Tag(false, "*")]) && !AnyEqual([Tag(false, "*")], etag, strong)
  {
    var tag := Tag(false, "*");
    assert Print(tag) == Quoted("*") && "" + Print(tag) + "" == Quoted("*");
    ReadTagFirst("", tag, "");
    assert Read("") == Some([]) && [tag] + [] == [tag];
  }
}
