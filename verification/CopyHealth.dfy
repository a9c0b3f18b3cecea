/**
 * How healthy the copies of an object are: which of its copies are counted, how
 * each requested copy is classified, and the status that follows.
 */
module CopyHealth {
  datatype Status = Available | Degraded | Unknown | Unavailable | Unrecognised(name: string)

  datatype CopyStatus = PendingCopy | PieceReady | Committing | FailedCopy | Committed | OtherCopy

  datatype Kind = Readable | Unverified | Pending | Failed | Unclassified

  /** `incomplete`: the signal says a provider, data set, piece or retrieval URL is missing. */
  datatype Copy = Copy(index: int, copyStatus: CopyStatus, signal: Status, incomplete: bool)

  datatype Candidate = Candidate(index: int, kind: Kind, signal: Status)

  /** What is known of one object: the copies asked for, whether anything was
      uploaded, and its copies in the order they were found. */
  datatype Object = Object(requested: int, hasUpload: bool, candidates: seq<Candidate>)

  datatype Summary = Summary(readable: int, pending: int, failed: int, unknown: int, status: Status)

  function Min(a: int, b: int): int { if a < b then a else b }

  function Max(a: int, b: int): int { if a < b then b else a }

  /** An unrecognised status ranks with an unknown one. */
  function Rank(s: Status): int {
    match s
    case Unavailable => 3
    case Unknown => 2
    case Degraded => 1
    case Available => 0
    case Unrecognised(_) => 2
  }

  function Worst(current: Status, candidate: Status): Status {
    if Rank(candidate) > Rank(current) then candidate else current
  }

  function KindOf(c: Copy): (k: Kind)
    ensures k.Readable? <==> c.copyStatus.Committed? && c.signal.Available?
    ensures k.Failed? <==> c.copyStatus.FailedCopy?
    ensures k.Pending? <==> c.copyStatus.PendingCopy? || c.copyStatus.PieceReady? || c.copyStatus.Committing?
    ensures k.Unverified? <==> c.copyStatus.Committed? && !c.signal.Available? && !c.incomplete
  {
    match c.copyStatus
    case PendingCopy => Pending
    case PieceReady => Pending
    case Committing => Pending
    case FailedCopy => Failed
    case Committed => if c.signal.Available? then Readable else if c.incomplete then Unclassified else Unverified
    case OtherCopy => Unclassified
  }

  function CandidateOf(c: Copy): Candidate { Candidate(c.index, KindOf(c), c.signal) }

  /** A copy counted as readable has a healthy signal. */
  predicate Sound(c: Candidate) { c.kind.Readable? ==> c.signal.Available? }

  function Priority(k: Kind): int {
    match k
    case Readable => 0
    case Unverified => 1
    case Pending => 2
    case Failed => 3
    case Unclassified => 4
  }

  predicate UnderReplicates(k: Kind) { !k.Readable? && !k.Unverified? }

  // ------------------------------------------------------------- stable sort

  predicate Before(a: Candidate, b: Candidate) {
    Priority(a.kind) < Priority(b.kind) || (Priority(a.kind) == Priority(b.kind) && a.index < b.index)
  }

  predicate Ordered(s: seq<Candidate>) { forall i, j :: 0 <= i < j < |s| ==> !Before(s[j], s[i]) }

  function Insert(s: seq<Candidate>, x: Candidate): seq<Candidate> {
    if s == [] then [x] else if Before(x, s[0]) then [x] + s else [s[0]] + Insert(s[1..], x)
  }

  /** Candidates by priority, then index; equal ones stay in the order they came. */
  function Sort(s: seq<Candidate>): seq<Candidate> {
    if s == [] then [] else Insert(Sort(s[..|s| - 1]), s[|s| - 1])
  }

  function At(s: seq<Candidate>, p: nat, x: Candidate): seq<Candidate>
    requires p <= |s|
  { s[..p] + [x] + s[p..] }

  lemma {:induction false} InsertPlace(s: seq<Candidate>, x: Candidate) returns (p: nat)
    ensures p <= |s| && Insert(s, x) == At(s, p, x)
    ensures forall i :: 0 <= i < p ==> !Before(x, s[i])
    ensures p < |s| ==> Before(x, s[p])
  {
    if s == [] || Before(x, s[0]) {
      p := 0;
      assert At(s, 0, x) == [x] + s;
    } else {
      var q := InsertPlace(s[1..], x);
      p := q + 1;
      assert At(s, p, x) == [s[0]] + At(s[1..], q, x);
    }
  }

  lemma InsertOrders(s: seq<Candidate>, x: Candidate)
    requires Ordered(s)
    ensures Ordered(Insert(s, x))
  {
    var p := InsertPlace(s, x);
    var r := At(s, p, x);
    forall i, j | 0 <= i < j < |r| ensures !Before(r[j], r[i]) {
      if i == p { assert r[j] == s[j - 1] && !Before(s[j - 1], s[p]); }
    }
  }

  lemma {:induction false} SortOrders(s: seq<Candidate>)
    ensures Ordered(Sort(s)) && |Sort(s)| == |s| && multiset(Sort(s)) == multiset(s)
  {
    if s != [] {
      hide Before, Ordered, Insert;
      var n := |s| - 1;
      SortOrders(s[..n]);
      InsertOrders(Sort(s[..n]), s[n]);
      var t := Sort(s[..n]);
      var p := InsertPlace(t, s[n]);
      assert t == t[..p] + t[p..];
      assert s == s[..n] + [s[n]];
    }
  }

  /** Readable copies come first, then unverified, pending, failed and unclassified ones. */
  predicate Better(a: Kind, b: Kind) {
    || (a.Readable? && !b.Readable?)
    || (a.Unverified? && (b.Pending? || b.Failed? || b.Unclassified?))
    || (a.Pending? && (b.Failed? || b.Unclassified?))
    || (a.Failed? && b.Unclassified?)
  }

  /** So of two sorted candidates the first is of a better kind, or of the same and
      of no greater index. */
  lemma SortedByKind(s: seq<Candidate>, i: nat, j: nat)
    requires i < j < |s|
    ensures |Sort(s)| == |s|
    ensures var a, b := Sort(s)[i], Sort(s)[j]; Better(a.kind, b.kind) || (a.kind == b.kind && a.index <= b.index)
  {
    SortOrders(s);
    assert !Before(Sort(s)[j], Sort(s)[i]);
  }

  function Alike(s: seq<Candidate>, x: Candidate): seq<Candidate> {
    if s == [] then []
    else if !Before(s[0], x) && !Before(x, s[0]) then [s[0]] + Alike(s[1..], x) else Alike(s[1..], x)
  }

  lemma {:induction false} AlikeConcat(a: seq<Candidate>, b: seq<Candidate>, x: Candidate)
    ensures Alike(a + b, x) == Alike(a, x) + Alike(b, x)
  {
    if a == [] {
      assert a + b == b;
    } else {
      assert (a + b)[1..] == a[1..] + b;
      AlikeConcat(a[1..], b, x);
    }
  }

  lemma {:induction false} AlikeNone(s: seq<Candidate>, x: Candidate)
    requires forall i :: 0 <= i < |s| ==> Before(x, s[i])
    ensures Alike(s, x) == []
  {
    if s != [] { AlikeNone(s[1..], x); }
  }

  lemma {:induction false} InsertIsStable(s: seq<Candidate>, y: Candidate, x: Candidate)
    requires Ordered(s)
    ensures Alike(Insert(s, y), x) == Alike(s, x) + Alike([y], x)
  {
    if s == [] {
    } else if Before(y, s[0]) {
      assert ([y] + s)[1..] == s;
      if Alike([y], x) != [] {
        assert forall i :: 0 < i < |s| ==> !Before(s[i], s[0]);
        AlikeNone(s, x);
      }
    } else {
      var r := Insert(s[1..], y);
      assert ([s[0]] + r)[1..] == r;
      InsertIsStable(s[1..], y, x);
    }
  }

  /** The sort is stable: candidates alike in priority and index keep their order. */
  lemma {:induction false} SortIsStable(s: seq<Candidate>, x: Candidate)
    ensures Alike(Sort(s), x) == Alike(s, x)
  {
    if s != [] {
      var n := |s| - 1;
      SortIsStable(s[..n], x);
      SortOrders(s[..n]);
      InsertIsStable(Sort(s[..n]), s[n], x);
      assert s == s[..n] + [s[n]];
      AlikeConcat(s[..n], [s[n]], x);
    }
  }

  // ----------------------------------------------------------------- summary

  datatype Group = ReadableGroup | PendingGroup | FailedGroup | UnknownGroup

  function GroupOf(k: Kind): Group {
    match k
    case Readable => ReadableGroup
    case Pending => PendingGroup
    case Failed => FailedGroup
    case Unverified => UnknownGroup
    case Unclassified => UnknownGroup
  }

  function Count(s: seq<Candidate>, g: Group): nat {
    if s == [] then 0 else Count(s[..|s| - 1], g) + if GroupOf(s[|s| - 1].kind) == g then 1 else 0
  }

  function WorstOf(s: seq<Candidate>): Status {
    if s == [] then Available else Worst(WorstOf(s[..|s| - 1]), s[|s| - 1].signal)
  }

  /** How copies that are missing altogether are classified. */
  function GapGroup(candidates: seq<Candidate>): Group {
    if exists i :: 0 <= i < |candidates| && !candidates[i].kind.Failed? then PendingGroup
    else if exists i :: 0 <= i < |candidates| && candidates[i].kind.Failed? then FailedGroup
    else UnknownGroup
  }

  function FromCounts(failed: int, unknown: int, pending: int): Status {
    if failed > 0 then Unavailable else if unknown > 0 then Unknown else if pending > 0 then Degraded else Available
  }

  /** The candidates that stand for the requested copies: the best ones first. */
  function Selected(o: Object): seq<Candidate>
    requires o.requested > 0
  {
    SortOrders(o.candidates);
    Sort(o.candidates)[..Min(o.requested, |o.candidates|)]
  }

  function Gap(o: Object): int { Max(o.requested - |o.candidates|, 0) }

  function Tally(o: Object, g: Group): int
    requires o.requested > 0
  { Count(Selected(o), g) + if GapGroup(o.candidates) == g then Gap(o) else 0 }

  predicate UnderReplicated(o: Object)
    requires o.requested > 0
  { Gap(o) > 0 || exists i :: 0 <= i < |Selected(o)| && UnderReplicates(Selected(o)[i].kind) }

  function Summarized(o: Object): Summary {
    if o.requested <= 0 then Summary(0, 0, 0, 0, if o.hasUpload then Available else Unknown) else
    var failed, unknown, pending := Tally(o, FailedGroup), Tally(o, UnknownGroup), Tally(o, PendingGroup);
    var status := Worst(WorstOf(Selected(o)), FromCounts(failed, unknown, pending));
    Summary(Tally(o, ReadableGroup), pending, failed, unknown,
            if UnderReplicated(o) && status.Available? then Degraded else status)
  }

  /** The accumulator of one object, filled in place. */
  class Accumulator {
    const requested: int
    var hasUpload: bool
    var sawFailed: bool
    var sawActive: bool
    var candidates: seq<Candidate>
    var status: Status
    var readable: int
    var pending: int
    var failed: int
    var unknown: int

    ghost predicate Valid()
      reads this
    {
      && (sawFailed <==> exists i :: 0 <= i < |candidates| && candidates[i].kind.Failed?)
      && (sawActive <==> exists i :: 0 <= i < |candidates| && !candidates[i].kind.Failed?)
    }

    ghost function Value(): Object
      reads this
    { Object(requested, hasUpload, candidates) }

    function Result(): Summary
      reads this
    { Summary(readable, pending, failed, unknown, status) }

    constructor (o: Object)
      ensures Valid() && Value() == o
    {
      requested, hasUpload, candidates := o.requested, o.hasUpload, o.candidates;
      sawFailed := exists i :: 0 <= i < |o.candidates| && o.candidates[i].kind.Failed?;
      sawActive := exists i :: 0 <= i < |o.candidates| && !o.candidates[i].kind.Failed?;
    }

    /** The counts and the worst signal of the candidates taken so far. */
    ghost predicate Tallied(s: seq<Candidate>)
      reads this
    {
      && status == WorstOf(s)
      && readable == Count(s, ReadableGroup) && pending == Count(s, PendingGroup)
      && failed == Count(s, FailedGroup) && unknown == Count(s, UnknownGroup)
    }

    method AddSelected(c: Candidate, ghost taken: seq<Candidate>)
      requires Tallied(taken)
      modifies this`status, this`readable, this`pending, this`failed, this`unknown
      ensures Tallied(taken + [c])
    {
      status := Worst(status, c.signal);
      match c.kind {
        case Readable => readable := readable + 1;
        case Pending => pending := pending + 1;
        case Failed => failed := failed + 1;
        case _ => unknown := unknown + 1;
      }
      assert (taken + [c])[..|taken|] == taken;
    }

    method ClassifyGap(count: int)
      requires Valid() && count > 0
      modifies this`pending, this`failed, this`unknown
      ensures pending == old(pending) + if GapGroup(candidates).PendingGroup? then count else 0
      ensures failed == old(failed) + if GapGroup(candidates).FailedGroup? then count else 0
      ensures unknown == old(unknown) + if GapGroup(candidates).UnknownGroup? then count else 0
    {
      if sawFailed && !sawActive { failed := failed + count; }
      else if sawActive { pending := pending + count; }
      else { unknown := unknown + count; }
    }

    method Summarize()
      requires Valid()
      modifies this`status, this`readable, this`pending, this`failed, this`unknown
      ensures Result() == Summarized(Value())
    {
      status, readable, pending, failed, unknown := Available, 0, 0, 0, 0;
      if requested <= 0 {
        if !hasUpload { status := Unknown; }
        return;
      }
      var under := CountAll();
      status := Worst(status, FromCounts(failed, unknown, pending));
      if under && status.Available? { status := Degraded; }
    }

    method CountAll() returns (under: bool)
      requires Valid() && requested > 0 && Tallied([])
      modifies this`status, this`readable, this`pending, this`failed, this`unknown
      ensures status == WorstOf(Selected(Value())) && (under <==> UnderReplicated(Value()))
      ensures readable == Tally(Value(), ReadableGroup) && pending == Tally(Value(), PendingGroup)
      ensures failed == Tally(Value(), FailedGroup) && unknown == Tally(Value(), UnknownGroup)
    {
      under := SelectAll();
      var gap := requested - Min(requested, |candidates|);
      if gap > 0 {
        under := true;
        ClassifyGap(gap);
      }
    }

    method SelectAll() returns (under: bool)
      requires requested > 0 && Tallied([])
      modifies this`status, this`readable, this`pending, this`failed, this`unknown
      ensures Tallied(Selected(Value()))
      ensures under <==> exists i :: 0 <= i < |Selected(Value())| && UnderReplicates(Selected(Value())[i].kind)
    {
      SortOrders(candidates);
      var selected := Sort(candidates)[..Min(requested, |candidates|)];
      under := false;
      for i := 0 to |selected|
        invariant Tallied(selected[..i])
        invariant under <==> exists j :: 0 <= j < i && UnderReplicates(selected[j].kind)
      {
        AddSelected(selected[i], selected[..i]);
        assert selected[..i] + [selected[i]] == selected[..i + 1];
        under := under || UnderReplicates(selected[i].kind);
      }
      assert selected[..|selected|] == selected;
    }
  }

  // -------------------------------------------------------------- properties

  lemma {:induction false} GroupsAddUp(s: seq<Candidate>)
    ensures Count(s, ReadableGroup) + Count(s, PendingGroup) + Count(s, FailedGroup) + Count(s, UnknownGroup) == |s|
  {
    if s != [] { GroupsAddUp(s[..|s| - 1]); }
  }

  /** Every requested copy is counted, and counted once. */
  lemma CountsAddUp(o: Object)
    ensures var r := Summarized(o); r.readable + r.pending + r.failed + r.unknown == Max(o.requested, 0)
  {
    if o.requested > 0 {
      SortOrders(o.candidates);
      GroupsAddUp(Selected(o));
    }
  }

  lemma {:induction false} ReadableFirst(s: seq<Candidate>, n: nat)
    requires Ordered(s) && n <= |s|
    ensures Count(s[..n], ReadableGroup) == Min(n, Count(s, ReadableGroup))
    decreases |s|
  {
    var last := |s| - 1;
    if n < |s| {
      assert s[..last][..n] == s[..n];
      ReadableFirst(s[..last], n);
      if s[last].kind.Readable? { AllReadable(s[..last]); AllReadable(s[..n]); }
    } else {
      assert s[..n] == s;
      CountBound(s);
    }
  }

  lemma {:induction false} CountBound(s: seq<Candidate>)
    ensures Count(s, ReadableGroup) <= |s|
  {
    if s != [] { CountBound(s[..|s| - 1]); }
  }

  lemma {:induction false} AllReadable(s: seq<Candidate>)
    requires forall i :: 0 <= i < |s| ==> s[i].kind.Readable?
    ensures Count(s, ReadableGroup) == |s|
  {
    if s != [] { AllReadable(s[..|s| - 1]); }
  }

  lemma {:induction false} CountConcat(a: seq<Candidate>, b: seq<Candidate>, g: Group)
    ensures Count(a + b, g) == Count(a, g) + Count(b, g)
  {
    if b == [] {
      assert a + b == a;
    } else {
      assert (a + b)[..|a + b| - 1] == a + b[..|b| - 1];
      CountConcat(a, b[..|b| - 1], g);
    }
  }

  lemma {:induction false} SortKeepsCount(s: seq<Candidate>, g: Group)
    ensures Count(Sort(s), g) == Count(s, g)
  {
    if s != [] {
      var n := |s| - 1;
      SortKeepsCount(s[..n], g);
      var t := Sort(s[..n]);
      var p := InsertPlace(t, s[n]);
      assert t == t[..p] + t[p..];
      CountConcat(t[..p], t[p..], g);
      CountConcat(t[..p] + [s[n]], t[p..], g);
      CountConcat(t[..p], [s[n]], g);
    }
  }

  /** Readable copies are counted up to the number requested. */
  lemma ReadableIsMin(o: Object)
    ensures Summarized(o).readable == Min(Max(o.requested, 0), Count(o.candidates, ReadableGroup))
  {
    CountBound(o.candidates);
    if o.requested > 0 {
      SortOrders(o.candidates);
      SortKeepsCount(o.candidates, ReadableGroup);
      ReadableFirst(Sort(o.candidates), Min(o.requested, |o.candidates|));
    }
  }

  // ------------------------------------------------------- counts in numbers

  /** How many candidates are of a kind. */
  function Number(s: seq<Candidate>, k: Kind): nat {
    if s == [] then 0 else Number(s[..|s| - 1], k) + if s[|s| - 1].kind == k then 1 else 0
  }

  /** How many candidates are of kinds as good as `p` or better. */
  function AtLeast(s: seq<Candidate>, p: int): nat {
    if s == [] then 0 else AtLeast(s[..|s| - 1], p) + if Priority(s[|s| - 1].kind) <= p then 1 else 0
  }

  lemma {:induction false} AtLeastInNumbers(s: seq<Candidate>)
    ensures AtLeast(s, 0) == Number(s, Readable)
    ensures AtLeast(s, 1) == Number(s, Readable) + Number(s, Unverified)
    ensures AtLeast(s, 2) == Number(s, Readable) + Number(s, Unverified) + Number(s, Pending)
    ensures AtLeast(s, 3)
         == Number(s, Readable) + Number(s, Unverified) + Number(s, Pending) + Number(s, Failed)
    ensures AtLeast(s, 4) == |s|
  {
    if s != [] { AtLeastInNumbers(s[..|s| - 1]); }
  }

  lemma {:induction false} GroupsInNumbers(s: seq<Candidate>)
    ensures Count(s, ReadableGroup) == AtLeast(s, 0)
    ensures Count(s, PendingGroup) == AtLeast(s, 2) - AtLeast(s, 1)
    ensures Count(s, FailedGroup) == AtLeast(s, 3) - AtLeast(s, 2)
    ensures Count(s, UnknownGroup) == AtLeast(s, 1) - AtLeast(s, 0) + |s| - AtLeast(s, 3)
  {
    if s != [] { GroupsInNumbers(s[..|s| - 1]); }
  }

  lemma {:induction false} AtLeastConcat(a: seq<Candidate>, b: seq<Candidate>, p: int)
    ensures AtLeast(a + b, p) == AtLeast(a, p) + AtLeast(b, p)
  {
    if b == [] {
      assert a + b == a;
    } else {
      assert (a + b)[..|a + b| - 1] == a + b[..|b| - 1];
      AtLeastConcat(a, b[..|b| - 1], p);
    }
  }

  lemma {:induction false} SortKeepsAtLeast(s: seq<Candidate>, p: int)
    ensures AtLeast(Sort(s), p) == AtLeast(s, p)
  {
    if s != [] {
      var n := |s| - 1;
      SortKeepsAtLeast(s[..n], p);
      var t := Sort(s[..n]);
      var at := InsertPlace(t, s[n]);
      assert t == t[..at] + t[at..];
      AtLeastConcat(t[..at], t[at..], p);
      AtLeastConcat(t[..at] + [s[n]], t[at..], p);
      AtLeastConcat(t[..at], [s[n]], p);
    }
  }

  lemma {:induction false} AllAtLeast(s: seq<Candidate>, p: int)
    ensures AtLeast(s, p) <= |s|
    ensures (forall i :: 0 <= i < |s| ==> Priority(s[i].kind) <= p) ==> AtLeast(s, p) == |s|
  {
    if s != [] { AllAtLeast(s[..|s| - 1], p); }
  }

  /** The first of an ordered sequence are the best of it. */
  lemma {:induction false} BestFirst(s: seq<Candidate>, n: nat, p: int)
    requires Ordered(s) && n <= |s|
    ensures AtLeast(s[..n], p) == Min(n, AtLeast(s, p))
    decreases |s|
  {
    AllAtLeast(s, p);
    if n < |s| {
      var last := |s| - 1;
      assert s[..last][..n] == s[..n];
      BestFirst(s[..last], n, p);
      if Priority(s[last].kind) <= p {
        assert forall i :: 0 <= i < last ==> !Before(s[last], s[i]);
        AllAtLeast(s[..last], p);
        AllAtLeast(s[..n], p);
      }
    } else {
      assert s[..n] == s;
    }
  }

  /** Of `n` places, those left after `before` candidates that `here` more can fill. */
  function Filled(n: int, before: int, here: int): int { Min(n, before + here) - Min(n, before) }

  /** The four counts from the numbers of candidates of each kind alone: the requested
      places are filled by readable, unverified, pending, failed and unclassified
      candidates in this order. Empty places are pending when some candidate has not
      failed, failed when all have, and unknown when there are none. */
  lemma CountsExactly(o: Object)
    requires o.requested > 0
    ensures var n, c, r := o.requested, o.candidates, Summarized(o);
            var first, second := Number(c, Readable), Number(c, Readable) + Number(c, Unverified);
            var third := second + Number(c, Pending);
            var fourth := third + Number(c, Failed);
            var empty := if n > |c| then n - |c| else 0;
            && r.readable == Filled(n, 0, first)
            && r.pending == Filled(n, second, Number(c, Pending)) + (if Number(c, Failed) < |c| then empty else 0)
            && r.failed == Filled(n, third, Number(c, Failed))
                           + (if |c| > 0 && Number(c, Failed) == |c| then empty else 0)
            && r.unknown == Filled(n, first, Number(c, Unverified)) + Filled(n, fourth, |c| - fourth)
                            + (if c == [] then empty else 0)
  {
    hide Count, Number, Selected, GapGroup;
    SelectedCounts(o);
    GapInNumbers(o.candidates);
  }

  lemma SelectedCounts(o: Object)
    requires o.requested > 0
    ensures var n, c, s := o.requested, o.candidates, Selected(o);
            var first, second := Number(c, Readable), Number(c, Readable) + Number(c, Unverified);
            var third := second + Number(c, Pending);
            var fourth := third + Number(c, Failed);
            && Count(s, ReadableGroup) == Filled(n, 0, first)
            && Count(s, PendingGroup) == Filled(n, second, Number(c, Pending))
            && Count(s, FailedGroup) == Filled(n, third, Number(c, Failed))
            && Count(s, UnknownGroup) == Filled(n, first, Number(c, Unverified)) + Filled(n, fourth, |c| - fourth)
  {
    hide Count, Number, AtLeast, Selected;
    var c := o.candidates;
    AtLeastInNumbers(c);
    GroupsInNumbers(Selected(o));
    SelectedInNumbers(o, 0);
    SelectedInNumbers(o, 1);
    SelectedInNumbers(o, 2);
    SelectedInNumbers(o, 3);
    AllAtLeast(c, 3);
  }

  lemma SelectedInNumbers(o: Object, p: int)
    requires o.requested > 0
    ensures AtLeast(Selected(o), p) == Min(o.requested, AtLeast(o.candidates, p))
    ensures |Selected(o)| == Min(o.requested, |o.candidates|)
  {
    SortOrders(o.candidates);
    SortKeepsAtLeast(o.candidates, p);
    BestFirst(Sort(o.candidates), Min(o.requested, |o.candidates|), p);
    AllAtLeast(o.candidates, p);
  }

  lemma {:induction false} FailedInNumbers(c: seq<Candidate>)
    ensures Number(c, Failed) <= |c|
    ensures Number(c, Failed) < |c| <==> exists i :: 0 <= i < |c| && !c[i].kind.Failed?
  {
    if c != [] {
      var n := |c| - 1;
      FailedInNumbers(c[..n]);
      if !c[n].kind.Failed? { assert !c[n].kind.Failed?; }
      if i :| 0 <= i < n && !c[..n][i].kind.Failed? { assert !c[i].kind.Failed?; }
    }
  }

  lemma GapInNumbers(c: seq<Candidate>)
    ensures GapGroup(c).PendingGroup? <==> Number(c, Failed) < |c|
    ensures GapGroup(c).FailedGroup? <==> |c| > 0 && Number(c, Failed) == |c|
    ensures GapGroup(c).UnknownGroup? <==> c == []
    ensures Number(c, Failed) <= |c|
  {
    FailedInNumbers(c);
    if c != [] { assert c[0].kind.Failed? || !c[0].kind.Failed?; }
  }

  // ------------------------------------------------- one more readable copy

  function GroupRank(g: Group): int {
    match g
    case ReadableGroup => 0
    case PendingGroup => 1
    case UnknownGroup => 2
    case FailedGroup => 3
  }

  /** How bad one candidate makes its object look. */
  function Weight(c: Candidate): int { Max(Rank(c.signal), GroupRank(GroupOf(c.kind))) }

  function Badness(s: seq<Candidate>): int {
    if s == [] then 0 else Max(Badness(s[..|s| - 1]), Weight(s[|s| - 1]))
  }

  function CountsRank(s: seq<Candidate>): int {
    Rank(FromCounts(Count(s, FailedGroup), Count(s, UnknownGroup), Count(s, PendingGroup)))
  }

  lemma {:induction false} BadnessSplits(s: seq<Candidate>)
    ensures Badness(s) == Max(Rank(WorstOf(s)), CountsRank(s))
  {
    if s != [] { BadnessSplits(s[..|s| - 1]); }
  }

  lemma {:induction false} UnderReplicatedIsBad(s: seq<Candidate>, i: nat)
    requires i < |s| && UnderReplicates(s[i].kind)
    ensures Badness(s) > 0
  {
    if i < |s| - 1 { UnderReplicatedIsBad(s[..|s| - 1], i); }
  }

  /** The status is as bad as the worst candidate selected, or the gap. */
  lemma StatusRank(o: Object)
    requires o.requested > 0
    ensures Rank(Summarized(o).status)
        == Max(Badness(Selected(o)), if Gap(o) > 0 then GroupRank(GapGroup(o.candidates)) else 0)
  {
    var s := Selected(o);
    BadnessSplits(s);
    if i :| 0 <= i < |s| && UnderReplicates(s[i].kind) { UnderReplicatedIsBad(s, i); }
  }

  predicate Doubtful(s: Status) { s.Unknown? || s.Unrecognised? }

  /** The status from the counts and the signals of the selected candidates. */
  lemma StatusExactly(o: Object)
    requires o.requested > 0
    ensures var s, r := Selected(o), Summarized(o);
            var unavailable := r.failed > 0 || exists i :: 0 <= i < |s| && s[i].signal.Unavailable?;
            var doubtful := r.unknown > 0 || exists i :: 0 <= i < |s| && Doubtful(s[i].signal);
            var degraded := r.pending > 0 || exists i :: 0 <= i < |s| && s[i].signal.Degraded?;
            && (r.status.Unavailable? <==> unavailable)
            && (Doubtful(r.status) <==> !unavailable && doubtful)
            && (r.status.Degraded? <==> !unavailable && !doubtful && degraded)
            && (r.status.Available? <==> !unavailable && !doubtful && !degraded)
  {
    hide WorstOf, Selected, Count, Sort;
    SignalsExactly(Selected(o));
    if UnderReplicated(o) { UnderReplicatedIsCounted(o); }
  }

  lemma UnderReplicatedIsCounted(o: Object)
    requires o.requested > 0 && UnderReplicated(o)
    ensures Tally(o, FailedGroup) > 0 || Tally(o, UnknownGroup) > 0 || Tally(o, PendingGroup) > 0
  {
    var s := Selected(o);
    if i :| 0 <= i < |s| && UnderReplicates(s[i].kind) { Counted(s, i); }
  }

  lemma {:induction false} Counted(s: seq<Candidate>, i: nat)
    requires i < |s|
    ensures Count(s, GroupOf(s[i].kind)) > 0
  {
    if i < |s| - 1 { Counted(s[..|s| - 1], i); }
  }

  lemma {:induction false} WorstSignal(s: seq<Candidate>)
    ensures WorstOf(s).Available? || exists i :: 0 <= i < |s| && s[i].signal == WorstOf(s)
    ensures forall i :: 0 <= i < |s| ==> Rank(s[i].signal) <= Rank(WorstOf(s))
  {
    if s != [] {
      var n := |s| - 1;
      WorstSignal(s[..n]);
      if WorstOf(s) == s[n].signal {
      } else if i :| 0 <= i < n && s[..n][i].signal == WorstOf(s[..n]) {
        assert s[i].signal == WorstOf(s);
      }
    }
  }

  lemma SignalsExactly(s: seq<Candidate>)
    ensures var unavailable := exists i :: 0 <= i < |s| && s[i].signal.Unavailable?;
            var doubtful := exists i :: 0 <= i < |s| && Doubtful(s[i].signal);
            var degraded := exists i :: 0 <= i < |s| && s[i].signal.Degraded?;
            && (WorstOf(s).Unavailable? <==> unavailable)
            && (Doubtful(WorstOf(s)) <==> !unavailable && doubtful)
            && (WorstOf(s).Degraded? <==> !unavailable && !doubtful && degraded)
            && (WorstOf(s).Available? <==> !unavailable && !doubtful && !degraded)
  {
    hide WorstOf;
    WorstSignal(s);
  }

  /** An object for which nothing is requested is available when it has an upload. */
  lemma NothingRequested(o: Object)
    requires o.requested <= 0
    ensures Summarized(o) == Summary(0, 0, 0, 0, if o.hasUpload then Available else Unknown)
  {
  }

  lemma {:induction false} BadnessWithin(s: seq<Candidate>, t: seq<Candidate>)
    requires forall i :: 0 <= i < |s| ==> s[i] in t || Weight(s[i]) == 0
    ensures Badness(s) <= Badness(t)
  {
    if s == [] {
      BadnessNonNegative(t);
    } else {
      var last := s[|s| - 1];
      BadnessWithin(s[..|s| - 1], t);
      if last in t { BadnessAtLeast(t, last); } else { BadnessNonNegative(t); }
    }
  }

  lemma {:induction false} BadnessNonNegative(t: seq<Candidate>)
    ensures Badness(t) >= 0
  {
    if t != [] { BadnessNonNegative(t[..|t| - 1]); }
  }

  lemma {:induction false} BadnessAtLeast(t: seq<Candidate>, c: Candidate)
    requires c in t
    ensures Weight(c) <= Badness(t)
  {
    if c != t[|t| - 1] { BadnessAtLeast(t[..|t| - 1], c); }
  }

  lemma BeforeEitherWay(a: Candidate, b: Candidate, c: Candidate)
    requires Before(a, b) && !Before(c, b)
    ensures Before(a, c)
  {
  }

  /** Inserting into a sequence with one more candidate is inserting into the sequence without it. */
  lemma {:induction false} InsertAround(s: seq<Candidate>, p: nat, x: Candidate, y: Candidate) returns (q: nat)
    requires p <= |s| && Ordered(At(s, p, x))
    ensures q <= |Insert(s, y)| && Insert(At(s, p, x), y) == At(Insert(s, y), q, x)
  {
    hide Before;
    var t := At(s, p, x);
    if p == 0 {
      assert t == [x] + s && t[1..] == s;
      if Before(y, x) {
        q := 1;
        if s != [] {
          assert t[1] == s[0] && !Before(t[1], t[0]);
          BeforeEitherWay(y, x, s[0]);
        }
        assert Insert(s, y) == [y] + s;
        assert At([y] + s, 1, x) == [y] + t;
      } else {
        q := 0;
        assert At(Insert(s, y), 0, x) == [x] + Insert(s, y);
      }
    } else {
      assert t[0] == s[0] && t[1..] == At(s[1..], p - 1, x);
      if Before(y, s[0]) {
        q := p + 1;
        assert At([y] + s, q, x) == [y] + t;
      } else {
        var r := InsertAround(s[1..], p - 1, x, y);
        q := r + 1;
        assert At([s[0]] + Insert(s[1..], y), q, x) == [s[0]] + At(Insert(s[1..], y), r, x);
      }
    }
  }

  lemma SortLast(s: seq<Candidate>, y: Candidate)
    ensures Sort(s + [y]) == Insert(Sort(s), y)
  {
    assert (s + [y])[..|s|] == s;
  }

  /** The sort puts one more candidate somewhere and moves no other. */
  lemma {:induction false} SortWithOne(a: seq<Candidate>, x: Candidate, b: seq<Candidate>) returns (p: nat)
    ensures p <= |Sort(a + b)| && Sort(a + [x] + b) == At(Sort(a + b), p, x)
    decreases |b|
  {
    if b == [] {
      assert a + [x] + b == a + [x] && a + b == a;
      SortLast(a, x);
      p := InsertPlace(Sort(a), x);
    } else {
      var c, y := b[..|b| - 1], b[|b| - 1];
      assert a + [x] + b == a + [x] + c + [y] && a + b == a + c + [y];
      var q := SortWithOne(a, x, c);
      SortOrders(a + [x] + c);
      SortLast(a + [x] + c, y);
      SortLast(a + c, y);
      p := InsertAround(Sort(a + c), q, x, y);
    }
  }

  /** One more readable copy, wherever it is found, never makes an object's status worse. */
  lemma ReadableNeverWorsens(requested: int, hasUpload: bool, hasUpload': bool, a: seq<Candidate>, x: Candidate,
                             b: seq<Candidate>)
    requires x.kind.Readable? && Sound(x) && (hasUpload ==> hasUpload')
    ensures Rank(Summarized(Object(requested, hasUpload', a + [x] + b)).status)
        <= Rank(Summarized(Object(requested, hasUpload, a + b)).status)
  {
    if requested > 0 {
      var o, o' := Object(requested, hasUpload, a + b), Object(requested, hasUpload', a + [x] + b);
      StatusRank(o);
      StatusRank(o');
      SelectedWithOne(o, o', a, x, b);
      BadnessWithin(Selected(o'), Selected(o));
      BadnessNonNegative(Selected(o));
      assert (a + [x] + b)[|a|] == x;
      assert GapGroup(a + [x] + b).PendingGroup?;
    }
  }

  lemma SelectedWithOne(o: Object, o': Object, a: seq<Candidate>, x: Candidate, b: seq<Candidate>)
    requires o.requested == o'.requested > 0 && o.candidates == a + b && o'.candidates == a + [x] + b
    ensures forall i :: 0 <= i < |Selected(o')| ==> Selected(o')[i] in Selected(o) || Selected(o')[i] == x
  {
    var s := Sort(a + b);
    SortOrders(a + b);
    SortOrders(a + [x] + b);
    var p := SortWithOne(a, x, b);
    var t := At(s, p, x);
    forall i | 0 <= i < |Selected(o')| ensures Selected(o')[i] in Selected(o) || Selected(o')[i] == x {
      assert Selected(o')[i] == t[i];
      if i < p { assert t[i] == s[i] == Selected(o)[i]; }
      else if i > p { assert t[i] == s[i - 1] == Selected(o)[i - 1]; }
    }
  }
}
