/**
 * Copy health per bucket: facts about copies are gathered into objects in the
 * order they appear, and each object's summary is added to its bucket's totals.
 */
module BucketHealth {
  import opened Options
  import opened CopyHealth

  datatype ObjectKey = ObjectKey(bucket: int, version: string)

  datatype Fact = Fact(key: ObjectKey, requested: int, hasContent: bool, copy: Option<Copy>)

  datatype Totals = Totals(objects: int, requested: int, readable: int, pending: int, failed: int, unknown: int,
                           status: Status)

  // ------------------------------------------------------------ specification

  /** What the facts say of one object; the first of them says how many copies are asked for. */
  function ObjectOf(facts: seq<Fact>, key: ObjectKey): Option<Object> {
    if facts == [] then None else
    var f := facts[|facts| - 1];
    var o := ObjectOf(facts[..|facts| - 1], key);
    if f.key != key then o else Some(WithFact(if o.Some? then o.value else Object(f.requested, false, []), f))
  }

  function WithFact(o: Object, f: Fact): Object {
    o.(hasUpload := o.hasUpload || f.hasContent,
       candidates := if f.copy.Some? then o.candidates + [CandidateOf(f.copy.value)] else o.candidates)
  }

  /** The objects the facts speak of, in the order they first appear. */
  function Keys(facts: seq<Fact>): seq<ObjectKey> {
    if facts == [] then [] else
    var before := Keys(facts[..|facts| - 1]);
    var key := facts[|facts| - 1].key;
    if key in before then before else before + [key]
  }

  lemma {:induction false} KeysAreTheObjects(facts: seq<Fact>)
    ensures forall k :: k in Keys(facts) <==> ObjectOf(facts, k).Some?
    ensures forall i, j :: 0 <= i < j < |Keys(facts)| ==> Keys(facts)[i] != Keys(facts)[j]
  {
    if facts != [] { KeysAreTheObjects(facts[..|facts| - 1]); }
  }

  predicate Increasing(at: seq<nat>) { forall i, j :: 0 <= i < j < |at| ==> at[i] < at[j] }

  predicate TellsCopy(f: Fact, key: ObjectKey) { f.key == key && f.copy.Some? }

  predicate IsCandidate(facts: seq<Fact>, key: ObjectKey, i: nat, c: Candidate) {
    && i < |facts| && TellsCopy(facts[i], key)
    && var copy := facts[i].copy.value; c.index == copy.index && c.kind == KindOf(copy) && c.signal == copy.signal
  }

  /** The candidates are the copies the facts tell of, in their order. */
  ghost predicate AreCandidates(facts: seq<Fact>, key: ObjectKey, at: seq<nat>, c: seq<Candidate>) {
    && |at| == |c| && Increasing(at)
    && (forall i: nat :: i < |facts| && TellsCopy(facts[i], key) ==> i in at)
    && forall j :: 0 <= j < |at| ==> IsCandidate(facts, key, at[j], c[j])
  }

  lemma OneMoreFact(facts: seq<Fact>, key: ObjectKey, at: seq<nat>, c: seq<Candidate>)
    requires facts != [] && AreCandidates(facts[..|facts| - 1], key, at, c)
    ensures var f := facts[|facts| - 1];
            if TellsCopy(f, key)
            then AreCandidates(facts, key, at + [|facts| - 1], c + [CandidateOf(f.copy.value)])
            else AreCandidates(facts, key, at, c)
  {
    var n := |facts| - 1;
    forall j | 0 <= j < |at| ensures IsCandidate(facts, key, at[j], c[j]) && at[j] < n {
      assert IsCandidate(facts[..n], key, at[j], c[j]);
    }
    forall i: nat | i < n && TellsCopy(facts[i], key) ensures i in at { assert facts[..n][i] == facts[i]; }
  }

  lemma {:induction false} CandidatesExactly(facts: seq<Fact>, key: ObjectKey) returns (at: seq<nat>)
    requires ObjectOf(facts, key).Some?
    ensures AreCandidates(facts, key, at, ObjectOf(facts, key).value.candidates)
  {
    var n := |facts| - 1;
    at := [];
    var c: seq<Candidate> := [];
    if ObjectOf(facts[..n], key).Some? {
      at := CandidatesExactly(facts[..n], key);
      c := ObjectOf(facts[..n], key).value.candidates;
    } else {
      NoFacts(facts[..n], key);
    }
    assert AreCandidates(facts[..n], key, at, c);
    hide AreCandidates;
    OneMoreFact(facts, key, at, c);
    if TellsCopy(facts[n], key) { at := at + [n]; }
  }

  lemma {:induction false} NoFacts(facts: seq<Fact>, key: ObjectKey)
    ensures ObjectOf(facts, key).None? <==> forall i :: 0 <= i < |facts| ==> facts[i].key != key
  {
    if facts != [] {
      var n := |facts| - 1;
      NoFacts(facts[..n], key);
      assert forall i :: 0 <= i < n ==> facts[..n][i] == facts[i];
      if ObjectOf(facts[..n], key).Some? {
        var i :| 0 <= i < n && facts[..n][i].key == key;
        assert facts[i].key == key;
      }
    }
  }

  /** An object is what some fact speaks of; its first fact says how many copies are
      asked for, and it has an upload when any of them says so. */
  lemma {:induction false} ObjectExactly(facts: seq<Fact>, key: ObjectKey, first: nat)
    requires first < |facts| && facts[first].key == key && forall i :: 0 <= i < first ==> facts[i].key != key
    ensures ObjectOf(facts, key).Some?
    ensures ObjectOf(facts, key).value.requested == facts[first].requested
    ensures ObjectOf(facts, key).value.hasUpload
       <==> exists i :: 0 <= i < |facts| && facts[i].key == key && facts[i].hasContent
  {
    var n := |facts| - 1;
    NoFacts(facts[..n], key);
    if first < n {
      ObjectExactly(facts[..n], key, first);
      if i :| 0 <= i < n && facts[..n][i].key == key && facts[..n][i].hasContent { assert facts[i].hasContent; }
      if i :| 0 <= i < |facts| && facts[i].key == key && facts[i].hasContent {
        if i < n { assert facts[..n][i].hasContent; }
      }
    }
  }

  /** A fact that speaks of one object before any fact speaks of another. */
  predicate ComesFirst(facts: seq<Fact>, p: nat, a: ObjectKey, b: ObjectKey) {
    p < |facts| && facts[p].key == a && forall q :: 0 <= q <= p ==> facts[q].key != b
  }

  lemma {:induction false} KeysInOrder(facts: seq<Fact>, i: nat, j: nat) returns (p: nat)
    requires i < j < |Keys(facts)|
    ensures ComesFirst(facts, p, Keys(facts)[i], Keys(facts)[j])
  {
    var n := |facts| - 1;
    var before := Keys(facts[..n]);
    assert forall q :: 0 <= q < n ==> facts[..n][q] == facts[q];
    KeysAreTheObjects(facts[..n]);
    if j < |before| {
      p := KeysInOrder(facts[..n], i, j);
    } else {
      assert before[i] in before;
      NoFacts(facts[..n], before[i]);
      NoFacts(facts[..n], facts[n].key);
      p :| 0 <= p < n && facts[..n][p].key == before[i];
    }
  }

  /** Those of the named objects that are in a bucket. */
  function ObjectsIn(facts: seq<Fact>, keys: seq<ObjectKey>, bucket: int): seq<Object> {
    if keys == [] then [] else
    var key := keys[|keys| - 1];
    var before := ObjectsIn(facts, keys[..|keys| - 1], bucket);
    if key.bucket == bucket && ObjectOf(facts, key).Some? then before + [ObjectOf(facts, key).value] else before
  }

  predicate IsObjectIn(facts: seq<Fact>, keys: seq<ObjectKey>, bucket: int, i: nat, o: Object) {
    i < |keys| && keys[i].bucket == bucket && ObjectOf(facts, keys[i]) == Some(o)
  }

  lemma {:induction false} ObjectsInExactly(facts: seq<Fact>, keys: seq<ObjectKey>, bucket: int) returns (at: seq<nat>)
    ensures |at| == |ObjectsIn(facts, keys, bucket)| && Increasing(at)
    ensures forall i: nat :: i < |keys| && keys[i].bucket == bucket && ObjectOf(facts, keys[i]).Some? ==> i in at
    ensures forall j :: 0 <= j < |at| ==> IsObjectIn(facts, keys, bucket, at[j], ObjectsIn(facts, keys, bucket)[j])
  {
    at := [];
    if keys != [] {
      var n := |keys| - 1;
      at := ObjectsInExactly(facts, keys[..n], bucket);
      assert forall i :: 0 <= i < n ==> keys[..n][i] == keys[i];
      assert forall j :: 0 <= j < |at| ==> at[j] < n;
      if keys[n].bucket == bucket && ObjectOf(facts, keys[n]).Some? { at := at + [n]; }
    }
  }

  function Sum(objects: seq<Object>, f: Object -> int): int {
    if objects == [] then 0 else Sum(objects[..|objects| - 1], f) + f(objects[|objects| - 1])
  }

  function RequestedOf(o: Object): int { o.requested }

  function ReadableOf(o: Object): int { Min(Max(o.requested, 0), Count(o.candidates, ReadableGroup)) }

  function PendingOf(o: Object): int { Summarized(o).pending }

  function FailedOf(o: Object): int { Summarized(o).failed }

  function UnknownOf(o: Object): int { Summarized(o).unknown }

  function NegativeOf(o: Object): int { Min(o.requested, 0) }

  /** The totals count every requested copy of every object once, count readable
      copies up to the number requested, and are as bad as the worst object. */
  ghost predicate TotalsOf(t: Totals, objects: seq<Object>) {
    && t.objects == |objects|
    && t.requested == Sum(objects, RequestedOf)
    && t.readable == Sum(objects, ReadableOf)
    && t.pending == Sum(objects, PendingOf) && t.failed == Sum(objects, FailedOf)
    && t.unknown == Sum(objects, UnknownOf)
    && t.requested - (t.readable + t.pending + t.failed + t.unknown) == Sum(objects, NegativeOf)
    && (forall i :: 0 <= i < |objects| ==> Rank(Summarized(objects[i]).status) <= Rank(t.status))
    && (t.status.Available? || exists i :: 0 <= i < |objects| && Summarized(objects[i]).status == t.status)
  }

  const NOTHING := Totals(0, 0, 0, 0, 0, 0, Available)

  lemma NothingTotalled()
    ensures TotalsOf(NOTHING, [])
  {
  }

  function Added(t: Totals, o: Object, r: Summary): Totals {
    Totals(t.objects + 1, t.requested + o.requested, t.readable + r.readable, t.pending + r.pending,
           t.failed + r.failed, t.unknown + r.unknown, Worst(t.status, r.status))
  }

  lemma AddingKeepsTotals(t: Totals, objects: seq<Object>, o: Object)
    requires TotalsOf(t, objects)
    ensures TotalsOf(Added(t, o, Summarized(o)), objects + [o])
  {
    var all := objects + [o];
    assert all[..|objects|] == objects;
    CountsAddUp(o);
    ReadableIsMin(o);
    var worst := Worst(t.status, Summarized(o).status);
    if worst == t.status && !t.status.Available? {
      var i :| 0 <= i < |objects| && Summarized(objects[i]).status == t.status;
      assert all[i] == objects[i];
    } else if !worst.Available? {
      assert all[|objects|] == o;
    }
  }

  /** When no object asks for fewer than no copies, the four counts make up the requested copies. */
  lemma {:induction false} NothingNegative(objects: seq<Object>)
    requires forall i :: 0 <= i < |objects| ==> objects[i].requested >= 0
    ensures Sum(objects, NegativeOf) == 0
  {
    if objects != [] { NothingNegative(objects[..|objects| - 1]); }
  }

  // ------------------------------------------------------------------- loops

  method Gather(facts: seq<Fact>) returns (objects: map<ObjectKey, Object>, order: seq<ObjectKey>)
    ensures order == Keys(facts)
    ensures forall k :: k in objects <==> ObjectOf(facts, k).Some?
    ensures forall k :: k in objects ==> Some(objects[k]) == ObjectOf(facts, k)
  {
    objects, order := map[], [];
    for i := 0 to |facts|
      invariant order == Keys(facts[..i])
      invariant forall k :: k in objects <==> ObjectOf(facts[..i], k).Some?
      invariant forall k :: k in objects ==> Some(objects[k]) == ObjectOf(facts[..i], k)
    {
      var fact := facts[i];
      KeysAreTheObjects(facts[..i]);
      assert facts[..i + 1][..i] == facts[..i];
      var found := Object(fact.requested, false, []);
      if fact.key in objects {
        found := objects[fact.key];
      } else {
        order := order + [fact.key];
      }
      if fact.hasContent { found := found.(hasUpload := true); }
      if fact.copy.Some? { found := found.(candidates := found.candidates + [CandidateOf(fact.copy.value)]); }
      objects := objects[fact.key := found];
    }
    assert facts[..|facts|] == facts;
  }

  method Summarise(facts: seq<Fact>) returns (summaries: map<int, Totals>)
    ensures forall b :: b in summaries <==> ObjectsIn(facts, Keys(facts), b) != []
    ensures forall b :: b in summaries ==> TotalsOf(summaries[b], ObjectsIn(facts, Keys(facts), b))
  {
    hide TotalsOf, Summarized;
    NothingTotalled();
    var objects, order := Gather(facts);
    KeysAreTheObjects(facts);
    summaries := map[];
    for i := 0 to |order|
      invariant forall b :: b in summaries <==> ObjectsIn(facts, order[..i], b) != []
      invariant forall b :: b in summaries ==> TotalsOf(summaries[b], ObjectsIn(facts, order[..i], b))
    {
      var key := order[i];
      assert order[..i + 1][..i] == order[..i];
      var value := objects[key];
      var accumulator := new Accumulator(value);
      accumulator.Summarize();
      var totals := if key.bucket in summaries then summaries[key.bucket] else NOTHING;
      AddingKeepsTotals(totals, ObjectsIn(facts, order[..i], key.bucket), value);
      summaries := summaries[key.bucket := Added(totals, value, accumulator.Result())];
    }
    assert order[..|order|] == order;
  }
}
