/**
 * The login failure limiter as the code runs it: a table of failure records and
 * a list of the keys it may evict, oldest first, both updated in place.
 */
module LoginLimiter {
  import opened Options
  import opened LoginBlocks

  /** A cell of the eviction list; `id` is its identity. */
  datatype Element = Element(id: nat, key: string)

  datatype Record = Record(tally: Tally, element: Option<Element>)

  function TallyOf(failures: map<string, Record>, key: string): Option<Tally> {
    if key in failures then Some(failures[key].tally) else None
  }

  /** Every key takes the step the call allows it. */
  ghost predicate AllStep(e: Event, failures: map<string, Record>, failures': map<string, Record>) {
    forall k :: KeyStep(e, k, TallyOf(failures, k), TallyOf(failures', k))
  }

  ghost predicate Distinct(list: seq<Element>) { forall i, j :: 0 <= i < j < |list| ==> list[i] != list[j] }

  /** The list holds exactly the elements that records carry, each once. */
  ghost predicate Tracks(failures: map<string, Record>, list: seq<Element>, nextId: nat) {
    && Distinct(list)
    && (forall e :: e in list ==> e.id < nextId && e.key in failures && failures[e.key].element == Some(e))
    && (forall k :: k in failures && failures[k].element.Some?
            ==> failures[k].element.value in list && failures[k].element.value.key == k)
  }

  /** As Tracks, for all keys but one that has no element. */
  ghost predicate TracksOthers(failures: map<string, Record>, list: seq<Element>, key: string, nextId: nat) {
    && Distinct(list)
    && (forall e :: e in list
            ==> e.key != key && e.id < nextId && e.key in failures && failures[e.key].element == Some(e))
    && (forall k :: k in failures && k != key && failures[k].element.Some?
            ==> failures[k].element.value in list && failures[k].element.value.key == k)
  }

  lemma ListedLast(failures: map<string, Record>, list: seq<Element>, key: string, r: Record, nextId: nat)
    requires r.element.Some? && r.element.value.key == key && r.element.value.id < nextId
    requires TracksOthers(failures, list, key, nextId)
    ensures Tracks(failures[key := r], list + [r.element.value], nextId)
  {
    var all := list + [r.element.value];
    assert forall i :: 0 <= i < |list| ==> all[i] == list[i] && list[i] in list;
    assert r.element.value == all[|list|];
  }

  function Without(list: seq<Element>, e: Element): seq<Element> {
    if list == [] then [] else if list[0] == e then list[1..] else [list[0]] + Without(list[1..], e)
  }

  lemma {:induction false} WithoutRemoves(list: seq<Element>, e: Element)
    requires Distinct(list)
    ensures Distinct(Without(list, e))
    ensures forall x :: x in Without(list, e) <==> x in list && x != e
  {
    if list != [] {
      assert list == [list[0]] + list[1..];
      assert forall x :: x in list[1..] ==> x != list[0];
      if list[0] != e {
        WithoutRemoves(list[1..], e);
        var rest := Without(list[1..], e);
        assert list[0] !in rest;
        assert forall i :: 0 <= i < |rest| ==> rest[i] in rest;
      }
    }
  }

  /** The list once the element of a record, if it has one, is off it. */
  function Unlisted(list: seq<Element>, element: Option<Element>): seq<Element> {
    if element.Some? then Without(list, element.value) else list
  }

  lemma KeysWithout(failures: map<string, Record>, key: string)
    requires key in failures
    ensures |failures - {key}| == |failures| - 1
  {
    assert (failures - {key}).Keys == failures.Keys - {key};
  }

  lemma KeysWith(failures: map<string, Record>, key: string, r: Record)
    ensures |failures[key := r]| == |failures| + if key in failures then 0 else 1
  {
    assert failures[key := r].Keys == failures.Keys + {key};
  }

  datatype Admission = StillBlocked | NoRoom | Admitted

  class Limiter {
    var failures: map<string, Record>
    var evictable: seq<Element>
    var nextCleanup: int
    var nextId: nat

    ghost predicate Valid()
      reads this
    {
      Tracks(failures, evictable, nextId) && |failures| <= MAX_ENTRIES
    }

    /** A clean-up is due. */
    predicate Due(now: int)
      reads this
    { nextCleanup == NEVER || now >= nextCleanup }

    constructor ()
      ensures Valid() && failures == map[] && evictable == []
    {
      failures, evictable, nextCleanup, nextId := map[], [], NEVER, 0;
    }

    method Delete(key: string)
      requires Valid()
      modifies this`failures, this`evictable
      ensures Valid() && failures == old(failures) - {key}
      ensures evictable == Unlisted(old(evictable), if key in old(failures) then old(failures)[key].element else None)
    {
      if key in failures {
        if failures[key].element.Some? {
          WithoutRemoves(evictable, failures[key].element.value);
          evictable := Without(evictable, failures[key].element.value);
        }
        KeysWithout(failures, key);
        failures := failures - {key};
      } else {
        assert failures - {key} == failures;
      }
    }

    /** Takes every expired record, and only those. */
    method Cleanup(now: int)
      requires Valid()
      modifies this`failures, this`evictable
      ensures Valid()
      ensures forall k :: k in failures <==> k in old(failures) && !Expired(old(failures)[k].tally, now)
      ensures forall k :: k in failures ==> failures[k] == old(failures)[k]
      ensures |failures| <= |old(failures)|
    {
      var todo := failures.Keys;
      while todo != {}
        invariant Valid() && todo <= failures.Keys && |failures| <= |old(failures)|
        invariant forall k :: k in failures
                      <==> k in old(failures) && (k in todo || !Expired(old(failures)[k].tally, now))
        invariant forall k :: k in failures ==> failures[k] == old(failures)[k]
        decreases |todo|
      {
        var key :| key in todo;
        todo := todo - {key};
        if Expired(failures[key].tally, now) {
          KeysWithout(failures, key);
          Delete(key);
        }
      }
    }

    method MaybeCleanup(now: int)
      requires Valid()
      modifies this`failures, this`evictable, this`nextCleanup
      ensures Valid()
      ensures forall k :: k in failures ==> k in old(failures) && failures[k] == old(failures)[k]
      ensures forall k :: k in old(failures) && k !in failures ==> Expired(old(failures)[k].tally, now)
      ensures nextCleanup == if old(Due(now)) then now + CLEANUP else old(nextCleanup)
      ensures old(Due(now)) ==> forall k :: k in failures ==> !Expired(failures[k].tally, now)
      ensures !old(Due(now)) ==> failures == old(failures) && evictable == old(evictable)
      ensures |failures| <= |old(failures)|
    {
      if nextCleanup == NEVER || now >= nextCleanup {
        Cleanup(now);
        nextCleanup := now + CLEANUP;
      }
    }

    /** A full table gives up its first listed key that is not blocked; the blocked
        ones before it leave the list and stay in the table. */
    method MakeRoom(now: int) returns (ok: bool)
      requires Valid()
      modifies this`failures, this`evictable
      ensures Valid() && ok == (|failures| < MAX_ENTRIES)
      ensures |old(failures)| < MAX_ENTRIES ==> failures == old(failures) && evictable == old(evictable)
      ensures failures.Keys <= old(failures).Keys
      ensures forall k :: k in failures ==> failures[k].tally == old(failures)[k].tally
      ensures !ok ==> evictable == [] && failures.Keys == old(failures).Keys
      ensures !ok ==> forall e :: e in old(evictable) ==> Blocked(old(failures)[e.key].tally, now)
      ensures forall k :: k in old(failures) && k !in failures ==> !Blocked(old(failures)[k].tally, now)
      ensures ok && |old(failures)| == MAX_ENTRIES ==> Evicts(old(failures), old(evictable), now, failures, evictable)
    {
      if |failures| < MAX_ENTRIES { return true; }
      ghost var i: nat := 0;
      while evictable != []
        invariant i <= |old(evictable)| && evictable == old(evictable)[i..]
        invariant Valid() && failures.Keys == old(failures).Keys && |failures| == MAX_ENTRIES
        invariant forall k :: k in failures ==> failures[k].tally == old(failures)[k].tally
        invariant forall j :: 0 <= j < i ==> Blocked(old(failures)[old(evictable)[j].key].tally, now)
        decreases |evictable|
      {
        var element := evictable[0];
        var key := element.key;
        if key !in failures || failures[key].element != Some(element) {
          assert false;
        } else if Blocked(failures[key].tally, now) {
          PassOver(key, element);
        } else {
          assert key == old(evictable)[i].key;
          Unlist(key, element);
          assert EvictsAt(old(failures), old(evictable), now, failures, evictable, i);
          return true;
        }
        i := i + 1;
      }
      ok := false;
    }

    /** Takes the key at the front off the list and keeps its record. */
    method PassOver(key: string, element: Element)
      requires Valid() && evictable != [] && element == evictable[0] && key == element.key
      modifies this`failures, this`evictable
      ensures Valid() && evictable == old(evictable)[1..]
      ensures key in old(failures) && failures == old(failures)[key := old(failures)[key].(element := None)]
      ensures |failures| == |old(failures)|
    {
      WithoutRemoves(evictable, element);
      KeysWith(failures, key, failures[key].(element := None));
      evictable := Without(evictable, element);
      failures := failures[key := failures[key].(element := None)];
    }

    /** Removes the key at the front of the list. */
    method Unlist(key: string, element: Element)
      requires Valid() && evictable != [] && element == evictable[0] && key == element.key
      modifies this`failures, this`evictable
      ensures Valid() && failures == old(failures) - {key} && evictable == old(evictable)[1..]
      ensures |failures| == |old(failures)| - 1
    {
      WithoutRemoves(evictable, element);
      KeysWithout(failures, key);
      evictable := Without(evictable, element);
      failures := failures - {key};
    }

    /** Files the record of a key: a blocked one is not listed, another goes to the back. */
    method Store(key: string, failure: Record, now: int)
      requires Valid()
      requires key in failures ==> failure.element == failures[key].element
      requires key !in failures ==> failure.element.None? && |failures| < MAX_ENTRIES
      modifies this`failures, this`evictable, this`nextId
      ensures Valid() && key in failures && failures[key].tally == failure.tally
      ensures failures == old(failures)[key := failures[key]]
      ensures failures[key].element.None? <==> Blocked(failure.tally, now)
      ensures failures[key].element.Some? && failure.element.Some? ==> failures[key].element == failure.element
      ensures evictable
           == Unlisted(old(evictable), failure.element)
              + if failures[key].element.Some? then [failures[key].element.value] else []
    {
      Untrack(key, failure);
      var stored := failure.(element := None);
      if !Blocked(failure.tally, now) {
        if failure.element.Some? {
          stored := failure;
        } else {
          stored := failure.(element := Some(Element(nextId, key)));
          nextId := nextId + 1;
        }
        ListedLast(failures, evictable, key, stored, nextId);
        evictable := evictable + [stored.element.value];
      }
      KeysWith(failures, key, stored);
      failures := failures[key := stored];
    }

    /** Takes a record's element off the list; the record is about to be replaced. */
    method Untrack(key: string, failure: Record)
      requires Valid() && (key in failures ==> failure.element == failures[key].element)
      requires key !in failures ==> failure.element.None?
      modifies this`evictable
      ensures evictable == Unlisted(old(evictable), failure.element) && TracksOthers(failures, evictable, key, nextId)
    {
      if failure.element.Some? {
        WithoutRemoves(evictable, failure.element.value);
        evictable := Without(evictable, failure.element.value);
      }
    }

    /** Notes that a blocked key was seen. */
    method Refresh(key: string, now: int)
      requires Valid() && key in failures
      modifies this`failures
      ensures Valid()
      ensures failures == old(failures)[key := old(failures)[key].(tally := Seen(old(failures)[key].tally, now))]
    {
      var failure := failures[key];
      KeysWith(failures, key, failure.(tally := Seen(failure.tally, now)));
      failures := failures[key := failure.(tally := Seen(failure.tally, now))];
    }

    /** What Begin and RecordFailure share: clean up, look the key up, make room for a new one. */
    method Admit(key: string, now: int) returns (admission: Admission, failure: Record)
      requires Valid()
      modifies this
      ensures Valid()
      ensures forall k :: k != key ==> OthersStep(TallyOf(old(failures), k), TallyOf(failures, k), now)
      ensures key in failures ==> key in old(failures)
      ensures key !in failures ==> key !in old(failures) || Expired(old(failures)[key].tally, now)
      ensures nextCleanup == if old(Due(now)) then now + CLEANUP else old(nextCleanup)
      ensures old(Due(now)) ==> forall k :: k in failures && k != key ==> !Expired(failures[k].tally, now)
      ensures |old(failures)| < MAX_ENTRIES
         ==> forall k :: k in old(failures) && !Expired(old(failures)[k].tally, now) ==> k in failures
      ensures admission.StillBlocked? ==> key in failures && Blocked(old(failures)[key].tally, now)
      ensures admission.StillBlocked? ==> failures[key].tally == Seen(old(failures)[key].tally, now)
      ensures admission.NoRoom? ==> key !in failures && |failures| == MAX_ENTRIES && evictable == []
      ensures admission.Admitted? && key in failures
         ==> failure == failures[key] && failure.tally == old(failures)[key].tally
      ensures admission.Admitted? && key in failures ==> !Blocked(failure.tally, now)
      ensures admission.Admitted? && key !in failures
         ==> failure == Record(NO_FAILURES, None) && |failures| < MAX_ENTRIES
    {
      hide Tracks, Evicts, Blocked, Expired;
      MaybeCleanup(now);
      failure := Record(NO_FAILURES, None);
      if key in failures {
        failure := failures[key];
        if Blocked(failure.tally, now) {
          Refresh(key, now);
          return StillBlocked, failure;
        }
        return Admitted, failure;
      }
      var room := MakeRoom(now);
      admission := if room then Admitted else NoRoom;
    }

    method Begin(key: string, now: int) returns (allowed: bool)
      requires Valid()
      modifies this
      ensures Valid()
      ensures AllStep(Event(LoginBlocks.Begin(allowed), key, now), old(failures), failures)
      ensures allowed ==> key in failures && failures[key].element.Some?
      ensures !allowed && key !in failures ==> |failures| == 4096 && evictable == []
      ensures nextCleanup == if old(nextCleanup) == 0 || now >= old(nextCleanup) then now + 60_000_000_000
                             else old(nextCleanup)
      ensures old(nextCleanup) == 0 || now >= old(nextCleanup)
         ==> forall k :: k in failures && k != key ==> IsRecent(failures[k].tally, now)
      ensures |failures| <= 4096
      ensures |old(failures)| < 4096
         ==> forall k :: k in old(failures) && k != key && IsRecent(old(failures)[k].tally, now) ==> k in failures
    {
      hide Tracks;
      var admission, failure := Admit(key, now);
      allowed := admission.Admitted?;
      if allowed { Store(key, failure.(tally := Seen(failure.tally, now)), now); }
    }

    method RecordFailure(key: string, now: int)
      requires Valid()
      modifies this
      ensures Valid()
      ensures AllStep(Event(LoginBlocks.RecordFailure, key, now), old(failures), failures)
      ensures key !in failures ==> |failures| == 4096 && evictable == []
      ensures nextCleanup == if old(nextCleanup) == 0 || now >= old(nextCleanup) then now + 60_000_000_000
                             else old(nextCleanup)
      ensures old(nextCleanup) == 0 || now >= old(nextCleanup)
         ==> forall k :: k in failures && k != key ==> IsRecent(failures[k].tally, now)
      ensures |failures| <= 4096
      ensures |old(failures)| < 4096
         ==> forall k :: k in old(failures) && k != key && IsRecent(old(failures)[k].tally, now) ==> k in failures
    {
      hide Tracks;
      var admission, failure := Admit(key, now);
      if admission.Admitted? {
        var count, blockedAt := failure.tally.count, failure.tally.blockedAt;
        if count >= LIMIT { count, blockedAt := 0, NEVER; }
        count := count + 1;
        if count >= LIMIT { blockedAt := now; }
        Store(key, failure.(tally := Tally(count, blockedAt, now)), now);
      }
    }

    method Clear(key: string)
      requires Valid()
      modifies this
      ensures Valid()
      ensures forall now :: AllStep(Event(LoginBlocks.Clear, key, now), old(failures), failures)
      ensures failures == old(failures) - {key}
    {
      Delete(key);
    }
  }

  /** The record dropped is the first listed one that is not blocked. */
  ghost predicate Evicts(failures: map<string, Record>, list: seq<Element>, now: int, failures': map<string, Record>,
                         list': seq<Element>) {
    exists i :: 0 <= i < |list| && EvictsAt(failures, list, now, failures', list', i)
  }

  ghost predicate EvictsAt(failures: map<string, Record>, list: seq<Element>, now: int,
                           failures': map<string, Record>, list': seq<Element>, i: nat)
    requires i < |list|
  {
    && failures'.Keys == failures.Keys - {list[i].key} && list' == list[i + 1..]
    && list[i].key in failures && !Blocked(failures[list[i].key].tally, now)
    && forall j :: 0 <= j < i ==> list[j].key in failures && Blocked(failures[list[j].key].tally, now)
  }
}
