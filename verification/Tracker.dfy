/**
 * One shard of the tracker's table as the code runs it: entries updated in
 * place under the shard's lock, with a limit on their number. `rest` carries,
 * per content, the operations in flight, the store and the history.
 */
module Tracker {
  import opened Options
  import opened TrackerProtocol

  datatype Id = ContentId(value: int)

  datatype Recorded = Returns | Writes(stamp: nat, at: Time, commit: bool) | Spills(at: Time)

  /** The clean entry among `ids` that was touched longest ago, or none is clean. */
  predicate OldestClean(entries: map<Id, Entry>, ids: set<Id>, oldest: Option<Id>) {
    match oldest
    case None => forall i :: i in ids && i in entries ==> !Clean(entries[i])
    case Some(v) =>
      && v in ids && v in entries && Clean(entries[v])
      && forall i :: i in ids && i in entries && Clean(entries[i]) ==> entries[v].lastTouched <= entries[i].lastTouched
  }

  lemma RemovalShrinks(entries: map<Id, Entry>, id: Id)
    ensures |entries - {id}| == |entries| - if id in entries then 1 else 0
  {
    assert (entries - {id}).Keys == entries.Keys - {id};
  }

  /** Every entry has an access that is not stored or a commit that is pending. */
  predicate AllUnsettled(entries: map<Id, Entry>) {
    forall i :: i in entries ==> entries[i].lastAccess > entries[i].lastPersisted || entries[i].commitRequired != 0
  }

  /** The entry is stored and owes no commit, and none such was touched before it. */
  predicate IsOldestSettled(entries: map<Id, Entry>, e: Entry) {
    && e.lastAccess <= e.lastPersisted && e.commitRequired == 0
    && forall i :: i in entries && entries[i].lastAccess <= entries[i].lastPersisted && entries[i].commitRequired == 0
               ==> e.lastTouched <= entries[i].lastTouched
  }

  method FindOldestClean(entries: map<Id, Entry>) returns (oldest: Option<Id>)
    ensures OldestClean(entries, entries.Keys, oldest)
  {
    oldest := None;
    var todo := entries.Keys;
    while todo != {}
      invariant todo <= entries.Keys
      invariant OldestClean(entries, entries.Keys - todo, oldest)
      decreases |todo|
    {
      var i :| i in todo;
      todo := todo - {i};
      if Clean(entries[i]) && (oldest.None? || entries[i].lastTouched < entries[oldest.value].lastTouched) {
        oldest := Some(i);
      }
    }
  }

  lemma OthersKeepInv(c: Settings, s: State, s': State)
    requires Inv(s) && (s' == s || EvictStep(s, s') || s' == s.(unsafe := true))
    ensures Inv(s')
  {
    if EvictStep(s, s') { StepKeepsInv(c, s, Evict, s'); }
    else if s' != s { StepKeepsInv(c, s, OtherContentFails, s'); }
  }

  ghost predicate AllSound(contents: imap<Id, State>) { forall id :: id in contents ==> Inv(contents[id]) }

  /** A step of one content leaves the others alone, but for an eviction or a
      failure that concerns all of them. */
  ghost predicate OthersStand(before: imap<Id, State>, id: Id, after: imap<Id, State>) {
    && (forall j :: j in before && j in after)
    && forall j :: j != id ==>
         after[j] == before[j] || EvictStep(before[j], after[j]) || after[j] == before[j].(unsafe := true)
  }

  /** All contents keep the invariant. */
  lemma StepKeepsSound(c: Settings, before: imap<Id, State>, id: Id, e: Event, after: imap<Id, State>)
    requires AllSound(before) && OthersStand(before, id, after) && Transition(c, before[id], e, after[id])
    ensures AllSound(after)
  {
    hide Inv, Transition;
    forall j | j in after ensures Inv(after[j]) {
      if j == id { StepKeepsInv(c, before[j], e, after[j]); } else { OthersKeepInv(c, before[j], after[j]); }
    }
  }

  ghost function NewContent(id: Id): State { State(None, 0, map[], false, 0, 0, 0, 0) }

  /** How an access changes the fields of an entry. */
  predicate IsTouched(e: Entry, e': Entry, durable: Option<Time>, requireCommit: bool, now: Time, persist: bool) {
    && e'.stamp == e.stamp && e'.lastTouched == now && e'.lastAccess > e.lastAccess && e'.lastAccess >= now
    && e'.lastAttempt == (if persist then now else e.lastAttempt)
    && e'.lastPersisted == (if durable.Some? && durable.value > e.lastPersisted then durable.value else e.lastPersisted)
    && (|| e'.lastAccess == now || e'.lastAccess == e.lastAccess + 1
        || (durable.Some? && e'.lastAccess == durable.value + 1))
    && e'.commitRequired == if requireCommit && e'.lastAccess > e.commitRequired then e'.lastAccess
                            else e.commitRequired
  }

  /** How an acknowledged store write changes the fields of an entry. */
  predicate IsAcknowledged(e: Entry, e': Entry, at: Time, commit: bool) {
    && e' == e.(lastPersisted := e'.lastPersisted, commitRequired := e'.commitRequired)
    && e'.lastPersisted == (if at > e.lastPersisted then at else e.lastPersisted)
    && e'.commitRequired == (if commit && at >= e.commitRequired then 0 else e.commitRequired)
  }

  class Shard {
    const limit: int
    const settings: Settings
    var entries: map<Id, Entry>
    var unsafeForLRU: bool
    var created: nat
    /** The protocol state of every content, tracked or not. */
    ghost var contents: imap<Id, State>

    ghost function Of(id: Id): State
      reads this
    { if id in contents then contents[id] else NewContent(id) }

    /** The protocol state of a content agrees with the shard's fields. */
    ghost predicate Tied(id: Id)
      reads this
    {
      && id in contents && Of(id).unsafe == unsafeForLRU && Of(id).nextStamp <= created
      && Of(id).entry == if id in entries then Some(entries[id]) else None
    }

    /** The shard keeps its limit and every content the invariant of the protocol. */
    ghost predicate Valid()
      reads this
    { (limit > 0 ==> |entries| <= limit) && (forall id :: Tied(id)) && AllSound(contents) }

    constructor (limit: int, settings: Settings)
      ensures Valid() && this.limit == limit && this.settings == settings
      ensures forall id :: Init(Of(id)) && !Of(id).unsafe
    {
      this.limit, this.settings := limit, settings;
      entries, unsafeForLRU, created := map[], false, 0;
      contents := imap id: Id :: NewContent(id);
    }

    predicate Full()
      reads this
    { limit > 0 && |entries| >= limit }

    /** Notes a step of one content, once its entry is up to date. */
    ghost method Note(id: Id, e: Event, s: State)
      requires (forall j :: j != id ==> Tied(j)) && id in contents && AllSound(contents)
      requires Transition(settings, Of(id), e, s)
      requires s.entry == (if id in entries then Some(entries[id]) else None)
      requires s.unsafe == unsafeForLRU && s.nextStamp <= created
      modifies this`contents
      ensures contents == old(contents)[id := s]
      ensures (forall j :: Tied(j)) && AllSound(contents)
    {
      var before := contents;
      forall j ensures j in before { if j != id { assert Tied(j); } }
      contents := contents[id := s];
      forall j ensures Tied(j) { if j != id { assert old(Tied(j)); } }
      StepKeepsSound(settings, before, id, e, contents);
    }

    /** In a full shard, drop the clean entry that was touched longest ago; the
        shard has room afterwards unless nothing in it was clean. */
    method EvictOldestClean() returns (ghost victim: Option<Id>)
      requires Valid()
      modifies this`entries, this`contents
      ensures Valid()
      ensures old(Full()) ==> OldestClean(old(entries), old(entries).Keys, victim)
      ensures victim.Some? <==> old(Full()) && !Full()
      ensures victim.Some? ==> EvictStep(old(Of(victim.value)), Of(victim.value))
      ensures entries == if victim.Some? then old(entries) - {victim.value} else old(entries)
      ensures forall j :: victim != Some(j) ==> Of(j) == old(Of(j))
      ensures victim.Some? ==> victim.value in old(entries) && IsOldestSettled(old(entries), old(entries)[victim.value])
      ensures victim.None? && old(Full()) ==> AllUnsettled(old(entries))
    {
      if !Full() { return None; }
      var oldest := FindOldestClean(entries);
      victim := oldest;
      if oldest.Some? {
        var id := oldest.value;
        RemovalShrinks(entries, id);
        assert Tied(id);
        entries := entries - {id};
        forall j | j != id ensures Tied(j) { assert old(Tied(j)); }
        Note(id, Evict, Of(id).(entry := None));
      }
    }

    /** Stamp an access on an entry; tells whether to write it now. */
    method Touch(entry: Entry, durable: Option<Time>, requireCommit: bool, now: Time)
      returns (touched: Entry, persist: bool, at: Time, commit: bool)
      requires now > 0
      ensures touched == Touched(entry, now, durable, requireCommit, settings.interval)
      ensures persist == Persists(entry, now, requireCommit, settings.interval)
      ensures at == touched.lastAccess && commit == (touched.commitRequired != 0) && touched.stamp == entry.stamp
      ensures persist <==> requireCommit || entry.lastAttempt == 0 || settings.interval == 0
                           || now - entry.lastAttempt >= settings.interval
      ensures IsTouched(entry, touched, durable, requireCommit, now, persist)
    {
      touched := entry;
      at := NextAccessTime(now, entry.lastAccess, durable);
      persist := requireCommit || entry.lastAttempt == 0 || settings.interval == 0
          || now - entry.lastAttempt >= settings.interval;
      if durable.Some? && durable.value > touched.lastPersisted { touched := touched.(lastPersisted := durable.value); }
      touched := touched.(lastAccess := at, lastTouched := now);
      if requireCommit && at > touched.commitRequired { touched := touched.(commitRequired := at); }
      if persist { touched := touched.(lastAttempt := now); }
      commit := touched.commitRequired != 0;
    }

    /** An access that the table cannot hold goes to the store. */
    method SpillHere(ghost op: int, id: Id, durable: Option<Time>, requireCommit: bool, now: Time) returns (r: Recorded)
      requires Valid() && now > 0 && op !in Of(id).ops && id !in entries
      requires durable.Some? ==> durable.value <= Of(id).access
      modifies this`contents
      ensures Valid() && r.Spills? && SpillStep(old(Of(id)), op, durable, requireCommit, now, Of(id))
      ensures op in Of(id).ops && Of(id).ops[op] == Writing(0, r.at, requireCommit, Overflow)
      ensures r.at >= now && (durable.Some? ==> r.at > durable.value)
      ensures forall j :: j != id ==> Of(j) == old(Of(j))
    {
      assert Tied(id);
      r := Spills(NextAccessTime(now, 0, durable));
      ghost var s := Of(id);
      Note(id, Spill(op, durable, requireCommit, now),
           s.(ops := s.ops[op := Writing(0, r.at, requireCommit, Overflow)]));
    }

    /** Record an access in the table. */
    method RecordHere(ghost op: int, id: Id, durable: Option<Time>, requireCommit: bool, now: Time)
      returns (r: Recorded)
      requires Valid() && now > 0 && op !in Of(id).ops && (id in entries || !Full())
      requires durable.Some? ==> durable.value <= Of(id).access
      modifies this`entries, this`created, this`contents
      ensures Valid() && !r.Spills?
      ensures RecordStep(settings, old(Of(id)), op, durable, requireCommit, now, old(created), Of(id))
      ensures r.Writes? ==> op in Of(id).ops && Of(id).ops[op] == Writing(r.stamp, r.at, r.commit, Foreground)
      ensures r.Returns? ==> op !in Of(id).ops
      ensures id in entries && entries == old(entries)[id := entries[id]]
      ensures r.Returns?
         <==> id in old(entries) && !requireCommit && old(entries)[id].lastAttempt != 0 && settings.interval != 0
              && now - old(entries)[id].lastAttempt < settings.interval
      ensures IsTouched(if id in old(entries) then old(entries)[id] else NewEntry(old(created)), entries[id],
                        durable, requireCommit, now, r.Writes?)
      ensures r.Writes? ==> r.at == entries[id].lastAccess && r.commit == (entries[id].commitRequired != 0)
      ensures forall j :: j != id ==> Of(j) == old(Of(j))
    {
      ghost var s := Of(id);
      assert Tied(id);
      var entry := if id in entries then entries[id] else NewEntry(created);
      var touched, persist, at, commit := Touch(entry, durable, requireCommit, now);
      r := if persist then Writes(entry.stamp, at, commit) else Returns;
      PutEntry(id, touched, if id in entries then created else created + 1);
      Note(id, Event.Record(op, durable, requireCommit, now, old(created)),
           RecordedState(settings, s, op, durable, requireCommit, now, old(created)));
    }

    /** Puts the entry of a content in the table. */
    method PutEntry(id: Id, entry: Entry, next: nat)
      requires created <= next && forall j :: j != id ==> Tied(j)
      modifies this`entries, this`created
      ensures created == next && entries == old(entries)[id := entry]
      ensures |entries| == |old(entries)| + if id in old(entries) then 0 else 1
      ensures forall j :: j != id ==> Tied(j)
    {
      assert entries[id := entry].Keys == entries.Keys + {id};
      entries, created := entries[id := entry], next;
      forall j | j != id ensures Tied(j) { assert old(Tied(j)); }
    }

    /** Takes the entry of a content off the table. */
    method DropEntry(id: Id)
      requires forall j :: j != id ==> Tied(j)
      modifies this`entries
      ensures entries == old(entries) - {id} && |entries| <= |old(entries)|
      ensures forall j :: j != id ==> Tied(j)
    {
      RemovalShrinks(entries, id);
      entries := entries - {id};
      forall j | j != id ensures Tied(j) { assert old(Tied(j)); }
    }

    /** The whole locked section of recording: a new content first makes room. It
        spills exactly when the shard is full of entries that are not clean. Of the
        other contents it evicts at most one, and only a clean entry. */
    method Record(ghost op: int, id: Id, durable: Option<Time>, requireCommit: bool, now: Time) returns (r: Recorded)
      requires Valid() && now > 0 && op !in Of(id).ops
      requires durable.Some? ==> durable.value <= Of(id).access
      modifies this`entries, this`created, this`contents
      ensures Valid()
      ensures r.Spills?
         <==> id !in old(entries) && old(Full()) && AllUnsettled(old(entries))
      ensures r.Spills? ==> SpillStep(old(Of(id)), op, durable, requireCommit, now, Of(id))
      ensures !r.Spills? ==> RecordStep(settings, old(Of(id)), op, durable, requireCommit, now, old(created), Of(id))
      ensures r.Writes? ==> op in Of(id).ops && Of(id).ops[op] == Writing(r.stamp, r.at, r.commit, Foreground)
      ensures r.Returns? ==> op !in Of(id).ops
      ensures r.Returns?
         <==> id in old(entries) && !requireCommit && old(entries)[id].lastAttempt != 0 && settings.interval != 0
              && now - old(entries)[id].lastAttempt < settings.interval
      ensures !r.Spills? ==> id in entries
      ensures !r.Spills?
         ==> IsTouched(if id in old(entries) then old(entries)[id] else NewEntry(old(created)), entries[id],
                       durable, requireCommit, now, r.Writes?)
      ensures r.Spills? ==> r.at >= now && (durable.Some? ==> r.at > durable.value)
      ensures r.Writes? ==> r.at == entries[id].lastAccess && r.commit == (entries[id].commitRequired != 0)
      ensures forall j :: j != id ==> Of(j) == old(Of(j)) || EvictStep(old(Of(j)), Of(j))
      ensures forall j, k :: j != id && k != id && Of(j) != old(Of(j)) && Of(k) != old(Of(k)) ==> j == k
      ensures id in old(entries) || !old(Full()) ==> forall j :: j != id ==> Of(j) == old(Of(j))
    {
      assert Tied(id);
      if id !in entries {
        ghost var victim := EvictOldestClean();
        if Full() {
          r := SpillHere(op, id, durable, requireCommit, now);
          return;
        }
      }
      r := RecordHere(op, id, durable, requireCommit, now);
    }

    /** The locked section after a successful store write. */
    method Acknowledge(ghost op: int, id: Id, stamp: nat, at: Time, commit: bool, ghost kind: Kind)
      requires Valid() && op in Of(id).ops && Of(id).ops[op] == Written(stamp, at, commit, kind)
      modifies this`entries, this`created, this`contents
      ensures Valid() && created == old(created) && AcknowledgeStep(old(Of(id)), op, Of(id))
      ensures entries.Keys == old(entries).Keys && forall j :: j in entries && j != id ==> entries[j] == old(entries)[j]
      ensures id in entries && old(entries)[id].stamp == stamp
          ==> IsAcknowledged(old(entries)[id], entries[id], at, commit)
      ensures id in entries && old(entries)[id].stamp != stamp ==> entries[id] == old(entries)[id]
      ensures forall j :: j != id ==> Of(j) == old(Of(j))
    {
      ghost var s := Of(id);
      assert Tied(id);
      if id in entries && entries[id].stamp == stamp {
        var entry := entries[id];
        if at > entry.lastPersisted { entry := entry.(lastPersisted := at); }
        if commit && entry.commitRequired <= at { entry := entry.(commitRequired := 0); }
        PutEntry(id, entry, created);
      }
      Note(id, Event.Acknowledge(op),
           s.(entry := if id in entries then Some(entries[id]) else None,
              ops := if kind.Flush? then s.ops[op := Retiring(stamp, kind.now)] else s.ops - {op}));
    }

    /** The first locked section of a flush; tells whether a write is due. */
    method FlushStart(ghost op: int, id: Id, now: Time, force: bool) returns (due: bool, at: Time, commit: bool)
      requires Valid() && op !in Of(id).ops
      modifies this`entries, this`created, this`contents
      ensures Valid() && created == old(created) && FlushStep(settings, old(Of(id)), op, now, force, Of(id))
      ensures due <==> op in Of(id).ops && Of(id).ops[op].Writing?
      ensures due ==> Of(id).ops[op].at == at && Of(id).ops[op].commit == commit
      ensures due <==> id in old(entries)
                       && (old(entries)[id].lastAccess > old(entries)[id].lastPersisted
                           || old(entries)[id].commitRequired != 0)
                       && (force || old(entries)[id].lastAttempt == 0 || settings.interval == 0
                           || now - old(entries)[id].lastAttempt >= settings.interval)
      ensures entries == if due then old(entries)[id := old(entries)[id].(lastAttempt := now)] else old(entries)
      ensures due ==> at == entries[id].lastAccess && commit == (entries[id].commitRequired != 0)
      ensures forall j :: j != id ==> Of(j) == old(Of(j))
    {
      due, at, commit := false, 0, false;
      assert Tied(id);
      if id !in entries { return; }
      ghost var s := Of(id);
      var entry := entries[id];
      at, commit := entry.lastAccess, entry.commitRequired != 0;
      var dirty := entry.lastAccess > entry.lastPersisted || commit;
      due := dirty
          && (force || entry.lastAttempt == 0 || settings.interval == 0
              || now - entry.lastAttempt >= settings.interval);
      if due { PutEntry(id, entry.(lastAttempt := now), created); }
      ghost var o := if due then Writing(entry.stamp, at, commit, Flush(now)) else Retiring(entry.stamp, now);
      Note(id, Event.FlushStart(op, now, force), s.(entry := Some(entries[id]), ops := s.ops[op := o]));
    }

    /** The last locked section of a flush: a clean idle entry is retired. */
    method FlushEnd(ghost op: int, id: Id, stamp: nat, now: Time)
      requires Valid() && op in Of(id).ops && Of(id).ops[op] == Retiring(stamp, now)
      modifies this`entries, this`contents
      ensures Valid() && RetireStep(settings, old(Of(id)), op, Of(id))
      ensures entries == if id in old(entries) && old(entries)[id].stamp == stamp
                            && old(entries)[id].lastAccess <= old(entries)[id].lastPersisted
                            && old(entries)[id].commitRequired == 0
                            && old(entries)[id].lastTouched != 0
                            && now - old(entries)[id].lastTouched >= settings.retention
                         then old(entries) - {id} else old(entries)
      ensures forall j :: j != id ==> Of(j) == old(Of(j))
    {
      ghost var s := Of(id);
      assert Tied(id);
      if id in entries && entries[id].stamp == stamp {
        var entry := entries[id];
        var clean := entry.lastAccess <= entry.lastPersisted && entry.commitRequired == 0;
        var idle := entry.lastTouched != 0 && now - entry.lastTouched >= settings.retention;
        if clean && idle { DropEntry(id); }
      }
      Note(id, Event.FlushEnd(op), s.(entry := if id in entries then Some(entries[id]) else None, ops := s.ops - {op}));
    }

    method Forget(id: Id)
      requires Valid()
      modifies this`entries, this`contents
      ensures Valid() && ForgetStep(old(Of(id)), Of(id)) && entries == old(entries) - {id}
      ensures forall j :: j != id ==> Of(j) == old(Of(j))
    {
      assert Tied(id);
      DropEntry(id);
      Note(id, Event.Forget, Of(id).(entry := None, recorded := 0, promised := 0));
    }

    /** A failed overflow write pauses LRU eviction of every content for good. */
    method PauseLRU()
      requires Valid()
      modifies this`unsafeForLRU, this`contents
      ensures Valid() && unsafeForLRU
      ensures forall j :: Of(j) == old(Of(j)).(unsafe := true)
    {
      unsafeForLRU := true;
      contents := imap j: Id :: Of(j).(unsafe := true);
      forall j ensures Tied(j) { assert old(Tied(j)); }
      forall j | j in contents ensures Inv(contents[j]) {
        assert old(Tied(j));
        StepKeepsInv(settings, old(contents)[j], OtherContentFails, contents[j]);
      }
    }

    /** A store write returns. */
    method StoreReturns(ghost op: int, id: Id, overflow: bool, ok: bool, ghost applied: bool)
      requires Valid() && op in Of(id).ops && Of(id).ops[op].Writing? && overflow == Of(id).ops[op].kind.Overflow?
      modifies this`unsafeForLRU, this`contents
      ensures Valid()
      ensures StoreStep(old(Of(id)), op, ok, ok || applied, Of(id))
      ensures ok || applied ==> Of(id).access >= old(Of(id).ops[op].at)
      ensures ok && !overflow ==> op in Of(id).ops && Of(id).ops[op].Written?
      ensures unsafeForLRU == (old(unsafeForLRU) || (overflow && !ok))
      ensures overflow && !ok ==> forall j :: j != id ==> Of(j) == old(Of(j)).(unsafe := true)
      ensures !overflow || ok ==> forall j :: j != id ==> Of(j) == old(Of(j))
    {
      if overflow && !ok { PauseLRU(); }
      assert Tied(id);
      ghost var s := Of(id);
      ghost var t := Stored(s, op, ok, applied);
      if ok { Note(id, StoreOk(op), t); } else { Note(id, StoreFail(op, applied), t); }
    }

    method Latest(id: Id) returns (t: Time)
      requires Valid()
      ensures t == Of(id).Latest()
    {
      assert Tied(id);
      t := if id in entries then entries[id].lastAccess else 0;
    }

    method SafeForLRU() returns (safe: bool)
      requires Valid()
      ensures forall id :: safe <==> !Of(id).unsafe
      ensures safe ==> forall id :: Represented(Of(id))
    {
      safe := !unsafeForLRU;
      forall id ensures safe <==> !Of(id).unsafe { assert Tied(id); }
      forall id | safe ensures Represented(Of(id)) { assert Tied(id) && Inv(contents[id]); }
    }
  }
}
