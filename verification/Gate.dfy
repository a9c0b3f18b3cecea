/**
 * The gate as the code runs it: a table of reference-counted entries, each
 * deleted with its last user and created again for the next. An entry records
 * the users that took it, so the table stands for one protocol state per key.
 */
module Gate {
  import opened GateProtocol

  type Key = string

  /** Nobody holds the key exclusively, and the users are fewer than 2^63 - 1. */
  ghost predicate OnlyReaders(users: Users) {
    (forall p :: p in users && users[p].Holding? ==> users[p].weight == 1) && |users| < 0x7fff_ffff_ffff_ffff
  }

  class Entry {
    ghost const key: Key
    var refs: int
    var held: int
    ghost var users: Users

    /** The counters are exactly the number of users and the weight granted, and
        the weight granted is within capacity. */
    ghost predicate Ok()
      reads this
    { refs == |users| && held == Load(users) && Safe(users) }

    constructor (ghost key: Key)
      ensures Ok() && users == map[] && this.key == key
    {
      this.key := key;
      refs, held, users := 0, 0, map[];
    }

    method Count(ghost p: int)
      requires Ok() && p !in users
      modifies this
      ensures Ok() && Next(old(users), Enter(p), users)
    {
      LoadAfter(users, p, Waiting);
      assert users[p := Waiting].Keys == users.Keys + {p};
      refs := refs + 1;
      users := users[p := Waiting];
    }

    /** The semaphore grants a weight only while it fits; `queued` says that
        earlier waiters are ahead. */
    method TryAcquire(ghost p: int, weight: int, queued: bool) returns (ok: bool)
      requires Ok() && p in users && users[p].Waiting? && 1 <= weight
      modifies this
      ensures Ok()
      ensures ok <==> !queued && Load(old(users)) + weight <= CAPACITY
      ensures if ok then Next(old(users), Grant(p, weight), users) else users == old(users)
    {
      if CAPACITY - held < weight || queued { return false; }
      LoadAfter(users, p, Holding(weight));
      assert users[p := Holding(weight)].Keys == users.Keys;
      held := held + weight;
      users := users[p := Holding(weight)];
      return true;
    }

    /** A wait that failed or was cancelled leaves the semaphore as it was. */
    ghost method StopWaiting(p: int)
      requires Ok() && p in users && users[p].Waiting?
      modifies this
      ensures Ok() && Next(old(users), GiveUp(p), users)
    {
      LoadAfter(users, p, Leaving);
      assert users[p := Leaving].Keys == users.Keys;
      users := users[p := Leaving];
    }

    method ReleasePermits(ghost p: int, weight: int)
      requires Ok() && p in users && users[p] == Holding(weight)
      modifies this
      ensures Ok() && Next(old(users), Drop(p), users)
    {
      LoadAfter(users, p, Leaving);
      assert users[p := Leaving].Keys == users.Keys;
      held := held - weight;
      users := users[p := Leaving];
    }

    method Discount(ghost p: int)
      requires Ok() && p in users && users[p].Leaving?
      modifies this
      ensures Ok() && Next(old(users), Exit(p), users)
    {
      LoadWithout(users, p);
      assert (users - {p}).Keys == users.Keys - {p};
      refs := refs - 1;
      users := users - {p};
    }
  }

  class Gate {
    var entries: map<Key, Entry>
    /** Every entry this gate ever created. */
    ghost var issued: set<Entry>

    /** Every entry with a user is the one in the table for its key: an entry
        that left the table has lost all its users for good. */
    ghost predicate Valid()
      reads this, issued
    {
      && (forall e :: e in issued ==> Placed(e))
      && (forall k :: k in entries ==> entries[k] in issued && entries[k].key == k)
    }

    ghost predicate Placed(e: Entry)
      reads this, e
    { e.Ok() && (e.refs > 0 <==> e.key in entries && entries[e.key] == e) }

    /** The protocol state of one key. */
    ghost function On(key: Key): Users
      reads this, if key in entries then {entries[key]} else {}
    { if key in entries then entries[key].users else map[] }

    constructor ()
      ensures Valid() && entries == map[] && issued == {}
    {
      entries, issued := map[], {};
    }

    /** Look up or create the entry of a key and count one more user of it. */
    method Acquire(ghost p: int, key: Key) returns (entry: Entry)
      requires Valid() && p !in On(key)
      modifies this, if key in entries then {entries[key]} else {}
      ensures Valid() && entry in issued && entry.key == key
      ensures if key in old(entries) then entry == old(entries)[key] && issued == old(issued)
              else fresh(entry) && issued == old(issued) + {entry}
      ensures entries == old(entries)[key := entry]
      ensures Next(old(On(key)), Enter(p), entry.users)
    {
      if key in entries {
        entry := entries[key];
      } else {
        entry := new Entry(key);
        entries := entries[key := entry];
        issued := issued + {entry};
      }
      assert entry.Ok();
      entry.Count(p);
      forall e | e in issued ensures Placed(e) { if e != entry { assert old(Placed(e)); } }
    }

    /** Count one user less and delete the entry with its last user. The entry a
        user releases is always the one in the table. */
    method Release(ghost p: int, key: Key, entry: Entry)
      requires Valid() && entry in issued && entry.key == key && p in entry.users && entry.users[p].Leaving?
      modifies this`entries, entry
      ensures Valid()
      ensures old(key in entries && entries[key] == entry)
      ensures Next(old(entry.users), Exit(p), entry.users)
      ensures entries == if entry.users == map[] then old(entries) - {key} else old(entries)
    {
      assert Placed(entry);
      entry.Discount(p);
      if entry.refs == 0 && key in entries && entries[key] == entry {
        entries := entries - {key};
      }
      forall e | e in issued ensures Placed(e) { if e != entry { assert old(Placed(e)); } }
    }

    /** Leave after a refused or cancelled wait. */
    method Withdraw(ghost p: int, key: Key, entry: Entry)
      requires Valid() && entry in issued && entry.key == key && p in entry.users && entry.users[p].Waiting?
      modifies this`entries, entry
      ensures Valid() && entry.users == old(entry.users) - {p}
      ensures entries == if entry.users == map[] then old(entries) - {key} else old(entries)
    {
      assert Placed(entry);
      entry.StopWaiting(p);
      forall e | e in issued ensures Placed(e) { if e != entry { assert old(Placed(e)); } }
      Release(p, key, entry);
    }

    /** Ask the semaphore of a key for a weight. */
    method TryGrant(ghost p: int, entry: Entry, weight: int, queued: bool) returns (ok: bool)
      requires Valid() && entry in issued && p in entry.users && entry.users[p].Waiting? && 1 <= weight
      modifies entry
      ensures Valid()
      ensures ok <==> !queued && Load(old(entry.users)) + weight <= CAPACITY
      ensures if ok then Next(old(entry.users), Grant(p, weight), entry.users) else entry.users == old(entry.users)
      ensures ok ==> entry.users == old(entry.users)[p := Holding(weight)]
      ensures weight == 1 && !queued && OnlyReaders(old(entry.users)) ==> ok
      ensures weight == CAPACITY && (exists q :: q in old(entry.users) && old(entry.users)[q].Holding?) ==> !ok
    {
      assert Placed(entry);
      if OnlyReaders(entry.users) { ReadersShare(entry.users); }
      if q :| q in entry.users && entry.users[q].Holding? { ReadsAndExclusion(entry.users, q); }
      ok := entry.TryAcquire(p, weight, queued);
      forall e | e in issued ensures Placed(e) { if e != entry { assert old(Placed(e)); } }
    }

    /** The release function handed to a holder: permits first, then the entry. */
    method Finish(ghost p: int, key: Key, entry: Entry, weight: int)
      requires Valid() && entry in issued && entry.key == key && p in entry.users && entry.users[p] == Holding(weight)
      modifies this`entries, entry
      ensures Valid() && entry.users == old(entry.users) - {p}
      ensures entries == if entry.users == map[] then old(entries) - {key} else old(entries)
    {
      assert Placed(entry);
      entry.ReleasePermits(p, weight);
      forall e | e in issued ensures Placed(e) { if e != entry { assert old(Placed(e)); } }
      Release(p, key, entry);
    }

    /** Over the whole table, with entries deleted and created again: an exclusive
        holder of a key is its only holder, whichever entries the two came by. */
    lemma ExclusiveHolderIsAlone(e: Entry, p: int, e': Entry, q: int)
      requires Valid() && e in issued && e' in issued && e.key == e'.key
      requires p in e.users && e.users[p] == Holding(CAPACITY)
      requires q in e'.users && e'.users[q].Holding?
      ensures e == e' && p == q
    {
      UsersShareEntry(e, p, e', q);
      if p != q { ExclusiveIsAlone(e.users, p, q); }
    }

    /** All users of a key, holding or waiting, came by the same entry: the one in the table. */
    lemma UsersShareEntry(e: Entry, p: int, e': Entry, q: int)
      requires Valid() && e in issued && e' in issued && e.key == e'.key && p in e.users && q in e'.users
      ensures e == e' && e.key in entries && entries[e.key] == e
    {
      assert Placed(e) && Placed(e');
    }

    /** The table is empty exactly when no key has a user left. */
    lemma EmptyWhenAllLeft()
      requires Valid()
      ensures entries == map[] <==> forall k :: On(k) == map[]
    {
      forall k | k in entries ensures On(k) != map[] { assert Placed(entries[k]); }
    }
  }
}
