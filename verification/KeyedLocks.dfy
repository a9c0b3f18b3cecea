/**
 * The admin package's lock table: the gate's reference counting with a mutex
 * for each key and no identity test before the deletion.
 */
module KeyedLocks {
  import opened GateProtocol
  import opened Sums

  type Key = string

  class KeyedLock {
    ghost const key: Key
    var locked: bool
    var refs: int
    ghost var users: Users

    ghost predicate Ok()
      reads this
    { refs == |users| && Safe(users) && Load(users) == if locked then CAPACITY else 0 }

    constructor (ghost key: Key)
      ensures Ok() && users == map[] && this.key == key
    {
      this.key := key;
      locked, refs, users := false, 0, map[];
    }

    method Count(ghost p: int)
      requires Ok() && p !in users
      modifies this
      ensures Ok() && Next(old(users), Enter(p), users)
    {
      LoadAfter(users, p, Waiting);
      assert users[p := Waiting].Keys == users.Keys + {p};
      refs := refs + 1;
      users := users[p := Waiting];
    }

    /** A mutex is the whole capacity: it is free exactly when nobody holds it. */
    method TryLock(ghost p: int) returns (ok: bool)
      requires Ok() && p in users && users[p].Waiting?
      modifies this
      ensures Ok() && (ok <==> Load(old(users)) == 0) && (ok <==> !old(locked)) && locked
      ensures if ok then Next(old(users), Grant(p, CAPACITY), users) else users == old(users)
    {
      if locked { return false; }
      LoadAfter(users, p, Holding(CAPACITY));
      assert users[p := Holding(CAPACITY)].Keys == users.Keys;
      locked := true;
      users := users[p := Holding(CAPACITY)];
      return true;
    }

    method Unlock(ghost p: int)
      requires Ok() && p in users && users[p] == Holding(CAPACITY) && locked
      modifies this
      ensures Ok() && Next(old(users), Drop(p), users) && !locked
    {
      LoadAfter(users, p, Leaving);
      assert users[p := Leaving].Keys == users.Keys;
      locked := false;
      users := users[p := Leaving];
    }

    method Discount(ghost p: int)
      requires Ok() && p in users && users[p].Leaving?
      modifies this
      ensures Ok() && Next(old(users), Exit(p), users)
    {
      LoadWithout(users, p);
      assert (users - {p}).Keys == users.Keys - {p};
      refs := refs - 1;
      users := users - {p};
    }
  }

  class KeyedLockSet {
    var locks: map<Key, KeyedLock>
    ghost var issued: set<KeyedLock>

    ghost predicate Valid()
      reads this, issued
    {
      && (forall l :: l in issued ==> Placed(l))
      && (forall k :: k in locks ==> locks[k] in issued && locks[k].key == k)
    }

    ghost predicate Placed(l: KeyedLock)
      reads this, l
    { l.Ok() && (l.refs > 0 <==> l.key in locks && locks[l.key] == l) }

    constructor ()
      ensures Valid() && locks == map[] && issued == {}
    {
      locks, issued := map[], {};
    }

    method Enter(ghost p: int, key: Key) returns (lock: KeyedLock)
      requires Valid() && (key in locks ==> p !in locks[key].users)
      modifies this, if key in locks then {locks[key]} else {}
      ensures Valid() && lock in issued && lock.key == key && locks == old(locks)[key := lock]
      ensures Next(if key in old(locks) then old(locks[key].users) else map[], GateProtocol.Enter(p), lock.users)
    {
      if key in locks {
        lock := locks[key];
      } else {
        lock := new KeyedLock(key);
        locks := locks[key := lock];
        issued := issued + {lock};
      }
      assert lock.Ok();
      lock.Count(p);
      forall l | l in issued ensures Placed(l) { if l != lock { assert old(Placed(l)); } }
    }

    /** Deleting by key alone is safe: the lock a user leaves is always the one
        in the table, and it goes only with its last user. */
    method Leave(ghost p: int, key: Key, lock: KeyedLock)
      requires Valid() && lock in issued && lock.key == key && p in lock.users && lock.users[p].Leaving?
      modifies this`locks, lock
      ensures Valid()
      ensures old(key in locks && locks[key] == lock)
      ensures Next(old(lock.users), Exit(p), lock.users)
      ensures locks == if lock.users == map[] then old(locks) - {key} else old(locks)
    {
      assert Placed(lock);
      lock.Discount(p);
      assert key in locks && locks[key] == lock;
      if lock.refs == 0 {
        locks := locks - {key};
      }
      forall l | l in issued ensures Placed(l) { if l != lock { assert old(Placed(l)); } }
    }

    /** The critical section ends: unlock, then leave. */
    method Finish(ghost p: int, key: Key, lock: KeyedLock)
      requires Valid() && lock in issued && lock.key == key && lock.locked
      requires p in lock.users && lock.users[p] == Holding(CAPACITY)
      modifies this`locks, lock
      ensures Valid() && lock.users == old(lock.users) - {p}
      ensures locks == if lock.users == map[] then old(locks) - {key} else old(locks)
    {
      assert Placed(lock);
      lock.Unlock(p);
      forall l | l in issued ensures Placed(l) { if l != lock { assert old(Placed(l)); } }
      Leave(p, key, lock);
    }

    /** Over the whole table: two users inside the critical section of a key are the same user. */
    lemma HolderIsAlone(l: KeyedLock, p: int, l': KeyedLock, q: int)
      requires Valid() && l in issued && l' in issued && l.key == l'.key
      requires p in l.users && l.users[p] == Holding(CAPACITY)
      requires q in l'.users && l'.users[q].Holding?
      ensures l == l' && p == q && l.locked
    {
      assert Placed(l) && Placed(l');
      TotalAtLeast(l.users, Granted, p);
      if p != q { ExclusiveIsAlone(l.users, p, q); }
    }

    method TryLock(ghost p: int, lock: KeyedLock) returns (ok: bool)
      requires Valid() && lock in issued && p in lock.users && lock.users[p].Waiting?
      modifies lock
      ensures Valid() && (ok <==> Load(old(lock.users)) == 0) && (ok <==> !old(lock.locked)) && lock.locked
      ensures if ok then Next(old(lock.users), Grant(p, CAPACITY), lock.users) else lock.users == old(lock.users)
    {
      assert Placed(lock);
      ok := lock.TryLock(p);
      forall l | l in issued ensures Placed(l) { if l != lock { assert old(Placed(l)); } }
    }
  }
}
