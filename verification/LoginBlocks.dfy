/**
 * The failure record of one login key: how each call of the limiter, on this
 * key or another, may change it, and what that promises over whole runs.
 */
module LoginBlocks {
  import opened Options

  const MINUTE: int := 60_000_000_000
  const LIMIT: nat := 5
  const BLOCK: int := MINUTE
  const TTL: int := 10 * MINUTE
  const CLEANUP: int := MINUTE
  const MAX_ENTRIES: nat := 4096

  /** The zero time; a clock reads later than it. */
  const NEVER: int := 0

  datatype Tally = Tally(count: nat, blockedAt: int, lastSeen: int)

  datatype Call = Begin(allowed: bool) | RecordFailure | Clear

  datatype Event = Event(call: Call, key: string, now: int)

  const NO_FAILURES := Tally(0, NEVER, NEVER)

  predicate Blocked(t: Tally, now: int) { t.count >= LIMIT && now - t.blockedAt <= BLOCK }

  predicate Expired(t: Tally, now: int) { t.lastSeen == NEVER || now - t.lastSeen > TTL }

  function Seen(t: Tally, now: int): Tally { t.(lastSeen := now) }

  /** One more counted failure; a block that is over starts the count again. */
  function Counted(t: Tally, now: int): Tally {
    var count := if t.count >= LIMIT then 1 else t.count + 1;
    Tally(count, if count >= LIMIT then now else if t.count >= LIMIT then NEVER else t.blockedAt, now)
  }

  /** A call on the key itself, once any clean-up has left `mid` of its record. */
  predicate CallStep(e: Event, mid: Option<Tally>, after: Option<Tally>) {
    match e.call
    case Clear => after == None
    case Begin(allowed) =>
      if mid.Some? then allowed == !Blocked(mid.value, e.now) && after == Some(Seen(mid.value, e.now))
      else after == if allowed then Some(Seen(NO_FAILURES, e.now)) else None
    case RecordFailure =>
      if mid.Some?
      then after == Some(if Blocked(mid.value, e.now) then Seen(mid.value, e.now) else Counted(mid.value, e.now))
      else after == None || after == Some(Counted(NO_FAILURES, e.now))
  }

  /** A call on another key takes a record only when it has expired or is not blocked. */
  predicate OthersStep(before: Option<Tally>, after: Option<Tally>, now: int) {
    after == before || (before.Some? && after == None && (Expired(before.value, now) || !Blocked(before.value, now)))
  }

  /** What any call may do to the record of `key`. */
  predicate KeyStep(e: Event, key: string, before: Option<Tally>, after: Option<Tally>) {
    if e.key == key then
      CallStep(e, before, after)
      || (!e.call.Clear? && before.Some? && Expired(before.value, e.now) && CallStep(e, None, after))
    else if e.call.Clear? then after == before
    else OthersStep(before, after, e.now)
  }

  /** Seen within ten minutes. */
  predicate IsRecent(t: Tally, now: int) { t.lastSeen != 0 && now - t.lastSeen <= 600_000_000_000 }

  /** Five failures, and the last of them within a minute. */
  predicate IsBlocked(t: Tally, now: int) { t.count >= 5 && now - t.blockedAt <= 60_000_000_000 }

  /** A login may begin for a key exactly when it is not blocked. */
  lemma BeginExactly(e: Event, t: Tally, after: Option<Tally>)
    requires e.call.Begin? && IsRecent(t, e.now) && KeyStep(e, e.key, Some(t), after)
    ensures e.call.allowed <==> !IsBlocked(t, e.now)
    ensures after == Some(Tally(t.count, t.blockedAt, e.now))
  {
  }

  /** A failure counts unless the key is blocked; the fifth blocks it, and the first
      one after a block counts as one. */
  lemma FailureExactly(e: Event, t: Tally, after: Option<Tally>)
    requires e.call.RecordFailure? && IsRecent(t, e.now) && KeyStep(e, e.key, Some(t), after)
    ensures IsBlocked(t, e.now) ==> after == Some(Tally(t.count, t.blockedAt, e.now))
    ensures t.count < 4 ==> after == Some(Tally(t.count + 1, t.blockedAt, e.now))
    ensures t.count == 4 ==> after == Some(Tally(5, e.now, e.now))
    ensures t.count >= 5 && !IsBlocked(t, e.now) ==> after == Some(Tally(1, 0, e.now))
  {
  }

  /** A key without a record starts from nothing, if there is room for it. */
  lemma NewKeyExactly(e: Event, after: Option<Tally>)
    requires KeyStep(e, e.key, None, after)
    ensures e.call.Begin? ==> after == if e.call.allowed then Some(Tally(0, 0, e.now)) else None
    ensures e.call.RecordFailure? ==> after == None || after == Some(Tally(1, 0, e.now))
    ensures e.call.Clear? ==> after == None
  {
  }

  /** A call for another key takes a record only when it is not recent or not blocked. */
  lemma OtherKeyExactly(e: Event, key: string, t: Tally, after: Option<Tally>)
    requires e.key != key && KeyStep(e, key, Some(t), after)
    ensures after == Some(t) || (after == None && !e.call.Clear? && !(IsRecent(t, e.now) && IsBlocked(t, e.now)))
  {
  }

  ghost predicate Run(key: string, states: seq<Option<Tally>>, events: seq<Event>) {
    && |states| == |events| + 1 && states[0] == None
    && (forall i :: 0 <= i < |events| ==> events[i].now > NEVER)
    && (forall i, j :: 0 <= i < j < |events| ==> events[i].now <= events[j].now)
    && (forall i :: 0 <= i < |events| ==> KeyStep(events[i], key, states[i], states[i + 1]))
  }

  /** No later than the present, a block begins when its record was last counted. */
  predicate InTime(t: Tally, now: int) {
    && t.count <= LIMIT && NEVER < t.lastSeen <= now
    && (t.count >= LIMIT ==> t.blockedAt <= t.lastSeen)
  }

  lemma {:induction false} RunIsInTime(key: string, states: seq<Option<Tally>>, events: seq<Event>, n: nat)
    requires Run(key, states, events) && 0 < n <= |events|
    ensures states[n].Some? ==> InTime(states[n].value, events[n - 1].now)
  {
    assert KeyStep(events[n - 1], key, states[n - 1], states[n]);
    if n > 1 {
      RunIsInTime(key, states, events, n - 1);
      assert events[n - 2].now <= events[n - 1].now;
    }
  }

  ghost predicate NoClear(key: string, events: seq<Event>, i: nat, j: nat)
    requires j <= |events|
  {
    forall m :: i <= m < j ==> !(events[m].call.Clear? && events[m].key == key)
  }

  /** Once the count has reached the limit the block stands until its period is
      over, whatever is called for other keys. */
  lemma {:induction false} BlockStands(key: string, states: seq<Option<Tally>>, events: seq<Event>, i: nat, j: nat)
    requires Run(key, states, events) && 0 < i <= j <= |events|
    requires states[i].Some? && states[i].value.count >= LIMIT
    requires NoClear(key, events, i, j)
    requires j > i ==> events[j - 1].now - states[i].value.blockedAt <= BLOCK
    ensures states[j].Some? && states[j].value.count == states[i].value.count
    ensures states[j].value.blockedAt == states[i].value.blockedAt
  {
    if j > i {
      if j - 1 > i { assert events[j - 2].now <= events[j - 1].now; }
      BlockStands(key, states, events, i, j - 1);
      RunIsInTime(key, states, events, j - 1);
      assert KeyStep(events[j - 1], key, states[j - 1], states[j]);
      if j - 1 > 0 { assert events[j - 2].now <= events[j - 1].now; }
    }
  }

  /** For the whole block period every Begin on a blocked key is refused. */
  lemma BlockedKeyIsRefused(key: string, states: seq<Option<Tally>>, events: seq<Event>, i: nat, j: nat)
    requires Run(key, states, events) && 0 < i <= j < |events|
    requires states[i].Some? && states[i].value.count >= 5
    requires NoClear(key, events, i, j)
    requires events[j].key == key && events[j].call.Begin?
    requires events[j].now - states[i].value.blockedAt <= 60_000_000_000
    ensures !events[j].call.allowed
  {
    if j > i { assert events[j - 1].now <= events[j].now; }
    BlockStands(key, states, events, i, j);
    RunIsInTime(key, states, events, j);
    assert events[j - 1].now <= events[j].now;
    assert KeyStep(events[j], key, states[j], states[j + 1]);
  }

  /** Failures reported for the key between two points of a run. */
  function Failures(key: string, events: seq<Event>, i: nat, j: nat): nat
    requires i <= j <= |events|
    decreases j
  {
    if i == j then 0
    else
      var e := events[j - 1];
      Failures(key, events, i, j - 1) + if e.key == key && e.call.RecordFailure? then 1 else 0
  }

  function CountOf(t: Option<Tally>): nat { if t.Some? then t.value.count else 0 }

  /** While its record lives a key counts exactly the failures reported for it,
      and the one that reaches the limit dates the block. */
  lemma {:induction false} CountsEveryFailure(key: string, states: seq<Option<Tally>>, events: seq<Event>, i: nat,
                                              j: nat)
    requires Run(key, states, events) && i <= j <= |events|
    requires forall m :: i < m <= j ==> states[m].Some?
    requires forall m :: i <= m < j && states[m].Some? ==> !Expired(states[m].value, events[m].now)
    requires CountOf(states[i]) + Failures(key, events, i, j) <= 5 && CountOf(states[i]) < 5
    ensures CountOf(states[j]) == CountOf(states[i]) + Failures(key, events, i, j)
    ensures j > i && CountOf(states[j]) == 5 && CountOf(states[j - 1]) < 5
       ==> states[j].value.blockedAt == events[j - 1].now
  {
    if i < j {
      CountsEveryFailure(key, states, events, i, j - 1);
      assert KeyStep(events[j - 1], key, states[j - 1], states[j]);
    }
  }
}
