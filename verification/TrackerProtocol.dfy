/**
 * The cache-access tracker as a transition system over one content. A step is
 * one locked section of the tracker or one store write; operations between two
 * locked sections are in `ops`. Times count microseconds and 0 is the zero time.
 */
module TrackerProtocol {
  import opened Options

  type Time = nat

  /** `stamp` is the identity of the entry object: a content that is tracked
      again after a deletion gets a new one. */
  datatype Entry = Entry(
    stamp: nat,
    lastAccess: Time,
    lastAttempt: Time,
    lastPersisted: Time,
    lastTouched: Time,
    commitRequired: Time)

  datatype Kind = Foreground | Overflow | Flush(now: Time)

  datatype Op =
    | Writing(stamp: nat, at: Time, commit: bool, kind: Kind)
    | Written(stamp: nat, at: Time, commit: bool, kind: Kind)
    | Retiring(stamp: nat, since: Time)

  /** `access` and `commits` are what the store holds durably; `recorded` and
      `promised` are the latest access and commit whose recording has returned
      since the content was last forgotten. */
  datatype State = State(
    entry: Option<Entry>,
    nextStamp: nat,
    ops: map<int, Op>,
    unsafe: bool,
    access: Time,
    commits: Time,
    recorded: Time,
    promised: Time)
  {
    function Latest(): Time { if entry.Some? then entry.value.lastAccess else 0 }
    function Pending(): Time { if entry.Some? then entry.value.commitRequired else 0 }
    predicate Is(stamp: nat) { entry.Some? && entry.value.stamp == stamp }
  }

  datatype Settings = Settings(interval: Time, retention: Time)

  function Later(a: Time, b: Time): Time { if a < b then b else a }

  predicate Clean(e: Entry) { e.lastAccess <= e.lastPersisted && e.commitRequired == 0 }

  predicate Due(e: Entry, now: Time, interval: Time) {
    e.lastAttempt == 0 || interval == 0 || now - e.lastAttempt >= interval
  }

  predicate Persists(e: Entry, now: Time, requireCommit: bool, interval: Time) {
    requireCommit || Due(e, now, interval)
  }

  predicate Idle(e: Entry, now: Time, retention: Time) {
    e.lastTouched != 0 && now - e.lastTouched >= retention
  }

  /** An access time after both the entry's and the store's: the clock, or one
      microsecond past them when the clock is not ahead. */
  function NextAccessTime(now: Time, inMemory: Time, durable: Option<Time>): (t: Time)
    requires now > 0
    ensures t > inMemory && t >= now && (durable.Some? ==> t > durable.value)
    ensures t == now || t == inMemory + 1 || (durable.Some? && t == durable.value + 1)
  {
    var previous := if durable.Some? && durable.value > inMemory then durable.value else inMemory;
    if previous != 0 && now <= previous then previous + 1 else now
  }

  function NewEntry(stamp: nat): Entry { Entry(stamp, 0, 0, 0, 0, 0) }

  /** The entry after one recorded access. */
  function Touched(e: Entry, now: Time, durable: Option<Time>, requireCommit: bool, interval: Time): Entry
    requires now > 0
  {
    var at := NextAccessTime(now, e.lastAccess, durable);
    e.(lastAccess := at,
       lastPersisted := if durable.Some? then Later(e.lastPersisted, durable.value) else e.lastPersisted,
       lastTouched := now,
       commitRequired := if requireCommit then Later(e.commitRequired, at) else e.commitRequired,
       lastAttempt := if Persists(e, now, requireCommit, interval) then now else e.lastAttempt)
  }

  /** The entry after the store acknowledged a write. */
  function Acknowledged(e: Entry, at: Time, commit: bool): Entry {
    e.(lastPersisted := Later(e.lastPersisted, at),
       commitRequired := if commit && e.commitRequired <= at then 0 else e.commitRequired)
  }

  datatype Event =
    | Record(op: int, durable: Option<Time>, requireCommit: bool, now: Time, stamp: nat)
    | Spill(op: int, durable: Option<Time>, requireCommit: bool, now: Time)
    | Evict
    | StoreOk(op: int)
    | StoreFail(op: int, applied: bool)
    | Acknowledge(op: int)
    | FlushStart(op: int, now: Time, force: bool)
    | FlushEnd(op: int)
    | Forget
    | OtherContentFails

  /** The state of a content after a recorded access. */
  function RecordedState(
    c: Settings, s: State, op: int, durable: Option<Time>, requireCommit: bool, now: Time, stamp: nat): State
    requires now > 0
  {
    var e := if s.entry.Some? then s.entry.value else NewEntry(stamp);
    var e' := Touched(e, now, durable, requireCommit, c.interval);
    s.(entry := Some(e'),
       nextStamp := if s.entry.Some? then s.nextStamp else stamp + 1,
       ops := if Persists(e, now, requireCommit, c.interval)
              then s.ops[op := Writing(e'.stamp, e'.lastAccess, e'.commitRequired != 0, Foreground)] else s.ops,
       recorded := Later(s.recorded, e'.lastAccess),
       promised := if requireCommit then Later(s.promised, e'.lastAccess) else s.promised)
  }

  /** Record an access, in a new entry with an unused stamp if there is none. */
  predicate RecordStep(c: Settings, s: State, op: int, durable: Option<Time>, requireCommit: bool, now: Time,
                       stamp: nat, s': State) {
    && op !in s.ops && now > 0 && s.nextStamp <= stamp
    && (durable.Some? ==> durable.value <= s.access)
    && s' == RecordedState(c, s, op, durable, requireCommit, now, stamp)
  }

  /** The state of a content after a store write. */
  function Stored(s: State, op: int, ok: bool, applied: bool): State
    requires op in s.ops && s.ops[op].Writing?
  {
    var o := s.ops[op];
    var t := if ok || applied
             then s.(access := Later(s.access, o.at), commits := if o.commit then Later(s.commits, o.at) else s.commits)
             else s;
    if !ok then t.(ops := s.ops - {op}, unsafe := s.unsafe || o.kind.Overflow?)
    else if o.kind.Overflow? then
      t.(ops := s.ops - {op},
         recorded := Later(s.recorded, o.at), promised := if o.commit then Later(s.promised, o.at) else s.promised)
    else t.(ops := s.ops[op := Written(o.stamp, o.at, o.commit, o.kind)])
  }

  /** A store write: the store keeps the latest time, also when it reports a
      failure after applying the write. */
  predicate StoreStep(s: State, op: int, ok: bool, applied: bool, s': State) {
    op in s.ops && s.ops[op].Writing? && s' == Stored(s, op, ok, applied)
  }

  predicate FlushStep(c: Settings, s: State, op: int, now: Time, force: bool, s': State) {
    && op !in s.ops
    && if s.entry.None? then s' == s
       else
         var e := s.entry.value;
         if !Clean(e) && (force || Due(e, now, c.interval)) then
           s' == s.(entry := Some(e.(lastAttempt := now)),
                    ops := s.ops[op := Writing(e.stamp, e.lastAccess, e.commitRequired != 0, Flush(now))])
         else s' == s.(ops := s.ops[op := Retiring(e.stamp, now)])
  }

  /** An access the table cannot hold goes to the store before it returns. */
  predicate SpillStep(s: State, op: int, durable: Option<Time>, requireCommit: bool, now: Time, s': State) {
    && op !in s.ops && now > 0 && s.entry.None?
    && (durable.Some? ==> durable.value <= s.access)
    && s' == s.(ops := s.ops[op := Writing(0, NextAccessTime(now, 0, durable), requireCommit, Overflow)])
  }

  predicate EvictStep(s: State, s': State) {
    s.entry.Some? && Clean(s.entry.value) && s' == s.(entry := None)
  }

  /** An acknowledgement reaches only the entry object it was written for. */
  predicate AcknowledgeStep(s: State, op: int, s': State) {
    && op in s.ops && s.ops[op].Written?
    && var o := s.ops[op];
    s' == s.(entry := if s.Is(o.stamp) then Some(Acknowledged(s.entry.value, o.at, o.commit)) else s.entry,
             ops := if o.kind.Flush? then s.ops[op := Retiring(o.stamp, o.kind.now)] else s.ops - {op})
  }

  predicate RetireStep(c: Settings, s: State, op: int, s': State) {
    && op in s.ops && s.ops[op].Retiring?
    && var o := s.ops[op];
    var retire := s.Is(o.stamp) && Clean(s.entry.value) && Idle(s.entry.value, o.since, c.retention);
    s' == s.(entry := if retire then None else s.entry, ops := s.ops - {op})
  }

  predicate ForgetStep(s: State, s': State) {
    s' == s.(entry := None, recorded := 0, promised := 0)
  }

  predicate Transition(c: Settings, s: State, e: Event, s': State) {
    match e
    case Record(op, durable, requireCommit, now, stamp) => RecordStep(c, s, op, durable, requireCommit, now, stamp, s')
    case Spill(op, durable, requireCommit, now) => SpillStep(s, op, durable, requireCommit, now, s')
    case Evict => EvictStep(s, s')
    case StoreOk(op) => StoreStep(s, op, true, true, s')
    case StoreFail(op, applied) => StoreStep(s, op, false, applied, s')
    case Acknowledge(op) => AcknowledgeStep(s, op, s')
    case FlushStart(op, now, force) => FlushStep(c, s, op, now, force, s')
    case FlushEnd(op) => RetireStep(c, s, op, s')
    case Forget => ForgetStep(s, s')
    case OtherContentFails => s' == s.(unsafe := true)
  }

  // --------------------------------------------------------------- invariant

  ghost predicate EntryOk(s: State) {
    s.entry.Some? ==>
      var e := s.entry.value;
      e.commitRequired <= e.lastAccess && e.lastPersisted <= s.access && e.stamp < s.nextStamp
  }

  ghost predicate OpOk(s: State, o: Op) {
    o.Written? ==> o.at <= s.access && (o.commit ==> o.at <= s.commits)
  }

  /** Every recorded access and commit is still represented in memory or in the store. */
  ghost predicate Represented(s: State) {
    s.recorded <= Later(s.Latest(), s.access) && s.promised <= Later(s.Pending(), s.commits)
  }

  ghost predicate Inv(s: State) {
    && EntryOk(s)
    && (forall op :: op in s.ops ==> OpOk(s, s.ops[op]))
    && (!s.unsafe ==> Represented(s))
  }

  lemma StepKeepsOps(c: Settings, s: State, e: Event, s': State)
    requires Inv(s) && Transition(c, s, e, s')
    ensures forall op :: op in s'.ops ==> OpOk(s', s'.ops[op])
  {
    forall op | op in s'.ops ensures OpOk(s', s'.ops[op]) {
      if op in s.ops { assert OpOk(s, s.ops[op]); }
    }
  }

  lemma StepKeepsEntry(c: Settings, s: State, e: Event, s': State)
    requires Inv(s) && Transition(c, s, e, s')
    ensures EntryOk(s')
  {
    if e.Acknowledge? { assert OpOk(s, s.ops[e.op]); }
  }

  lemma StepKeepsRepresented(c: Settings, s: State, e: Event, s': State)
    requires Inv(s) && Transition(c, s, e, s') && !s'.unsafe
    ensures Represented(s')
  {
    if e.Acknowledge? { assert OpOk(s, s.ops[e.op]); }
  }

  lemma StepKeepsInv(c: Settings, s: State, e: Event, s': State)
    requires Inv(s) && Transition(c, s, e, s')
    ensures Inv(s')
  {
    hide Transition, EntryOk, OpOk, Represented;
    StepKeepsOps(c, s, e, s');
    StepKeepsEntry(c, s, e, s');
    if !s'.unsafe { StepKeepsRepresented(c, s, e, s'); }
  }

  // -------------------------------------------------------------- every step

  /** Each access of a tracked content gets a strictly later time than the one
      before, and a returning access of any content a later one than the store's. */
  lemma RecordAdvances(c: Settings, s: State, e: Event, s': State)
    requires Inv(s) && e.Record? && Transition(c, s, e, s')
    ensures s'.Latest() > s.Latest()
    ensures e.durable.Some? ==> s'.Latest() > e.durable.value
    ensures s.entry.Some? ==> s'.Is(s.entry.value.stamp)
  {
  }

  /** An entry leaves the table only clean or forgotten, and a commit stays
      pending until a commit-type store write not earlier than it succeeded. */
  lemma EntriesAreKeptUntilSafe(c: Settings, s: State, e: Event, s': State)
    requires Inv(s) && Transition(c, s, e, s') && s.entry.Some?
    ensures s'.Is(s.entry.value.stamp) || Clean(s.entry.value) || e.Forget?
    ensures s'.Is(s.entry.value.stamp) ==> s'.Latest() >= s.Latest() && s'.Pending() <= s'.Latest()
    ensures s'.Is(s.entry.value.stamp) && s'.Pending() < s.Pending()
        ==> e.Acknowledge? && s'.Pending() == 0 && s'.commits >= s.Pending()
  {
    if e.Acknowledge? { assert OpOk(s, s.ops[e.op]); }
  }

  // --------------------------------------------------------------- every run

  ghost predicate Init(s: State) {
    s.entry.None? && s.ops == map[] && s.recorded == 0 && s.promised == 0
  }

  ghost predicate Run(c: Settings, states: seq<State>, events: seq<Event>) {
    && |states| == |events| + 1 && Init(states[0])
    && forall i :: 0 <= i < |events| ==> Transition(c, states[i], events[i], states[i + 1])
  }

  lemma {:induction false} RunKeepsInv(c: Settings, states: seq<State>, events: seq<Event>, n: nat)
    requires Run(c, states, events) && n <= |events|
    ensures Inv(states[n])
  {
    if n > 0 {
      RunKeepsInv(c, states, events, n - 1);
      StepKeepsInv(c, states[n - 1], events[n - 1], states[n]);
    }
  }

  /** Once unsafe, always unsafe; and the store never goes back. */
  lemma {:induction false} UnsafeIsForever(c: Settings, states: seq<State>, events: seq<Event>, m: nat, n: nat)
    requires Run(c, states, events) && m <= n <= |events|
    ensures states[m].unsafe ==> states[n].unsafe
    ensures states[m].access <= states[n].access && states[m].commits <= states[n].commits
    decreases n - m
  {
    if m < n {
      assert Transition(c, states[m], events[m], states[m + 1]);
      UnsafeIsForever(c, states, events, m + 1, n);
    }
  }

  // ------------------------------------------------ the accesses of a run

  /** The access that event i reports as recorded, if it does: one entered in the
      table, or one that overflowed and has been stored. */
  function AccessAt(states: seq<State>, events: seq<Event>, i: nat): Option<Time>
    requires i < |events| && i + 1 < |states|
  {
    match events[i]
    case Record(_, _, _, _, _) => Some(states[i + 1].Latest())
    case StoreOk(op) =>
      if op in states[i].ops && states[i].ops[op].Writing? && states[i].ops[op].kind.Overflow?
      then Some(states[i].ops[op].at) else None
    case _ => None
  }

  /** The same for a commit. */
  function CommitAt(states: seq<State>, events: seq<Event>, i: nat): Option<Time>
    requires i < |events| && i + 1 < |states|
  {
    match events[i]
    case Record(_, _, requireCommit, _, _) => if requireCommit then AccessAt(states, events, i) else None
    case StoreOk(op) => if op in states[i].ops && states[i].ops[op].Writing? && states[i].ops[op].commit
                        then AccessAt(states, events, i) else None
    case _ => None
  }

  /** The content is not forgotten between event i and state n. */
  ghost predicate Remembered(events: seq<Event>, i: nat, n: nat)
    requires n <= |events|
  { forall k :: i < k < n ==> !events[k].Forget? }

  lemma {:induction false} HistoryHolds(c: Settings, states: seq<State>, events: seq<Event>, i: nat, n: nat)
    requires Run(c, states, events) && i < n <= |events| && Remembered(events, i, n)
    ensures AccessAt(states, events, i).Some? ==> AccessAt(states, events, i).value <= states[n].recorded
    ensures CommitAt(states, events, i).Some? ==> CommitAt(states, events, i).value <= states[n].promised
    decreases n
  {
    assert Transition(c, states[n - 1], events[n - 1], states[n]);
    if i < n - 1 { HistoryHolds(c, states, events, i, n - 1); }
  }

  /** While the tracker reports itself safe, every access and every commit recorded
      so far in the run and not forgotten since is still represented: the access is
      at most the later of the in-memory and the durable time, the commit is
      pending or durable. */
  lemma SafeMeansRepresented(c: Settings, states: seq<State>, events: seq<Event>, i: nat, n: nat)
    requires Run(c, states, events) && i < n <= |events| && Remembered(events, i, n) && !states[n].unsafe
    ensures AccessAt(states, events, i).Some?
        ==> AccessAt(states, events, i).value <= Later(states[n].Latest(), states[n].access)
    ensures CommitAt(states, events, i).Some?
        ==> CommitAt(states, events, i).value <= Later(states[n].Pending(), states[n].commits)
  {
    HistoryHolds(c, states, events, i, n);
    RunKeepsInv(c, states, events, n);
  }

  /** The history is the latest access of the run since the content was last
      forgotten: one of them, and none is later. */
  lemma {:induction false} RecordedIsLatestAccess(c: Settings, states: seq<State>, events: seq<Event>, n: nat)
      returns (i: nat)
    requires Run(c, states, events) && n <= |events| && states[n].recorded > 0
    ensures i < n && Remembered(events, i, n) && AccessAt(states, events, i) == Some(states[n].recorded)
    ensures forall j :: 0 <= j < n && Remembered(events, j, n) && AccessAt(states, events, j).Some?
                    ==> AccessAt(states, events, j).value <= states[n].recorded
  {
    assert n > 0;
    assert Transition(c, states[n - 1], events[n - 1], states[n]);
    if AccessAt(states, events, n - 1) == Some(states[n].recorded) {
      i := n - 1;
    } else {
      i := RecordedIsLatestAccess(c, states, events, n - 1);
    }
    forall j | 0 <= j < n && Remembered(events, j, n) && AccessAt(states, events, j).Some?
      ensures AccessAt(states, events, j).value <= states[n].recorded
    {
      HistoryHolds(c, states, events, j, n);
    }
  }

  /** An entry, once gone, does not come back under its stamp, and while it stays
      its access time does not go back. */
  lemma {:induction false} EntryOnlyAdvances(c: Settings, states: seq<State>, events: seq<Event>, m: nat, n: nat,
                                             stamp: nat)
    requires Run(c, states, events) && m <= n <= |events| && states[m].Is(stamp)
    ensures stamp < states[n].nextStamp
    ensures states[n].Is(stamp) ==> states[n].Latest() >= states[m].Latest()
    decreases n
  {
    if m == n {
      RunKeepsInv(c, states, events, m);
    } else {
      EntryOnlyAdvances(c, states, events, m, n - 1, stamp);
      assert Transition(c, states[n - 1], events[n - 1], states[n]);
    }
  }

  /** Over a run, the accesses recorded in one entry have strictly increasing times. */
  lemma AccessTimesIncrease(c: Settings, states: seq<State>, events: seq<Event>, i: nat, j: nat, stamp: nat)
    requires Run(c, states, events) && i < j < |events| && events[i].Record? && events[j].Record?
    requires states[i + 1].Is(stamp) && states[j + 1].Is(stamp)
    ensures states[i + 1].Latest() < states[j + 1].Latest()
  {
    EntryOnlyAdvances(c, states, events, i + 1, j, stamp);
    assert Transition(c, states[j], events[j], states[j + 1]);
  }

  /** A recorded access is later than a given time exactly when the clock is past
      it, or the entry or the time read from the store reaches it. */
  lemma LaterExactly(c: Settings, s: State, e: Event, s': State, t: Time)
    requires e.Record? && Transition(c, s, e, s') && t > 0
    ensures s'.Latest() > t <==> e.now > t || s.Latest() >= t || (e.durable.Some? && e.durable.value >= t)
  {
  }

  /** Across entries too, an access that was told the store's present time is later
      than every access recorded and not forgotten before it. */
  lemma InformedTimesIncrease(c: Settings, states: seq<State>, events: seq<Event>, i: nat, j: nat)
    requires Run(c, states, events) && i < j < |events| && Remembered(events, i, j) && !states[j].unsafe
    requires events[j].Record? && (events[j].durable == Some(states[j].access) || states[j].access == 0)
    requires AccessAt(states, events, i).Some?
    ensures AccessAt(states, events, i).value < states[j + 1].Latest()
  {
    SafeMeansRepresented(c, states, events, i, j);
    assert Transition(c, states[j], events[j], states[j + 1]);
  }

  /** Uninformed, an access in a new entry can get an earlier time: the clock went
      back after the first entry was stored and evicted. */
  lemma UninformedTimeGoesBack(c: Settings) returns (states: seq<State>, events: seq<Event>)
    ensures Run(c, states, events) && |events| == 5 && events[0].Record? && events[4].Record?
    ensures !states[5].unsafe && Remembered(events, 0, 5) && states[5].Latest() < states[1].Latest()
  {
    var s0 := State(None, 0, map[], false, 0, 0, 0, 0);
    var e := Entry(0, 9, 9, 0, 9, 0);
    var s1 := State(Some(e), 1, map[7 := Writing(0, 9, false, Foreground)], false, 0, 0, 9, 0);
    var s2 := s1.(access := 9, ops := map[7 := Written(0, 9, false, Foreground)]);
    var s3 := s2.(entry := Some(e.(lastPersisted := 9)), ops := map[]);
    var s4 := s3.(entry := None);
    var s5 := s4.(entry := Some(Entry(1, 4, 4, 0, 4, 0)), nextStamp := 2,
                  ops := map[8 := Writing(1, 4, false, Foreground)]);
    states := [s0, s1, s2, s3, s4, s5];
    events := [Record(7, None, false, 9, 0), StoreOk(7), Acknowledge(7), Evict, Record(8, None, false, 4, 1)];
    assert Transition(c, s0, events[0], s1);
    assert Transition(c, s1, events[1], s2);
    assert s2.ops - {7} == map[];
    assert Transition(c, s2, events[2], s3);
    assert Transition(c, s3, events[3], s4);
    assert Transition(c, s4, events[4], s5);
  }
}
