/**
 * The provider identity resolver: callers mark a key as refreshing and send it
 * to a bounded queue, workers take it, look the address up and save the answer.
 * Each event is one section under the resolver's lock, or one channel operation.
 */
module ActorResolver {
  import opened Options

  const QUEUE_SIZE: nat := 128

  /** `address` is in normal form, and empty for a provider without a valid one. */
  datatype Key = Key(provider: string, address: string)

  datatype Fields = Fields(filecoin: string, actor: string)

  datatype Entry = Entry(fields: Fields, expiresAt: int)

  /** What a lookup of an address came back with; a failed one may still know the
      Filecoin form of the address. */
  datatype Answer = Answer(address: string, fields: Fields, ok: bool)

  /** Sending and Dropping are callers; the others are workers. */
  datatype Op =
    | Sending(key: Key)
    | Dropping(key: Key)
    | Taken(key: Key)
    | Resolving(key: Key)
    | Resolved(key: Key, answer: Answer)
    | Finishing(key: Key)

  datatype State = State(
    current: map<string, Key>,
    cache: map<Key, Entry>,
    refreshing: set<Key>,
    backoffs: map<Key, int>,
    queue: seq<Key>,
    ops: map<int, Op>,
    answers: set<Answer>)

  datatype Event =
    | Enrich(key: Key)
    | Mark(op: int, key: Key, now: int)
    | Send(op: int)
    | Drop(op: int)
    | Take(op: int)
    | Check(op: int)
    | LookUp(op: int, answer: Answer)
    | Save(op: int, expiresAt: int, backoffUntil: int)
    | Finish(op: int)

  predicate IsCurrent(current: map<string, Key>, key: Key) { key.provider in current && current[key.provider] == key }

  /** The key a provider had before, if it is another one. */
  function Replaced(current: map<string, Key>, key: Key): set<Key> {
    if key.provider in current && current[key.provider] != key then {current[key.provider]} else {}
  }

  function Cached(cache: map<Key, Entry>, key: Key): Entry {
    if key in cache then cache[key] else Entry(Fields("", ""), 0)
  }

  /** A good answer replaces the fields; a failed one only supplies a missing Filecoin address. */
  function Merged(was: Fields, answer: Answer): Fields {
    if answer.ok then answer.fields
    else if answer.fields.filecoin != "" && was.filecoin == "" then was.(filecoin := answer.fields.filecoin)
    else was
  }

  function SavedCache(cache: map<Key, Entry>, key: Key, answer: Answer, expiresAt: int): map<Key, Entry> {
    var was := Cached(cache, key);
    var next := Merged(was.fields, answer);
    if next != was.fields || answer.ok then cache[key := Entry(next, expiresAt)] else cache
  }

  ghost predicate QueueStep(s: State, e: Event, s': State)
    requires e.Mark? || e.Send? || e.Drop? || e.Take? || e.Finish?
  {
    match e
    case Mark(op, key, now) =>
      && op !in s.ops && key.address != "" && IsCurrent(s.current, key) && key !in s.refreshing
      && !(key in s.backoffs && now < s.backoffs[key])
      && s' == s.(refreshing := s.refreshing + {key}, ops := s.ops[op := Sending(key)])
    case Send(op) =>
      && op in s.ops && s.ops[op].Sending?
      && s' == if |s.queue| < QUEUE_SIZE then s.(queue := s.queue + [s.ops[op].key], ops := s.ops - {op})
               else s.(ops := s.ops[op := Dropping(s.ops[op].key)])
    case Drop(op) =>
      && op in s.ops && s.ops[op].Dropping?
      && s' == s.(refreshing := s.refreshing - {s.ops[op].key}, ops := s.ops - {op})
    case Take(op) =>
      && op !in s.ops && s.queue != []
      && s' == s.(queue := s.queue[1..], ops := s.ops[op := Taken(s.queue[0])])
    case Finish(op) =>
      && op in s.ops && s.ops[op].Finishing?
      && s' == s.(refreshing := s.refreshing - {s.ops[op].key}, ops := s.ops - {op})
  }

  ghost predicate RecordStep(s: State, e: Event, s': State)
    requires e.Enrich? || e.Check? || e.LookUp? || e.Save?
  {
    match e
    case Enrich(key) =>
      && var gone := Replaced(s.current, key);
         s' == s.(current := s.current[key.provider := key], cache := s.cache - gone, backoffs := s.backoffs - gone)
    case Check(op) =>
      && op in s.ops && s.ops[op].Taken?
      && var key := s.ops[op].key;
         s' == s.(ops := s.ops[op := if IsCurrent(s.current, key) then Resolving(key) else Finishing(key)])
    case LookUp(op, answer) =>
      && op in s.ops && s.ops[op].Resolving? && answer.address == s.ops[op].key.address
      && s' == s.(answers := s.answers + {answer}, ops := s.ops[op := Resolved(s.ops[op].key, answer)])
    case Save(op, expiresAt, backoffUntil) =>
      && op in s.ops && s.ops[op].Resolved?
      && var key := s.ops[op].key;
         var answer := s.ops[op].answer;
         var done := s.ops[op := Finishing(key)];
         s' == if !IsCurrent(s.current, key) then s.(ops := done)
               else s.(cache := SavedCache(s.cache, key, answer, expiresAt),
                       backoffs := if answer.ok then s.backoffs - {key} else s.backoffs[key := backoffUntil],
                       ops := done)
  }

  ghost predicate Transition(s: State, e: Event, s': State) {
    if e.Mark? || e.Send? || e.Drop? || e.Take? || e.Finish? then QueueStep(s, e, s') else RecordStep(s, e, s')
  }

  // --------------------------------------------------------------- invariant

  ghost predicate Held(s: State, key: Key) { exists op :: op in s.ops && s.ops[op].key == key }

  ghost predicate Distinct(queue: seq<Key>) { forall i, j :: 0 <= i < j < |queue| ==> queue[i] != queue[j] }

  /** Each refreshing key is in exactly one place: queued once, or held by one caller or worker. */
  ghost predicate OnePlace(s: State) {
    && Distinct(s.queue)
    && (forall k :: k in s.queue ==> k in s.refreshing)
    && (forall op :: op in s.ops ==> s.ops[op].key in s.refreshing && s.ops[op].key !in s.queue)
    && (forall p, q :: p in s.ops && q in s.ops && p != q ==> s.ops[p].key != s.ops[q].key)
    && (forall k :: k in s.refreshing ==> k in s.queue || Held(s, k))
  }

  /** The fields came from lookups of this very address. */
  ghost predicate Known(answers: set<Answer>, address: string, fields: Fields) {
    && (fields.filecoin == "" || exists a :: a in answers && a.address == address
                                     && a.fields.filecoin == fields.filecoin)
    && (fields.actor == "" || exists a :: a in answers && a.address == address && a.fields.actor == fields.actor)
  }

  ghost predicate CacheOk(s: State) {
    && (forall k :: k in s.cache
            ==> IsCurrent(s.current, k) && k.address != "" && Known(s.answers, k.address, s.cache[k].fields))
    && (forall k :: k in s.backoffs ==> IsCurrent(s.current, k))
    && (forall p :: p in s.current ==> s.current[p].provider == p)
  }

  ghost predicate OpOk(s: State, o: Op) {
    o.key.address != "" && (o.Resolved? ==> o.answer in s.answers && o.answer.address == o.key.address)
  }

  ghost predicate Inv(s: State) {
    && OnePlace(s) && CacheOk(s) && |s.queue| <= QUEUE_SIZE
    && (forall i :: 0 <= i < |s.queue| ==> s.queue[i].address != "")
    && (forall op :: op in s.ops ==> OpOk(s, s.ops[op]))
  }

  lemma QueueKeepsHeld(s: State, e: Event, s': State)
    requires OnePlace(s) && (e.Mark? || e.Send? || e.Drop? || e.Take? || e.Finish?) && QueueStep(s, e, s')
    ensures forall k :: k in s'.refreshing ==> k in s'.queue || Held(s', k)
  {
    forall k | k in s'.refreshing && k !in s'.queue ensures Held(s', k) {
      if !(e.op in s'.ops && s'.ops[e.op].key == k) {
        assert k in s.refreshing && k !in s.queue;
        var op :| op in s.ops && s.ops[op].key == k;
        assert op in s'.ops && s'.ops[op].key == k;
      }
    }
  }

  lemma QueueKeepsPlaces(s: State, e: Event, s': State)
    requires OnePlace(s) && (e.Mark? || e.Send? || e.Drop? || e.Take? || e.Finish?) && QueueStep(s, e, s')
    ensures OnePlace(s')
  {
    hide Held;
    QueueKeepsHeld(s, e, s');
    if e.Take? {
      assert s.queue == [s.queue[0]] + s.queue[1..];
      assert forall i :: 1 <= i < |s.queue| ==> s.queue[i] != s.queue[0];
    }
  }

  lemma QueueKeepsInv(s: State, e: Event, s': State)
    requires Inv(s) && (e.Mark? || e.Send? || e.Drop? || e.Take? || e.Finish?) && QueueStep(s, e, s')
    ensures Inv(s')
  {
    QueueKeepsPlaces(s, e, s');
    forall op | op in s'.ops ensures OpOk(s', s'.ops[op]) {
      if op in s.ops { assert OpOk(s, s.ops[op]); }
    }
    assert e.Send? ==> OpOk(s, s.ops[e.op]);
  }

  lemma RecordKeepsPlaces(s: State, e: Event, s': State)
    requires OnePlace(s) && (e.Enrich? || e.Check? || e.LookUp? || e.Save?) && RecordStep(s, e, s')
    ensures OnePlace(s')
  {
    assert s'.ops.Keys == s.ops.Keys;
    assert forall op :: op in s.ops ==> s'.ops[op].key == s.ops[op].key;
    forall k | k in s'.refreshing && k !in s'.queue ensures Held(s', k) {
      var op :| op in s.ops && s.ops[op].key == k;
      assert op in s'.ops;
    }
  }

  lemma MergedIsKnown(answers: set<Answer>, key: Key, was: Fields, answer: Answer)
    requires Known(answers, key.address, was) && answer in answers && answer.address == key.address
    ensures Known(answers, key.address, Merged(was, answer))
  {}

  lemma SaveKeepsCache(s: State, e: Event, s': State)
    requires Inv(s) && e.Save? && RecordStep(s, e, s')
    ensures CacheOk(s')
  {
    var o := s.ops[e.op];
    assert OpOk(s, o);
    if IsCurrent(s.current, o.key) {
      MergedIsKnown(s.answers, o.key, Cached(s.cache, o.key).fields, o.answer);
      forall k | k in s'.cache
        ensures IsCurrent(s'.current, k) && k.address != "" && Known(s'.answers, k.address, s'.cache[k].fields)
      {
        if k != o.key { assert s'.cache[k] == s.cache[k]; }
      }
    }
  }

  lemma RecordKeepsInv(s: State, e: Event, s': State)
    requires Inv(s) && (e.Enrich? || e.Check? || e.LookUp? || e.Save?) && RecordStep(s, e, s')
    ensures Inv(s')
  {
    RecordKeepsPlaces(s, e, s');
    if e.Save? { SaveKeepsCache(s, e, s'); }
    forall op | op in s'.ops ensures OpOk(s', s'.ops[op]) {
      assert OpOk(s, s.ops[op]);
    }
    if !e.Save? {
      forall k | k in s'.cache
        ensures IsCurrent(s'.current, k) && k.address != "" && Known(s'.answers, k.address, s'.cache[k].fields)
      {
        assert k in s.cache && s'.cache[k] == s.cache[k] && s.answers <= s'.answers;
      }
    }
  }

  lemma StepKeepsInv(s: State, e: Event, s': State)
    requires Inv(s) && Transition(s, e, s')
    ensures Inv(s')
  {
    if e.Mark? || e.Send? || e.Drop? || e.Take? || e.Finish? {
      QueueKeepsInv(s, e, s');
    } else {
      RecordKeepsInv(s, e, s');
    }
  }

  ghost predicate Run(states: seq<State>, events: seq<Event>) {
    && |states| == |events| + 1
    && states[0] == State(map[], map[], {}, map[], [], map[], {})
    && forall i :: 0 <= i < |events| ==> Transition(states[i], events[i], states[i + 1])
  }

  /** In every run each refreshing key is in exactly one place, and every cached
      or backed-off key is the current key of its provider. */
  lemma {:induction false} RunKeepsInv(states: seq<State>, events: seq<Event>, n: nat)
    requires Run(states, events) && n <= |events|
    ensures Inv(states[n])
  {
    if n > 0 {
      RunKeepsInv(states, events, n - 1);
      StepKeepsInv(states[n - 1], events[n - 1], states[n]);
    }
  }

  /** The fields an enrichment reads for a key, at any point of any run, were
      found for exactly the key's address. */
  lemma EnrichesFromOwnAddress(states: seq<State>, events: seq<Event>, n: nat, key: Key)
    requires Run(states, events) && n < |events| && events[n] == Enrich(key) && key in states[n + 1].cache
    ensures key.address != "" && Known(states[n].answers, key.address, states[n + 1].cache[key].fields)
  {
    RunKeepsInv(states, events, n + 1);
    assert Transition(states[n], events[n], states[n + 1]);
  }

  /** A current key that is idle and not backed off can be marked and sent, and a
      worker can take it once it heads the queue. */
  lemma IdleKeyIsTaken(s: State, key: Key, op: int, now: int) returns (s1: State, s2: State, s3: State)
    requires key.address != "" && key.provider in s.current && s.current[key.provider] == key
    requires key !in s.refreshing && (key in s.backoffs ==> s.backoffs[key] <= now) && s.queue == [] && op !in s.ops
    ensures Transition(s, Mark(op, key, now), s1) && Transition(s1, Send(op), s2) && Transition(s2, Take(op), s3)
    ensures s3 == s.(refreshing := s.refreshing + {key}, ops := s.ops[op := Taken(key)])
  {
    s1 := s.(refreshing := s.refreshing + {key}, ops := s.ops[op := Sending(key)]);
    s2 := s.(refreshing := s.refreshing + {key}, queue := [key]);
    s3 := s.(refreshing := s.refreshing + {key}, ops := s.ops[op := Taken(key)]);
    assert s1.ops - {op} == s2.ops;
    assert s2.queue[1..] == s.queue;
  }

  /** An enrichment makes its key the current one of the provider, and drops the
      cache entries and backoffs of all other keys of the provider. */
  ghost predicate IsEnriched(key: Key, s: State, s': State) {
    && s'.current == s.current[key.provider := key] && s'.refreshing == s.refreshing && s'.queue == s.queue
    && (forall k :: k in s'.cache <==> k in s.cache && (k.provider == key.provider ==> k == key))
    && (forall k :: k in s'.backoffs <==> k in s.backoffs && (k.provider == key.provider ==> k == key))
    && (forall k :: k in s'.cache ==> s'.cache[k] == s.cache[k])
    && (forall k :: k in s'.backoffs ==> s'.backoffs[k] == s.backoffs[k])
  }

  lemma EnrichExactly(s: State, key: Key, s': State)
    requires CacheOk(s) && RecordStep(s, Enrich(key), s')
    ensures IsEnriched(key, s, s')
  {
    forall k ensures k in s'.cache <==> k in s.cache && (k.provider == key.provider ==> k == key) {
      if k in s.cache { assert IsCurrent(s.current, k); }
    }
    forall k ensures k in s'.backoffs <==> k in s.backoffs && (k.provider == key.provider ==> k == key) {
      if k in s.backoffs { assert IsCurrent(s.current, k); }
    }
  }

  /** What saving an answer comes to, field by field. */
  ghost predicate IsSaved(key: Key, answer: Answer, expiresAt: int, backoffUntil: int, s: State, s': State) {
    && (forall k :: k != key ==> (k in s'.cache <==> k in s.cache) && (k in s'.backoffs <==> k in s.backoffs))
    && (forall k :: k != key && k in s.cache ==> s'.cache[k] == s.cache[k])
    && (forall k :: k != key && k in s.backoffs ==> s'.backoffs[k] == s.backoffs[k])
    && (if answer.ok
        then key in s'.cache && s'.cache[key] == Entry(answer.fields, expiresAt) && key !in s'.backoffs
        else key in s'.backoffs && s'.backoffs[key] == backoffUntil && IsPatched(key, answer.fields, s.cache, s'.cache))
  }

  /** A failed lookup leaves everything but a missing Filecoin address. */
  ghost predicate IsPatched(key: Key, found: Fields, cache: map<Key, Entry>, cache': map<Key, Entry>) {
    if found.filecoin != "" && (key !in cache || cache[key].fields.filecoin == "")
    then && key in cache' && cache'[key].fields.filecoin == found.filecoin
         && cache'[key].fields.actor == (if key in cache then cache[key].fields.actor else "")
    else cache' == cache
  }

  lemma SaveExactly(s: State, op: int, expiresAt: int, backoffUntil: int, s': State)
    requires RecordStep(s, Save(op, expiresAt, backoffUntil), s')
    ensures if IsCurrent(s.current, s.ops[op].key)
            then IsSaved(s.ops[op].key, s.ops[op].answer, expiresAt, backoffUntil, s, s')
            else s'.cache == s.cache && s'.backoffs == s.backoffs
  {
  }

  /** Left alone, a worker with a current key saves what it finds and lets go of the
      key: a good answer is cached, a failed one backs the key off. */
  lemma TakenKeyIsSaved(s: State, op: int, answer: Answer, expiresAt: int, backoffUntil: int)
    returns (s1: State, s2: State, s3: State, s4: State)
    requires op in s.ops && s.ops[op].Taken? && answer.address == s.ops[op].key.address
    requires s.ops[op].key.provider in s.current && s.current[s.ops[op].key.provider] == s.ops[op].key
    ensures Transition(s, Check(op), s1) && Transition(s1, LookUp(op, answer), s2)
    ensures Transition(s2, Save(op, expiresAt, backoffUntil), s3) && Transition(s3, Finish(op), s4)
    ensures s4.refreshing == s.refreshing - {s.ops[op].key} && s4.ops == s.ops - {op}
    ensures IsSaved(s.ops[op].key, answer, expiresAt, backoffUntil, s, s4)
  {
    var key := s.ops[op].key;
    s1 := s.(ops := s.ops[op := Resolving(key)]);
    s2 := s.(answers := s.answers + {answer}, ops := s.ops[op := Resolved(key, answer)]);
    s3 := s2.(cache := SavedCache(s.cache, key, answer, expiresAt),
              backoffs := if answer.ok then s.backoffs - {key} else s.backoffs[key := backoffUntil],
              ops := s.ops[op := Finishing(key)]);
    s4 := s3.(refreshing := s.refreshing - {key}, ops := s.ops - {op});
    assert s1.ops[op := Resolved(key, answer)] == s2.ops;
    assert s2.ops[op := Finishing(key)] == s3.ops;
    assert s3.ops - {op} == s4.ops;
    SaveExactly(s2, op, expiresAt, backoffUntil, s3);
  }

  // ------------------------------------------------- the resolver as it runs

  datatype Identity = Identity(serviceAddress: string, fields: Fields, details: string)

  predicate Stale(cache: map<Key, Entry>, key: Key, now: int) {
    key !in cache || cache[key].fields.actor == "" || (cache[key].expiresAt != 0 && now >= cache[key].expiresAt)
  }

  /** A key is marked while it is current, idle and not backed off. */
  predicate Markable(s: State, key: Key, now: int) {
    IsCurrent(s.current, key) && key !in s.refreshing && !(key in s.backoffs && now < s.backoffs[key])
  }

  /** What the other callers and workers may have done while one of them was
      outside the lock. */
  ghost predicate Rely(me: int, s: State, s': State) {
    && Inv(s') && s.answers <= s'.answers
    && (me in s'.ops <==> me in s.ops) && (me in s.ops ==> s'.ops[me] == s.ops[me])
  }

  predicate IsBy(e: Event, me: int) { !e.Enrich? && e.op == me }

  /** Every event of another caller or worker keeps to that. */
  lemma OthersKeepRely(me: int, s: State, e: Event, s': State)
    requires Inv(s) && Transition(s, e, s') && !IsBy(e, me)
    ensures Rely(me, s, s')
  {
    hide Inv;
    StepKeepsInv(s, e, s');
  }

  /** How a markable key is sent: mark it, let others run, send it, and, when the
      queue was full, let others run and unmark it. */
  ghost predicate SendRun(me: int, key: Key, now: int, run: seq<State>) {
    && 4 <= |run|
    && QueueStep(run[0], Mark(me, key, now), run[1]) && Rely(me, run[1], run[2])
    && QueueStep(run[2], Send(me), run[3])
    && if |run[2].queue| < QUEUE_SIZE then |run| == 4
       else |run| == 6 && Rely(me, run[3], run[4]) && QueueStep(run[4], Drop(me), run[5])
  }

  class Resolver {
    const resolves: bool
    var current: map<string, Key>
    var cache: map<Key, Entry>
    var refreshing: set<Key>
    var backoffs: map<Key, int>
    var queue: seq<Key>

    /** The resolver's state together with what callers and workers are doing. */
    function In(rest: State): State
      reads this
    { State(current, cache, refreshing, backoffs, queue, rest.ops, rest.answers) }

    constructor (resolves: bool)
      ensures forall rest: State :: In(rest) == State(map[], map[], {}, map[], [], rest.ops, rest.answers)
    {
      this.resolves := resolves;
      current, cache, refreshing, backoffs, queue := map[], map[], {}, map[], [];
    }

    /** Outside the lock, others have brought the resolver to another state. */
    method Yield(next: State) returns (rest: State)
      modifies this
      ensures In(rest) == next && rest.answers == next.answers && rest.ops == next.ops
    {
      current, cache, refreshing := next.current, next.cache, next.refreshing;
      backoffs, queue, rest := next.backoffs, next.queue, next;
    }

    /** The locked section of an enrichment. */
    method EnrichOne(rest: State, key: Key, own: Fields, now: int) returns (fields: Fields, refresh: bool)
      requires Inv(In(rest))
      modifies this
      ensures RecordStep(old(In(rest)), Enrich(key), In(rest)) && Inv(In(rest))
      ensures fields == own || (key.address != "" && Known(rest.answers, key.address, fields))
      ensures fields == if key in cache && key.address != "" then cache[key].fields else own
      ensures refresh <==> key.address != "" && resolves && Stale(cache, key, now)
      ensures IsEnriched(key, old(In(rest)), In(rest))
      ensures fields == if key in old(cache) && key.address != "" then old(cache)[key].fields else own
      ensures refresh <==> key.address != "" && resolves
                               && (key !in cache || cache[key].fields.actor == ""
                                     || (cache[key].expiresAt != 0 && now >= cache[key].expiresAt))
    {
      if key.provider in current && current[key.provider] != key {
        cache := cache - {current[key.provider]};
        backoffs := backoffs - {current[key.provider]};
      }
      current := current[key.provider := key];
      assert RecordStep(old(In(rest)), Enrich(key), In(rest));
      RecordKeepsInv(old(In(rest)), Enrich(key), In(rest));
      EnrichExactly(old(In(rest)), key, In(rest));
      fields := own;
      if key in cache && key.address != "" { fields := cache[key].fields; }
      refresh := key.address != "" && resolves && Stale(cache, key, now);
    }

    /** The locked section that marks a key as refreshing, unless it may not be. */
    method MarkRefreshing(rest: State, op: int, key: Key, now: int) returns (marked: bool, after: State)
      requires Inv(In(rest)) && op !in rest.ops && key.address != ""
      modifies this`refreshing
      ensures marked <==> Markable(old(In(rest)), key, now)
      ensures marked ==> QueueStep(old(In(rest)), Mark(op, key, now), In(after))
      ensures !marked ==> after == rest && In(rest) == old(In(rest))
      ensures Inv(In(after)) && after.answers == rest.answers
      ensures marked <==> key.provider in current && current[key.provider] == key && key !in old(refreshing)
                              && (key !in backoffs || backoffs[key] <= now)
      ensures marked ==> refreshing == old(refreshing) + {key} && after.ops == rest.ops[op := Sending(key)]
    {
      if !(key.provider in current && current[key.provider] == key) { return false, rest; }
      if key in refreshing { return false, rest; }
      if key in backoffs && now < backoffs[key] { return false, rest; }
      refreshing := refreshing + {key};
      after := rest.(ops := rest.ops[op := Sending(key)]);
      QueueKeepsInv(old(In(rest)), Mark(op, key, now), In(after));
      marked := true;
    }

    /** The send that does not wait. */
    method TrySend(rest: State, op: int) returns (sent: bool, after: State)
      requires Inv(In(rest)) && op in rest.ops && rest.ops[op].Sending?
      modifies this`queue
      ensures sent <==> |old(queue)| < QUEUE_SIZE
      ensures QueueStep(old(In(rest)), Send(op), In(after)) && Inv(In(after)) && after.answers == rest.answers
      ensures if |old(queue)| < 128 then queue == old(queue) + [rest.ops[op].key] && op !in after.ops
              else queue == old(queue) && after.ops == rest.ops[op := Dropping(rest.ops[op].key)]
    {
      sent := |queue| < QUEUE_SIZE;
      var key := rest.ops[op].key;
      if sent { queue := queue + [key]; }
      after := rest.(ops := if sent then rest.ops - {op} else rest.ops[op := Dropping(key)]);
      QueueKeepsInv(old(In(rest)), Send(op), In(after));
    }

    /** The locked section after a full queue, and the one that ends a worker's turn. */
    method Unmark(rest: State, op: int) returns (after: State)
      requires Inv(In(rest)) && op in rest.ops && (rest.ops[op].Dropping? || rest.ops[op].Finishing?)
      modifies this`refreshing
      ensures rest.ops[op].Dropping? ==> QueueStep(old(In(rest)), Drop(op), In(after))
      ensures rest.ops[op].Finishing? ==> QueueStep(old(In(rest)), Finish(op), In(after))
      ensures Inv(In(after)) && after.answers == rest.answers && op !in after.ops
      ensures refreshing == old(refreshing) - {rest.ops[op].key}
    {
      refreshing := refreshing - {rest.ops[op].key};
      after := rest.(ops := rest.ops - {op});
      QueueKeepsInv(old(In(rest)), if rest.ops[op].Dropping? then Drop(op) else Finish(op), In(after));
    }

    /** Marks and sends a key, with others at work between the sections. At the end
        nothing of this caller is left: its key is queued, or no longer marked by it. */
    method Enqueue(before: State, me: int, key: Key, now: int, others: (nat, State) -> State, turn: nat)
      returns (rest: State, ghost run: seq<State>)
      requires Inv(In(before)) && me !in before.ops && key.address != ""
      requires forall i, s :: Inv(s) ==> Rely(me, s, others(i, s))
      modifies this
      ensures Inv(In(rest)) && me !in rest.ops && before.answers <= rest.answers
      ensures |run| > 0 && run[0] == old(In(before)) && run[|run| - 1] == In(rest)
      ensures if Markable(old(In(before)), key, now) then SendRun(me, key, now, run) else |run| == 1 && rest == before
    {
      hide Inv;
      run := [In(before)];
      var marked;
      marked, rest := MarkRefreshing(before, me, key, now);
      if !marked { return; }
      run := run + [In(rest)];
      rest := Yield(others(turn, In(rest)));
      run := run + [In(rest)];
      var sent;
      sent, rest := TrySend(rest, me);
      run := run + [In(rest)];
      if sent { return; }
      rest := Yield(others(turn + 1, In(rest)));
      run := run + [In(rest)];
      rest := Unmark(rest, me);
      run := run + [In(rest)];
    }

    /** Every answer keeps what its identity said, and fills in only fields found for
        the address it gave, whatever others do between the sections. */
    method EnrichActors(before: State, me: int, identities: map<string, Option<Identity>>, normal: string -> string,
                        now: int, others: (nat, State) -> State)
      returns (out: map<string, Identity>, rest: State)
      requires Inv(In(before)) && me !in before.ops
      requires forall i, s :: Inv(s) ==> Rely(me, s, others(i, s))
      modifies this
      ensures Inv(In(rest)) && me !in rest.ops && before.answers <= rest.answers
      ensures forall id :: id in out <==> id in identities && identities[id].Some?
      ensures forall id :: id in out ==> Enriched(rest.answers, identities[id].value, normal, out[id])
    {
      out, rest := map[], before;
      var todo, turn := identities.Keys, 0;
      while todo != {}
        invariant todo <= identities.Keys && Inv(In(rest)) && me !in rest.ops && before.answers <= rest.answers
        invariant forall id :: id in out <==> id in identities && id !in todo && identities[id].Some?
        invariant forall id :: id in out ==> Enriched(rest.answers, identities[id].value, normal, out[id])
        decreases |todo|
      {
        hide Inv, Rely;
        var id :| id in todo;
        todo := todo - {id};
        if identities[id].Some? {
          ghost var known := rest.answers;
          var enriched;
          enriched, rest := EnrichNext(rest, me, id, identities[id].value, normal, now, others, turn);
          MoreAnswers(known, rest.answers, identities, normal, out);
          out := out[id := enriched];
          turn := turn + 4;
        }
      }
    }

    /** One identity: read under the lock, then send for a refresh if one is due. */
    method EnrichNext(before: State, me: int, id: string, identity: Identity, normal: string -> string,
                      now: int, others: (nat, State) -> State, turn: nat)
      returns (enriched: Identity, rest: State)
      requires Inv(In(before)) && me !in before.ops
      requires forall i, s :: Inv(s) ==> Rely(me, s, others(i, s))
      modifies this
      ensures Inv(In(rest)) && me !in rest.ops && before.answers <= rest.answers
      ensures Enriched(before.answers, identity, normal, enriched) && Enriched(rest.answers, identity, normal, enriched)
      ensures var key := Key(id, normal(identity.serviceAddress));
              enriched.fields == if key in old(cache) && key.address != "" then old(cache)[key].fields
                                 else identity.fields
    {
      var key := Key(id, normal(identity.serviceAddress));
      var fields, refresh := EnrichOne(before, key, identity.fields, now);
      enriched := identity.(fields := fields);
      rest := Yield(others(turn, In(before)));
      if refresh {
        ghost var run;
        rest, run := Enqueue(rest, me, key, now, others, turn + 1);
      }
      MoreKnown(before.answers, rest.answers, key.address, fields);
    }

    /** A worker takes the key at the head of the queue. */
    method Take(rest: State, op: int) returns (after: State)
      requires Inv(In(rest)) && op !in rest.ops && queue != []
      modifies this`queue
      ensures QueueStep(old(In(rest)), Event.Take(op), In(after)) && Inv(In(after))
      ensures old(queue) == [after.ops[op].key] + queue && after.ops[op].Taken?
    {
      after := rest.(ops := rest.ops[op := Taken(queue[0])]);
      queue := queue[1..];
      QueueKeepsInv(old(In(rest)), Event.Take(op), In(after));
    }

    /** The locked section in which a worker looks whether its key is still current. */
    method CheckCurrent(rest: State, op: int) returns (isCurrent: bool, after: State)
      requires Inv(In(rest)) && op in rest.ops && rest.ops[op].Taken?
      ensures isCurrent <==> IsCurrent(current, rest.ops[op].key)
      ensures RecordStep(In(rest), Check(op), In(after)) && Inv(In(after))
    {
      var key := rest.ops[op].key;
      isCurrent := key.provider in current && current[key.provider] == key;
      after := rest.(ops := rest.ops[op := if isCurrent then Resolving(key) else Finishing(key)]);
      RecordKeepsInv(In(rest), Check(op), In(after));
    }

    /** The locked section in which a worker saves an answer. */
    method Save(rest: State, op: int, expiresAt: int, backoffUntil: int) returns (after: State)
      requires Inv(In(rest)) && op in rest.ops && rest.ops[op].Resolved?
      modifies this`cache, this`backoffs
      ensures RecordStep(old(In(rest)), Event.Save(op, expiresAt, backoffUntil), In(after)) && Inv(In(after))
      ensures if old(IsCurrent(current, rest.ops[op].key))
              then IsSaved(rest.ops[op].key, rest.ops[op].answer, expiresAt, backoffUntil, old(In(rest)), In(after))
              else cache == old(cache) && backoffs == old(backoffs)
    {
      var key, answer := rest.ops[op].key, rest.ops[op].answer;
      after := rest.(ops := rest.ops[op := Finishing(key)]);
      if key.provider in current && current[key.provider] == key {
        var was := if key in cache then cache[key] else Entry(Fields("", ""), 0);
        var next := was.fields;
        if answer.ok {
          next := answer.fields;
        } else if answer.fields.filecoin != "" && was.fields.filecoin == "" {
          next := next.(filecoin := answer.fields.filecoin);
        }
        if next != was.fields || answer.ok { cache := cache[key := Entry(next, expiresAt)]; }
        if answer.ok { backoffs := backoffs - {key}; } else { backoffs := backoffs[key := backoffUntil]; }
      }
      RecordKeepsInv(old(In(rest)), Event.Save(op, expiresAt, backoffUntil), In(after));
      SaveExactly(old(In(rest)), op, expiresAt, backoffUntil, In(after));
    }
  }

  ghost predicate Enriched(answers: set<Answer>, identity: Identity, normal: string -> string, out: Identity) {
    var address := normal(identity.serviceAddress);
    && out == identity.(fields := out.fields)
    && (out.fields == identity.fields || (address != "" && Known(answers, address, out.fields)))
  }

  lemma MoreKnown(answers: set<Answer>, answers': set<Answer>, address: string, fields: Fields)
    requires answers <= answers'
    ensures Known(answers, address, fields) ==> Known(answers', address, fields)
  {
  }

  lemma MoreAnswers(answers: set<Answer>, answers': set<Answer>, identities: map<string, Option<Identity>>,
                    normal: string -> string, out: map<string, Identity>)
    requires answers <= answers' && forall id :: id in out ==> id in identities && identities[id].Some?
    requires forall id :: id in out ==> Enriched(answers, identities[id].value, normal, out[id])
    ensures forall id :: id in out ==> Enriched(answers', identities[id].value, normal, out[id])
  {
    forall id | id in out ensures Enriched(answers', identities[id].value, normal, out[id]) {
      assert Enriched(answers, identities[id].value, normal, out[id]);
      MoreKnown(answers, answers', normal(identities[id].value.serviceAddress), out[id].fields);
    }
  }
}
