/**
 * The wallet cache: one cached snapshot guarded by a generation, and fetches
 * shared by the calls that wait for them. A snapshot carries how many
 * invalidations came before its fetch began.
 */
module WalletCache {
  import opened Options

  datatype Snapshot = Snapshot(info: int, begun: nat)

  /** Started: the flight has not looked at the cache. Missed: it found nothing.
      Read: it knows the generation. Fetching: the query is out. Fetched: it has
      come back. Returning: it knows what to deliver, none being an error. Done: it
      has left the group. */
  datatype FlightPhase =
    | Started
    | Missed
    | Read(generation: nat)
    | Fetching(generation: nat, begun: nat)
    | Fetched(generation: nat, snapshot: Snapshot)
    | Returning(result: Option<Snapshot>)
    | Done(result: Option<Snapshot>)

  datatype Flight = Flight(born: nat, phase: FlightPhase)

  /** `floor`: the latest invalidation that had returned when the call started. */
  datatype Call =
    | Looking(floor: nat)
    | Joining(floor: nat)
    | Waiting(floor: nat, flight: int)
    | Returned(floor: nat, result: Option<Snapshot>)

  datatype State = State(
    info: Option<Snapshot>,
    expiresAt: int,
    generation: nat,
    group: Option<int>,
    flights: map<int, Flight>,
    calls: map<int, Call>,
    invalidating: map<int, nat>,
    returned: nat)

  datatype Event =
    | Bump(id: int)
    | Forget(id: int)
    | StartCall(call: int)
    | LookUp(call: int, now: int)
    | Join(call: int, flight: int)
    | FlightLooks(flight: int, now: int)
    | ReadGeneration(flight: int)
    | BeginFetch(flight: int)
    | EndFetch(flight: int, answer: Option<int>)
    | Publish(flight: int, expiresAt: int)
    | Land(flight: int)
    | Deliver(call: int)
    | GiveUp(call: int)

  /** The locked sections, over the fields of the cache. */
  function Fresh(info: Option<Snapshot>, expiresAt: int, now: int): (r: Option<Snapshot>) {
    if info.Some? && now < expiresAt then info else None
  }

  function Fly(s: State, f: int, phase: FlightPhase): map<int, Flight>
    requires f in s.flights
  { s.flights[f := s.flights[f].(phase := phase)] }

  /** A finished flight leaves the group unless it has already been forgotten. */
  function Left(s: State, f: int): Option<int> { if s.group == Some(f) then None else s.group }

  ghost predicate InvalidateStep(s: State, e: Event, s': State)
    requires e.Bump? || e.Forget?
  {
    match e
    case Bump(id) =>
      && id !in s.invalidating
      && s' == s.(info := None, expiresAt := 0, generation := s.generation + 1,
                  invalidating := s.invalidating[id := s.generation + 1])
    case Forget(id) =>
      && id in s.invalidating
      && s' == s.(group := None, invalidating := s.invalidating - {id},
                  returned := if s.invalidating[id] > s.returned then s.invalidating[id] else s.returned)
  }

  ghost predicate CallStep(s: State, e: Event, s': State)
    requires e.StartCall? || e.LookUp? || e.Join? || e.Deliver? || e.GiveUp?
  {
    match e
    case StartCall(c) => c !in s.calls && s' == s.(calls := s.calls[c := Looking(s.returned)])
    case LookUp(c, now) =>
      && c in s.calls && s.calls[c].Looking?
      && var hit := Fresh(s.info, s.expiresAt, now);
         s' == s.(calls := s.calls[c := if hit.Some? then Returned(s.calls[c].floor, hit)
                                   else Joining(s.calls[c].floor)])
    case Join(c, f) =>
      && c in s.calls && s.calls[c].Joining?
      && (if s.group.Some? then f == s.group.value && s'.flights == s.flights
          else f !in s.flights && s'.flights == s.flights[f := Flight(s.generation, Started)])
      && s' == s.(group := Some(f), flights := s'.flights, calls := s.calls[c := Waiting(s.calls[c].floor, f)])
    case Deliver(c) =>
      && c in s.calls && s.calls[c].Waiting? && s.calls[c].flight in s.flights
      && s.flights[s.calls[c].flight].phase.Done?
      && s' == s.(calls := s.calls[c := Returned(s.calls[c].floor, s.flights[s.calls[c].flight].phase.result)])
    case GiveUp(c) =>
      && c in s.calls && s.calls[c].Waiting? && s' == s.(calls := s.calls[c := Returned(s.calls[c].floor, None)])
  }

  ghost predicate FlightStep(s: State, e: Event, s': State)
    requires e.FlightLooks? || e.ReadGeneration? || e.BeginFetch? || e.EndFetch? || e.Publish? || e.Land?
  {
    e.flight in s.flights &&
    var f := e.flight;
    var phase := s.flights[f].phase;
    match e
    case FlightLooks(_, now) =>
      && phase.Started?
      && var hit := Fresh(s.info, s.expiresAt, now);
         s' == s.(flights := Fly(s, f, if hit.Some? then Returning(hit) else Missed))
    case ReadGeneration(_) => phase.Missed? && s' == s.(flights := Fly(s, f, Read(s.generation)))
    case BeginFetch(_) => phase.Read? && s' == s.(flights := Fly(s, f, Fetching(phase.generation, s.generation)))
    case EndFetch(_, answer) =>
      && phase.Fetching?
      && var next := if answer.None? then Returning(None)
                     else Fetched(phase.generation, Snapshot(answer.value, phase.begun));
         s' == s.(flights := Fly(s, f, next))
    case Publish(_, expiresAt) =>
      && phase.Fetched?
      && s'.info == (if phase.generation == s.generation then Some(phase.snapshot) else s.info)
      && s'.expiresAt == (if phase.generation == s.generation then expiresAt else s.expiresAt)
      && s' == s.(info := s'.info, expiresAt := s'.expiresAt, flights := Fly(s, f, Returning(Some(phase.snapshot))))
    case Land(_) =>
      phase.Returning? && s' == s.(group := Left(s, f), flights := Fly(s, f, Done(phase.result)))
  }

  ghost predicate Transition(s: State, e: Event, s': State) {
    if e.Bump? || e.Forget? then InvalidateStep(s, e, s')
    else if e.StartCall? || e.LookUp? || e.Join? || e.Deliver? || e.GiveUp? then CallStep(s, e, s')
    else FlightStep(s, e, s')
  }

  // --------------------------------------------------------------- invariant

  predicate FlightOk(flight: Flight, generation: nat) {
    && flight.born <= generation
    && match flight.phase
       case Started => true
       case Missed => true
       case Read(g) => flight.born <= g <= generation
       case Fetching(g, begun) => flight.born <= g <= begun <= generation
       case Fetched(g, snapshot) => flight.born <= g <= snapshot.begun <= generation
       case Returning(result) => result.Some? ==> flight.born <= result.value.begun
       case Done(result) => result.Some? ==> flight.born <= result.value.begun
  }

  predicate CallOk(s: State, call: Call) {
    && call.floor <= s.returned
    && (call.Waiting? ==> call.flight in s.flights && call.floor <= s.flights[call.flight].born)
    && (call.Returned? && call.result.Some? ==> call.floor <= call.result.value.begun)
  }

  /** The cached snapshot is of the present generation; the flight that new calls
      may join was born after every invalidation that has returned. */
  ghost predicate Inv(s: State) {
    && s.returned <= s.generation
    && (s.info.Some? ==> s.info.value.begun == s.generation)
    && (s.group.Some? ==> s.group.value in s.flights && s.returned <= s.flights[s.group.value].born)
    && (forall id :: id in s.invalidating ==> s.invalidating[id] <= s.generation)
    && (forall f :: f in s.flights ==> FlightOk(s.flights[f], s.generation))
    && (forall c :: c in s.calls ==> CallOk(s, s.calls[c]))
  }

  lemma InvalidateKeepsInv(s: State, e: Event, s': State)
    requires Inv(s) && (e.Bump? || e.Forget?) && InvalidateStep(s, e, s')
    ensures Inv(s')
  {
    forall f | f in s'.flights ensures FlightOk(s'.flights[f], s'.generation) {
      assert FlightOk(s.flights[f], s.generation);
    }
    forall c | c in s'.calls ensures CallOk(s', s'.calls[c]) { assert CallOk(s, s.calls[c]); }
  }

  lemma CallKeepsInv(s: State, e: Event, s': State)
    requires Inv(s) && (e.StartCall? || e.LookUp? || e.Join? || e.Deliver? || e.GiveUp?) && CallStep(s, e, s')
    ensures Inv(s')
  {
    if e.Deliver? { assert FlightOk(s.flights[s.calls[e.call].flight], s.generation); }
    forall c | c in s'.calls ensures CallOk(s', s'.calls[c]) {
      if c in s.calls { assert CallOk(s, s.calls[c]); }
    }
  }

  lemma FlightStaysOk(s: State, e: Event, s': State)
    requires Inv(s) && (e.FlightLooks? || e.ReadGeneration? || e.BeginFetch? || e.EndFetch? || e.Publish? || e.Land?)
        && FlightStep(s, e, s')
    ensures FlightOk(s'.flights[e.flight], s'.generation) && s'.flights[e.flight].born == s.flights[e.flight].born
    ensures s'.flights == s.flights[e.flight := s'.flights[e.flight]] && s'.calls == s.calls
    ensures s'.info.Some? ==> s'.info.value.begun == s'.generation
  {
    assert FlightOk(s.flights[e.flight], s.generation);
  }

  lemma FlightKeepsInv(s: State, e: Event, s': State)
    requires Inv(s) && (e.FlightLooks? || e.ReadGeneration? || e.BeginFetch? || e.EndFetch? || e.Publish? || e.Land?)
        && FlightStep(s, e, s')
    ensures Inv(s')
  {
    FlightStaysOk(s, e, s');
    forall f | f in s'.flights ensures FlightOk(s'.flights[f], s'.generation) {
      if f != e.flight { assert FlightOk(s.flights[f], s.generation); }
    }
    forall c | c in s'.calls ensures CallOk(s', s'.calls[c]) { assert CallOk(s, s.calls[c]); }
  }

  lemma StepKeepsInv(s: State, e: Event, s': State)
    requires Inv(s) && Transition(s, e, s')
    ensures Inv(s')
  {
    if e.Bump? || e.Forget? { InvalidateKeepsInv(s, e, s'); }
    else if e.StartCall? || e.LookUp? || e.Join? || e.Deliver? || e.GiveUp? { CallKeepsInv(s, e, s'); }
    else { FlightKeepsInv(s, e, s'); }
  }

  ghost predicate Run(states: seq<State>, events: seq<Event>) {
    && |states| == |events| + 1
    && states[0] == State(None, 0, 0, None, map[], map[], map[], 0)
    && forall i :: 0 <= i < |events| ==> Transition(states[i], events[i], states[i + 1])
  }

  lemma {:induction false} RunKeepsInv(states: seq<State>, events: seq<Event>, n: nat)
    requires Run(states, events) && n <= |events|
    ensures Inv(states[n])
  {
    if n > 0 {
      RunKeepsInv(states, events, n - 1);
      StepKeepsInv(states[n - 1], events[n - 1], states[n]);
    }
  }

  /** What a call started keeps: its floor never changes. */
  lemma {:induction false} FloorIsKept(states: seq<State>, events: seq<Event>, m: nat, n: nat, c: int)
    requires Run(states, events) && m <= n <= |events| && c in states[m].calls
    ensures c in states[n].calls && states[n].calls[c].floor == states[m].calls[c].floor
  {
    if m < n {
      FloorIsKept(states, events, m, n - 1, c);
      assert Transition(states[n - 1], events[n - 1], states[n]);
    }
  }

  /** Whatever is returned to a call that starts once an invalidation has
      returned comes from a fetch begun after that invalidation. */
  lemma ReturnsNothingOlder(states: seq<State>, events: seq<Event>, i: nat, m: nat, n: nat, id: int, c: int)
    requires Run(states, events) && i < m < n <= |events|
    requires events[i] == Forget(id) && id in states[i].invalidating && events[m] == StartCall(c)
    requires c in states[n].calls && states[n].calls[c].Returned? && states[n].calls[c].result.Some?
    ensures states[n].calls[c].result.value.begun >= states[i].invalidating[id]
  {
    assert Transition(states[i], events[i], states[i + 1]);
    assert Transition(states[m], events[m], states[m + 1]);
    ReturnedGrows(states, events, i + 1, m);
    FloorIsKept(states, events, m + 1, n, c);
    RunKeepsInv(states, events, n);
    assert CallOk(states[n], states[n].calls[c]);
  }

  lemma {:induction false} ReturnedGrows(states: seq<State>, events: seq<Event>, m: nat, n: nat)
    requires Run(states, events) && m <= n <= |events|
    ensures states[m].returned <= states[n].returned
  {
    if m < n {
      ReturnedGrows(states, events, m, n - 1);
      assert Transition(states[n - 1], events[n - 1], states[n]);
    }
  }

  /** So does whatever is cached: it is of the present generation. */
  lemma CachesNothingOlder(states: seq<State>, events: seq<Event>, i: nat, n: nat, id: int)
    requires Run(states, events) && i < n <= |events| && events[i] == Bump(id) && states[n].info.Some?
    ensures states[n].info.value.begun >= states[i].generation + 1
  {
    assert Transition(states[i], events[i], states[i + 1]);
    GenerationGrows(states, events, i + 1, n);
    RunKeepsInv(states, events, n);
  }

  lemma {:induction false} GenerationGrows(states: seq<State>, events: seq<Event>, m: nat, n: nat)
    requires Run(states, events) && m <= n <= |events|
    ensures states[m].generation <= states[n].generation
  {
    if m < n {
      GenerationGrows(states, events, m, n - 1);
      assert Transition(states[n - 1], events[n - 1], states[n]);
    }
  }

  /** A call that finds nothing cached opens a flight of its own when none is shared. */
  lemma CallOpensFlight(s: State, c: int, f: int, now: int) returns (s1: State, s2: State, s3: State)
    requires c !in s.calls && f !in s.flights && s.group == None && (s.info == None || s.expiresAt <= now)
    ensures Transition(s, StartCall(c), s1) && Transition(s1, LookUp(c, now), s2) && Transition(s2, Join(c, f), s3)
    ensures s3 == s.(group := Some(f), flights := s.flights[f := Flight(s.generation, Started)],
                     calls := s.calls[c := Waiting(s.returned, f)])
  {
    s1 := s.(calls := s.calls[c := Looking(s.returned)]);
    s2 := s.(calls := s.calls[c := Joining(s.returned)]);
    s3 := s.(group := Some(f), flights := s.flights[f := Flight(s.generation, Started)],
             calls := s.calls[c := Waiting(s.returned, f)]);
    assert s1.calls[c := Joining(s.returned)] == s2.calls;
    assert s2.calls[c := Waiting(s.returned, f)] == s3.calls;
  }

  /** A flight that finds nothing cached goes out to fetch. */
  lemma FlightGoesOut(s: State, f: int, now: int) returns (s1: State, s2: State, s3: State)
    requires f in s.flights && s.flights[f].phase == Started && (s.info == None || s.expiresAt <= now)
    ensures Transition(s, FlightLooks(f, now), s1) && Transition(s1, ReadGeneration(f), s2)
    ensures Transition(s2, BeginFetch(f), s3)
    ensures s3 == s.(flights := Fly(s, f, Fetching(s.generation, s.generation)))
  {
    s1 := s.(flights := Fly(s, f, Missed));
    s2 := s.(flights := Fly(s, f, Read(s.generation)));
    s3 := s.(flights := Fly(s, f, Fetching(s.generation, s.generation)));
    assert Fly(s1, f, Read(s.generation)) == s2.flights;
    assert Fly(s2, f, Fetching(s.generation, s.generation)) == s3.flights;
  }

  /** The answer of a fetch that no invalidation overtook is cached and shared. */
  lemma FlightComesBack(s: State, f: int, answer: int, until: int) returns (s1: State, s2: State, s3: State)
    requires f in s.flights && s.flights[f].phase == Fetching(s.generation, s.generation) && s.group == Some(f)
    ensures Transition(s, EndFetch(f, Some(answer)), s1) && Transition(s1, Publish(f, until), s2)
    ensures Transition(s2, Land(f), s3)
    ensures var snapshot := Some(Snapshot(answer, s.generation));
            s3 == s.(info := snapshot, expiresAt := until, group := None, flights := Fly(s, f, Done(snapshot)))
  {
    var g, snapshot := s.generation, Snapshot(answer, s.generation);
    s1 := s.(flights := Fly(s, f, Fetched(g, snapshot)));
    s2 := s.(info := Some(snapshot), expiresAt := until, flights := Fly(s, f, Returning(Some(snapshot))));
    s3 := s2.(group := None, flights := Fly(s, f, Done(Some(snapshot))));
    assert Fly(s1, f, Returning(Some(snapshot))) == s2.flights;
    assert Fly(s2, f, Done(Some(snapshot))) == s3.flights;
  }

  /** A call gets what its flight came back with. */
  lemma CallIsDelivered(s: State, c: int) returns (s1: State)
    requires c in s.calls && s.calls[c].Waiting? && s.calls[c].flight in s.flights
    requires s.flights[s.calls[c].flight].phase.Done?
    ensures Transition(s, Deliver(c), s1)
    ensures s1 == s.(calls := s.calls[c := Returned(s.calls[c].floor, s.flights[s.calls[c].flight].phase.result)])
  {
    s1 := s.(calls := s.calls[c := Returned(s.calls[c].floor, s.flights[s.calls[c].flight].phase.result)]);
  }

  /** Left alone, a call that finds nothing cached gets the answer of a fetch of its
      own, and the answer is cached. */
  lemma QuietCallFetches(s: State, c: int, f: int, now: int, later: int, answer: int, until: int)
    returns (t: seq<State>)
    requires c !in s.calls && f !in s.flights && s.group == None
    requires s.info == None || (s.expiresAt <= now && s.expiresAt <= later)
    ensures |t| == 11 && t[0] == s
    ensures Transition(t[0], StartCall(c), t[1]) && Transition(t[1], LookUp(c, now), t[2])
    ensures Transition(t[2], Join(c, f), t[3]) && Transition(t[3], FlightLooks(f, later), t[4])
    ensures Transition(t[4], ReadGeneration(f), t[5]) && Transition(t[5], BeginFetch(f), t[6])
    ensures Transition(t[6], EndFetch(f, Some(answer)), t[7]) && Transition(t[7], Publish(f, until), t[8])
    ensures Transition(t[8], Land(f), t[9]) && Transition(t[9], Deliver(c), t[10])
    ensures t[10].info == Some(Snapshot(answer, s.generation)) && t[10].expiresAt == until && t[10].group == None
    ensures c in t[10].calls && t[10].calls[c] == Returned(s.returned, Some(Snapshot(answer, s.generation)))
  {
    hide Transition;
    var s1, s2, s3 := CallOpensFlight(s, c, f, now);
    var s4, s5, s6 := FlightGoesOut(s3, f, later);
    var s7, s8, s9 := FlightComesBack(s6, f, answer, until);
    var s10 := CallIsDelivered(s9, c);
    t := [s, s1, s2, s3, s4, s5, s6, s7, s8, s9, s10];
  }

  /** A call that finds a snapshot which has not expired gets it without a fetch. */
  lemma FreshCallHits(s: State, c: int, now: int, s': State, s'': State)
    requires c !in s.calls && s.info.Some? && now < s.expiresAt
    requires Transition(s, StartCall(c), s') && Transition(s', LookUp(c, now), s'')
    ensures c in s''.calls && s''.calls[c] == Returned(s.returned, s.info) && s''.flights == s.flights
  {
  }

  // ---------------------------------------------------- the cache as it runs

  /** The fields behind the mutex; flights, calls and invalidations are the
      callers' own progress, given as `rest`. */
  class Querier {
    const ttl: int
    var info: Option<Snapshot>
    var expiresAt: int
    var generation: nat

    ghost function In(rest: State): State
      reads this
    { rest.(info := info, expiresAt := expiresAt, generation := generation) }

    constructor (ttl: int)
      ensures info == None && generation == 0 && this.ttl == ttl
    {
      this.ttl, info, expiresAt, generation := ttl, None, 0, 0;
    }

    method Invalidate(ghost rest: State, ghost id: int)
      requires id !in rest.invalidating
      modifies this
      ensures InvalidateStep(old(In(rest)), Bump(id), In(rest.(invalidating := rest.invalidating[id := generation])))
      ensures info == None && generation == old(generation) + 1
    {
      info, expiresAt, generation := None, 0, generation + 1;
    }

    method LookUp(now: int) returns (hit: Option<Snapshot>)
      ensures hit == Fresh(info, expiresAt, now)
      ensures hit.Some? <==> info.Some? && now < expiresAt
      ensures hit.Some? ==> hit == info
    {
      hit := info;
      if hit.Some? && !(now < expiresAt) { hit := None; }
    }

    method Publish(flight: int, ghost rest: State, readGeneration: nat, snapshot: Snapshot, now: int)
      requires flight in rest.flights && rest.flights[flight].phase == Fetched(readGeneration, snapshot)
      modifies this
      ensures FlightStep(old(In(rest)), Event.Publish(flight, now + ttl),
                         In(rest.(flights := Fly(rest, flight, Returning(Some(snapshot))))))
      ensures readGeneration == old(generation) ==> info == Some(snapshot) && expiresAt == now + ttl
      ensures readGeneration != old(generation) ==> info == old(info) && expiresAt == old(expiresAt)
      ensures generation == old(generation)
    {
      if readGeneration == generation { info, expiresAt := Some(snapshot), now + ttl; }
    }
  }
}
