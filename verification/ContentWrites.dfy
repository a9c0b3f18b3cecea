/**
 * Writers that share the same bytes, deletions of the versions that name them,
 * and the clean-up of the one cached file behind them all. The protocol is per
 * content: a row in the database, one file in the cache, the versions naming it.
 */
module ContentWrites {
  import G = GateProtocol

  /** A write, and the four ways the cached file goes: released when no version
      names it, discarded with a row no version ever named, evicted while stored
      durably elsewhere, or quarantined because its bytes are damaged. */
  datatype Kind = Write(version: int) | Release | Discard | Evict | Quarantine

  /** The clean-ups that may take the file of a named content. */
  predicate TakesNamed(kind: Kind) { kind.Evict? || kind.Quarantine? }

  /** Resolved: a write has found or created the content row.
      Permitted: it holds a read permit. FileCommitted: its file is in place.
      Guarded: a clean-up holds the exclusive permit. Cleared: it found that the
      file may go. Emptied: the file is gone. */
  datatype Phase = Resolved | Permitted | FileCommitted | Guarded | Cleared | Emptied | Finished

  datatype Op = Op(kind: Kind, phase: Phase)

  /** `taken`: an eviction or a quarantine took the file last. `durable` and
      `damaged` are facts of the world outside, and may change at any time. */
  datatype State = State(
    users: G.Users,
    ops: map<int, Op>,
    row: bool,
    named: bool,
    file: bool,
    taken: bool,
    durable: bool,
    damaged: bool,
    versions: set<int>)

  datatype Event =
    | Gate(step: G.Step)
    | Resolve(op: int, version: int)
    | Permit(op: int)
    | Guard(op: int, kind: Kind)
    | CommitFile(op: int, ok: bool, left: bool)
    | Transact(op: int, applied: bool, ok: bool)
    | DeleteVersion(version: int)
    | Recheck(op: int)
    | RemoveFile(op: int, ok: bool)
    | Settle(op: int, applied: bool)
    | DropRow
    | Outside(durable: bool, damaged: bool)
    | Crash
    | Forsake(op: int)

  predicate At(s: State, op: int, phase: Phase) { op in s.ops && s.ops[op].phase == phase }

  function To(s: State, op: int, phase: Phase): map<int, Op>
    requires op in s.ops
  { s.ops[op := s.ops[op].(phase := phase)] }

  /** The clean-up may go on: no version names the content and, for a discard,
      none ever has. An eviction wants the content durable, a quarantine its file
      damaged. */
  predicate MayGo(s: State, kind: Kind) {
    match kind
    case Release => s.versions == {} || !s.row
    case Discard => s.row && !s.named && s.versions == {}
    case Evict => s.durable
    case Quarantine => s.damaged
    case Write(_) => false
  }

  ghost predicate GateStep(s: State, e: Event, s': State)
    requires e.Gate? || e.Permit? || e.Guard?
  {
    match e
    case Gate(step) =>
      && !step.Grant? && G.Next(s.users, step, s'.users)
      && (step.Drop? ==> step.p in s.ops ==> s.ops[step.p].phase.Finished?)
      && s' == s.(users := s'.users)
    case Permit(op) =>
      && At(s, op, Resolved) && G.Next(s.users, G.Grant(op, 1), s'.users)
      && s' == s.(users := s'.users, ops := To(s, op, Permitted))
    case Guard(op, kind) =>
      && op !in s.ops && !kind.Write? && G.Next(s.users, G.Grant(op, G.CAPACITY), s'.users)
      && s' == s.(users := s'.users, ops := s.ops[op := Op(kind, Guarded)])
  }

  ghost predicate WriteStep(s: State, e: Event, s': State)
    requires e.Resolve? || e.CommitFile? || e.Transact? || e.Forsake?
  {
    match e
    case Resolve(op, version) =>
      op !in s.ops && s' == s.(row := true, ops := s.ops[op := Op(Write(version), Resolved)])
    case CommitFile(op, ok, left) =>
      && At(s, op, Permitted)
      && s' == s.(file := s.file || ok || left,
                  taken := s.taken && !ok && !left,
                  damaged := s.damaged && !ok && !left,
                  ops := To(s, op, if ok then FileCommitted else Finished))
    case Transact(op, applied, ok) =>
      && At(s, op, FileCommitted) && s.ops[op].kind.Write? && (applied ==> s.row) && (ok ==> applied)
      && s' == s.(versions := if applied then s.versions + {s.ops[op].kind.version} else s.versions,
                  named := s.named || applied,
                  ops := To(s, op, Finished))
    case Forsake(op) =>
      && op in s.ops && (s.ops[op].phase.Finished? || s.ops[op].phase.Resolved?)
      && s' == s.(ops := s.ops - {op})
  }

  ghost predicate CleanUpStep(s: State, e: Event, s': State)
    requires e.Recheck? || e.RemoveFile? || e.Settle?
  {
    match e
    case Recheck(op) =>
      && At(s, op, Guarded)
      && s' == s.(ops := To(s, op, if MayGo(s, s.ops[op].kind) then Cleared else Finished))
    case RemoveFile(op, ok) =>
      && At(s, op, Cleared)
      && s' == if ok then s.(file := false, taken := TakesNamed(s.ops[op].kind), ops := To(s, op, Emptied))
               else s.(ops := To(s, op, Finished))
    case Settle(op, applied) =>
      && At(s, op, Emptied)
      && s' == s.(row := s.row && !(applied && s.ops[op].kind.Discard?), ops := To(s, op, Finished))
  }

  /** A deletion of a version, the end of a row nothing names, what changes
      outside, and a crash, which ends all requests. */
  predicate WorldStep(s: State, e: Event, s': State)
    requires e.DeleteVersion? || e.DropRow? || e.Outside? || e.Crash?
  {
    match e
    case DeleteVersion(version) => s' == s.(versions := s.versions - {version})
    case DropRow => s.versions == {} && s' == s.(row := false)
    case Outside(durable, damaged) => s' == s.(durable := durable, damaged := damaged)
    case Crash => s' == s.(users := map[], ops := map[])
  }

  ghost predicate Transition(s: State, e: Event, s': State) {
    if e.Gate? || e.Permit? || e.Guard? then GateStep(s, e, s')
    else if e.Resolve? || e.CommitFile? || e.Transact? || e.Forsake? then WriteStep(s, e, s')
    else if e.Recheck? || e.RemoveFile? || e.Settle? then CleanUpStep(s, e, s')
    else WorldStep(s, e, s')
  }

  // --------------------------------------------------------------- invariant

  ghost predicate OpOk(s: State, op: int)
    requires op in s.ops
  {
    var o := s.ops[op];
    match o.phase
    case Resolved => true
    case Permitted => op in s.users && s.users[op] == G.Holding(1)
    case FileCommitted => op in s.users && s.users[op] == G.Holding(1) && s.file
    case Guarded => op in s.users && s.users[op] == G.Holding(G.CAPACITY)
    case Cleared => op in s.users && s.users[op] == G.Holding(G.CAPACITY) && (TakesNamed(o.kind) || s.versions == {})
    case Emptied => op in s.users && s.users[op] == G.Holding(G.CAPACITY) && (TakesNamed(o.kind) || s.versions == {})
    case Finished => true
  }

  ghost predicate Inv(s: State) {
    && G.Safe(s.users)
    && (forall op :: op in s.ops ==> OpOk(s, op))
    && (s.versions != {} ==> s.row && (s.file || s.taken))
  }

  lemma OtherIsNotHolding(s: State, p: int, q: int)
    requires Inv(s) && p in s.users && s.users[p] == G.Holding(G.CAPACITY) && q in s.ops && p != q
    ensures q in s.users ==> !s.users[q].Holding?
  {
    if q in s.users { G.ExclusiveIsAlone(s.users, p, q); }
  }

  lemma GateKeepsInv(s: State, e: Event, s': State)
    requires Inv(s) && (e.Gate? || e.Permit? || e.Guard?) && GateStep(s, e, s')
    ensures Inv(s')
  {
    var step := match e
      case Gate(step) => step
      case Permit(op) => G.Grant(op, 1)
      case Guard(op, _) => G.Grant(op, G.CAPACITY);
    G.StepKeepsSafe(s.users, step, s'.users);
    forall op | op in s'.ops ensures OpOk(s', op) {
      if op in s.ops { assert OpOk(s, op); }
    }
  }

  lemma WriteKeepsInv(s: State, e: Event, s': State)
    requires Inv(s) && (e.Resolve? || e.CommitFile? || e.Transact? || e.Forsake?) && WriteStep(s, e, s')
    ensures Inv(s')
  {
    if e.Transact? { assert OpOk(s, e.op); }
    forall op | op in s'.ops ensures OpOk(s', op) {
      if op in s.ops { assert OpOk(s, op); }
      if e.Transact? && op in s.ops && op != e.op && (s.ops[op].phase.Cleared? || s.ops[op].phase.Emptied?) {
        OtherIsNotHolding(s, op, e.op);
      }
    }
  }

  lemma MayGoUnnamed(s: State, kind: Kind)
    requires Inv(s) && MayGo(s, kind)
    ensures TakesNamed(kind) || s.versions == {}
  {
  }

  lemma CleanUpKeepsInv(s: State, e: Event, s': State)
    requires Inv(s) && (e.Recheck? || e.RemoveFile? || e.Settle?) && CleanUpStep(s, e, s')
    ensures Inv(s')
  {
    hide MayGo, G.Safe;
    assert OpOk(s, e.op);
    if e.Recheck? && MayGo(s, s.ops[e.op].kind) { MayGoUnnamed(s, s.ops[e.op].kind); }
    forall op | op in s'.ops ensures OpOk(s', op) {
      assert OpOk(s, op);
      if op != e.op { OtherIsNotHolding(s, e.op, op); }
    }
  }

  lemma WorldKeepsInv(s: State, e: Event, s': State)
    requires Inv(s) && (e.DeleteVersion? || e.DropRow? || e.Outside? || e.Crash?) && WorldStep(s, e, s')
    ensures Inv(s')
  {
    forall op | op in s'.ops ensures OpOk(s', op) { assert OpOk(s, op); }
  }

  lemma StepKeepsInv(s: State, e: Event, s': State)
    requires Inv(s) && Transition(s, e, s')
    ensures Inv(s')
  {
    if e.Gate? || e.Permit? || e.Guard? { GateKeepsInv(s, e, s'); }
    else if e.Resolve? || e.CommitFile? || e.Transact? || e.Forsake? { WriteKeepsInv(s, e, s'); }
    else if e.Recheck? || e.RemoveFile? || e.Settle? { CleanUpKeepsInv(s, e, s'); }
    else { WorldKeepsInv(s, e, s'); }
  }

  /** The cached file goes only by a clean-up, and a release or a discard takes
      it only while no version names the content. */
  lemma FileGoesOnlyUnnamed(s: State, e: Event, s': State)
    requires Inv(s) && Transition(s, e, s') && s.file && !s'.file
    ensures e.RemoveFile? && (TakesNamed(s.ops[e.op].kind) || s.versions == {})
  {
    if e.RemoveFile? { assert OpOk(s, e.op); }
  }

  lemma GateKeepsVersions(s: State, e: Event, s': State)
    requires (e.Gate? || e.Permit? || e.Guard?) && GateStep(s, e, s')
    ensures s'.versions == s.versions
  {
  }

  lemma CleanUpKeepsVersions(s: State, e: Event, s': State)
    requires (e.Recheck? || e.RemoveFile? || e.Settle?) && CleanUpStep(s, e, s')
    ensures s'.versions == s.versions
  {
  }

  /** A version is committed only once the file it names is in place and its row
      exists, so a deletion sees the old state or file and version together. */
  lemma VersionComesWithFile(s: State, e: Event, s': State)
    requires Inv(s) && Transition(s, e, s') && !(s'.versions <= s.versions)
    ensures e.Transact? && s.file && s.row && s'.file && s'.row
  {
    hide MayGo, G.Next, G.Safe, GateStep, CleanUpStep;
    if e.Transact? { assert OpOk(s, e.op); }
    if e.Gate? || e.Permit? || e.Guard? { GateKeepsVersions(s, e, s'); }
    if e.Recheck? || e.RemoveFile? || e.Settle? { CleanUpKeepsVersions(s, e, s'); }
  }

  // ----------------------------------------- requests that meet with no fault

  /** A write that nothing stops ends with the row, the file and the version, and
      needs no more of the gate than that readers hold it. */
  lemma WriteSucceeds(s: State, op: int, version: int)
    returns (s1: State, s2: State, s3: State, s4: State, s5: State)
    requires op !in s.ops && op !in s.users && |s.users| + 1 < 0x7fff_ffff_ffff_ffff
    requires forall p :: p in s.users && s.users[p].Holding? ==> s.users[p].weight == 1
    ensures Transition(s, Resolve(op, version), s1) && Transition(s1, Gate(G.Enter(op)), s2)
    ensures Transition(s2, Permit(op), s3) && Transition(s3, CommitFile(op, true, false), s4)
    ensures Transition(s4, Transact(op, true, true), s5)
    ensures s5 == s.(users := s.users[op := G.Holding(1)], ops := s.ops[op := Op(Write(version), Finished)],
                     row := true, named := true, file := true, taken := false, damaged := false,
                     versions := s.versions + {version})
  {
    s1, s2, s3 := WriteIsPermitted(s, op, version);
    s4 := s3.(file := true, taken := false, damaged := false, ops := s.ops[op := Op(Write(version), FileCommitted)]);
    s5 := s4.(versions := s.versions + {version}, named := true, ops := s.ops[op := Op(Write(version), Finished)]);
    hide GateStep;
    assert To(s3, op, FileCommitted) == s4.ops && To(s4, op, Finished) == s5.ops;
  }

  lemma WriteIsPermitted(s: State, op: int, version: int) returns (s1: State, s2: State, s3: State)
    requires op !in s.ops && op !in s.users && |s.users| + 1 < 0x7fff_ffff_ffff_ffff
    requires forall p :: p in s.users && s.users[p].Holding? ==> s.users[p].weight == 1
    ensures Transition(s, Resolve(op, version), s1) && Transition(s1, Gate(G.Enter(op)), s2)
    ensures Transition(s2, Permit(op), s3)
    ensures s3 == s.(users := s.users[op := G.Holding(1)], row := true,
                     ops := s.ops[op := Op(Write(version), Permitted)])
  {
    s1 := s.(row := true, ops := s.ops[op := Op(Write(version), Resolved)]);
    s2 := s1.(users := s.users[op := G.Waiting]);
    s3 := s1.(users := s.users[op := G.Holding(1)], ops := s.ops[op := Op(Write(version), Permitted)]);
    assert To(s2, op, Permitted) == s3.ops && s2.users[op := G.Holding(1)] == s3.users;
    G.ReadersShare(s2.users);
  }

  /** A clean-up that comes to an idle gate and may go on takes the file, and a
      discard the row as well. */
  lemma CleanUpSucceeds(s: State, op: int, kind: Kind)
    returns (s1: State, s2: State, s3: State, s4: State, s5: State)
    requires s.users == map[] && s.ops == map[] && !kind.Write?
    requires match kind
             case Release => s.versions == {} || !s.row
             case Discard => s.row && !s.named && s.versions == {}
             case Evict => s.durable
             case Quarantine => s.damaged
             case Write(_) => false
    ensures Transition(s, Gate(G.Enter(op)), s1) && Transition(s1, Guard(op, kind), s2)
    ensures Transition(s2, Recheck(op), s3) && Transition(s3, RemoveFile(op, true), s4)
    ensures Transition(s4, Settle(op, true), s5)
    ensures s5 == s.(users := map[op := G.Holding(G.CAPACITY)], ops := map[op := Op(kind, Finished)],
                     file := false, taken := kind.Evict? || kind.Quarantine?, row := s.row && !kind.Discard?)
  {
    s1, s2 := CleanUpIsGuarded(s, op, kind);
    hide GateStep;
    s3 := s2.(ops := map[op := Op(kind, Cleared)]);
    assert MayGo(s2, kind);
    assert To(s2, op, Cleared) == s3.ops;
    assert Transition(s2, Recheck(op), s3);
    hide Transition;
    s4, s5 := ClearedFileGoes(s3, op);
  }

  lemma ClearedFileGoes(s: State, op: int) returns (s1: State, s2: State)
    requires At(s, op, Cleared)
    ensures Transition(s, RemoveFile(op, true), s1) && Transition(s1, Settle(op, true), s2)
    ensures var kind := s.ops[op].kind;
            s2 == s.(file := false, taken := kind.Evict? || kind.Quarantine?, row := s.row && !kind.Discard?,
                     ops := s.ops[op := Op(kind, Finished)])
  {
    var kind := s.ops[op].kind;
    s1 := s.(file := false, taken := kind.Evict? || kind.Quarantine?, ops := s.ops[op := Op(kind, Emptied)]);
    s2 := s1.(row := s.row && !kind.Discard?, ops := s.ops[op := Op(kind, Finished)]);
    assert To(s, op, Emptied) == s1.ops && To(s1, op, Finished) == s2.ops;
  }

  lemma CleanUpIsGuarded(s: State, op: int, kind: Kind) returns (s1: State, s2: State)
    requires s.users == map[] && s.ops == map[] && !kind.Write?
    ensures Transition(s, Gate(G.Enter(op)), s1) && Transition(s1, Guard(op, kind), s2)
    ensures s2 == s.(users := map[op := G.Holding(G.CAPACITY)], ops := map[op := Op(kind, Guarded)])
  {
    s1 := s.(users := map[op := G.Waiting]);
    s2 := s.(users := map[op := G.Holding(G.CAPACITY)], ops := map[op := Op(kind, Guarded)]);
    G.LoadAfter(map[], op, G.Waiting);
  }

  ghost predicate Init(s: State) { s.users == map[] && s.ops == map[] && s.versions == {} }

  ghost predicate Run(states: seq<State>, events: seq<Event>) {
    && |states| == |events| + 1 && Init(states[0])
    && forall i :: 0 <= i < |events| ==> Transition(states[i], events[i], states[i + 1])
  }

  lemma {:induction false} RunKeepsInv(states: seq<State>, events: seq<Event>, n: nat)
    requires Run(states, events) && n <= |events|
    ensures Inv(states[n])
  {
    if n > 0 {
      RunKeepsInv(states, events, n - 1);
      StepKeepsInv(states[n - 1], events[n - 1], states[n]);
    }
  }

  /** In every interleaving of writers, deletions, clean-ups and crashes, a content
      that a committed version names has its row, and its file unless an eviction
      or a quarantine took it. */
  lemma NamedContentIsCached(states: seq<State>, events: seq<Event>, n: nat)
    requires Run(states, events) && n <= |events| && states[n].versions != {}
    ensures states[n].row && (states[n].file || states[n].taken)
  {
    RunKeepsInv(states, events, n);
  }

  lemma ClearedStep(s: State, e: Event, s': State, op: int)
    requires Transition(s, e, s') && At(s', op, Cleared)
    ensures op in s.ops && s.ops[op].kind == s'.ops[op].kind
    ensures At(s, op, Cleared) || (e == Recheck(op) && MayGo(s, s.ops[op].kind))
  {
    hide MayGo, G.Next, G.Safe;
    if e.Recheck? || e.RemoveFile? || e.Settle? {
      assert CleanUpStep(s, e, s');
    } else if e.Gate? || e.Permit? || e.Guard? {
      assert GateStep(s, e, s');
    }
  }

  /** Whoever is cleared to remove the file was found to be so earlier, and has
      kept the exclusive permit since. */
  lemma {:induction false} ClearedByRecheck(states: seq<State>, events: seq<Event>, n: nat, op: int) returns (m: nat)
    requires Run(states, events) && n <= |events| && At(states[n], op, Cleared)
    ensures m < n && events[m] == Recheck(op)
    ensures op in states[m].ops && states[m].ops[op].kind == states[n].ops[op].kind
    ensures MayGo(states[m], states[m].ops[op].kind)
    ensures forall k :: m <= k <= n ==> op in states[k].users && states[k].users[op] == G.Holding(G.CAPACITY)
  {
    hide Transition, MayGo;
    RunKeepsInv(states, events, n);
    assert OpOk(states[n], op);
    assert n > 0;
    ClearedStep(states[n - 1], events[n - 1], states[n], op);
    if At(states[n - 1], op, Cleared) {
      m := ClearedByRecheck(states, events, n - 1, op);
    } else {
      m := n - 1;
      RecheckHoldsPermit(states, events, m, op);
    }
  }

  lemma RecheckHoldsPermit(states: seq<State>, events: seq<Event>, m: nat, op: int)
    requires Run(states, events) && m < |events| && events[m] == Recheck(op)
    ensures op in states[m].users && states[m].users[op] == G.Holding(G.CAPACITY)
  {
    RunKeepsInv(states, events, m);
    assert Transition(states[m], events[m], states[m + 1]);
    assert OpOk(states[m], op);
  }

  /** So in every run an eviction removes a file only after it found the content
      durable, a quarantine only after it found the file damaged, and no writer
      held a permit in between. */
  lemma FileIsTakenForCause(states: seq<State>, events: seq<Event>, n: nat) returns (m: nat)
    requires Run(states, events) && n < |events| && events[n].RemoveFile?
    requires events[n].op in states[n].ops && TakesNamed(states[n].ops[events[n].op].kind)
    ensures m < n && events[m] == Recheck(events[n].op)
    ensures if states[n].ops[events[n].op].kind.Evict? then states[m].durable else states[m].damaged
    ensures forall k, p :: m <= k <= n && p in states[k].users && states[k].users[p].Holding? ==> p == events[n].op
  {
    assert Transition(states[n], events[n], states[n + 1]);
    var op := events[n].op;
    m := ClearedByRecheck(states, events, n, op);
    forall k, p | m <= k <= n && p in states[k].users && states[k].users[p].Holding? ensures p == op {
      RunKeepsInv(states, events, k);
      if p != op { G.ExclusiveIsAlone(states[k].users, op, p); }
    }
  }
}
