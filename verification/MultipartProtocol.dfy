/**
 * One multipart upload under concurrent requests, database faults and crashes.
 * Publishing a part, completing and aborting each hold the upload's gate
 * exclusively; status changes are compare-and-set on the database, which may
 * apply a change and still report a failure. A part commit that fails may leave
 * its bytes behind, and a restart may fail to release an interrupted completion.
 */
module MultipartProtocol {
  import opened Options
  import opened CacheLedger
  import opened CacheFilesystem
  import opened MultipartAssembly
  import G = GateProtocol

  datatype Status = Initiated | Completing | Completed | Aborted

  datatype Request =
    | Publish(number: int, bytes: Bytes)
    | Complete(numbers: seq<int>)
    | Abort

  /** How far a request that holds the gate has come. */
  datatype Phase =
    | Held
    | Active
    | FileCommitted
    | Claimed
    | Ready(whole: Bytes)
    | RollingBack
    | Finished

  datatype Op = Op(request: Request, phase: Phase)

  /** `files` are the part files on disk, `parts` the bytes the database has a
      record of. `claim` is the completion whose compare-and-set made the
      status Completing. */
  datatype State = State(
    users: G.Users,
    ops: map<int, Op>,
    status: Status,
    claim: Option<int>,
    files: map<int, Bytes>,
    parts: map<int, Bytes>,
    versions: seq<Bytes>)

  datatype Event =
    | Gate(step: G.Step)
    | Start(op: int, request: Request)
    | Check(op: int)
    | CommitFile(op: int, ok: bool, left: bool)
    | RecordPart(op: int, applied: bool)
    | Claim(op: int, applied: bool, ok: bool)
    | Assembly(op: int, ok: bool)
    | Transact(op: int, applied: bool, ok: bool)
    | RollBack(op: int, applied: bool)
    | SetAborted(op: int, applied: bool)
    | CleanUp(op: int)
    | Leave(op: int)
    | Restart(released: bool)

  predicate At(s: State, op: int, phase: Phase) { op in s.ops && s.ops[op].phase == phase }

  function To(s: State, op: int, phase: Phase): map<int, Op>
    requires op in s.ops
  { s.ops[op := s.ops[op].(phase := phase)] }

  /** Every requested part is recorded and its file is the recorded one: what
      assembly checks through sizes and entity tags. */
  predicate Verified(s: State, numbers: seq<int>) {
    && Ascending(numbers)
    && forall i :: 0 <= i < |numbers|
           ==> numbers[i] in s.parts && numbers[i] in s.files && s.files[numbers[i]] == s.parts[numbers[i]]
  }

  /** The checks of assembly establish this when an entity tag determines its
      bytes and each record was made from the bytes it stands for. */
  lemma AcceptableIsVerified(s: State, db: Record, etagOf: Bytes -> string, input: seq<RequestedPart>, minSize: nat,
                             numbers: seq<int>)
    requires forall a, b :: etagOf(a) == etagOf(b) ==> a == b
    requires forall n :: n in db ==> n in s.parts && db[n] == Part(|s.parts[n]|, etagOf(s.parts[n]))
    requires Acceptable(input, db, s.files, etagOf, minSize, numbers)
    ensures Verified(s, numbers)
  {
    forall i | 0 <= i < |numbers| ensures s.files[numbers[i]] == s.parts[numbers[i]] {
      assert etagOf(s.files[numbers[i]]) == etagOf(s.parts[numbers[i]]);
    }
  }

  predicate PublishStep(s: State, e: Event, s': State)
    requires e.CommitFile? || e.RecordPart?
  {
    && e.op in s.ops && s.ops[e.op].request.Publish?
    && var r := s.ops[e.op].request;
    match e
    case CommitFile(op, ok, left) =>
      && At(s, op, Active)
      && s' == s.(files := if ok || left then s.files[r.number := r.bytes] else s.files,
                  ops := To(s, op, if ok then FileCommitted else Finished))
    case RecordPart(op, applied) =>
      && At(s, op, FileCommitted)
      && s' == s.(parts := if applied then s.parts[r.number := r.bytes] else s.parts, ops := To(s, op, Finished))
  }

  predicate CompleteStep(s: State, e: Event, s': State)
    requires e.Claim? || e.Assembly? || e.Transact? || e.RollBack?
  {
    && e.op in s.ops && s.ops[e.op].request.Complete?
    && var numbers := s.ops[e.op].request.numbers;
    match e
    case Claim(op, applied, ok) =>
      && At(s, op, Active) && (applied ==> s.status.Initiated?) && (ok ==> applied)
      && s' == s.(status := if applied then Completing else s.status,
                  claim := if applied then Some(op) else s.claim,
                  ops := To(s, op, if ok then Claimed else Finished))
    case Assembly(op, ok) =>
      && At(s, op, Claimed) && (ok ==> Verified(s, numbers))
      && s' == s.(ops := To(s, op, if ok then Ready(Concat(Files(s.files, numbers))) else RollingBack))
    case Transact(op, applied, ok) =>
      && op in s.ops && s.ops[op].phase.Ready? && (applied ==> s.status.Completing?) && (ok ==> applied)
      && s' == s.(status := if applied then Completed else s.status,
                  claim := if applied then None else s.claim,
                  versions := if applied then s.versions + [s.ops[op].phase.whole] else s.versions,
                  parts := if applied then map n | n in s.parts && n in numbers :: s.parts[n] else s.parts,
                  ops := To(s, op, if ok then Finished else RollingBack))
    case RollBack(op, applied) =>
      && At(s, op, RollingBack) && (applied ==> s.status.Completing?)
      && s' == s.(status := if applied then Initiated else s.status,
                  claim := if applied then None else s.claim,
                  ops := To(s, op, Finished))
  }

  ghost predicate Transition(s: State, e: Event, s': State) {
    match e
    case Gate(step) =>
      && !step.Grant? && G.Next(s.users, step, s'.users)
      && (step.Drop? ==> step.p !in s.ops)
      && s' == s.(users := s'.users)
    case Start(op, request) =>
      && op !in s.ops && G.Next(s.users, G.Grant(op, G.CAPACITY), s'.users)
      && s' == s.(users := s'.users, ops := s.ops[op := Op(request, Held)])
    case Check(op) =>
      && At(s, op, Held)
      && s' == s.(ops := To(s, op, if s.status.Initiated? then Active else Finished))
    case CommitFile(_, _, _) => PublishStep(s, e, s')
    case RecordPart(_, _) => PublishStep(s, e, s')
    case Claim(_, _, _) => CompleteStep(s, e, s')
    case Assembly(_, _) => CompleteStep(s, e, s')
    case Transact(_, _, _) => CompleteStep(s, e, s')
    case RollBack(_, _) => CompleteStep(s, e, s')
    case SetAborted(op, applied) =>
      && At(s, op, Active) && s.ops[op].request.Abort? && (applied ==> s.status.Initiated?)
      && s' == s.(status := if applied then Aborted else s.status, ops := To(s, op, Finished))
    case CleanUp(op) =>
      && At(s, op, Finished) && (s.status.Completed? || s.status.Aborted?)
      && s' == s.(files := map[], parts := if s.status.Aborted? then map[] else s.parts)
    case Leave(op) => At(s, op, Finished) && s' == s.(ops := s.ops - {op})
    case Restart(released) =>
      s' == s.(users := map[], ops := map[],
               status := if released && s.status.Completing? then Initiated else s.status,
               claim := None)
  }

  // --------------------------------------------------------------- invariant

  /** What is true while a request is at a phase. */
  ghost predicate OpOk(s: State, op: int)
    requires op in s.ops
  {
    && op in s.users && s.users[op] == G.Holding(G.CAPACITY)
    && match s.ops[op].phase
       case Held => true
       case Active => s.status.Initiated?
       case FileCommitted => s.status.Initiated?
       case Claimed => s.status.Completing? && s.claim == Some(op)
       case Ready(whole) =>
         && s.status.Completing? && s.claim == Some(op) && s.ops[op].request.Complete?
         && whole == Concat(Files(s.parts, s.ops[op].request.numbers)) && Ascending(s.ops[op].request.numbers)
         && forall i :: 0 <= i < |s.ops[op].request.numbers| ==> s.ops[op].request.numbers[i] in s.parts
       case RollingBack => s.status.Completed? || (s.status.Completing? && s.claim == Some(op))
       case Finished => true
  }

  ghost predicate Inv(s: State) {
    && G.Safe(s.users)
    && (forall op :: op in s.ops ==> OpOk(s, op))
    && (s.status.Completed? <==> |s.versions| == 1)
    && |s.versions| <= 1
    && (s.claim.Some? ==> s.status.Completing?)
  }

  /** The gate admits one request at a time. */
  lemma OneAtATime(s: State, a: int, b: int)
    requires Inv(s) && a in s.ops && b in s.ops
    ensures a == b
  {
    assert OpOk(s, a) && OpOk(s, b);
    if a != b { G.ExclusiveIsAlone(s.users, a, b); }
  }

  lemma GateKeepsInv(s: State, e: Event, s': State)
    requires Inv(s) && (e.Gate? || e.Start?) && Transition(s, e, s')
    ensures Inv(s')
  {
    G.StepKeepsSafe(s.users, if e.Gate? then e.step else G.Grant(e.op, G.CAPACITY), s'.users);
    forall op | op in s'.ops ensures OpOk(s', op) {
      if op in s.ops {
        assert OpOk(s, op);
        if e.Start? { G.ExclusiveIsAlone(s'.users, e.op, op); }
      }
    }
  }

  lemma RequestKeepsInv(s: State, e: Event, s': State)
    requires Inv(s) && !e.Gate? && !e.Start? && !e.Restart? && Transition(s, e, s')
    ensures Inv(s')
  {
    assert OpOk(s, e.op);
    if e.Assembly? && e.ok {
      var numbers := s.ops[e.op].request.numbers;
      assert Files(s.files, numbers) == Files(s.parts, numbers);
    }
    forall op | op in s'.ops ensures OpOk(s', op) { OneAtATime(s, op, e.op); }
  }

  lemma StepKeepsInv(s: State, e: Event, s': State)
    requires Inv(s) && Transition(s, e, s')
    ensures Inv(s')
  {
    if e.Gate? || e.Start? { GateKeepsInv(s, e, s'); }
    else if !e.Restart? { RequestKeepsInv(s, e, s'); }
  }

  // -------------------------------------------------------------- every step

  /** A completed or aborted upload stays so, and gets no further version. */
  lemma TerminalIsFinal(s: State, e: Event, s': State)
    requires Inv(s) && Transition(s, e, s') && (s.status.Completed? || s.status.Aborted?)
    ensures s'.status == s.status && s'.versions == s.versions
  {
    if e.CommitFile? || e.RecordPart? || e.Claim? || e.Assembly? || e.Transact? || e.RollBack? || e.SetAborted? {
      assert OpOk(s, e.op);
    }
  }

  /** Parts are published only while the upload is neither completing nor done. */
  lemma PublishesOnlyWhileInitiated(s: State, e: Event, s': State, n: int)
    requires Inv(s) && Transition(s, e, s') && !s.status.Initiated?
    ensures n in s'.files ==> n in s.files && s'.files[n] == s.files[n]
    ensures n in s'.parts ==> n in s.parts && s'.parts[n] == s.parts[n]
  {
  }

  /** A failed completion takes back its own claim and no other. */
  lemma RollBackIsOwn(s: State, e: Event, s': State)
    requires Inv(s) && Transition(s, e, s')
    ensures s.claim.Some? && s'.claim != s.claim
       ==> e.Restart? || ((e.RollBack? || e.Transact?) && s.claim == Some(e.op))
    ensures e.RollBack? && e.applied ==> s.claim == Some(e.op) && s'.status.Initiated?
  {
    if e.RollBack? || e.Transact? || e.Claim? { assert OpOk(s, e.op); }
  }

  /** The version a completion creates is the concatenation, in strictly
      ascending order, of parts the database has a record of, and those records
      are the ones it keeps. */
  lemma CompletionCreatesRecordedParts(s: State, e: Event, s': State)
    requires Inv(s) && Transition(s, e, s') && e.Transact? && e.applied
    ensures s.versions == [] && s'.status.Completed?
    ensures var numbers := s.ops[e.op].request.numbers;
            && Ascending(numbers) && (forall i :: 0 <= i < |numbers| ==> numbers[i] in s.parts)
            && s'.versions == [Concat(Files(s.parts, numbers))]
            && s'.parts.Keys == set n | n in numbers
  {
    assert OpOk(s, e.op);
  }

  // ----------------------------------------- requests that meet with no fault

  /** A request that comes to an idle gate gets it. */
  lemma IdleGateAdmits(s: State, op: int, request: Request) returns (s1: State, s2: State)
    requires s.users == map[] && s.ops == map[]
    ensures Transition(s, Gate(G.Enter(op)), s1) && Transition(s1, Start(op, request), s2)
    ensures s2 == s.(users := map[op := G.Holding(G.CAPACITY)], ops := map[op := Op(request, Held)])
  {
    s1 := s.(users := map[op := G.Waiting]);
    s2 := s.(users := map[op := G.Holding(G.CAPACITY)], ops := map[op := Op(request, Held)]);
    G.LoadAfter(map[], op, G.Waiting);
  }

  /** A part that is published has its bytes on disk and in the database. */
  lemma PublishSucceeds(s: State, op: int, number: int, bytes: Bytes) returns (s1: State, s2: State, s3: State)
    requires op in s.ops && s.ops[op] == Op(Publish(number, bytes), Held) && s.status.Initiated?
    ensures Transition(s, Check(op), s1) && Transition(s1, CommitFile(op, true, false), s2)
    ensures Transition(s2, RecordPart(op, true), s3)
    ensures s3 == s.(files := s.files[number := bytes], parts := s.parts[number := bytes],
                     ops := s.ops[op := Op(Publish(number, bytes), Finished)])
  {
    s1 := s.(ops := To(s, op, Active));
    s2 := s.(files := s.files[number := bytes], ops := To(s, op, FileCommitted));
    s3 := s2.(parts := s.parts[number := bytes], ops := To(s, op, Finished));
    assert To(s1, op, FileCommitted) == s2.ops && To(s2, op, Finished) == s3.ops;
  }

  lemma ClaimSucceeds(s: State, op: int, numbers: seq<int>) returns (s1: State, s2: State)
    requires op in s.ops && s.ops[op] == Op(Complete(numbers), Held) && s.status.Initiated?
    ensures Transition(s, Check(op), s1) && Transition(s1, Claim(op, true, true), s2)
    ensures s2 == s.(status := Completing, claim := Some(op), ops := s.ops[op := Op(Complete(numbers), Claimed)])
  {
    s1 := s.(ops := To(s, op, Active));
    s2 := s.(status := Completing, claim := Some(op), ops := To(s, op, Claimed));
    assert To(s1, op, Claimed) == s2.ops;
  }

  /** A completion of parts whose files are the recorded ones makes one version of
      them, in the order given, and keeps the records of these parts alone. */
  lemma CompleteSucceeds(s: State, op: int, numbers: seq<int>) returns (s1: State, s2: State, s3: State, s4: State)
    requires op in s.ops && s.ops[op] == Op(Complete(numbers), Held) && s.status.Initiated?
    requires Verified(s, numbers)
    ensures Transition(s, Check(op), s1) && Transition(s1, Claim(op, true, true), s2)
    ensures Transition(s2, Assembly(op, true), s3) && Transition(s3, Transact(op, true, true), s4)
    ensures s4.status.Completed? && s4.versions == s.versions + [Concat(Files(s.files, numbers))]
    ensures s4.files == s.files && forall n :: n in s4.parts <==> n in numbers
    ensures forall n :: n in s4.parts ==> s4.parts[n] == s.parts[n]
  {
    s1, s2 := ClaimSucceeds(s, op, numbers);
    var whole := Concat(Files(s.files, numbers));
    s3 := s2.(ops := To(s2, op, Ready(whole)));
    s4 := s3.(status := Completed, claim := None, versions := s.versions + [whole],
              parts := map n | n in s.parts && n in numbers :: s.parts[n], ops := To(s3, op, Finished));
    assert Verified(s2, numbers);
    hide Verified;
    assert CompleteStep(s2, Assembly(op, true), s3);
    assert CompleteStep(s3, Transact(op, true, true), s4);
  }

  /** A completion that fails its checks leaves the upload as it was. */
  lemma FailedCompletionReturns(s: State, op: int, numbers: seq<int>)
    returns (s1: State, s2: State, s3: State, s4: State)
    requires op in s.ops && s.ops[op] == Op(Complete(numbers), Held) && s.status.Initiated? && s.claim == None
    ensures Transition(s, Check(op), s1) && Transition(s1, Claim(op, true, true), s2)
    ensures Transition(s2, Assembly(op, false), s3) && Transition(s3, RollBack(op, true), s4)
    ensures s4 == s.(ops := s.ops[op := Op(Complete(numbers), Finished)])
  {
    s1, s2 := ClaimSucceeds(s, op, numbers);
    s3 := s2.(ops := To(s2, op, RollingBack));
    s4 := s.(ops := To(s, op, Finished));
    assert To(s3, op, Finished) == s4.ops;
  }

  /** An abort leaves no part behind and lets the next request in. */
  lemma AbortSucceeds(s: State, op: int) returns (s1: State, s2: State, s3: State, s4: State)
    requires op in s.ops && s.ops[op] == Op(Abort, Held) && s.status.Initiated?
    ensures Transition(s, Check(op), s1) && Transition(s1, SetAborted(op, true), s2)
    ensures Transition(s2, CleanUp(op), s3) && Transition(s3, Leave(op), s4)
    ensures s4 == s.(status := Aborted, files := map[], parts := map[], ops := s.ops - {op})
  {
    s1 := s.(ops := To(s, op, Active));
    s2 := s.(status := Aborted, ops := To(s, op, Finished));
    s3 := s2.(files := map[], parts := map[]);
    s4 := s3.(ops := s.ops - {op});
    assert To(s1, op, Finished) == s2.ops && s3.ops - {op} == s4.ops;
  }

  // --------------------------------------------------------------- every run

  ghost predicate Init(s: State) {
    && s.users == map[] && s.ops == map[] && s.status.Initiated? && s.claim.None?
    && s.files == map[] && s.parts == map[] && s.versions == []
  }

  ghost predicate Run(states: seq<State>, events: seq<Event>) {
    && |states| == |events| + 1 && Init(states[0])
    && forall i :: 0 <= i < |events| ==> Transition(states[i], events[i], states[i + 1])
  }

  lemma {:induction false} RunKeepsInv(states: seq<State>, events: seq<Event>, n: nat)
    requires Run(states, events) && n <= |events|
    ensures Inv(states[n])
  {
    if n > 0 {
      hide Transition, Inv;
      RunKeepsInv(states, events, n - 1);
      StepKeepsInv(states[n - 1], events[n - 1], states[n]);
    }
  }

  /** In every run an upload never both completes and aborts, has at most one
      version, and once it is done every later state agrees. */
  lemma {:induction false} OneOutcomePerUpload(states: seq<State>, events: seq<Event>, m: nat, n: nat)
    requires Run(states, events) && m <= n <= |events|
    ensures |states[n].versions| <= 1
    ensures states[m].status.Completed? ==> states[n].status.Completed? && states[n].versions == states[m].versions
    ensures states[m].status.Aborted? ==> states[n].status.Aborted? && states[n].versions == []
    decreases n - m
  {
    RunKeepsInv(states, events, m);
    RunKeepsInv(states, events, n);
    if m < n {
      if states[m].status.Completed? || states[m].status.Aborted? {
        TerminalIsFinal(states[m], events[m], states[m + 1]);
      }
      OneOutcomePerUpload(states, events, m + 1, n);
    }
  }
}
