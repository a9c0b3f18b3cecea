/**
 * The write cache as a transition system: what one atomic step of a staged
 * write, a commit, a rollback, a removal or a quarantine does to the directory
 * entries and to the two capacity counters. File-system faults choose between
 * the outcomes of a step; `Filesystem` proves that the code takes these steps.
 */
module CacheLedger {
  import opened Sums

  newtype byte = x: int | 0 <= x < 256
  type Bytes = seq<byte>

  /** A directory entry is a published file, a temp file of one write, or the
      hard-linked backup a part commit keeps beside that temp file. */
  datatype Leaf = Name(name: string) | Temp(id: nat) | Previous(id: nat)
  datatype Path = Path(dir: string, leaf: Leaf)

  /** Temp files are never charged; left-over backups are. */
  predicate Charged(p: Path) { !p.leaf.Temp? }

  datatype Phase = Writing | Staged | Committed | Closed
  datatype Write = Write(dir: string, part: bool, size: nat, held: nat, bytes: Bytes, phase: Phase)

  datatype State = State(
    limit: int,
    used: int,
    reserved: int,
    refused: int,
    disk: map<Path, Bytes>,
    writes: map<nat, Write>)
  {
    function TempOf(w: nat): Path
      requires w in writes
    { Path(writes[w].dir, Temp(w)) }

    function BackupOf(w: nat): Path
      requires w in writes
    { Path(writes[w].dir, Previous(w)) }

    function SizeAt(p: Path): nat { if p in disk then |disk[p]| else 0 }

    function Occupied(): int { used + reserved }

    function Room(): int { limit - used - reserved }
  }

  function ChargeOf(p: Path, b: Bytes): int { if Charged(p) then |b| else 0 }

  /** The bytes of every charged directory entry. */
  ghost function Charge(disk: map<Path, Bytes>): int { Total(disk, ChargeOf) }

  function HeldBy(w: nat, x: Write): int { x.held }

  /** The bytes held by all writes together. */
  ghost function Holds(writes: map<nat, Write>): int { Total(writes, HeldBy) }

  /** What one commit attempt did.
      - Untouched: no entry and no counter changed.
      - Dropped: the renamed new entry was removed again after a failed directory sync.
      - Restored: the previous part was renamed back over the new one.
      - Published: the staged bytes replaced whatever the destination held.
      - Doubled: as Published, and the previous part stays behind as a charged backup.
      - Stranded: the rename failed and so did the removal of the backup link. */
  datatype Outcome = Untouched | Dropped | Restored | Published | Doubled | Stranded

  datatype Event =
    | Refuse(size: nat)
    | Begin(w: nat, dir: string, part: bool, size: nat, created: bool)
    | Append(w: nat, chunk: Bytes)
    | Stage(w: nat)
    | Abandon(w: nat, removed: bool)
    | Commit(w: nat, dest: Path, outcome: Outcome)
    | Rollback(w: nat, removed: bool)
    | Remove(path: Path)
    | Move(src: Path, dst: Path)
    | ConsumeRefused

  /** Closing a write gives back what it still holds. */
  function Settle(s: State, w: nat, delta: int, phase: Phase): State
    requires w in s.writes
  {
    s.(used := s.used + delta,
       reserved := s.reserved - s.writes[w].held,
       writes := s.writes[w := s.writes[w].(held := 0, phase := phase)])
  }

  predicate CommitStep(s: State, w: nat, dest: Path, outcome: Outcome, s': State) {
    && w in s.writes
    && dest.leaf.Name?
    && var tmp := s.TempOf(w);
    var backup := s.BackupOf(w);
    var bytes := s.writes[w].bytes;
    var open := s.writes[w].phase.Staged? && tmp in s.disk;
    var keeps := s.writes[w].part && dest in s.disk && backup !in s.disk;
    match outcome
    case Untouched => s' == s
    case Dropped =>
      open && dest !in s.disk && s' == s.(disk := s.disk - {tmp})
    case Restored =>
      open && keeps && s' == s.(disk := s.disk - {tmp})
    case Published =>
      open && s' == Settle(s.(disk := (s.disk - {tmp})[dest := bytes]), w, |bytes| - s.SizeAt(dest), Committed)
    case Doubled =>
      open && keeps
      && s' == Settle(s.(disk := (s.disk - {tmp})[backup := s.disk[dest]][dest := bytes]), w, |bytes|, Committed)
    case Stranded =>
      s.writes[w].phase.Staged? && keeps
      && s' == s.(disk := s.disk[backup := s.disk[dest]], used := s.used + |s.disk[dest]|)
  }

  predicate Transition(s: State, e: Event, s': State) {
    match e
    case Refuse(size) =>
      s.limit > 0 && size > s.Room() && s' == s.(refused := if size > s.refused then size else s.refused)
    case Begin(w, dir, part, size, created) =>
      var held := if s.limit > 0 then size else 0;
      var tmp := Path(dir, Temp(w));
      && w !in s.writes && tmp !in s.disk
      && (s.limit > 0 ==> size <= s.Room())
      && s' == s.(reserved := s.reserved + held,
                  disk := if created then s.disk[tmp := []] else s.disk,
                  writes := s.writes[w := Write(dir, part, size, held, [], Writing)])
    case Append(w, chunk) =>
      && w in s.writes && s.writes[w].phase.Writing?
      && |s.writes[w].bytes| + |chunk| <= s.writes[w].size
      && var bytes := s.writes[w].bytes + chunk;
      s' == s.(disk := if s.TempOf(w) in s.disk then s.disk[s.TempOf(w) := bytes] else s.disk,
               writes := s.writes[w := s.writes[w].(bytes := bytes)])
    case Stage(w) =>
      && w in s.writes && s.writes[w].phase.Writing?
      && s' == s.(writes := s.writes[w := s.writes[w].(phase := Staged)])
    case Abandon(w, removed) =>
      && w in s.writes && s.writes[w].phase.Writing?
      && s' == Settle(s.(disk := if removed then s.disk - {s.TempOf(w)} else s.disk), w, 0, Closed)
    case Commit(w, dest, outcome) => CommitStep(s, w, dest, outcome, s')
    case Rollback(w, removed) =>
      && w in s.writes && !s.writes[w].phase.Writing?
      && s' == if s.writes[w].phase.Committed? then s
               else Settle(s.(disk := if removed then s.disk - {s.TempOf(w)} else s.disk), w, 0, Closed)
    case Remove(path) =>
      && path in s.disk
      && s' == s.(disk := s.disk - {path}, used := s.used - if Charged(path) then |s.disk[path]| else 0)
    case Move(src, dst) =>
      && src in s.disk && src != dst && src.leaf.Name? && dst.leaf.Name?
      && s' == s.(disk := (s.disk - {src})[dst := s.disk[src]], used := s.used - s.SizeAt(dst))
    case ConsumeRefused => s' == s.(refused := 0)
  }

  // ---------------------------------------------------------------- accounts

  /** The counters are exact, and every open write fits in what it reserved. */
  ghost predicate Accounted(s: State) {
    && s.used == Charge(s.disk)
    && s.reserved == Holds(s.writes)
    && forall w :: w in s.writes ==> WriteOk(s, w)
  }

  ghost predicate WriteOk(s: State, w: nat)
    requires w in s.writes
  {
    var x := s.writes[w];
    && |x.bytes| <= x.size
    && x.held == (if s.limit > 0 && (x.phase.Writing? || x.phase.Staged?) then x.size else 0)
    && (s.TempOf(w) in s.disk && (x.phase.Writing? || x.phase.Staged?) ==> s.disk[s.TempOf(w)] == x.bytes)
  }

  lemma ChargePut(disk: map<Path, Bytes>, p: Path, b: Bytes)
    ensures Charge(disk[p := b])
         == Charge(disk) + if Charged(p) then |b| - (if p in disk then |disk[p]| else 0) else 0
  {
    TotalPut(disk, ChargeOf, p, b);
  }

  lemma ChargeDrop(disk: map<Path, Bytes>, p: Path)
    ensures Charge(disk - {p})
         == Charge(disk) - if Charged(p) && p in disk then |disk[p]| else 0
  {
    if p in disk { TotalWithout(disk, ChargeOf, p); }
    else { assert disk - {p} == disk; }
  }

  lemma HoldsPut(writes: map<nat, Write>, w: nat, x: Write)
    ensures Holds(writes[w := x]) == Holds(writes) + x.held - if w in writes then writes[w].held else 0
  {
    TotalPut(writes, HeldBy, w, x);
  }

  /** Settling a write moves its delta and its hold in one step. */
  lemma SettleKeepsAccounts(s: State, w: nat, delta: int, phase: Phase)
    requires w in s.writes && !phase.Writing? && !phase.Staged?
    requires s.reserved == Holds(s.writes)
    requires forall v :: v in s.writes && v != w ==> WriteOk(s, v)
    requires |s.writes[w].bytes| <= s.writes[w].size
    requires s.used + delta == Charge(s.disk)
    ensures Accounted(Settle(s, w, delta, phase))
  {
    var s' := Settle(s, w, delta, phase);
    HoldsPut(s.writes, w, s'.writes[w]);
    forall v | v in s'.writes ensures WriteOk(s', v) {
      if v != w { assert WriteOk(s, v); }
    }
  }

  lemma PublishKeepsAccounts(s: State, w: nat, dest: Path, outcome: Outcome, s': State)
    requires Accounted(s) && CommitStep(s, w, dest, outcome, s')
    requires outcome.Published? || outcome.Doubled?
    ensures Accounted(s')
  {
    var bytes := s.writes[w].bytes;
    var rest := s.disk - {s.TempOf(w)};
    ChargeDrop(s.disk, s.TempOf(w));
    assert WriteOk(s, w);
    if outcome.Published? {
      ChargePut(rest, dest, bytes);
      OthersOk(s, s.(disk := rest[dest := bytes]), {dest});
      SettleKeepsAccounts(s.(disk := rest[dest := bytes]), w, |bytes| - s.SizeAt(dest), Committed);
    } else {
      var backed := rest[s.BackupOf(w) := s.disk[dest]];
      ChargePut(rest, s.BackupOf(w), s.disk[dest]);
      ChargePut(backed, dest, bytes);
      OthersOk(s, s.(disk := backed[dest := bytes]), {dest, s.BackupOf(w)});
      SettleKeepsAccounts(s.(disk := backed[dest := bytes]), w, |bytes|, Committed);
    }
  }

  lemma CommitKeepsAccounts(s: State, w: nat, dest: Path, outcome: Outcome, s': State)
    requires Accounted(s) && CommitStep(s, w, dest, outcome, s')
    ensures Accounted(s')
  {
    match outcome
    case Untouched =>
    case Published => PublishKeepsAccounts(s, w, dest, outcome, s');
    case Doubled => PublishKeepsAccounts(s, w, dest, outcome, s');
    case Stranded =>
      ChargePut(s.disk, s.BackupOf(w), s.disk[dest]);
      OthersOk(s, s', {s.BackupOf(w)});
    case _ =>
      ChargeDrop(s.disk, s.TempOf(w));
      OthersOk(s, s', {s.TempOf(w)});
  }

  /** Writes stay well formed when only the entries in `changed` move and none
      of them becomes a different temp file. */
  lemma OthersOk(s: State, s': State, changed: set<Path>)
    requires s'.writes == s.writes && s'.limit == s.limit
    requires forall w :: w in s.writes ==> WriteOk(s, w)
    requires forall p :: p in s'.disk && p !in changed ==> p in s.disk && s'.disk[p] == s.disk[p]
    requires forall p :: p in changed && p in s'.disk ==> !p.leaf.Temp?
    ensures forall w :: w in s'.writes ==> WriteOk(s', w)
  {
    forall w | w in s'.writes ensures WriteOk(s', w) { assert WriteOk(s, w); }
  }

  lemma BeginKeepsAccounts(s: State, e: Event, s': State)
    requires Accounted(s) && e.Begin? && Transition(s, e, s')
    ensures Accounted(s')
  {
    HoldsPut(s.writes, e.w, s'.writes[e.w]);
    ChargePut(s.disk, Path(e.dir, Temp(e.w)), []);
    forall v | v in s'.writes ensures WriteOk(s', v) {
      if v != e.w { assert WriteOk(s, v); }
    }
  }

  lemma AppendKeepsAccounts(s: State, e: Event, s': State)
    requires Accounted(s) && e.Append? && Transition(s, e, s')
    ensures Accounted(s')
  {
    HoldsPut(s.writes, e.w, s'.writes[e.w]);
    ChargePut(s.disk, s.TempOf(e.w), s'.writes[e.w].bytes);
    forall v | v in s'.writes ensures WriteOk(s', v) { assert WriteOk(s, v); }
  }

  lemma StageKeepsAccounts(s: State, e: Event, s': State)
    requires Accounted(s) && e.Stage? && Transition(s, e, s')
    ensures Accounted(s')
  {
    HoldsPut(s.writes, e.w, s'.writes[e.w]);
    forall v | v in s'.writes ensures WriteOk(s', v) { assert WriteOk(s, v); }
  }

  lemma RemovalKeepsAccounts(s: State, e: Event, s': State)
    requires Accounted(s) && Transition(s, e, s')
    requires e.Remove? || e.Move?
    ensures Accounted(s')
  {
    if e.Remove? {
      ChargeDrop(s.disk, e.path);
      OthersOk(s, s', {});
    } else {
      ChargeDrop(s.disk, e.src);
      ChargePut(s.disk - {e.src}, e.dst, s.disk[e.src]);
      OthersOk(s, s', {e.dst});
    }
  }

  /** Every step, whatever faults it met, leaves both counters exact. */
  lemma StepKeepsAccounts(s: State, e: Event, s': State)
    requires Accounted(s) && Transition(s, e, s')
    ensures Accounted(s')
  {
    match e
    case Refuse(_) => OthersOk(s, s', {});
    case ConsumeRefused => OthersOk(s, s', {});
    case Begin(_, _, _, _, _) => BeginKeepsAccounts(s, e, s');
    case Append(_, _) => AppendKeepsAccounts(s, e, s');
    case Stage(_) => StageKeepsAccounts(s, e, s');
    case Abandon(w, removed) => CloseKeepsAccounts(s, w, removed);
    case Commit(w, dest, outcome) => CommitKeepsAccounts(s, w, dest, outcome, s');
    case Rollback(w, removed) =>
      if !s.writes[w].phase.Committed? { CloseKeepsAccounts(s, w, removed); }
    case Remove(_) => RemovalKeepsAccounts(s, e, s');
    case Move(_, _) => RemovalKeepsAccounts(s, e, s');
  }

  lemma StepKeepsLimit(s: State, e: Event, s': State)
    requires Transition(s, e, s')
    ensures s'.limit == s.limit
  {
  }

  lemma CloseKeepsAccounts(s: State, w: nat, removed: bool)
    requires Accounted(s) && w in s.writes
    ensures Accounted(Settle(s.(disk := if removed then s.disk - {s.TempOf(w)} else s.disk), w, 0, Closed))
  {
    var t := s.(disk := if removed then s.disk - {s.TempOf(w)} else s.disk);
    ChargeDrop(s.disk, s.TempOf(w));
    OthersOk(s, t, {s.TempOf(w)} - t.disk.Keys);
    assert WriteOk(s, w);
    SettleKeepsAccounts(t, w, 0, Closed);
  }

  // ---------------------------------------------------------------- capacity

  /** The one double fault: the rename and the removal of the backup both failed. */
  predicate Strands(e: Event) { e.Commit? && e.outcome.Stranded? }

  /** A step keeps a bound of at least the limit exactly when it is not a
      stranding commit whose extra directory entry no longer fits. */
  lemma StepKeepsBound(s: State, e: Event, s': State, bound: int)
    requires Accounted(s) && Transition(s, e, s')
    requires 0 < s.limit <= bound && s.Occupied() <= bound
    ensures s'.Occupied() <= bound
       <==> !(Strands(e) && s.Occupied() + |s.disk[e.dest]| > bound)
  {
    if e.Commit? && (e.outcome.Published? || e.outcome.Doubled?) { assert WriteOk(s, e.w); }
  }

  /** A run: consecutive states linked by events. */
  ghost predicate Run(states: seq<State>, events: seq<Event>) {
    && |states| == |events| + 1
    && forall i :: 0 <= i < |events| ==> Transition(states[i], events[i], states[i + 1])
  }

  lemma ExtendRun(states: seq<State>, events: seq<Event>, e: Event, s': State)
    requires Run(states, events) && Transition(states[|events|], e, s')
    ensures Run(states + [s'], events + [e])
  {
    forall i | 0 <= i < |events| + 1
      ensures Transition((states + [s'])[i], (events + [e])[i], (states + [s'])[i + 1])
    {
      if i < |events| { assert Transition(states[i], events[i], states[i + 1]); }
    }
  }

  /** A cache that has just been opened: counted files, no write in progress. */
  ghost predicate Opened(s: State) {
    s.used == Charge(s.disk) && s.reserved == 0 && s.refused == 0 && s.writes == map[]
  }

  lemma OpenedIsAccounted(s: State)
    requires Opened(s)
    ensures Accounted(s)
  {
  }

  /** In every run, under any faults, both counters stay exact. */
  lemma {:induction false} RunKeepsAccounts(states: seq<State>, events: seq<Event>, n: nat)
    requires Run(states, events) && Accounted(states[0]) && n <= |events|
    ensures Accounted(states[n]) && states[n].limit == states[0].limit
  {
    if n > 0 {
      RunKeepsAccounts(states, events, n - 1);
      StepKeepsAccounts(states[n - 1], events[n - 1], states[n]);
      StepKeepsLimit(states[n - 1], events[n - 1], states[n]);
    }
  }

  function Max(a: int, b: int): int { if a < b then b else a }

  /** With a limit, committed and in-progress bytes stay within the larger of
      the limit and the usage at start until the first stranding commit. */
  lemma {:induction false} RunKeepsCapacity(states: seq<State>, events: seq<Event>, n: nat)
    requires Run(states, events) && Opened(states[0]) && n <= |events|
    requires states[0].limit > 0
    requires forall i :: 0 <= i < n ==> !Strands(events[i])
    ensures states[n].Occupied() <= Max(states[0].limit, states[0].used)
  {
    if n > 0 {
      RunKeepsCapacity(states, events, n - 1);
      OpenedIsAccounted(states[0]);
      RunKeepsAccounts(states, events, n - 1);
      StepKeepsBound(states[n - 1], events[n - 1], states[n], Max(states[0].limit, states[0].used));
    }
  }

  const MAX_INT64: int := 0x7fff_ffff_ffff_ffff

  predicate IsInt64(x: int) { -MAX_INT64 - 1 <= x <= MAX_INT64 }

  lemma CountersNonNegative(s: State)
    requires Accounted(s)
    ensures s.used >= 0 && s.reserved >= 0
  {
    TotalNonNegative(s.disk, ChargeOf);
    TotalNonNegative(s.writes, HeldBy);
  }

  predicate IsOpen(x: Write) { x.phase.Writing? || x.phase.Staged? }

  /** The admission test subtracts used and reserved bytes from the limit in
      64 bits; neither subtraction overflows before a stranding commit, and no
      write stages more bytes than it holds. */
  lemma RoomStaysInRange(states: seq<State>, events: seq<Event>, n: nat)
    requires Run(states, events) && Opened(states[0]) && n <= |events|
    requires 0 < states[0].limit <= MAX_INT64 && states[0].used <= MAX_INT64
    requires forall i :: 0 <= i < n ==> !Strands(events[i])
    ensures IsInt64(states[n].limit - states[n].used) && IsInt64(states[n].Room())
    ensures forall w :: w in states[n].writes && IsOpen(states[n].writes[w])
                    ==> |states[n].writes[w].bytes| <= states[n].writes[w].held
  {
    RunKeepsCapacity(states, events, n);
    OpenedIsAccounted(states[0]);
    RunKeepsAccounts(states, events, n);
    CountersNonNegative(states[n]);
    forall w | w in states[n].writes && IsOpen(states[n].writes[w])
      ensures |states[n].writes[w].bytes| <= states[n].writes[w].held
    { assert WriteOk(states[n], w); }
  }

  /** Once every write has committed or closed, nothing stays reserved. */
  lemma NothingReservedAtRest(s: State)
    requires Accounted(s)
    requires forall w :: w in s.writes ==> s.writes[w].phase.Committed? || s.writes[w].phase.Closed?
    ensures s.reserved == 0
  {
    forall w | w in s.writes ensures s.writes[w].held == 0 { assert WriteOk(s, w); }
    TotalZero(s.writes, HeldBy);
  }

  /** The double fault really does break the bound: a 3-byte part is staged
      over a 2-byte part in a 5-byte cache, and both faults strike. */
  lemma StrandingExceedsLimit() returns (states: seq<State>, events: seq<Event>)
    ensures Run(states, events) && Opened(states[0]) && states[0].limit > 0
    ensures states[|events|].Occupied() > Max(states[0].limit, states[0].used)
  {
    var dest := Path("upload", Name("1"));
    var s0 := State(5, 2, 0, 0, map[dest := [1, 2]], map[]);
    ChargePut(map[], dest, [1, 2]);
    var begin := Begin(7, "upload", true, 3, true);
    var s1 := s0.(reserved := 3,
                  disk := s0.disk[Path("upload", Temp(7)) := []],
                  writes := map[7 := Write("upload", true, 3, 3, [], Writing)]);
    var s2 := s1.(writes := map[7 := Write("upload", true, 3, 3, [], Staged)]);
    var s3 := s2.(disk := s2.disk[Path("upload", Previous(7)) := [1, 2]], used := 4);
    states := [s0, s1, s2, s3];
    events := [begin, Stage(7), Commit(7, dest, Stranded)];
    assert Transition(s0, begin, s1);
    assert Transition(s1, Stage(7), s2);
    assert Transition(s2, Commit(7, dest, Stranded), s3);
  }

  /** What is on disk after a commit, outcome by outcome: the staged bytes under the
      destination once published, the bytes before otherwise, and the part kept
      aside where it could not be removed; nothing else moves. */
  lemma CommitOnDisk(s: State, w: nat, dest: Path, outcome: Outcome, s': State)
    requires CommitStep(s, w, dest, outcome, s')
    ensures outcome.Published? || outcome.Doubled? ==> dest in s'.disk && s'.disk[dest] == s.writes[w].bytes
    ensures outcome.Published? || outcome.Doubled? ==> s.TempOf(w) !in s'.disk && s'.writes[w].phase == Committed
    ensures outcome.Untouched? || outcome.Restored? || outcome.Stranded?
        ==> (dest in s'.disk <==> dest in s.disk) && (dest in s.disk ==> s'.disk[dest] == s.disk[dest])
    ensures outcome.Dropped? ==> dest !in s'.disk && s.TempOf(w) !in s'.disk
    ensures outcome.Doubled? || outcome.Stranded?
        ==> dest in s.disk && s.BackupOf(w) in s'.disk && s'.disk[s.BackupOf(w)] == s.disk[dest]
    ensures forall p :: p != dest && p != s.TempOf(w) && p != s.BackupOf(w)
                    ==> (p in s'.disk <==> p in s.disk) && (p in s.disk ==> s'.disk[p] == s.disk[p])
    ensures outcome.Published?
        ==> s'.used == s.used + |s.writes[w].bytes| - if dest in s.disk then |s.disk[dest]| else 0
    ensures outcome.Untouched? || outcome.Dropped? || outcome.Restored?
        ==> s'.used == s.used && s'.reserved == s.reserved
  {
  }

  /** Every file counts but a temp file: published files, and parts kept aside. */
  lemma OnlyTempsAreFree(disk: map<Path, Bytes>, p: Path, b: Bytes)
    requires p !in disk
    ensures Charge(map[]) == 0
    ensures Charge(disk[p := b]) == Charge(disk) + if p.leaf.Temp? then 0 else |b|
  {
    ChargePut(disk, p, b);
  }

  /** A part commit that does not publish still has the previous part's bytes
      under the part's name or under its backup. */
  lemma UnpublishedCommitKeepsPart(s: State, w: nat, dest: Path, outcome: Outcome, s': State)
    requires CommitStep(s, w, dest, outcome, s') && dest in s.disk && !outcome.Published?
    ensures (dest in s'.disk && s'.disk[dest] == s.disk[dest])
         || (s.BackupOf(w) in s'.disk && s'.disk[s.BackupOf(w)] == s.disk[dest])
  {
    match outcome
    case Doubled => assert s'.disk[s.BackupOf(w)] == s.disk[dest];
    case _ =>
  }

  // ---------------------------------------------------------- refused writes

  /** The largest reservation refused since the last ConsumeRefused. */
  function LargestRefusal(events: seq<Event>): nat {
    if events == [] then 0
    else
      var last := events[|events| - 1];
      var before := LargestRefusal(events[..|events| - 1]);
      if last.ConsumeRefused? then 0
      else if last.Refuse? && last.size > before then last.size
      else before
  }

  lemma StepMovesRefused(s: State, e: Event, s': State)
    requires Transition(s, e, s')
    ensures s'.refused == if e.ConsumeRefused? then 0 else if e.Refuse? then Max(s.refused, e.size) else s.refused
  {
  }

  lemma {:induction false} RefusedIsLargest(states: seq<State>, events: seq<Event>, n: nat)
    requires Run(states, events) && Opened(states[0]) && n <= |events|
    ensures states[n].refused == LargestRefusal(events[..n])
  {
    if n > 0 {
      RefusedIsLargest(states, events, n - 1);
      StepMovesRefused(states[n - 1], events[n - 1], states[n]);
      assert events[..n][..n - 1] == events[..n - 1];
    }
  }
}
