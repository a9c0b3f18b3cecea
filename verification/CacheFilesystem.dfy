/**
 * The write cache as the code runs it: counters, directory entries and staged
 * writes updated in place. Each method of one locked section is one step of
 * `CacheLedger`; the longer ones report the run of steps they made. The results
 * of link, rename, sync and remove calls are parameters.
 */
module CacheFilesystem {
  import opened CacheLedger

  /** Which file-system calls of one commit attempt fail. */
  datatype CommitFaults = CommitFaults(
    prepare: bool, link: bool, rename: bool, sync: bool,
    removeEntry: bool, removeBackup: bool, restore: bool)

  const NO_FAULTS := CommitFaults(false, false, false, false, false, false, false)

  /** Which calls of one staging attempt fail; `read` is a reader that fails
      after what it supplied. */
  datatype StageFaults = StageFaults(create: bool, read: bool, sync: bool, removeTemp: bool)

  datatype BeginResult = NegativeSize | CacheFull | NoTempFile | Started

  datatype StageResult = Refused | Failed | SizeExceeded | Done

  /** The outcome a commit attempt must have, as a decision table over the
      faults and the entries it finds. */
  function ExpectedOutcome(s: State, w: nat, dest: Path, f: CommitFaults): Outcome
    requires w in s.writes
  {
    var existed := dest in s.disk;
    var keeps := s.writes[w].part && existed;
    if s.writes[w].phase.Committed? || f.prepare then Untouched
    else if keeps && (f.link || s.BackupOf(w) in s.disk) then Untouched
    else if f.rename || s.TempOf(w) !in s.disk then (if keeps && f.removeBackup then Stranded else Untouched)
    else if !existed && f.sync && !f.removeEntry then Dropped
    else if keeps && (f.sync || f.removeBackup) then (if f.restore then Doubled else Restored)
    else Published
  }

  function Concat(parts: seq<Bytes>): Bytes {
    if parts == [] then [] else Concat(parts[..|parts| - 1]) + parts[|parts| - 1]
  }

  /** The walk at start: the bytes of every file that is not a temp file. */
  method SizeOfFiles(found: map<Path, Bytes>) returns (total: int)
    ensures total == Charge(found)
  {
    total := 0;
    var todo := found.Keys;
    ghost var counted: map<Path, Bytes> := map[];
    while todo != {}
      invariant todo <= found.Keys
      invariant counted == map p | p in found && p !in todo :: found[p]
      invariant total == Charge(counted)
      decreases |todo|
    {
      var p :| p in todo;
      todo := todo - {p};
      ChargePut(counted, p, found[p]);
      counted := counted[p := found[p]];
      if !p.leaf.Temp? { total := total + |found[p]|; }
    }
    assert counted == found;
  }

  /** Dropping temp files does not change what is charged. */
  lemma {:induction false} ChargeIgnoresTemps(found: map<Path, Bytes>, kept: map<Path, Bytes>)
    requires forall p :: p in kept ==> p in found && kept[p] == found[p]
    requires forall p :: p in found && p !in kept ==> !Charged(p)
    ensures Charge(kept) == Charge(found)
    decreases |found|
  {
    if p :| p in found && p !in kept {
      ChargeDrop(found, p);
      assert (found - {p}).Keys == found.Keys - {p};
      ChargeIgnoresTemps(found - {p}, kept);
    } else {
      assert kept == found;
    }
  }

  class Filesystem {
    const maxBytes: int
    var usedBytes: int
    var reservedBytes: int
    var refusedBytes: int
    var disk: map<Path, Bytes>
    var writes: map<nat, Write>

    ghost function View(): State
      reads this
    { State(maxBytes, usedBytes, reservedBytes, refusedBytes, disk, writes) }

    /** Opening counts every file that is not a stale temp file and removes the
        stale temp files it can. */
    constructor (maxBytes: int, found: map<Path, Bytes>, stuck: set<Path>)
      ensures Opened(View()) && this.maxBytes == maxBytes
      ensures disk == map p | p in found && (Charged(p) || p in stuck) :: found[p]
    {
      var total := SizeOfFiles(found);
      this.maxBytes := maxBytes;
      usedBytes, reservedBytes, refusedBytes := total, 0, 0;
      disk, writes := map p | p in found && (!p.leaf.Temp? || p in stuck) :: found[p], map[];
      new;
      ChargeIgnoresTemps(found, disk);
    }

    /** Reserve capacity for a write and create its temp file. */
    method BeginWrite(w: nat, dir: string, part: bool, size: int, createFails: bool) returns (r: BeginResult)
      requires w !in writes && Path(dir, Temp(w)) !in disk
      modifies this
      ensures r.NegativeSize? <==> size < 0
      ensures r.CacheFull? <==> size >= 0 && maxBytes > 0 && old(usedBytes + reservedBytes) + size > maxBytes
      ensures r.NegativeSize? ==> View() == old(View())
      ensures r.CacheFull? ==> Transition(old(View()), Refuse(size), View())
      ensures r.Started? || r.NoTempFile? ==> Transition(old(View()), Begin(w, dir, part, size, r.Started?), View())
      ensures r.NoTempFile? ==> createFails
      ensures r.Started? ==> !createFails && Path(dir, Temp(w)) in disk && disk[Path(dir, Temp(w))] == []
      ensures reservedBytes == old(reservedBytes) + if maxBytes > 0 && (r.Started? || r.NoTempFile?) then size else 0
      ensures r.CacheFull? ==> refusedBytes == if size > old(refusedBytes) then size else old(refusedBytes)
    {
      if size < 0 { return NegativeSize; }
      var held := 0;
      if maxBytes > 0 {
        if size > maxBytes - usedBytes - reservedBytes {
          refusedBytes := if size > refusedBytes then size else refusedBytes;
          return CacheFull;
        }
        reservedBytes := reservedBytes + size;
        held := size;
      }
      writes := writes[w := Write(dir, part, size, held, [], Writing)];
      if createFails { return NoTempFile; }
      disk := disk[Path(dir, Temp(w)) := []];
      return Started;
    }

    /** One write through the size limiter: all or nothing against the reserved
        size, then as many bytes as the file accepts. */
    method WriteChunk(w: nat, p: Bytes, accepted: nat) returns (n: nat, exceeded: bool)
      requires w in writes && WriteOk(View(), w) && writes[w].phase.Writing? && accepted <= |p|
      modifies this`disk, this`writes
      ensures exceeded <==> |old(writes)[w].bytes| + |p| > old(writes)[w].size
      ensures n == if exceeded then 0 else accepted
      ensures Transition(old(View()), Append(w, p[..n]), View())
      ensures w in writes && writes[w].bytes == old(writes)[w].bytes + p[..n]
    {
      var x := writes[w];
      if |p| > x.size - |x.bytes| {
        assert x.bytes + [] == x.bytes;
        assert writes[w := x] == writes;
        assert View().TempOf(w) in disk ==> disk[View().TempOf(w) := x.bytes] == disk;
        return 0, true;
      }
      n, exceeded := accepted, false;
      var bytes := x.bytes + p[..n];
      var tmp := Path(x.dir, Temp(w));
      if tmp in disk { disk := disk[tmp := bytes]; }
      writes := writes[w := x.(bytes := bytes)];
    }

    /** Give back what a write still holds and close it. */
    method Release(w: nat)
      requires w in writes
      modifies this
      ensures View() == Settle(old(View()), w, 0, Closed)
    {
      var x := writes[w];
      if x.held != 0 { reservedBytes := reservedBytes - x.held; }
      writes := writes[w := x.(held := 0, phase := Closed)];
    }

    /** A staging attempt that will not finish drops its temp file and its capacity. */
    method AbandonWrite(w: nat, removeFails: bool)
      requires w in writes && writes[w].phase.Writing?
      modifies this
      ensures Transition(old(View()), Abandon(w, !removeFails), View())
    {
      if !removeFails { disk := disk - {Path(writes[w].dir, Temp(w))}; }
      Release(w);
    }

    /** The temp file is synced and closed; the write waits for its commit. */
    method FinishWrite(w: nat)
      requires w in writes && writes[w].phase.Writing?
      modifies this
      ensures Transition(old(View()), Stage(w), View())
    {
      writes := writes[w := writes[w].(phase := Staged)];
    }

    /** Open a write, or give back what an attempt without a temp file reserved. */
    method StartWrite(w: nat, dir: string, part: bool, size: int, createFails: bool)
      returns (r: BeginResult, ghost states: seq<State>, ghost events: seq<Event>)
      requires w !in writes && Path(dir, Temp(w)) !in disk
      modifies this
      ensures Run(states, events) && states[0] == old(View()) && states[|events|] == View()
      ensures usedBytes == old(usedBytes)
      ensures r.NegativeSize? || r.CacheFull?
         <==> size < 0 || (maxBytes > 0 && old(usedBytes + reservedBytes) + size > maxBytes)
      ensures !r.Started? ==> reservedBytes == old(reservedBytes)
      ensures r.NoTempFile? ==> createFails
      ensures r.Started? ==> !createFails && w in writes && WriteOk(View(), w) && Path(dir, Temp(w)) in disk
      ensures r.Started? ==> writes[w] == Write(dir, part, size, writes[w].held, [], Writing)
      ensures r.Started? ==> reservedBytes == old(reservedBytes) + writes[w].held
    {
      states, events := [View()], [];
      r := BeginWrite(w, dir, part, size, createFails);
      match r
      case NegativeSize =>
      case CacheFull => states, events := Extend(states, events, Refuse(size));
      case Started => states, events := Extend(states, events, Begin(w, dir, part, size, true));
      case NoTempFile =>
        states, events := Extend(states, events, Begin(w, dir, part, size, false));
        AbandonWrite(w, true);
        states, events := Extend(states, events, Abandon(w, false));
    }

    /** Stage what a reader supplies. The write ends staged with exactly those
        bytes, or closed with nothing reserved. */
    method PutStaged(w: nat, dir: string, part: bool, size: int, chunks: seq<Bytes>, f: StageFaults)
      returns (r: StageResult, ghost states: seq<State>, ghost events: seq<Event>)
      requires w !in writes && Path(dir, Temp(w)) !in disk
      modifies this
      ensures Run(states, events) && states[0] == old(View()) && states[|events|] == View()
      ensures r.Refused? <==> size < 0 || (maxBytes > 0 && old(usedBytes + reservedBytes) + size > maxBytes)
      ensures r.Done? ==> w in writes && writes[w] == Write(dir, part, size, writes[w].held, Concat(chunks), Staged)
      ensures r.Done? ==> |Concat(chunks)| <= size
      ensures r.Done? ==> Path(dir, Temp(w)) in disk && disk[Path(dir, Temp(w))] == Concat(chunks)
      ensures r.Done? ==> !f.create && !f.read && !f.sync
      ensures r.Done? ==> usedBytes == old(usedBytes) && reservedBytes == old(reservedBytes) + writes[w].held
      ensures r.SizeExceeded? ==> |Concat(chunks)| > size && !f.create
      ensures r.Failed? ==> f.create || f.read || f.sync
      ensures !r.Done? ==> usedBytes == old(usedBytes) && reservedBytes == old(reservedBytes)
    {
      var began;
      began, states, events := StartWrite(w, dir, part, size, f.create);
      if began.NoTempFile? { return Failed, states, events; }
      if !began.Started? { return Refused, states, events; }
      var exceeded;
      exceeded, states, events := CopyChunks(w, chunks, states, events);
      if exceeded || f.read || f.sync {
        AbandonWrite(w, f.removeTemp);
        states, events := Extend(states, events, Abandon(w, !f.removeTemp));
        return if exceeded then SizeExceeded else Failed, states, events;
      }
      FinishWrite(w);
      states, events := Extend(states, events, Stage(w));
      return Done, states, events;
    }

    /** The copy loop: append chunk after chunk until one does not fit. */
    method CopyChunks(w: nat, chunks: seq<Bytes>, ghost before: seq<State>, ghost done: seq<Event>)
      returns (exceeded: bool, ghost states: seq<State>, ghost events: seq<Event>)
      requires w in writes && WriteOk(View(), w) && writes[w].phase.Writing? && writes[w].bytes == []
      requires Run(before, done) && before[|done|] == View()
      modifies this`disk, this`writes
      ensures Run(states, events) && states[0] == before[0] && states[|events|] == View()
      ensures w in writes && writes[w] == old(writes)[w].(bytes := writes[w].bytes) && WriteOk(View(), w)
      ensures old(View()).TempOf(w) in disk <==> old(View()).TempOf(w) in old(disk)
      ensures exceeded <==> |Concat(chunks)| > writes[w].size
      ensures !exceeded ==> writes[w].bytes == Concat(chunks)
    {
      states, events := before, done;
      for i := 0 to |chunks|
        invariant w in writes && WriteOk(View(), w)
        invariant Run(states, events) && states[0] == before[0] && states[|events|] == View()
        invariant writes[w] == old(writes)[w].(bytes := Concat(chunks[..i]))
        invariant old(View()).TempOf(w) in disk <==> old(View()).TempOf(w) in old(disk)
      {
        PrefixFits(chunks, i);
        var p := chunks[i];
        var n;
        n, exceeded := WriteChunk(w, p, |p|);
        assert p[..|p|] == p;
        states, events := Extend(states, events, Append(w, p[..n]));
        if exceeded { return true, states, events; }
      }
      assert chunks[..|chunks|] == chunks;
      return false, states, events;
    }

    /** Append the current state to a recorded run. */
    ghost method Extend(states: seq<State>, events: seq<Event>, e: Event)
      returns (states': seq<State>, events': seq<Event>)
      requires Run(states, events) && Transition(states[|events|], e, View())
      ensures states' == states + [View()] && events' == events + [e]
      ensures Run(states', events')
    {
      ExtendRun(states, events, e, View());
      states', events' := states + [View()], events + [e];
    }

    /** Publish a staged write under `dest`, keeping the previous part linked
        until the directory entry is durable. */
    method CommitAs(w: nat, dest: Path, f: CommitFaults) returns (ok: bool, ghost outcome: Outcome)
      requires w in writes && dest.leaf.Name? && WriteOk(View(), w)
      requires writes[w].phase.Staged? || writes[w].phase.Committed?
      modifies this
      ensures outcome == ExpectedOutcome(old(View()), w, dest, f)
      ensures Transition(old(View()), Commit(w, dest, outcome), View())
      ensures ok <==> old(writes)[w].phase.Committed? || (outcome.Published? && !f.sync)
      ensures ok && old(writes)[w].phase.Staged? ==> dest in disk && disk[dest] == old(writes)[w].bytes
      ensures old(View().TempOf(w) in disk && View().BackupOf(w) !in disk) && f == NO_FAULTS ==> ok
    {
      outcome := ExpectedOutcome(View(), w, dest, f);
      var x := writes[w];
      if x.phase.Committed? { return true, outcome; }
      if f.prepare { return false, outcome; }
      var tmp, backup := Path(x.dir, Temp(w)), Path(x.dir, Previous(w));
      var existed := dest in disk;
      var oldSize := if existed then |disk[dest]| else 0;
      var keeps := x.part && existed;
      if keeps {
        if f.link || backup in disk { return false, outcome; }
        disk := disk[backup := disk[dest]];
      }
      if f.rename || tmp !in disk {
        if keeps {
          if f.removeBackup {
            usedBytes := usedBytes + oldSize;
          } else {
            disk := disk - {backup};
            assert disk == old(disk);
          }
        }
        return false, outcome;
      }
      disk := (disk - {tmp})[dest := disk[tmp]];
      if f.sync && !existed && !f.removeEntry {
        disk := disk - {dest};
        assert disk == old(disk) - {tmp};
        return false, outcome;
      }
      if keeps {
        if !f.sync && !f.removeBackup {
          disk := disk - {backup};
        } else if f.restore {
          Settled(w, |x.bytes|);
          assert disk == (old(disk) - {tmp})[backup := old(disk)[dest]][dest := x.bytes];
          return false, outcome;
        } else {
          disk := (disk - {backup})[dest := disk[backup]];
          assert disk == old(disk) - {tmp};
          return false, outcome;
        }
      }
      Settled(w, |x.bytes| - oldSize);
      assert disk == (old(disk) - {tmp})[dest := x.bytes];
      return !f.sync, outcome;
    }

    /** Record a committed write and release the capacity it held. */
    method Settled(w: nat, delta: int)
      requires w in writes
      modifies this`usedBytes, this`reservedBytes, this`writes
      ensures View() == Settle(old(View()), w, delta, Committed)
    {
      usedBytes := usedBytes + delta;
      reservedBytes := reservedBytes - writes[w].held;
      writes := writes[w := writes[w].(held := 0, phase := Committed)];
    }

    method Rollback(w: nat, removeFails: bool)
      requires w in writes && !writes[w].phase.Writing?
      modifies this
      ensures Transition(old(View()), CacheLedger.Rollback(w, !removeFails), View())
      ensures old(writes)[w].phase.Committed? ==> View() == old(View())
      ensures !old(writes)[w].phase.Committed? ==> reservedBytes == old(reservedBytes) - old(writes)[w].held
      ensures !old(writes)[w].phase.Committed? && !removeFails ==> disk == old(disk) - {old(View()).TempOf(w)}
    {
      if writes[w].phase.Committed? { return; }
      Release(w);
      if !removeFails { disk := disk - {Path(writes[w].dir, Temp(w))}; }
    }

    /** Delete one published file; a missing file is not an error. */
    method Delete(p: Path, removeFails: bool) returns (ok: bool)
      requires p.leaf.Name?
      modifies this
      ensures ok <==> old(p !in disk) || !removeFails
      ensures if old(p in disk) && ok then Transition(old(View()), Remove(p), View()) else View() == old(View())
      ensures ok ==> disk == old(disk) - {p} && usedBytes == old(usedBytes) - old(if p in disk then |disk[p]| else 0)
    {
      if p !in disk { return true; }
      var size := |disk[p]|;
      if removeFails { return false; }
      disk := disk - {p};
      usedBytes := usedBytes - size;
      return true;
    }

    /** Remove every file of one upload directory, temp files and left-over
        backups included; stop at the first file that cannot be removed, or before
        which the request was cancelled. The emptied directories go last. */
    method DeleteUpload(dir: string, stuck: set<Path>, removeDirFails: bool)
      returns (ok: bool, ghost states: seq<State>, ghost events: seq<Event>)
      modifies this
      ensures Run(states, events) && states[0] == old(View()) && states[|events|] == View()
      ensures ok <==> Removable(old(disk), dir, stuck) && !removeDirFails
      ensures Removable(old(disk), dir, stuck) ==> disk == map p | p in old(disk) && p.dir != dir :: old(disk)[p]
      ensures forall p :: p in disk ==> p in old(disk) && disk[p] == old(disk)[p]
      ensures forall p :: p in old(disk) && p.dir != dir ==> p in disk
      ensures writes == old(writes) && reservedBytes == old(reservedBytes)
    {
      states, events := [View()], [];
      var todo := set p | p in disk && p.dir == dir;
      while todo != {}
        invariant Run(states, events) && states[0] == old(View()) && states[|events|] == View()
        invariant todo <= disk.Keys && forall p :: p in todo ==> p.dir == dir
        invariant forall p :: p in disk ==> p in old(disk) && disk[p] == old(disk)[p]
        invariant forall p :: p in old(disk) && p.dir != dir ==> p in disk
        invariant forall p :: p in disk && p.dir == dir ==> p in todo
        invariant forall p :: p in old(disk) && p.dir == dir && p !in todo ==> p !in stuck
        invariant writes == old(writes) && reservedBytes == old(reservedBytes)
        decreases |todo|
      {
        var p :| p in todo;
        if p in stuck { return false, states, events; }
        todo := todo - {p};
        RemoveUploadFile(p);
        states, events := Extend(states, events, Remove(p));
      }
      return !removeDirFails, states, events;
    }

    /** One file of an upload: its charge goes with it unless it is a temp file. */
    method RemoveUploadFile(p: Path)
      requires p in disk
      modifies this
      ensures Transition(old(View()), Remove(p), View())
    {
      var size := |disk[p]|;
      disk := disk - {p};
      if !p.leaf.Temp? { usedBytes := usedBytes - size; }
    }

    /** Move a content file aside; its charge moves with it. A directory sync that
        fails afterwards is reported, and the file has moved. */
    method Quarantine(src: Path, dst: Path, prepareFails: bool, renameFails: bool, syncFails: bool)
      returns (ok: bool, ghost moved: bool)
      requires src.leaf.Name? && dst.leaf.Name? && src != dst
      modifies this
      ensures ok <==> moved && !syncFails
      ensures moved <==> old(src in disk) && !prepareFails && !renameFails
      ensures if moved then Transition(old(View()), Move(src, dst), View()) else View() == old(View())
      ensures moved ==> disk == (old(disk) - {src})[dst := old(disk)[src]]
      ensures moved ==> usedBytes == old(usedBytes) - old(if dst in disk then |disk[dst]| else 0)
    {
      if prepareFails { return false, false; }
      var replaced := if dst in disk then |disk[dst]| else 0;
      if renameFails || src !in disk { return false, false; }
      disk := (disk - {src})[dst := disk[src]];
      usedBytes := usedBytes - replaced;
      return !syncFails, true;
    }

    method ConsumeRefusedWriteBytes() returns (size: int)
      modifies this
      ensures size == old(refusedBytes) && refusedBytes == 0
      ensures Transition(old(View()), ConsumeRefused, View())
    {
      size := refusedBytes;
      refusedBytes := 0;
    }

    /** Concatenate the given part files into one staged write and digest each
        part as it is copied. */
    method AssemblePartsStaged(w: nat, dir: string, parts: seq<Path>, etagOf: Bytes -> string, f: StageFaults)
      returns (ok: bool, etags: seq<string>, ghost states: seq<State>, ghost events: seq<Event>)
      requires w !in writes && Path(dir, Temp(w)) !in disk
      modifies this
      ensures Run(states, events) && states[0] == old(View()) && states[|events|] == View()
      ensures ok ==> (forall i :: 0 <= i < |parts| ==> parts[i] in old(disk)) && |etags| == |parts|
      ensures ok ==> forall i :: 0 <= i < |parts| ==> etags[i] == etagOf(old(disk)[parts[i]])
      ensures ok ==> w in writes && writes[w].phase.Staged? && writes[w].bytes == Concat(FilesAt(old(disk), parts))
      ensures ok ==> usedBytes == old(usedBytes) && reservedBytes == old(reservedBytes) + writes[w].held
      ensures !ok ==> usedBytes == old(usedBytes) && reservedBytes == old(reservedBytes)
      ensures !ok <==> (exists i :: 0 <= i < |parts| && parts[i] !in old(disk)) || f.create || f.read || f.sync
                       || (maxBytes > 0
                           && old(usedBytes + reservedBytes) + |Concat(FilesAt(old(disk), parts))| > maxBytes)
    {
      etags, states, events := [], [View()], [];
      var expected := 0;
      var files: seq<Bytes> := [];
      for i := 0 to |parts|
        invariant View() == old(View())
        invariant forall j :: 0 <= j < i ==> parts[j] in disk
        invariant files == FilesAt(disk, parts[..i])
        invariant expected == |Concat(files)|
      {
        if parts[i] !in disk { return false, etags, states, events; }
        var file := disk[parts[i]];
        assert FilesAt(disk, parts[..i + 1]) == files + [file];
        assert (files + [file])[..i] == files;
        files := files + [file];
        expected := expected + |file|;
      }
      assert parts[..|parts|] == parts;
      var r;
      r, states, events := PutStaged(w, dir, false, expected, files, f);
      for i := 0 to |parts|
        invariant |etags| == i && forall j :: 0 <= j < i ==> etags[j] == etagOf(files[j])
      {
        etags := etags + [etagOf(files[i])];
      }
      ok := r.Done?;
    }
  }

  predicate Removable(disk: map<Path, Bytes>, dir: string, stuck: set<Path>) {
    forall p :: p in disk && p.dir == dir ==> p !in stuck
  }

  /** The contents of the given files; a missing one reads as empty. */
  function FilesAt(disk: map<Path, Bytes>, parts: seq<Path>): seq<Bytes> {
    seq(|parts|, i requires 0 <= i < |parts| => if parts[i] in disk then disk[parts[i]] else [])
  }

  /** Copying one more part never goes past the size of all of them. */
  lemma {:induction false} PrefixFits(parts: seq<Bytes>, i: nat)
    requires i < |parts|
    ensures Concat(parts[..i + 1]) == Concat(parts[..i]) + parts[i]
    ensures |Concat(parts[..i])| + |parts[i]| <= |Concat(parts)|
    decreases |parts| - i
  {
    assert parts[..i + 1][..i] == parts[..i];
    if i + 1 == |parts| {
      assert parts[..i + 1] == parts;
    } else {
      PrefixFits(parts, i + 1);
    }
  }

  function Lengths(parts: seq<Bytes>): nat {
    if parts == [] then 0 else Lengths(parts[..|parts| - 1]) + |parts[|parts| - 1]|
  }

  /** A concatenation is as long as its parts together, and holds each byte of a
      part as far past the parts before it as it is in its own. */
  lemma {:induction false} ConcatInOrder(parts: seq<Bytes>, i: nat, k: nat)
    requires i < |parts| && k < |parts[i]|
    ensures |Concat(parts)| == Lengths(parts) && Lengths(parts[..i]) + k < Lengths(parts)
    ensures Concat(parts)[Lengths(parts[..i]) + k] == parts[i][k]
  {
    var n := |parts| - 1;
    ConcatLength(parts[..n]);
    if i < n {
      assert parts[..n][..i] == parts[..i];
      ConcatInOrder(parts[..n], i, k);
    }
  }

  lemma {:induction false} ConcatLength(parts: seq<Bytes>)
    ensures |Concat(parts)| == Lengths(parts)
  {
    if parts != [] { ConcatLength(parts[..|parts| - 1]); }
  }
}
