/**
 * Completing a multipart upload, up to the assembled bytes: the requested part
 * list is checked against the recorded parts, the part files are concatenated,
 * and what was read is checked against the record again.
 */
module MultipartAssembly {
  import opened Options
  import opened CacheLedger
  import opened CacheFilesystem
  import opened EntityTags

  const MAX_SIZE: int := 1073741824 * 127 / 128

  datatype RequestedPart = RequestedPart(number: Option<int>, etag: Option<string>)

  /** A recorded part: the size and entity tag of the bytes last published. */
  datatype Part = Part(size: nat, etag: string)

  datatype Completion =
    | MalformedRequest
    | InvalidPart
    | InvalidPartOrder
    | TooLarge
    | TooSmall
    | NotAssembled
    | Assembled(numbers: seq<int>, bytes: Bytes)

  /** The record of each upload part, read by number. */
  type Record = map<int, Part>

  predicate Ascending(numbers: seq<int>) {
    forall i :: 0 < i < |numbers| ==> numbers[i - 1] < numbers[i]
  }

  /** The sum of the recorded sizes of the first n parts. */
  function TotalSize(db: Record, numbers: seq<int>): nat {
    if numbers == [] then 0
    else
      var last := numbers[|numbers| - 1];
      TotalSize(db, numbers[..|numbers| - 1]) + if last in db then db[last].size else 0
  }

  function FileOf(files: map<int, Bytes>, n: int): Bytes { if n in files then files[n] else [] }

  function Files(files: map<int, Bytes>, numbers: seq<int>): seq<Bytes> {
    seq(|numbers|, i requires 0 <= i < |numbers| => FileOf(files, numbers[i]))
  }

  /** A request need not give a part's entity tag, but one it gives is the recorded one. */
  predicate TagAgrees(asked: RequestedPart, part: Part) {
    asked.etag.Some? ==> TrimQuotes(asked.etag.value) == part.etag
  }

  /** The request names recorded parts in strictly ascending order, with the
      recorded entity tags where it gives any. */
  ghost predicate Named(input: seq<RequestedPart>, db: Record, numbers: seq<int>) {
    && |numbers| == |input| > 0
    && (forall i :: 0 <= i < |input| ==> input[i].number == Some(numbers[i]))
    && Ascending(numbers)
    && (forall i :: 0 <= i < |input| ==> numbers[i] in db)
    && (forall i :: 0 <= i < |input| ==> TagAgrees(input[i], db[numbers[i]]))
  }

  /** The part files hold what the record says. */
  ghost predicate Matches(db: Record, files: map<int, Bytes>, etagOf: Bytes -> string, numbers: seq<int>) {
    && (forall i :: 0 <= i < |numbers| ==> numbers[i] in db && numbers[i] in files)
    && |Concat(Files(files, numbers))| == TotalSize(db, numbers)
    && forall i :: 0 <= i < |numbers| ==> etagOf(files[numbers[i]]) == db[numbers[i]].etag
  }

  /** Every requested part has a number, and the numbers ascend. */
  predicate Ordered(input: seq<RequestedPart>) {
    && (forall i :: 0 <= i < |input| ==> input[i].number.Some?)
    && (forall i :: 0 < i < |input| ==> input[i - 1].number.value < input[i].number.value)
  }

  /** What is wrong with the first flawed part among the first n. */
  function Flaw(input: seq<RequestedPart>, n: nat): Option<Completion>
    requires n <= |input|
  {
    if n == 0 then None
    else if Flaw(input, n - 1).Some? then Flaw(input, n - 1)
    else if input[n - 1].number.None? then Some(InvalidPart)
    else if n > 1 && input[n - 2].number.Some? && input[n - 1].number.value <= input[n - 2].number.value
    then Some(InvalidPartOrder)
    else None
  }

  lemma {:induction false} FlawStays(input: seq<RequestedPart>, m: nat, n: nat)
    requires m <= n <= |input| && Flaw(input, m).Some?
    ensures Flaw(input, n) == Flaw(input, m)
    decreases n
  {
    if m < n { FlawStays(input, m, n - 1); }
  }

  /** The parts before i are numbered in ascending order, and part i is not above the one before it. */
  predicate OrderBreaksAt(input: seq<RequestedPart>, i: int) {
    && 0 < i < |input| && (forall j :: 0 <= j <= i ==> input[j].number.Some?)
    && (forall j :: 0 < j < i ==> input[j - 1].number.value < input[j].number.value)
    && input[i].number.value <= input[i - 1].number.value
  }

  /** The order is at fault exactly when it breaks before a number is missing. */
  lemma {:induction false} FlawExactly(input: seq<RequestedPart>, n: nat)
    requires n <= |input|
    ensures Flaw(input, n).None?
       <==> (forall j :: 0 <= j < n ==> input[j].number.Some?)
            && forall j :: 0 < j < n ==> input[j - 1].number.value < input[j].number.value
    ensures Flaw(input, n) == Some(InvalidPartOrder) <==> exists i :: i < n && OrderBreaksAt(input, i)
    ensures Flaw(input, n).Some? ==> Flaw(input, n).value in {InvalidPart, InvalidPartOrder}
  {
    if n > 0 {
      FlawExactly(input, n - 1);
      if Flaw(input, n - 1).None? && Flaw(input, n) == Some(InvalidPartOrder) { assert OrderBreaksAt(input, n - 1); }
    }
  }

  /** Read the part numbers off the request. */
  method ReadNumbers(input: seq<RequestedPart>) returns (err: Option<Completion>, numbers: seq<int>)
    ensures err == Flaw(input, |input|)
    ensures err.None? <==> Ordered(input)
    ensures err.None? ==> |numbers| == |input| && Ascending(numbers)
    ensures err.None? ==> forall i :: 0 <= i < |input| ==> input[i].number == Some(numbers[i])
    ensures err.Some? ==> err.value.InvalidPart? || err.value.InvalidPartOrder?
  {
    numbers := [];
    for i := 0 to |input|
      invariant |numbers| == i && Ascending(numbers)
      invariant forall j :: 0 <= j < i ==> input[j].number == Some(numbers[j])
      invariant Flaw(input, i).None?
    {
      if Flaw(input, i + 1).Some? { FlawStays(input, i + 1, |input|); }
      if input[i].number.None? { return Some(InvalidPart), numbers; }
      var n := input[i].number.value;
      if i > 0 && n <= numbers[i - 1] { return Some(InvalidPartOrder), numbers; }
      numbers := numbers + [n];
    }
    return None, numbers;
  }

  /** Ascending part numbers are distinct, so counting rows finds a missing part. */
  lemma {:induction false} AscendingIsDistinct(numbers: seq<int>, i: nat, j: nat)
    requires Ascending(numbers) && i < j < |numbers|
    ensures numbers[i] < numbers[j]
    decreases j
  {
    if i < j - 1 { AscendingIsDistinct(numbers, i, j - 1); }
  }

  /** The recorded parts with the given numbers, each once. */
  function Rows(db: Record, numbers: seq<int>): set<int> {
    if numbers == [] then {}
    else
      var last := numbers[|numbers| - 1];
      Rows(db, numbers[..|numbers| - 1]) + if last in db then {last} else {}
  }

  lemma {:induction false} RowsAreAsked(db: Record, numbers: seq<int>)
    ensures forall n :: n in Rows(db, numbers) ==> n in numbers
  {
    if numbers != [] {
      var k := |numbers| - 1;
      RowsAreAsked(db, numbers[..k]);
      assert numbers == numbers[..k] + [numbers[k]];
    }
  }

  lemma {:induction false} RowsCountParts(db: Record, numbers: seq<int>)
    requires Ascending(numbers)
    ensures |Rows(db, numbers)| <= |numbers|
    ensures |Rows(db, numbers)| == |numbers| <==> forall i :: 0 <= i < |numbers| ==> numbers[i] in db
  {
    if numbers != [] {
      var k := |numbers| - 1;
      RowsCountParts(db, numbers[..k]);
      RowsAreAsked(db, numbers[..k]);
      assert numbers[k] !in numbers[..k] by {
        forall i | 0 <= i < k ensures numbers[i] != numbers[k] { AscendingIsDistinct(numbers, i, k); }
      }
    }
  }

  /** Add up the recorded sizes, refusing before a sum could pass the limit, so
      no intermediate value leaves 64 bits. */
  method SumSizes(db: Record, numbers: seq<int>) returns (ok: bool, total: nat)
    requires forall i :: 0 <= i < |numbers| ==> numbers[i] in db
    ensures ok <==> TotalSize(db, numbers) <= MAX_SIZE
    ensures ok ==> total == TotalSize(db, numbers)
  {
    total := 0;
    for i := 0 to |numbers|
      invariant total == TotalSize(db, numbers[..i]) <= MAX_SIZE
    {
      assert numbers[..i + 1][..i] == numbers[..i];
      TotalSizeGrows(db, numbers, i + 1);
      var size := db[numbers[i]].size;
      if size > MAX_SIZE || total > MAX_SIZE - size { return false, total; }
      assert IsInt64(MAX_SIZE - size) && IsInt64(total + size);
      total := total + size;
    }
    assert numbers[..|numbers|] == numbers;
    return true, total;
  }

  lemma {:induction false} TotalSizeGrows(db: Record, numbers: seq<int>, i: nat)
    requires i <= |numbers|
    ensures TotalSize(db, numbers[..i]) <= TotalSize(db, numbers)
    decreases |numbers| - i
  {
    if i < |numbers| {
      TotalSizeGrows(db, numbers, i + 1);
      assert numbers[..i + 1][..i] == numbers[..i];
    } else {
      assert numbers[..i] == numbers;
    }
  }

  /** The request names recorded parts; says which, or why not. */
  method CheckRequest(input: seq<RequestedPart>, db: Record) returns (err: Option<Completion>, numbers: seq<int>)
    ensures err == Some(MalformedRequest) <==> input == []
    ensures err.Some? ==> err.value.MalformedRequest? || err.value.InvalidPart? || err.value.InvalidPartOrder?
    ensures err == Some(InvalidPartOrder) <==> Flaw(input, |input|) == Some(InvalidPartOrder)
    ensures err.None? ==> Named(input, db, numbers)
    ensures err.Some? ==> forall other :: !Named(input, db, other)
  {
    numbers := [];
    if input == [] { return Some(MalformedRequest), numbers; }
    err, numbers := ReadNumbers(input);
    if err.Some? {
      forall other | Named(input, db, other) ensures false { NamedIsOrdered(input, db, other); }
      return;
    }
    forall other | Named(input, db, other) ensures other == numbers {}
    RowsCountParts(db, numbers);
    if |Rows(db, numbers)| != |numbers| { return Some(InvalidPart), numbers; }
    for i := 0 to |input|
      invariant forall j :: 0 <= j < i ==> TagAgrees(input[j], db[numbers[j]])
    {
      if !TagAgrees(input[i], db[numbers[i]]) { return Some(InvalidPart), numbers; }
    }
  }

  lemma NamedIsOrdered(input: seq<RequestedPart>, db: Record, numbers: seq<int>)
    requires Named(input, db, numbers)
    ensures Ordered(input)
  {
    forall i | 0 < i < |input| ensures input[i - 1].number.value < input[i].number.value {
      assert numbers[i - 1] < numbers[i];
    }
  }

  /** The request names recorded parts in order, and their total is within the limits. */
  ghost predicate Sized(input: seq<RequestedPart>, db: Record, minSize: nat, numbers: seq<int>) {
    Named(input, db, numbers) && minSize <= TotalSize(db, numbers) <= MAX_SIZE
  }

  /** A request that completion must accept: moreover every file is the recorded one. */
  ghost predicate Acceptable(
    input: seq<RequestedPart>, db: Record, files: map<int, Bytes>, etagOf: Bytes -> string, minSize: nat,
    numbers: seq<int>)
  { Sized(input, db, minSize, numbers) && Matches(db, files, etagOf, numbers) }

  predicate AllPresent(files: map<int, Bytes>, numbers: seq<int>) {
    forall i :: 0 <= i < |numbers| ==> numbers[i] in files
  }

  /** The checks before assembly: the request names recorded parts whose total is
      within the limits; says which, or why not. */
  method Plan(input: seq<RequestedPart>, db: Record, minSize: nat)
    returns (err: Option<Completion>, numbers: seq<int>, total: nat)
    ensures err == Some(MalformedRequest) <==> input == []
    ensures err == Some(InvalidPartOrder) <==> Flaw(input, |input|) == Some(InvalidPartOrder)
    ensures err == Some(TooLarge) <==> exists all :: Named(input, db, all) && TotalSize(db, all) > MAX_SIZE
    ensures err == Some(TooSmall)
       <==> exists all :: Named(input, db, all) && TotalSize(db, all) < minSize && TotalSize(db, all) <= MAX_SIZE
    ensures err.Some? ==> !err.value.NotAssembled? && !err.value.Assembled?
    ensures err.Some? ==> forall all :: !Sized(input, db, minSize, all)
    ensures err.None? ==> Sized(input, db, minSize, numbers) && total == TotalSize(db, numbers)
  {
    total := 0;
    err, numbers := CheckRequest(input, db);
    if err.Some? { return; }
    forall other | Named(input, db, other) ensures other == numbers {}
    var ok;
    ok, total := SumSizes(db, numbers);
    if !ok { return Some(TooLarge), numbers, total; }
    if total < minSize { return Some(TooSmall), numbers, total; }
  }

  /** Named parts are read in the order of the request, so they are determined by it. */
  lemma NamedIsUnique(input: seq<RequestedPart>, db: Record, numbers: seq<int>, other: seq<int>)
    requires Named(input, db, numbers) && Named(input, db, other)
    ensures other == numbers
  {
    forall i | 0 <= i < |input| ensures other[i] == numbers[i] { assert Some(other[i]) == input[i].number; }
  }

  /** The part files of an upload, as the cache has them under their paths. */
  ghost predicate PartFiles(disk: map<Path, Bytes>, pathOf: int -> Path, files: map<int, Bytes>) {
    forall n :: (n in files <==> pathOf(n) in disk) && (n in files ==> files[n] == disk[pathOf(n)])
  }

  function PathsOf(pathOf: int -> Path, numbers: seq<int>): seq<Path> {
    seq(|numbers|, i requires 0 <= i < |numbers| => pathOf(numbers[i]))
  }

  lemma FilesAreParts(disk: map<Path, Bytes>, pathOf: int -> Path, files: map<int, Bytes>, numbers: seq<int>)
    requires PartFiles(disk, pathOf, files)
    ensures FilesAt(disk, PathsOf(pathOf, numbers)) == Files(files, numbers)
    ensures AllPresent(files, numbers) <==> forall i :: 0 <= i < |numbers| ==> PathsOf(pathOf, numbers)[i] in disk
    ensures forall i :: 0 <= i < |numbers| && PathsOf(pathOf, numbers)[i] in disk
                    ==> numbers[i] in files && disk[PathsOf(pathOf, numbers)[i]] == files[numbers[i]]
  {
    forall i | 0 <= i < |numbers| ensures numbers[i] in files <==> PathsOf(pathOf, numbers)[i] in disk {
      assert PathsOf(pathOf, numbers)[i] == pathOf(numbers[i]);
    }
  }

  /** What was assembled is checked against the record again. */
  method CheckAssembled(db: Record, numbers: seq<int>, etags: seq<string>, size: nat, total: nat) returns (ok: bool)
    requires |etags| == |numbers| && forall i :: 0 <= i < |numbers| ==> numbers[i] in db
    ensures ok <==> size == total && forall i :: 0 <= i < |numbers| ==> etags[i] == db[numbers[i]].etag
  {
    if size != total { return false; }
    for i := 0 to |numbers|
      invariant forall j :: 0 <= j < i ==> etags[j] == db[numbers[j]].etag
    {
      if etags[i] != db[numbers[i]].etag { return false; }
    }
    return true;
  }

  /** Every part file is there, the cache has room for all of them, and no call fails. */
  predicate Stageable(files: map<int, Bytes>, numbers: seq<int>, limit: int, occupied: int, f: StageFaults) {
    && AllPresent(files, numbers) && !f.create && !f.read && !f.sync
    && (limit > 0 ==> occupied + |Concat(Files(files, numbers))| <= limit)
  }

  /** The request is in order but its parts cannot be staged. */
  ghost predicate Unstageable(
    input: seq<RequestedPart>, db: Record, files: map<int, Bytes>, minSize: nat, limit: int, occupied: int,
    f: StageFaults)
  { exists all :: Sized(input, db, minSize, all) && !Stageable(files, all, limit, occupied, f) }

  /** Assemble the parts in the cache and check them against the record. What does
      not match is rolled back, so that nothing stays reserved. */
  method StageAndCheck(fs: Filesystem, w: nat, dir: string, pathOf: int -> Path, ghost files: map<int, Bytes>,
                       db: Record, etagOf: Bytes -> string, numbers: seq<int>, total: nat,
                       f: StageFaults, removeFails: bool)
    returns (r: Completion, ghost states: seq<State>, ghost events: seq<Event>)
    requires w !in fs.writes && Path(dir, Temp(w)) !in fs.disk && PartFiles(fs.disk, pathOf, files)
    requires total == TotalSize(db, numbers) && forall i :: 0 <= i < |numbers| ==> numbers[i] in db
    modifies fs
    ensures Run(states, events) && states[0] == old(fs.View()) && states[|events|] == fs.View()
    ensures r.NotAssembled? || r.InvalidPart? || r.Assembled?
    ensures r.NotAssembled? <==> !Stageable(files, numbers, fs.maxBytes, old(fs.View().Occupied()), f)
    ensures r.InvalidPart? ==> !Matches(db, files, etagOf, numbers)
    ensures r.Assembled? ==> r.numbers == numbers && Matches(db, files, etagOf, numbers)
    ensures r.Assembled? ==> w in fs.writes && fs.writes[w].phase.Staged? && r.bytes == fs.writes[w].bytes
    ensures r.Assembled? ==> r.bytes == Concat(Files(files, numbers))
    ensures !r.Assembled? ==> fs.usedBytes == old(fs.usedBytes) && fs.reservedBytes == old(fs.reservedBytes)
  {
    hide Run, Concat, TotalSize, FilesAt, CommitStep, PartFiles;
    FilesAreParts(fs.disk, pathOf, files, numbers);
    var ok, etags;
    ok, etags, states, events := fs.AssemblePartsStaged(w, dir, PathsOf(pathOf, numbers), etagOf, f);
    if !ok { return NotAssembled, states, events; }
    var bytes := fs.writes[w].bytes;
    var good := CheckAssembled(db, numbers, etags, |bytes|, total);
    if good { return Assembled(numbers, bytes), states, events; }
    fs.Rollback(w, removeFails);
    states, events := fs.Extend(states, events, CacheLedger.Rollback(w, !removeFails));
    return InvalidPart, states, events;
  }

  /** Check a completion request and assemble its parts. It succeeds exactly on the
      acceptable requests that the cache can take, leaving their bytes staged; a
      refusal leaves nothing reserved. */
  method Assemble(fs: Filesystem, w: nat, dir: string, pathOf: int -> Path, ghost files: map<int, Bytes>,
                  input: seq<RequestedPart>, db: Record, etagOf: Bytes -> string, minSize: nat,
                  f: StageFaults, removeFails: bool)
    returns (r: Completion, ghost states: seq<State>, ghost events: seq<Event>)
    requires w !in fs.writes && Path(dir, Temp(w)) !in fs.disk && PartFiles(fs.disk, pathOf, files)
    modifies fs
    ensures Run(states, events) && states[0] == old(fs.View()) && states[|events|] == fs.View()
    ensures r.MalformedRequest? <==> input == []
    ensures r.InvalidPartOrder? <==> Flaw(input, |input|) == Some(InvalidPartOrder)
    ensures r.TooLarge? <==> exists all :: Named(input, db, all) && TotalSize(db, all) > MAX_SIZE
    ensures r.TooSmall?
       <==> exists all :: Named(input, db, all) && TotalSize(db, all) < minSize && TotalSize(db, all) <= MAX_SIZE
    ensures r.NotAssembled? <==> Unstageable(input, db, files, minSize, fs.maxBytes, old(fs.View().Occupied()), f)
    ensures r.InvalidPart? ==> forall all :: !Acceptable(input, db, files, etagOf, minSize, all)
    ensures r.Assembled? ==> Acceptable(input, db, files, etagOf, minSize, r.numbers)
    ensures r.Assembled? ==> w in fs.writes && fs.writes[w].phase.Staged? && r.bytes == fs.writes[w].bytes
    ensures r.Assembled? ==> r.bytes == Concat(Files(files, r.numbers))
    ensures !r.Assembled? ==> fs.usedBytes == old(fs.usedBytes) && fs.reservedBytes == old(fs.reservedBytes)
  {
    states, events := [fs.View()], [];
    var err, numbers, total := Plan(input, db, minSize);
    if err.Some? { return err.value, states, events; }
    forall all | Named(input, db, all) ensures all == numbers { NamedIsUnique(input, db, numbers, all); }
    hide Matches, PartFiles, TotalSize, Stageable;
    r, states, events := StageAndCheck(fs, w, dir, pathOf, files, db, etagOf, numbers, total, f, removeFails);
  }

  lemma {:induction false} TotalIsLength(db: Record, files: map<int, Bytes>, numbers: seq<int>)
    requires forall i :: 0 <= i < |numbers| ==> numbers[i] in db && db[numbers[i]].size == |FileOf(files, numbers[i])|
    ensures TotalSize(db, numbers) == |Concat(Files(files, numbers))|
  {
    if numbers != [] {
      var n := |numbers| - 1;
      TotalIsLength(db, files, numbers[..n]);
      assert Files(files, numbers)[..n] == Files(files, numbers[..n]);
    }
  }

  /** The part is recorded, and its file is the one it was recorded for. */
  predicate IsIntact(db: Record, files: map<int, Bytes>, etagOf: Bytes -> string, n: int) {
    n in files && n in db && db[n] == Part(|files[n]|, etagOf(files[n]))
  }

  /** The request gives the tag bare, in quotes or not at all. */
  predicate GivesTag(asked: RequestedPart, tag: string) {
    && NoOuterQuotes(tag)
    && (asked.etag == None || asked.etag == Some(tag) || asked.etag == Some("\"" + tag + "\""))
  }

  /** Which requests must be accepted, from what was published: recorded parts in
      ascending order, their tags given bare, in quotes or not at all, with their
      files in place and at most 1065353216 bytes in all. */
  lemma PublishedIsAcceptable(input: seq<RequestedPart>, db: Record, files: map<int, Bytes>, etagOf: Bytes -> string,
                              minSize: nat, numbers: seq<int>)
    requires |numbers| == |input| > 0 && forall i, j :: 0 <= i < j < |numbers| ==> numbers[i] < numbers[j]
    requires forall i :: 0 <= i < |numbers| ==> input[i].number == Some(numbers[i])
    requires forall i :: 0 <= i < |numbers| ==> IsIntact(db, files, etagOf, numbers[i])
    requires forall i :: 0 <= i < |numbers| ==> GivesTag(input[i], etagOf(FileOf(files, numbers[i])))
    requires minSize <= |Concat(Files(files, numbers))| <= 1065353216
    ensures Acceptable(input, db, files, etagOf, minSize, numbers)
  {
    TotalIsLength(db, files, numbers);
    forall i | 0 <= i < |numbers| ensures TagAgrees(input[i], db[numbers[i]]) {
      QuotedTagIsTrimmed(db[numbers[i]].etag);
    }
  }

  /** And no request over that size, or with another tag, is. */
  lemma AcceptableIsBounded(input: seq<RequestedPart>, db: Record, files: map<int, Bytes>, etagOf: Bytes -> string,
                            minSize: nat, numbers: seq<int>, i: nat)
    requires Acceptable(input, db, files, etagOf, minSize, numbers) && i < |numbers|
    ensures minSize <= |Concat(Files(files, numbers))| <= 1065353216
    ensures input[i].number == Some(numbers[i]) && (i > 0 ==> numbers[i - 1] < numbers[i])
    ensures input[i].etag.Some? && NoOuterQuotes(input[i].etag.value)
        ==> input[i].etag.value == etagOf(files[numbers[i]])
  {
    if input[i].etag.Some? && NoOuterQuotes(input[i].etag.value) { QuotedTagIsTrimmed(input[i].etag.value); }
  }

  /** When the entity tag determines the bytes and the record was made from
      published bytes, an accepted assembly is the concatenation of exactly the
      published parts, whatever files a failed re-upload left behind. */
  lemma AssembledIsWhatWasPublished(db: Record, files: map<int, Bytes>, published: map<int, Bytes>,
                                    etagOf: Bytes -> string, numbers: seq<int>)
    requires forall a, b :: etagOf(a) == etagOf(b) ==> a == b
    requires forall n :: n in db ==> n in published && db[n] == Part(|published[n]|, etagOf(published[n]))
    requires Matches(db, files, etagOf, numbers)
    ensures Concat(Files(files, numbers)) == Concat(Files(published, numbers))
  {
    forall i | 0 <= i < |numbers| ensures FileOf(files, numbers[i]) == FileOf(published, numbers[i]) {
      assert etagOf(files[numbers[i]]) == etagOf(published[numbers[i]]);
    }
    assert Files(files, numbers) == Files(published, numbers);
  }
}
