/**
 One process writing to an archive directory nobody else writes to.

 The object is the directory together with the writer's handle on it. `trace` records
 the disk after every system call, so that a contract can speak about a crash between
 any two of them.
 */
module ImmutableArchives {
  import opened Prelude
  import opened ArchiveDisk

  const STAGING_DIRECTORY: string := ".cut-staging-v1"

  /** A filename of exactly one normal path component. */
  predicate NormalComponent(name: string) {
    name != "" && name != "." && name != ".." && '/' !in name
  }

  /** The k-th temporary name tried from a given counter value. */
  function TempAt(pid: nat, next: nat, k: nat): Temp {
    Temp(pid, BumpBy(next, k))
  }

  /** Every temporary the retry loop would try is taken. */
  ghost predicate RetriesTaken(staging: map<Temp, Ino>, pid: nat, next: nat) {
    forall k: nat | k < MAX_STAGING_COLLISION_RETRIES :: TempAt(pid, next, k) in staging
  }

  /** Wherever the counter stands, one of the numbers a call would try is not taken. */
  ghost predicate HasRoom(staging: map<Temp, Ino>, pid: nat) {
    forall next: nat | next <= U64_MAX :: !RetriesTaken(staging, pid, next)
  }

  /** The temporaries in staging that carry this pid. */
  ghost function OwnTemps(staging: map<Temp, Ino>, pid: nat): set<Temp> {
    set t | t in staging && t.pid == pid
  }

  lemma TempsDiffer(pid: nat, next: nat, j: nat, k: nat)
    requires next <= U64_MAX && j < k <= MAX_STAGING_COLLISION_RETRIES
    ensures TempAt(pid, next, j) != TempAt(pid, next, k)
  {
    BumpByIs(next, j);
    BumpByIs(next, k);
  }

  lemma {:induction false} TakenTemps(staging: map<Temp, Ino>, pid: nat, next: nat, n: nat) returns (temps: set<Temp>)
    requires next <= U64_MAX && n <= MAX_STAGING_COLLISION_RETRIES && RetriesTaken(staging, pid, next)
    ensures |temps| == n && temps <= OwnTemps(staging, pid)
    ensures forall t <- temps :: exists k: nat :: k < n && t == TempAt(pid, next, k)
  {
    temps := {};
    if n > 0 {
      temps := TakenTemps(staging, pid, next, n - 1);
      forall j: nat | j < n - 1 ensures TempAt(pid, next, j) != TempAt(pid, next, n - 1) {
        TempsDiffer(pid, next, j, n - 1);
      }
      temps := temps + {TempAt(pid, next, n - 1)};
    }
  }

  /** There is room if fewer temporaries carry the writer's pid than it retries. */
  lemma FewTempsLeaveRoom(staging: map<Temp, Ino>, pid: nat)
    requires |OwnTemps(staging, pid)| < MAX_STAGING_COLLISION_RETRIES
    ensures HasRoom(staging, pid)
  {
    forall next: nat | next <= U64_MAX ensures !RetriesTaken(staging, pid, next) {
      if RetriesTaken(staging, pid, next) {
        var temps := TakenTemps(staging, pid, next, MAX_STAGING_COLLISION_RETRIES);
        Cardinality(temps, OwnTemps(staging, pid));
      }
    }
  }

  /** Temporaries that were there are still there, with their bytes. */
  ghost predicate StagingKept(before: Disk, d: Disk) {
    forall t <- before.staging ::
      && t in d.staging && d.staging[t] == before.staging[t]
      && before.staging[t] in before.content && before.staging[t] in d.content
      && d.content[before.staging[t]] == before.content[before.staging[t]]
  }

  /** What the disk may look like at any moment of publishing one artifact: unchanged to
      a reader, or with exactly this complete artifact added; nothing else unsynchronized. */
  ghost predicate Publishing(before: Disk, d: Disk, name: string, bytes: Bytes) {
    && Sealed(d)
    && (Files(d) == Files(before) || (name !in Files(before) && Files(d) == Files(before)[name := bytes]))
    && d.dirtyRoot <= before.dirtyRoot + (Files(d).Keys - Files(before).Keys)
    && StagingKept(before, d)
  }

  ghost predicate AllPublishing(before: Disk, trace: seq<Disk>, from: nat, name: string, bytes: Bytes) {
    forall k | from <= k < |trace| :: Publishing(before, trace[k], name, bytes)
  }

  /** A reader sees the same artifacts, and no more of them is at risk. */
  ghost predicate SameFiles(before: Disk, d: Disk) {
    Sealed(d) && Files(d) == Files(before) && d.dirtyRoot <= before.dirtyRoot
  }

  ghost predicate AllSameFiles(before: Disk, trace: seq<Disk>, from: nat) {
    forall k | from <= k < |trace| :: SameFiles(before, trace[k])
  }

  /** While a temporary is owned: other inodes and all other temporaries are untouched,
      and the root is unchanged or has the complete, synchronized file under the name. */
  ghost predicate Staging(before: Disk, d: Disk, name: string, bytes: Bytes, ino: Ino) {
    && Sealed(d)
    && d.staging == before.staging
    && (forall i <- before.content :: i in d.content && (i != ino ==> d.content[i] == before.content[i]))
    && (d.root == before.root || (d.root == before.root[name := ino] && d.content[ino] == bytes))
    && d.dirtyRoot <= before.dirtyRoot + (d.root.Keys - before.root.Keys)
  }

  /** Before the link, the temporary's file is not reachable from the root. */
  ghost predicate Unlinked(before: Disk, d: Disk, name: string, bytes: Bytes, ino: Ino) {
    && Staging(before, d, name, bytes, ino) && d.root == before.root && ino in d.content
    && forall n <- d.root :: d.root[n] != ino
  }

  ghost predicate AllStaging(before: Disk, trace: seq<Disk>, from: nat, name: string, bytes: Bytes, ino: Ino) {
    forall k | from <= k < |trace| :: Staging(before, trace[k], name, bytes, ino)
  }

  ghost predicate AllUnlinked(before: Disk, trace: seq<Disk>, from: nat, name: string, bytes: Bytes, ino: Ino) {
    forall k | from <= k < |trace| :: Unlinked(before, trace[k], name, bytes, ino)
  }

  lemma WriteStays(before: Disk, d: Disk, name: string, bytes: Bytes, ino: Ino, written: Bytes)
    requires Unlinked(before, d, name, bytes, ino)
    ensures Unlinked(before, WriteFile(d, ino, written), name, bytes, ino)
    ensures Unlinked(before, SyncFile(d, ino), name, bytes, ino)
    ensures Unlinked(before, SyncStaging(d), name, bytes, ino)
    ensures KeepsDurable(d, WriteFile(d, ino, written)) && KeepsDurable(d, SyncFile(d, ino))
  {
  }

  lemma LinkExposesWholeFile(before: Disk, d: Disk, name: string, bytes: Bytes, ino: Ino)
    requires Unlinked(before, d, name, bytes, ino)
    requires d.content[ino] == bytes && ino !in d.dirtyData && name !in before.root
    ensures Staging(before, LinkRoot(d, name, ino), name, bytes, ino)
    ensures Staging(before, SyncRoot(LinkRoot(d, name, ino)), name, bytes, ino)
    ensures Files(LinkRoot(d, name, ino)) == Files(d)[name := bytes] && KeepsDurable(d, LinkRoot(d, name, ino))
  {
  }

  /** Before the link a reader sees what was there before. */
  lemma UnlinkedFiles(before: Disk, d: Disk, name: string, bytes: Bytes, ino: Ino)
    requires Sealed(before) && Unlinked(before, d, name, bytes, ino)
    ensures Files(d) == Files(before)
  {
  }

  /** A new temporary changes nothing a reader sees. */
  lemma CreateKeeps(before: Disk, temp: Temp, ino: Ino, name: string, bytes: Bytes)
    requires Sealed(before) && temp !in before.staging && ino !in before.content && name !in before.root
    ensures var d := CreateTemp(before, temp, ino);
            && Unlinked(d, d, name, bytes, ino)
            && Files(d) == Files(before)
            && StagingKept(before, d)
  {
  }

  lemma StagingFiles(before: Disk, created: Disk, d: Disk, temp: Temp, name: string, bytes: Bytes, ino: Ino)
    requires Sealed(before) && temp !in before.staging && ino !in before.content && name !in before.root
    requires created == CreateTemp(before, temp, ino)
    requires Staging(created, d, name, bytes, ino)
    ensures Files(d) == if d.root == before.root then Files(before) else Files(before)[name := bytes]
  {
  }

  lemma StagingIsPublishing(before: Disk, created: Disk, d: Disk, temp: Temp, name: string, bytes: Bytes, ino: Ino)
    requires Sealed(before) && temp !in before.staging && ino !in before.content && name !in before.root
    requires created == CreateTemp(before, temp, ino)
    requires Staging(created, d, name, bytes, ino)
    ensures Publishing(before, d, name, bytes)
    ensures d.staging == before.staging[temp := ino]
  {
    StagingFiles(before, created, d, temp, name, bytes, ino);
    assert StagingKept(before, d);
  }

  lemma StagingTrace(
    before: Disk, created: Disk, trace: seq<Disk>, from: nat, temp: Temp, name: string, bytes: Bytes, ino: Ino)
    requires Sealed(before) && temp !in before.staging && ino !in before.content && name !in before.root
    requires created == CreateTemp(before, temp, ino)
    requires AllStaging(created, trace, from, name, bytes, ino)
    ensures AllPublishing(before, trace, from, name, bytes)
  {
    forall k | from <= k < |trace| ensures Publishing(before, trace[k], name, bytes) {
      StagingIsPublishing(before, created, trace[k], temp, name, bytes, ino);
    }
  }

  lemma PublishingOn(
    before: Disk, start: seq<Disk>, trace: seq<Disk>, longer: seq<Disk>, name: string, bytes: Bytes)
    requires start <= trace <= longer
    requires AllPublishing(before, trace, |start|, name, bytes) && AllPublishing(before, longer, |trace|, name, bytes)
    ensures start <= longer && AllPublishing(before, longer, |start|, name, bytes)
  {
    assert forall k | 0 <= k < |trace| :: longer[k] == trace[k];
  }

  lemma RemovalStays(before: Disk, d: Disk, name: string, bytes: Bytes, temp: Temp, ino: Ino)
    requires Publishing(before, d, name, bytes) && temp !in before.staging
    requires d.staging == before.staging[temp := ino]
    ensures RemoveTemp(d, temp).staging == before.staging
    ensures Publishing(before, RemoveTemp(d, temp), name, bytes)
    ensures Publishing(before, SyncStaging(RemoveTemp(d, temp)), name, bytes)
    ensures Files(RemoveTemp(d, temp)) == Files(d) == Files(SyncStaging(RemoveTemp(d, temp)))
    ensures KeepsDurable(d, RemoveTemp(d, temp))
  {
  }

  class ImmutableArchive {
    var disk: Disk
    var trace: seq<Disk>
    var pid: nat
    var nextTemporary: nat
    var writable: bool
    var stagingExists: bool // the staging directory itself
    const faulty: bool      // whether storage calls may fail

    ghost predicate Valid()
      reads this
    {
      && Sealed(disk) && nextTemporary <= U64_MAX && |trace| > 0 && trace[|trace| - 1] == disk && Grows(trace)
      && (writable || disk.staging != map[] ==> stagingExists)
    }

    constructor (d: Disk, faulty: bool)
      requires Sealed(d)
      ensures Valid() && disk == d && trace == [d] && this.faulty == faulty
    {
      disk := d;
      trace := [d];
      pid, nextTemporary, writable, stagingExists := 0, 0, false, d.staging != map[];
      this.faulty := faulty;
    }

    method Apply(d: Disk)
      requires Valid() && Sealed(d) && KeepsDurable(disk, d) && (d.staging != map[] ==> stagingExists)
      modifies this`disk, this`trace
      ensures Valid() && disk == d && trace == old(trace) + [d]
    {
      GrowsOn(trace, d);
      disk := d;
      trace := trace + [d];
    }

    /** Whether the next storage call fails. */
    method Faults() returns (f: bool)
      ensures f ==> faulty
    {
      f := false;
      if faulty {
        f := *;
      }
    }

    /** The process died after one of its system calls, so nothing later happened, and the
        disk is found like this. A staging directory that was not synchronized may be gone. */
    method Crash(at: nat, found: Disk, stagingLost: bool)
      requires Valid() && at < |trace| && Sealed(trace[at]) && Survives(trace[at], found)
      modifies this
      ensures Valid() && disk == found && trace == old(trace)[..at + 1] + [found] && !writable
    {
      GrewBefore(trace, at + 1);
      CrashOfSealed(trace[at], found);
      GrowsOn(trace[..at + 1], found);
      disk, trace, writable := found, trace[..at + 1] + [found], false;
      stagingExists := found.staging != map[] || (stagingExists && !stagingLost);
    }

    /** One of the two directories is synchronized, unless the call fails. */
    method SyncDirectory(root: bool) returns (ok: bool)
      requires Valid()
      modifies this`disk, this`trace
      ensures Valid() && old(trace) <= trace && AllSameFiles(old(disk), trace, |old(trace)|)
      ensures disk == if !ok then old(disk) else if root then SyncRoot(old(disk)) else SyncStaging(old(disk))
      ensures trace == if ok then old(trace) + [disk] else old(trace)
      ensures !faulty ==> ok
    {
      var f := Faults();
      if f { return false; }
      Apply(if root then SyncRoot(disk) else SyncStaging(disk));
      ok := true;
    }

    /** Creates the staging directory if there is none, and synchronizes the root then. */
    method EnsureStaging() returns (ok: bool)
      requires Valid()
      modifies this`disk, this`trace, this`stagingExists
      ensures Valid() && old(trace) <= trace && AllSameFiles(old(disk), trace, |old(trace)|)
      ensures disk == old(disk) || disk == SyncRoot(old(disk))
      ensures ok ==> stagingExists
      ensures !faulty ==> ok
    {
      ok := true;
      if !stagingExists {
        var f := Faults();
        if f { return false; }
        stagingExists := true;
        ok := SyncDirectory(true);
      }
    }

    /** A new process opens the directory. To publish, it creates the staging directory if
        there is none, and synchronizes both directories before anything is published. */
    method Open(pid: nat, writable: bool) returns (r: Result<(), IoError>)
      requires Valid()
      modifies this
      ensures Valid()
      ensures Files(disk) == old(Files(disk)) && disk.staging == old(disk.staging) && disk.root == old(disk.root)
      ensures this.pid == pid && nextTemporary == 0 && (this.writable <==> writable && r.Ok?)
      ensures old(trace) <= trace && AllSameFiles(old(disk), trace, |old(trace)|)
      ensures r.Ok? && writable ==> disk.dirtyRoot == {} && disk.dirtyStaging == {} && stagingExists
      ensures !writable ==> disk == old(disk) && stagingExists == old(stagingExists)
      ensures !faulty ==> r.Ok?
    {
      this.pid, this.nextTemporary, this.writable := pid, 0, false;
      var f := Faults();
      if f { return Err(Fault); }
      if writable {
        var ok := EnsureStaging();
        if !ok { return Err(Fault); }
        ok := SyncDirectory(true);
        if !ok { return Err(Fault); }
        ok := SyncDirectory(false);
        if !ok { return Err(Fault); }
        this.writable := true;
      }
      r := Ok(());
    }

    predicate Contains(name: string)
      reads this
    {
      name in disk.root
    }

    /** `read(name)` agrees with the bytes. */
    predicate Holds(name: string, bytes: Bytes)
      reads this
    {
      name in Files(disk) && Files(disk)[name] == bytes
    }

    /** write_all: each write takes any part of what is left. */
    method WriteAll(name: string, bytes: Bytes, ino: Ino, ghost before: Disk) returns (ok: bool)
      requires Valid() && Unlinked(before, disk, name, bytes, ino) && disk.content[ino] == []
      modifies this`disk, this`trace
      ensures Valid() && old(trace) <= trace
      ensures AllUnlinked(before, trace, |old(trace)|, name, bytes, ino)
      ensures Unlinked(before, disk, name, bytes, ino)
      ensures ok ==> disk.content[ino] == bytes
      ensures !faulty ==> ok
    {
      var done := 0;
      while done < |bytes|
        invariant done <= |bytes| && Valid() && old(trace) <= trace
        invariant AllUnlinked(before, trace, |old(trace)|, name, bytes, ino)
        invariant Unlinked(before, disk, name, bytes, ino) && disk.content[ino] == bytes[..done]
      {
        var taken: int := *;
        var next := if 0 < taken <= |bytes| - done then done + taken else |bytes|;
        WriteStays(before, disk, name, bytes, ino, bytes[..next]);
        Apply(WriteFile(disk, ino, bytes[..next]));
        done := next;
        var f := Faults();
        if f { return false; }
      }
      assert bytes[..done] == bytes;
      ok := true;
    }

    /** File sync, then staging directory sync. */
    method SyncStaged(name: string, bytes: Bytes, ino: Ino, ghost before: Disk) returns (ok: bool)
      requires Valid() && Unlinked(before, disk, name, bytes, ino)
      modifies this`disk, this`trace
      ensures Valid() && old(trace) <= trace
      ensures AllUnlinked(before, trace, |old(trace)|, name, bytes, ino)
      ensures Unlinked(before, disk, name, bytes, ino) && disk.content == old(disk.content)
      ensures ok ==> ino !in disk.dirtyData
      ensures !faulty ==> ok
    {
      var f := Faults();
      if f { return false; }
      WriteStays(before, disk, name, bytes, ino, []);
      Apply(SyncFile(disk, ino));
      WriteStays(before, disk, name, bytes, ino, []);
      ok := SyncDirectory(false);
      f := Faults();
      ok := ok && !f;
    }

    /** write_all, file sync, staging directory sync. */
    method StageBytes(name: string, bytes: Bytes, ino: Ino, ghost before: Disk) returns (ok: bool)
      requires Valid() && Unlinked(before, disk, name, bytes, ino) && disk.content[ino] == []
      modifies this`disk, this`trace
      ensures Valid() && old(trace) <= trace
      ensures AllUnlinked(before, trace, |old(trace)|, name, bytes, ino)
      ensures Unlinked(before, disk, name, bytes, ino)
      ensures ok ==> disk.content[ino] == bytes && ino !in disk.dirtyData
      ensures !faulty ==> ok
    {
      var f := Faults();
      if f { return false; }
      ok := WriteAll(name, bytes, ino, before);
      if ok {
        ok := SyncStaged(name, bytes, ino, before);
      }
    }

    /** hard_link, root directory sync, read back. */
    method Expose(name: string, bytes: Bytes, ino: Ino, ghost before: Disk) returns (outcome: Option<IoError>)
      requires Valid() && Unlinked(before, disk, name, bytes, ino) && Sealed(before) && name !in before.root
      requires disk.content[ino] == bytes && ino !in disk.dirtyData
      modifies this`disk, this`trace
      ensures Valid() && old(trace) <= trace
      ensures AllStaging(before, trace, |old(trace)|, name, bytes, ino)
      ensures Staging(before, disk, name, bytes, ino)
      ensures outcome == None ==> Files(disk) == Files(before)[name := bytes] && disk.dirtyRoot == {}
      ensures outcome == None || outcome == Some(Fault)
      ensures !faulty ==> outcome == None
    {
      if Contains(name) { return Some(AlreadyExists); }
      LinkExposesWholeFile(before, disk, name, bytes, ino);
      UnlinkedFiles(before, disk, name, bytes, ino);
      Apply(LinkRoot(disk, name, ino));
      var f := Faults();
      if f { return Some(Fault); }
      Apply(SyncRoot(disk));
      f := Faults();
      if f { return Some(Fault); }
      if !Holds(name, bytes) { return Some(Differs); }
      outcome := None;
    }

    /** Everything between creating the temporary and cleaning up. */
    method StageAndExpose(name: string, bytes: Bytes, ino: Ino, ghost before: Disk) returns (outcome: Option<IoError>)
      requires Valid() && Unlinked(before, disk, name, bytes, ino) && disk.content[ino] == []
      requires Sealed(before) && name !in before.root
      modifies this`disk, this`trace
      ensures Valid() && old(trace) <= trace
      ensures AllStaging(before, trace, |old(trace)|, name, bytes, ino)
      ensures Staging(before, disk, name, bytes, ino)
      ensures outcome == None ==> Files(disk) == Files(before)[name := bytes] && disk.dirtyRoot == {}
      ensures outcome == None || outcome == Some(Fault)
      ensures !faulty ==> outcome == None
    {
      outcome := Some(Fault);
      var staged := StageBytes(name, bytes, ino, before);
      if staged {
        outcome := Expose(name, bytes, ino, before);
      }
    }

    /** Remove the temporary if it is still the one this call owns. */
    method Cleanup(name: string, bytes: Bytes, temp: Temp, ino: Ino, ghost before: Disk) returns (ok: bool)
      requires Valid() && Publishing(before, disk, name, bytes) && temp !in before.staging
      requires disk.staging == before.staging[temp := ino]
      modifies this`disk, this`trace
      ensures Valid() && old(trace) <= trace
      ensures AllPublishing(before, trace, |old(trace)|, name, bytes)
      ensures Publishing(before, disk, name, bytes)
      ensures Files(disk) == Files(old(disk)) && disk.dirtyRoot == old(disk.dirtyRoot)
      ensures ok ==> disk.staging == before.staging && disk.dirtyStaging == {}
      ensures !faulty ==> ok
    {
      var f := Faults();
      if f || temp !in disk.staging || disk.staging[temp] != ino { return false; }
      f := Faults();
      if f { return false; }
      RemovalStays(before, disk, name, bytes, temp, ino);
      Apply(RemoveTemp(disk, temp));
      f := Faults();
      if f { return false; }
      Apply(SyncStaging(disk));
      f := Faults();
      ok := !f;
    }

    /** Creates the temporary, stages the bytes in it and exposes it. */
    method CreateAndExpose(name: string, bytes: Bytes, temp: Temp) returns (outcome: Option<IoError>, ino: Ino)
      requires Valid() && writable && name !in disk.root && temp !in disk.staging
      modifies this`disk, this`trace
      ensures Valid() && old(trace) <= trace
      ensures AllPublishing(old(disk), trace, |old(trace)|, name, bytes)
      ensures Publishing(old(disk), disk, name, bytes) && disk.staging == old(disk.staging)[temp := ino]
      ensures outcome == None ==> Files(disk) == Files(old(disk))[name := bytes] && disk.dirtyRoot == {}
      ensures outcome == None || outcome == Some(Fault)
      ensures !faulty ==> outcome == None
    {
      ghost var before := disk;
      UnusedInode(disk.content.Keys);
      ino :| ino !in disk.content;
      Apply(CreateTemp(disk, temp, ino));
      ghost var created := disk;
      CreateKeeps(before, temp, ino, name, bytes);
      outcome := StageAndExpose(name, bytes, ino, created);
      StagingTrace(before, created, trace, |old(trace)|, temp, name, bytes, ino);
      StagingIsPublishing(before, created, disk, temp, name, bytes, ino);
    }

    /** Ownership begins once create_new succeeded: stage, expose, clean up. */
    method PublishNew(name: string, bytes: Bytes, temp: Temp) returns (r: Result<bool, IoError>)
      requires Valid() && writable && name !in disk.root && temp !in disk.staging
      modifies this`disk, this`trace
      ensures Valid() && old(trace) <= trace
      ensures AllPublishing(old(disk), trace, |old(trace)|, name, bytes)
      ensures Publishing(old(disk), disk, name, bytes)
      ensures r == Ok(true) ==>
                && Files(disk) == Files(old(disk))[name := bytes]
                && disk.dirtyRoot == {} && disk.staging == old(disk.staging) && disk.dirtyStaging == {}
      ensures r == Ok(true) || r == Err(Fault)
      ensures !faulty ==> r == Ok(true)
    {
      ghost var before := disk;
      var outcome, ino := CreateAndExpose(name, bytes, temp);
      ghost var exposed := trace;
      var cleaned := Cleanup(name, bytes, temp, ino, before);
      PublishingOn(before, old(trace), exposed, trace, name, bytes);
      match outcome
      case Some(e) => r := Err(e);
      case None => r := if cleaned then Ok(true) else Err(Fault);
    }

    /** One attempt with one temporary name. */
    method PublishNumber(name: string, bytes: Bytes, sequence: nat) returns (r: Result<bool, IoError>)
      requires Valid()
      modifies this`disk, this`trace
      ensures Valid() && old(trace) <= trace
      ensures AllPublishing(old(disk), trace, |old(trace)|, name, bytes)
      ensures Publishing(old(disk), disk, name, bytes)
      ensures r == Ok(true) ==>
                && name !in Files(old(disk)) && Files(disk) == Files(old(disk))[name := bytes]
                && disk.dirtyRoot == {} && disk.staging == old(disk.staging) && disk.dirtyStaging == {}
      ensures r == Ok(false) ==> disk == old(disk) && Holds(name, bytes)
      ensures name in Files(old(disk)) || r == Err(AlreadyExists) ==> disk == old(disk) && trace == old(trace)
      ensures r == Err(AlreadyExists) ==> Temp(pid, sequence) in disk.staging && name !in disk.root
      ensures name !in Files(old(disk)) && Temp(pid, sequence) in old(disk.staging) ==>
                r.Err? && disk == old(disk) && trace == old(trace)
      ensures r != Err(RetryBound)
      ensures !faulty && writable && NormalComponent(name) && name != STAGING_DIRECTORY ==>
                r == if name in Files(old(disk)) then
                       (if Files(old(disk))[name] == bytes then Ok(false) else Err(Differs))
                     else if Temp(pid, sequence) in old(disk.staging) then Err(AlreadyExists)
                     else Ok(true)
      ensures name in Files(old(disk)) && Files(old(disk))[name] != bytes ==> r.Err?
    {
      if !NormalComponent(name) || name == STAGING_DIRECTORY { return Err(BadName); }
      if !writable { return Err(ReadOnly); }
      var f := Faults();
      if f { return Err(Fault); }
      if Contains(name) {
        if !Holds(name, bytes) { return Err(Differs); }
        return Ok(false);
      }
      var temp := Temp(pid, sequence);
      f := Faults();
      if f { return Err(Fault); }
      if temp in disk.staging { return Err(AlreadyExists); }
      r := PublishNew(name, bytes, temp);
    }

    /** Returns Ok(true) only when this call published a new complete file. */
    method Publish(name: string, bytes: Bytes) returns (r: Result<bool, IoError>)
      requires Valid()
      modifies this`disk, this`trace, this`nextTemporary
      ensures Valid() && old(trace) <= trace
      ensures AllPublishing(old(disk), trace, |old(trace)|, name, bytes)
      ensures Publishing(old(disk), disk, name, bytes)
      ensures r == Ok(true) ==>
                && name !in Files(old(disk)) && Files(disk) == Files(old(disk))[name := bytes]
                && disk.dirtyRoot == {} && disk.staging == old(disk.staging) && disk.dirtyStaging == {}
      ensures r == Ok(false) ==> disk == old(disk) && trace == old(trace) && Holds(name, bytes)
      ensures name in Files(old(disk)) ==> disk == old(disk) && trace == old(trace)
      ensures name in Files(old(disk)) && Files(old(disk))[name] != bytes ==> r.Err?
      ensures r == Err(RetryBound) ==> disk == old(disk) && RetriesTaken(disk.staging, pid, old(nextTemporary))
      ensures !faulty && writable && NormalComponent(name) && name != STAGING_DIRECTORY ==>
                r == if name in Files(old(disk)) then
                       (if Files(old(disk))[name] == bytes then Ok(false) else Err(Differs))
                     else if RetriesTaken(old(disk.staging), pid, old(nextTemporary)) then Err(RetryBound)
                     else Ok(true)
      ensures name !in Files(old(disk)) && RetriesTaken(old(disk.staging), pid, old(nextTemporary)) ==>
                r.Err? && disk == old(disk) && trace == old(trace)
      ensures name in Files(old(disk)) && r.Ok? ==> nextTemporary == Bump(old(nextTemporary))
    {
      if !writable { return Err(ReadOnly); }
      var i := 0;
      while i < MAX_STAGING_COLLISION_RETRIES
        invariant i <= MAX_STAGING_COLLISION_RETRIES
        invariant disk == old(disk) && trace == old(trace)
        invariant nextTemporary == BumpBy(old(nextTemporary), i)
        invariant forall k: nat | k < i :: TempAt(pid, old(nextTemporary), k) in disk.staging
        invariant i > 0 ==> name !in disk.root
      {
        var sequence := nextTemporary;
        nextTemporary := Bump(nextTemporary);
        assert TempAt(pid, old(nextTemporary), i) == Temp(pid, sequence);
        r := PublishNumber(name, bytes, sequence);
        if r != Err(AlreadyExists) { return; }
        i := i + 1;
      }
      r := Err(RetryBound);
    }
  }
}
