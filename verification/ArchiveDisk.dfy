/**
 The file system below an archive directory, in two layers.

 The maps are what a running process sees. The dirty sets name what has not been
 synchronized yet: a power loss keeps everything outside them and may do anything to
 what is inside them. The root directory holds the final artifact names; staging
 holds the temporaries. Both kinds of entry refer to inodes.
 */
module ArchiveDisk {
  import opened Prelude

  type Ino = nat

  /** The temporary `.cut-{pid}-{sequence}.tmp`. */
  datatype Temp = Temp(pid: nat, sequence: nat)

  const MAX_STAGING_COLLISION_RETRIES: nat := 32

  /** The 64-bit counter of temporary numbers wraps around. */
  function Bump(next: nat): (r: nat)
    ensures next <= U64_MAX ==> r <= U64_MAX
  {
    if next >= U64_MAX then 0 else next + 1
  }

  function BumpBy(next: nat, k: nat): (r: nat)
    ensures next <= U64_MAX ==> r <= U64_MAX
  {
    if k == 0 then next else Bump(BumpBy(next, k - 1))
  }

  /** Taking k numbers is adding k modulo two to the power of 64. */
  lemma {:induction false} BumpByIs(next: nat, k: nat)
    requires next <= U64_MAX && k <= U64_MAX
    ensures BumpBy(next, k) == if next + k <= U64_MAX then next + k else next + k - (U64_MAX + 1)
  {
    if k > 0 {
      BumpByIs(next, k - 1);
    }
  }

  /** AlreadyExists is what both create_new and hard_link answer on a taken name;
      RetryBound is the same error kind after the last retry. */
  datatype IoError = AlreadyExists | Differs | Fault | RetryBound | BadName | ReadOnly

  datatype Disk = Disk(
    content: map<Ino, Bytes>,
    dirtyData: set<Ino>,
    root: map<string, Ino>,
    dirtyRoot: set<string>,
    staging: map<Temp, Ino>,
    dirtyStaging: set<Temp>)

  /** Entries refer to inodes that exist. */
  ghost predicate Valid(d: Disk) {
    && (forall n <- d.root :: d.root[n] in d.content)
    && (forall t <- d.staging :: d.staging[t] in d.content)
    && d.dirtyRoot <= d.root.Keys
  }

  /** Every final name refers to a file whose bytes are already durable. */
  ghost predicate Sealed(d: Disk) {
    && Valid(d)
    && forall n <- d.root :: d.root[n] !in d.dirtyData
  }

  /** The artifacts a reader of the root directory sees. */
  function Files(d: Disk): (files: map<string, Bytes>)
  {
    map n | n in d.root && d.root[n] in d.content :: d.content[d.root[n]]
  }

  /** The final name would still be there after a power loss. */
  predicate Durable(d: Disk, name: string) {
    name in d.root && name !in d.dirtyRoot
  }

  /** Nothing that was durable is lost or altered. */
  ghost predicate KeepsDurable(before: Disk, d: Disk) {
    forall n <- Files(before) ::
      Durable(before, n) ==> n in Files(d) && Files(d)[n] == Files(before)[n] && Durable(d, n)
  }

  ghost predicate KeepsNext(history: seq<Disk>, k: nat)
    requires k + 1 < |history|
  {
    KeepsDurable(history[k], history[k + 1])
  }

  /** A history in which nothing that was durable at some moment is lost at the next. */
  ghost predicate Grows(history: seq<Disk>) {
    forall k: nat | k + 1 < |history| :: KeepsNext(history, k)
  }

  lemma GrowsOn(history: seq<Disk>, d: Disk)
    requires |history| > 0 && Grows(history) && KeepsDurable(history[|history| - 1], d)
    ensures Grows(history + [d])
  {
    forall k: nat | k + 1 < |history + [d]| ensures KeepsNext(history + [d], k) {
      assert k + 1 < |history| ==> KeepsNext(history, k);
    }
  }

  lemma GrewBefore(history: seq<Disk>, n: nat)
    requires n <= |history| && Grows(history)
    ensures Grows(history[..n])
  {
    forall k: nat | k + 1 < n ensures KeepsNext(history[..n], k) {
      assert KeepsNext(history, k);
    }
  }

  /** What is durable at one moment of such a history is there at every later one. */
  lemma {:induction false} DurableForever(history: seq<Disk>, j: nat, k: nat)
    requires Grows(history) && j <= k < |history|
    ensures KeepsDurable(history[j], history[k])
  {
    if j < k {
      DurableForever(history, j, k - 1);
      assert KeepsNext(history, k - 1);
    }
  }

  // ---- system calls ---------------------------------------------------------

  /** open(create_new) of a temporary that does not exist yet. */
  function CreateTemp(d: Disk, t: Temp, ino: Ino): Disk {
    d.(content := d.content[ino := []],
       dirtyData := d.dirtyData + {ino},
       staging := d.staging[t := ino],
       dirtyStaging := d.dirtyStaging + {t})
  }

  function WriteFile(d: Disk, ino: Ino, bytes: Bytes): Disk {
    d.(content := d.content[ino := bytes], dirtyData := d.dirtyData + {ino})
  }

  function SyncFile(d: Disk, ino: Ino): Disk {
    d.(dirtyData := d.dirtyData - {ino})
  }

  function SyncStaging(d: Disk): Disk {
    d.(dirtyStaging := {})
  }

  /** hard_link of an inode under a final name that does not exist yet. */
  function LinkRoot(d: Disk, name: string, ino: Ino): Disk {
    d.(root := d.root[name := ino], dirtyRoot := d.dirtyRoot + {name})
  }

  function SyncRoot(d: Disk): Disk {
    d.(dirtyRoot := {})
  }

  function RemoveTemp(d: Disk, t: Temp): Disk {
    d.(staging := d.staging - {t}, dirtyStaging := d.dirtyStaging + {t})
  }

  // ---- crashes --------------------------------------------------------------

  /** What may be found after a power loss. Unsynchronized contents are arbitrary,
      unsynchronized links are kept or lost one by one, unsynchronized staging
      entries are arbitrary. */
  predicate PowerLoss(d: Disk, after: Disk) {
    && after.content.Keys == d.content.Keys
    && (forall i <- d.content :: i !in d.dirtyData ==> after.content[i] == d.content[i])
    && (forall n <- after.root :: n in d.root && after.root[n] == d.root[n])
    && (forall n <- d.root :: n !in d.dirtyRoot ==> n in after.root)
    && (forall t <- d.staging :: t !in d.dirtyStaging ==> t in after.staging && after.staging[t] == d.staging[t])
    && (forall t <- after.staging :: t !in d.dirtyStaging ==> t in d.staging)
    && (forall t <- after.staging :: after.staging[t] in after.content)
    && after.dirtyData == {} && after.dirtyRoot == {} && after.dirtyStaging == {}
  }

  /** Either the process died and the machine kept running, or the power went. */
  predicate Survives(d: Disk, after: Disk) {
    after == d || PowerLoss(d, after)
  }

  /** A crash of a sealed archive tears nothing: what is left are whole files that
      were there before, and the durable names are among them. */
  lemma CrashOfSealed(d: Disk, after: Disk)
    requires Sealed(d) && Survives(d, after)
    ensures Sealed(after)
    ensures forall n <- Files(after) :: n in Files(d) && Files(after)[n] == Files(d)[n]
    ensures forall n | Durable(d, n) :: n in Files(after) && Durable(after, n)
    ensures after.dirtyRoot <= d.dirtyRoot
    ensures KeepsDurable(d, after)
  {
  }

  lemma {:induction false} Cardinality<T>(a: set<T>, b: set<T>)
    requires a <= b
    ensures |a| <= |b|
  {
    if a != {} {
      var x :| x in a;
      Cardinality(a - {x}, b - {x});
    }
  }

  lemma {:induction false} InitialSegment(n: nat) returns (inos: set<Ino>)
    ensures |inos| == n && forall i <- inos :: i < n
  {
    if n == 0 {
      inos := {};
    } else {
      inos := InitialSegment(n - 1);
      inos := inos + {n - 1};
    }
  }

  /** The file system can always hand out an inode it does not use yet. */
  lemma UnusedInode(used: set<Ino>)
    ensures exists i: Ino :: i !in used
  {
    var inos := InitialSegment(|used| + 1);
    if inos <= used {
      Cardinality(inos, used);
    }
  }
}
