/**
 Resumable export of one verified cut into an archive directory.

 An export plan is the list of payload artifacts in walk order followed by the
 completion marker. One run adds a bounded number of the artifacts that are missing.
 */
module CutExport {
  import opened Prelude
  import opened ArchiveDisk
  import opened ImmutableArchives

  datatype Artifact = Artifact(name: string, bytes: Bytes)

  const COMPLETE: string := "complete"

  ghost predicate Differ(plan: seq<Artifact>, i: nat, j: nat)
    requires i < |plan| && j < |plan|
  {
    plan[i].name != plan[j].name
  }

  ghost predicate NamesDistinct(plan: seq<Artifact>) {
    forall i, j | 0 <= i < j < |plan| :: Differ(plan, i, j)
  }

  /** A cut as far as its export is concerned: payloads in walk order, and the marker. */
  datatype Cut = Cut(payload: seq<Artifact>, marker: Bytes) {

    function Plan(): seq<Artifact> {
      payload + [Artifact(COMPLETE, marker)]
    }

    /** What the walk guarantees about its file names. */
    ghost predicate WellFormed() {
      && NamesDistinct(payload)
      && forall f <- payload :: f.name != COMPLETE && NormalComponent(f.name) && f.name != STAGING_DIRECTORY
    }
  }

  lemma DistinctPrefix(plan: seq<Artifact>, n: nat)
    requires NamesDistinct(plan) && n <= |plan|
    ensures NamesDistinct(plan[..n])
  {
    forall i, j | 0 <= i < j < n ensures Differ(plan[..n], i, j) {
      assert Differ(plan, i, j);
    }
  }

  lemma DistinctInit(plan: seq<Artifact>)
    requires NamesDistinct(plan) && plan != []
    ensures NamesDistinct(plan[..|plan| - 1])
    ensures forall a <- plan[..|plan| - 1] :: a.name != plan[|plan| - 1].name
  {
    var n := |plan| - 1;
    DistinctPrefix(plan, n);
    forall i | 0 <= i < n ensures plan[i].name != plan[n].name {
      assert Differ(plan, i, n);
    }
  }

  lemma DistinctMore(plan: seq<Artifact>, last: Artifact)
    requires NamesDistinct(plan) && forall a <- plan :: a.name != last.name
    ensures NamesDistinct(plan + [last])
  {
    forall i, j | 0 <= i < j < |plan| + 1 ensures Differ(plan + [last], i, j) {
      assert j < |plan| ==> Differ(plan, i, j);
    }
  }

  predicate InPlan(plan: seq<Artifact>, name: string) {
    exists i | 0 <= i < |plan| :: plan[i].name == name
  }

  /** The artifacts of the plan that are not saved, in order. */
  function Missing(plan: seq<Artifact>, saved: map<string, Bytes>): seq<Artifact> {
    if plan == [] then []
    else
      var rest := Missing(plan[..|plan| - 1], saved);
      if plan[|plan| - 1].name in saved then rest else rest + [plan[|plan| - 1]]
  }

  function AddAll(saved: map<string, Bytes>, artifacts: seq<Artifact>): map<string, Bytes> {
    if artifacts == [] then saved
    else
      var last := artifacts[|artifacts| - 1];
      AddAll(saved, artifacts[..|artifacts| - 1])[last.name := last.bytes]
  }

  /** The archive after adding the first `budget` missing artifacts in order. */
  function Fill(plan: seq<Artifact>, saved: map<string, Bytes>, budget: nat): map<string, Bytes> {
    var missing := Missing(plan, saved);
    AddAll(saved, missing[..Min(budget, |missing|)])
  }

  /** The archive that holds exactly the plan. */
  function Target(plan: seq<Artifact>): map<string, Bytes> {
    AddAll(map[], plan)
  }

  /** Every saved artifact belongs to the plan and has its exact bytes. */
  ghost predicate Within(saved: map<string, Bytes>, plan: seq<Artifact>) {
    forall n <- saved :: exists i :: 0 <= i < |plan| && plan[i].name == n && plan[i].bytes == saved[n]
  }

  /** An archive an export may write to: no foreign name, no altered byte, and no
      completion marker over missing material. */
  ghost predicate Acceptable(cut: Cut, saved: map<string, Bytes>) {
    && Within(saved, cut.Plan())
    && (COMPLETE in saved ==> forall f <- cut.payload :: f.name in saved)
  }

  // ---- filling ---------------------------------------------------------------

  lemma {:induction false} MissingOfConcat(p: seq<Artifact>, q: seq<Artifact>, saved: map<string, Bytes>)
    ensures Missing(p + q, saved) == Missing(p, saved) + Missing(q, saved)
  {
    if q == [] {
      assert p + q == p;
    } else {
      assert (p + q)[..|p + q| - 1] == p + q[..|q| - 1];
      MissingOfConcat(p, q[..|q| - 1], saved);
    }
  }

  /** Missing artifacts are exactly the plan's artifacts whose name is not saved. */
  lemma {:induction false} MissingMember(plan: seq<Artifact>, saved: map<string, Bytes>, a: Artifact)
    ensures a in Missing(plan, saved) <==> a in plan && a.name !in saved
  {
    if plan != [] {
      assert plan == plan[..|plan| - 1] + [plan[|plan| - 1]];
      MissingMember(plan[..|plan| - 1], saved, a);
    }
  }

  lemma {:induction false} MissingDistinct(plan: seq<Artifact>, saved: map<string, Bytes>)
    requires NamesDistinct(plan)
    ensures NamesDistinct(Missing(plan, saved))
  {
    if plan != [] {
      var init, last := plan[..|plan| - 1], plan[|plan| - 1];
      DistinctInit(plan);
      MissingDistinct(init, saved);
      forall a | a in Missing(init, saved) ensures a.name != last.name {
        MissingMember(init, saved, a);
      }
      if last.name !in saved {
        DistinctMore(Missing(init, saved), last);
      }
    }
  }

  lemma {:induction false} AddAllKeys(saved: map<string, Bytes>, artifacts: seq<Artifact>)
    ensures forall n :: n in AddAll(saved, artifacts) <==> n in saved || InPlan(artifacts, n)
    ensures forall n :: n in saved && !InPlan(artifacts, n) ==> AddAll(saved, artifacts)[n] == saved[n]
  {
    if artifacts != [] {
      var init, last := artifacts[..|artifacts| - 1], artifacts[|artifacts| - 1];
      AddAllKeys(saved, init);
      assert forall n :: InPlan(artifacts, n) <==> InPlan(init, n) || n == last.name;
    }
  }

  lemma {:induction false} AddAllValue(saved: map<string, Bytes>, artifacts: seq<Artifact>, i: nat)
    requires NamesDistinct(artifacts) && i < |artifacts|
    ensures artifacts[i].name in AddAll(saved, artifacts)
    ensures AddAll(saved, artifacts)[artifacts[i].name] == artifacts[i].bytes
  {
    DistinctInit(artifacts);
    if i < |artifacts| - 1 {
      AddAllValue(saved, artifacts[..|artifacts| - 1], i);
      assert artifacts[i] in artifacts[..|artifacts| - 1];
    }
  }

  lemma MissingNext(payload: seq<Artifact>, saved: map<string, Bytes>, i: nat)
    requires i < |payload|
    ensures Missing(payload[..i + 1], saved) ==
            if payload[i].name in saved then Missing(payload[..i], saved)
            else Missing(payload[..i], saved) + [payload[i]]
  {
    assert payload[..i + 1][..i] == payload[..i];
  }

  /** Stopping at a missing artifact with the budget spent has saved the first ones. */
  lemma MissingSplit(payload: seq<Artifact>, saved: map<string, Bytes>, i: nat)
    requires i < |payload| && payload[i].name !in saved
    ensures var done := Missing(payload[..i], saved);
            && |done| < |Missing(payload, saved)|
            && Missing(payload, saved)[..|done|] == done
  {
    assert payload == payload[..i + 1] + payload[i + 1..];
    MissingOfConcat(payload[..i + 1], payload[i + 1..], saved);
    MissingNext(payload, saved, i);
  }

  lemma AddAllMore(saved: map<string, Bytes>, artifacts: seq<Artifact>, last: Artifact)
    ensures AddAll(saved, artifacts + [last]) == AddAll(saved, artifacts)[last.name := last.bytes]
  {
    assert (artifacts + [last])[..|artifacts|] == artifacts;
  }

  lemma PlanNames(cut: Cut)
    ensures forall n :: InPlan(cut.Plan(), n) <==> InPlan(cut.payload, n) || n == COMPLETE
    ensures cut.WellFormed() ==> NamesDistinct(cut.Plan())
  {
    assert cut.Plan()[|cut.payload|].name == COMPLETE;
    assert forall i | 0 <= i < |cut.payload| :: cut.Plan()[i] == cut.payload[i];
    if cut.WellFormed() {
      DistinctMore(cut.payload, Artifact(COMPLETE, cut.marker));
    }
  }

  /** In an archive of this plan a saved artifact has the plan's bytes. */
  lemma WithinValue(cut: Cut, saved: map<string, Bytes>, i: nat)
    requires cut.WellFormed() && Within(saved, cut.Plan()) && i < |cut.Plan()|
    requires cut.Plan()[i].name in saved
    ensures saved[cut.Plan()[i].name] == cut.Plan()[i].bytes
  {
    PlanNames(cut);
    var plan := cut.Plan();
    forall k | 0 <= k < |plan| && k != i ensures plan[k].name != plan[i].name {
      assert if k < i then Differ(plan, k, i) else Differ(plan, i, k);
    }
  }

  // ---- one run ----------------------------------------------------------------

  datatype CutError = Io(e: IoError) | Altered | Foreign | FalseMarker | Lost | SourceChanged

  /** Partial only means that immutable material was saved. */
  datatype Progress = Progress(newlySaved: nat, complete: bool)

  /** Every byte and the whole inventory are checked before anything is written. */
  method Preflight(archive: ImmutableArchive, cut: Cut) returns (r: Result<set<string>, CutError>)
    requires archive.Valid()
    ensures r.Ok? ==> Acceptable(cut, Files(archive.disk))
    ensures r.Ok? ==> forall n :: n in r.value <==> InPlan(cut.Plan(), n)
    ensures !archive.faulty && cut.WellFormed() && Acceptable(cut, Files(archive.disk)) ==> r.Ok?
  {
    var saved := Files(archive.disk);
    var fault := archive.Faults();
    if fault { return Err(Io(Fault)); }
    var existing := saved.Keys;
    var expected: set<string> := {};
    var missing := false;
    var i := 0;
    while i < |cut.payload|
      invariant i <= |cut.payload|
      invariant forall k | 0 <= k < i && cut.payload[k].name in saved ::
                  saved[cut.payload[k].name] == cut.payload[k].bytes
      invariant forall n :: n in expected <==> InPlan(cut.payload[..i], n)
      invariant missing <==> exists k :: 0 <= k < i && cut.payload[k].name !in saved
    {
      var f := cut.payload[i];
      if f.name in existing {
        fault := archive.Faults();
        if fault { return Err(Io(Fault)); }
        if !archive.Holds(f.name, f.bytes) {
          if cut.WellFormed() && Acceptable(cut, saved) {
            WithinValue(cut, saved, i);
          }
          return Err(Altered);
        }
      } else {
        missing := true;
      }
      expected := expected + {f.name};
      assert cut.payload[..i + 1] == cut.payload[..i] + [f];
      i := i + 1;
    }
    assert cut.payload[..i] == cut.payload;
    expected := expected + {COMPLETE};
    PlanNames(cut);
    if !(existing <= expected) {
      return Err(Foreign);
    }
    if COMPLETE in existing && (missing || !archive.Holds(COMPLETE, cut.marker)) {
      if cut.WellFormed() && Acceptable(cut, saved) {
        WithinValue(cut, saved, |cut.payload|);
      }
      return Err(FalseMarker);
    }
    var plan := cut.Plan();
    forall n <- saved ensures exists i :: 0 <= i < |plan| && plan[i].name == n && plan[i].bytes == saved[n] {
      if n == COMPLETE {
        assert cut.Plan()[|cut.payload|] == Artifact(COMPLETE, cut.marker);
      } else {
        var k :| 0 <= k < |cut.payload| && cut.payload[k].name == n;
        assert cut.Plan()[k] == cut.payload[k];
      }
    }
    r := Ok(expected);
  }

  /** The disk at any moment of a run: only exact material of this cut, and the marker
      only over payload that is durable already. */
  ghost predicate RunState(cut: Cut, d: Disk) {
    && Sealed(d)
    && Within(Files(d), cut.Plan())
    && (COMPLETE in Files(d) ==> forall f <- cut.payload :: Durable(d, f.name))
  }

  lemma StaysDurable(before: Disk, d: Disk, name: string, bytes: Bytes, n: string)
    requires Publishing(before, d, name, bytes) && before.dirtyRoot == {} && n in Files(before)
    ensures Durable(d, n)
  {
    assert n in Files(d);
  }

  ghost predicate TraceOk(cut: Cut, trace: seq<Disk>, from: nat) {
    forall k | from <= k < |trace| :: RunState(cut, trace[k])
  }

  lemma TraceExtends(cut: Cut, start: seq<Disk>, trace: seq<Disk>, longer: seq<Disk>)
    requires start <= trace <= longer
    requires TraceOk(cut, trace, |start|) && TraceOk(cut, longer, |trace|)
    ensures start <= longer && TraceOk(cut, longer, |start|)
  {
    assert forall k | 0 <= k < |trace| :: longer[k] == trace[k];
  }

  lemma PublishingKeepsRunState(cut: Cut, before: Disk, d: Disk, i: nat)
    requires cut.WellFormed() && i < |cut.Plan()|
    requires RunState(cut, before) && before.dirtyRoot == {}
    requires Publishing(before, d, cut.Plan()[i].name, cut.Plan()[i].bytes)
    requires i == |cut.payload| ==> forall f <- cut.payload :: f.name in Files(before)
    ensures RunState(cut, d)
  {
    if COMPLETE in Files(d) {
      forall f | f in cut.payload ensures Durable(d, f.name) {
        StaysDurable(before, d, cut.Plan()[i].name, cut.Plan()[i].bytes, f.name);
      }
    }
  }

  lemma PublishingTraceKeepsRunState(cut: Cut, before: Disk, trace: seq<Disk>, from: nat, i: nat)
    requires cut.WellFormed() && i < |cut.Plan()|
    requires RunState(cut, before) && before.dirtyRoot == {}
    requires forall k | from <= k < |trace| :: Publishing(before, trace[k], cut.Plan()[i].name, cut.Plan()[i].bytes)
    requires i == |cut.payload| ==> forall f <- cut.payload :: f.name in Files(before)
    ensures TraceOk(cut, trace, from)
  {
    forall k | from <= k < |trace| ensures RunState(cut, trace[k]) {
      PublishingKeepsRunState(cut, before, trace[k], i);
    }
  }

  /** The next artifact is still missing exactly when it was missing at the start. */
  lemma StillMissing(payload: seq<Artifact>, saved: map<string, Bytes>, i: nat)
    requires NamesDistinct(payload) && i < |payload|
    ensures payload[i].name in AddAll(saved, Missing(payload[..i], saved)) <==> payload[i].name in saved
  {
    var added := Missing(payload[..i], saved);
    AddAllKeys(saved, added);
    forall j | 0 <= j < i ensures payload[j].name != payload[i].name {
      assert Differ(payload, j, i);
    }
    if InPlan(added, payload[i].name) {
      var k :| 0 <= k < |added| && added[k].name == payload[i].name;
      MissingMember(payload[..i], saved, added[k]);
    }
  }

  /** No storage call fails, and the temporaries in staging leave room for another one. */
  ghost predicate Undisturbed(archive: ImmutableArchive)
    reads archive
  {
    !archive.faulty && archive.writable && HasRoom(archive.disk.staging, archive.pid)
  }

  /** The first artifact of the plan that is missing, from this one on. */
  ghost function FirstMissing(plan: seq<Artifact>, saved: map<string, Bytes>, i: nat): (r: nat)
    requires i <= |plan|
    ensures i <= r <= |plan| && (forall k | i <= k < r :: plan[k].name in saved)
    ensures r < |plan| ==> plan[r].name !in saved
    decreases |plan| - i
  {
    if i == |plan| || plan[i].name !in saved then i else FirstMissing(plan, saved, i + 1)
  }

  /** Every artifact that is there takes one temporary number; when the first missing one is
      reached, every number it would try is taken. */
  ghost predicate Blocked(cut: Cut, files: map<string, Bytes>, staging: map<Temp, Ino>, pid: nat, next: nat) {
    var k := FirstMissing(cut.Plan(), files, 0);
    k < |cut.Plan()| && RetriesTaken(staging, pid, BumpBy(next, k))
  }

  /** What a call for one artifact does to the disk and the counter: an artifact that is
      there takes one number, a missing one that is out of numbers fails. */
  ghost predicate Counted(present: bool, taken: bool, d: Disk, next: nat, ok: bool, d': Disk, next': nat) {
    && (present ==> d' == d && (ok ==> next' == Bump(next)))
    && (!present && taken ==> !ok && d' == d)
  }

  /** Where a run set out: the first artifact that was missing then, and whether the run is
      out of numbers when it reaches it. */
  datatype Start = Start(disk: Disk, next: nat, missing: nat, outOfNumbers: bool)

  ghost function StartOf(payload: seq<Artifact>, d: Disk, pid: nat, next: nat, budget: nat): Start {
    var k := FirstMissing(payload, Files(d), 0);
    Start(d, next, k, budget > 0 && RetriesTaken(d.staging, pid, BumpBy(next, k)))
  }

  /** A run that has only met artifacts that were there has changed nothing yet; and it does
      not get past a missing one that is out of numbers. */
  ghost predicate OnPace(start: Start, i: nat, newly: nat, d: Disk, next: nat) {
    && (i <= start.missing ==> newly == 0 && d == start.disk && next == BumpBy(start.next, i))
    && (start.outOfNumbers ==> i <= start.missing)
  }

  /** How such a run over n artifacts ends. */
  ghost predicate PaceKept(start: Start, n: nat, ok: bool, d: Disk, next: nat) {
    && (start.missing == n ==> d == start.disk && (ok ==> next == BumpBy(start.next, n)))
    && (start.missing < n && start.outOfNumbers ==> !ok && d == start.disk)
  }

  lemma PaceEnd(payload: seq<Artifact>, start: Start, newly: nat, d: Disk, next: nat)
    requires start.missing <= |payload| && OnPace(start, |payload|, newly, d, next)
    ensures PaceKept(start, |payload|, true, d, next)
  {
  }

  lemma PaceStep(
    payload: seq<Artifact>, start: Start, pid: nat, budget: nat, i: nat, newly: nat, before: Disk, next: nat, ok: bool,
    d: Disk, next': nat)
    requires start == StartOf(payload, start.disk, pid, start.next, budget)
    requires i < |payload| && OnPace(start, i, newly, before, next)
    requires Counted(payload[i].name in Files(before), newly != budget && RetriesTaken(before.staging, pid, next),
                     before, next, ok, d, next')
    ensures ok && payload[i].name in Files(before) ==> OnPace(start, i + 1, newly, d, next')
    ensures ok && payload[i].name !in Files(before) && (i == start.missing ==> newly != budget) ==>
              !start.outOfNumbers && i >= start.missing
    ensures start.missing == |payload| ==> d == start.disk
    ensures start.outOfNumbers ==> d == start.disk
  {
  }

  /** The archive between two artifacts of a run. */
  ghost predicate Settled(archive: ImmutableArchive, cut: Cut)
    reads archive
  {
    archive.Valid() && archive.disk.dirtyRoot == {} && RunState(cut, archive.disk)
  }

  /** Publishes the i-th artifact of the plan. */
  method SaveOne(archive: ImmutableArchive, cut: Cut, i: nat) returns (r: Result<bool, CutError>)
    requires cut.WellFormed() && i < |cut.Plan()| && Settled(archive, cut)
    requires i == |cut.payload| ==> forall f <- cut.payload :: f.name in Files(archive.disk)
    modifies archive`disk, archive`trace, archive`nextTemporary
    ensures archive.Valid() && old(archive.trace) <= archive.trace
    ensures TraceOk(cut, archive.trace, |old(archive.trace)|)
    ensures r.Ok? ==>
              var f := cut.Plan()[i];
              && Settled(archive, cut) && archive.disk.staging == old(archive.disk.staging)
              && (r.value <==> f.name !in Files(old(archive.disk)))
              && Files(archive.disk)
                 == if r.value then Files(old(archive.disk))[f.name := f.bytes] else Files(old(archive.disk))
    ensures var d, next := old(archive.disk), old(archive.nextTemporary);
            Counted(cut.Plan()[i].name in Files(d), RetriesTaken(d.staging, archive.pid, next),
                    d, next, r.Ok?, archive.disk, archive.nextTemporary)
    ensures old(Undisturbed(archive)) ==> r.Ok?
  {
    var f := cut.Plan()[i];
    ghost var prior := archive.disk;
    if f.name in Files(prior) {
      WithinValue(cut, Files(prior), i);
    }
    assert NormalComponent(f.name) && f.name != STAGING_DIRECTORY;
    var published := archive.Publish(f.name, f.bytes);
    PublishingTraceKeepsRunState(cut, prior, archive.trace, |old(archive.trace)|, i);
    PublishingKeepsRunState(cut, prior, archive.disk, i);
    match published
    case Err(e) => r := Err(Io(e));
    case Ok(isNew) => r := Ok(isNew);
  }

  /** The archive, and how much is new, once the first artifacts have been gone through. */
  ghost function SavedUpTo(payload: seq<Artifact>, saved: map<string, Bytes>, i: nat): map<string, Bytes>
    requires i <= |payload|
  {
    if i == 0 then saved
    else
      var before, f := SavedUpTo(payload, saved, i - 1), payload[i - 1];
      if f.name in saved then before else before[f.name := f.bytes]
  }

  ghost function CountUpTo(payload: seq<Artifact>, saved: map<string, Bytes>, i: nat): nat
    requires i <= |payload|
  {
    if i == 0 then 0
    else CountUpTo(payload, saved, i - 1) + if payload[i - 1].name in saved then 0 else 1
  }

  /** These are the missing ones among the first artifacts. */
  lemma {:induction false} SavedUpToIs(payload: seq<Artifact>, saved: map<string, Bytes>, i: nat)
    requires i <= |payload|
    ensures SavedUpTo(payload, saved, i) == AddAll(saved, Missing(payload[..i], saved))
    ensures CountUpTo(payload, saved, i) == |Missing(payload[..i], saved)|
  {
    if i > 0 {
      SavedUpToIs(payload, saved, i - 1);
      MissingNext(payload, saved, i - 1);
      AddAllMore(saved, Missing(payload[..i - 1], saved), payload[i - 1]);
    }
  }

  lemma SavedNext(payload: seq<Artifact>, saved: map<string, Bytes>, i: nat)
    requires NamesDistinct(payload) && i < |payload|
    ensures payload[i].name in SavedUpTo(payload, saved, i) <==> payload[i].name in saved
  {
    StillMissing(payload, saved, i);
    SavedUpToIs(payload, saved, i);
  }

  /** How far a run is: the first artifacts are gone through and this many are new. */
  ghost predicate SavedSoFar(
    payload: seq<Artifact>, saved: map<string, Bytes>, files: map<string, Bytes>, i: nat, newly: nat, budget: nat)
    requires i <= |payload|
  {
    files == SavedUpTo(payload, saved, i) && newly == CountUpTo(payload, saved, i) <= budget
  }

  lemma SavedStep(
    payload: seq<Artifact>, saved: map<string, Bytes>, before: map<string, Bytes>, files: map<string, Bytes>, i: nat,
    newly: nat, budget: nat, isNew: bool)
    requires NamesDistinct(payload) && i < |payload| && SavedSoFar(payload, saved, before, i, newly, budget)
    requires (isNew <==> payload[i].name !in before) && (isNew ==> newly != budget)
    requires files == if isNew then before[payload[i].name := payload[i].bytes] else before
    ensures SavedSoFar(payload, saved, files, i + 1, if isNew then newly + 1 else newly, budget)
  {
    SavedNext(payload, saved, i);
  }

  /** The missing payload is saved in order as far as the budget goes. */
  ghost predicate PayloadSaved(
    payload: seq<Artifact>, saved: map<string, Bytes>, files: map<string, Bytes>, newly: nat, all: bool, budget: nat)
  {
    var missing := Missing(payload, saved);
    && newly == Min(budget, |missing|) && (all <==> |missing| <= budget)
    && files == AddAll(saved, missing[..newly])
  }

  /** Where the saving loop stops: at the end, or at a missing artifact with the budget used up. */
  ghost predicate StoppedAt(
    payload: seq<Artifact>, saved: map<string, Bytes>, files: map<string, Bytes>, i: nat, newly: nat, all: bool,
    budget: nat)
  {
    && i <= |payload| && SavedSoFar(payload, saved, files, i, newly, budget)
    && if all then i == |payload| else i < |payload| && payload[i].name !in files && newly == budget
  }

  lemma StoppedIsSaved(
    payload: seq<Artifact>, saved: map<string, Bytes>, files: map<string, Bytes>, i: nat, newly: nat, all: bool,
    budget: nat)
    requires NamesDistinct(payload) && StoppedAt(payload, saved, files, i, newly, all, budget)
    ensures PayloadSaved(payload, saved, files, newly, all, budget)
  {
    SavedUpToIs(payload, saved, i);
    if all {
      assert payload[..|payload|] == payload;
      assert Missing(payload, saved)[..newly] == Missing(payload, saved);
    } else {
      SavedNext(payload, saved, i);
      MissingSplit(payload, saved, i);
    }
  }

  /** Saves one payload artifact, or stops at a missing one when the budget is used up. */
  method SaveNext(archive: ImmutableArchive, cut: Cut, i: nat, full: bool) returns (r: Result<Option<bool>, CutError>)
    requires cut.WellFormed() && i < |cut.payload| && Settled(archive, cut)
    modifies archive`disk, archive`trace, archive`nextTemporary
    ensures archive.Valid() && old(archive.trace) <= archive.trace
    ensures TraceOk(cut, archive.trace, |old(archive.trace)|)
    ensures r == Ok(None) ==> full && cut.payload[i].name !in Files(archive.disk) && archive.disk == old(archive.disk)
    ensures r.Ok? && r.value.Some? ==>
              var f := cut.payload[i];
              && (r.value.value <==> f.name !in Files(old(archive.disk))) && (r.value.value ==> !full)
              && Files(archive.disk)
                 == if r.value.value then Files(old(archive.disk))[f.name := f.bytes] else Files(old(archive.disk))
    ensures r.Ok? ==> Settled(archive, cut) && archive.disk.staging == old(archive.disk.staging)
    ensures var d, next := old(archive.disk), old(archive.nextTemporary);
            Counted(cut.payload[i].name in Files(d), !full && RetriesTaken(d.staging, archive.pid, next),
                    d, next, r.Ok?, archive.disk, archive.nextTemporary)
    ensures old(Undisturbed(archive)) ==> r.Ok?
  {
    assert cut.Plan()[i] == cut.payload[i];
    var fault := archive.Faults();
    if fault { return Err(Io(Fault)); }
    if !archive.Contains(cut.payload[i].name) && full {
      return Ok(None);
    }
    var published := SaveOne(archive, cut, i);
    match published
    case Err(e) => r := Err(e);
    case Ok(isNew) => r := Ok(Some(isNew));
  }

  /** A run between two payload artifacts: what it started from, and how far it is. */
  ghost predicate Midway(
    archive: ImmutableArchive, cut: Cut, budget: nat, begun: seq<Disk>, start: Start, i: nat, newly: nat)
    requires i <= |cut.payload|
    reads archive
  {
    && Settled(archive, cut) && begun <= archive.trace && TraceOk(cut, archive.trace, |begun|)
    && archive.disk.staging == start.disk.staging
    && SavedSoFar(cut.payload, Files(start.disk), Files(archive.disk), i, newly, budget)
    && OnPace(start, i, newly, archive.disk, archive.nextTemporary)
  }

  /** One round of the saving loop; None once the budget is used up. */
  method SaveRound(
    archive: ImmutableArchive, cut: Cut, budget: nat, i: nat, newly: nat, ghost begun: seq<Disk>, ghost start: Start)
    returns (r: Result<Option<nat>, CutError>)
    requires cut.WellFormed() && i < |cut.payload|
    requires start == StartOf(cut.payload, start.disk, archive.pid, start.next, budget)
    requires Midway(archive, cut, budget, begun, start, i, newly)
    modifies archive`disk, archive`trace, archive`nextTemporary
    ensures archive.Valid() && begun <= archive.trace && TraceOk(cut, archive.trace, |begun|)
    ensures r.Ok? && r.value.Some? ==> Midway(archive, cut, budget, begun, start, i + 1, r.value.value)
    ensures r.Err? || r.value.None? ==>
              PaceKept(start, |cut.payload|, r.Ok?, archive.disk, archive.nextTemporary)
    ensures r == Ok(None) ==>
              && Settled(archive, cut) && archive.disk.staging == start.disk.staging
              && cut.payload[i].name !in Files(archive.disk) && newly == budget
              && SavedSoFar(cut.payload, Files(start.disk), Files(archive.disk), i, newly, budget)
    ensures old(Undisturbed(archive)) ==> r.Ok?
  {
    ghost var trace, prior, next := archive.trace, archive.disk, archive.nextTemporary;
    ghost var saved, before := Files(start.disk), Files(prior);
    var step := SaveNext(archive, cut, i, newly == budget);
    PaceStep(
      cut.payload, start, archive.pid, budget, i, newly, prior, next, step.Ok?, archive.disk, archive.nextTemporary);
    TraceExtends(cut, begun, trace, archive.trace);
    match step
    case Err(e) => r := Err(e);
    case Ok(None) => r := Ok(None);
    case Ok(Some(isNew)) =>
      SavedStep(cut.payload, saved, before, Files(archive.disk), i, newly, budget, isNew);
      r := Ok(Some(if isNew then newly + 1 else newly));
  }

  /** Saves missing payload in walk order until the budget is used up. */
  method SavePayload(archive: ImmutableArchive, cut: Cut, budget: nat)
    returns (r: Result<(nat, bool), CutError>, ghost stop: nat)
    requires cut.WellFormed() && Settled(archive, cut)
    modifies archive`disk, archive`trace, archive`nextTemporary
    ensures archive.Valid() && old(archive.trace) <= archive.trace
    ensures TraceOk(cut, archive.trace, |old(archive.trace)|)
    ensures r.Ok? ==> Settled(archive, cut) && archive.disk.staging == old(archive.disk.staging)
    ensures r.Ok? ==>
              var saved, files := Files(old(archive.disk)), Files(archive.disk);
              StoppedAt(cut.payload, saved, files, stop, r.value.0, r.value.1, budget)
    ensures var start := StartOf(cut.payload, old(archive.disk), archive.pid, old(archive.nextTemporary), budget);
            PaceKept(start, |cut.payload|, r.Ok?, archive.disk, archive.nextTemporary)
    ensures old(Undisturbed(archive)) ==> r.Ok?
  {
    ghost var begun := archive.trace;
    ghost var start := StartOf(cut.payload, archive.disk, archive.pid, archive.nextTemporary, budget);
    var newly: nat := 0;
    var i := 0;
    while i < |cut.payload|
      invariant i <= |cut.payload| && Midway(archive, cut, budget, begun, start, i, newly)
    {
      var step := SaveRound(archive, cut, budget, i, newly, begun, start);
      match step
      case Err(e) => return Err(e), i;
      case Ok(None) => return Ok((newly, false)), i;
      case Ok(Some(n)) =>
        newly := n;
        i := i + 1;
    }
    PaceEnd(cut.payload, start, newly, archive.disk, archive.nextTemporary);
    r, stop := Ok((newly, true)), i;
  }

  /** The third walk: every payload artifact is there with its exact bytes. */
  method Recheck(archive: ImmutableArchive, cut: Cut) returns (r: Option<CutError>)
    requires archive.Valid()
    ensures r == None ==>
              forall f <- cut.payload :: f.name in Files(archive.disk) && Files(archive.disk)[f.name] == f.bytes
    ensures (!archive.faulty && cut.WellFormed() && Within(Files(archive.disk), cut.Plan())
             && (forall f <- cut.payload :: f.name in Files(archive.disk)))
            ==> r == None
  {
    var i := 0;
    while i < |cut.payload|
      invariant i <= |cut.payload|
      invariant forall k | 0 <= k < i ::
          cut.payload[k].name in Files(archive.disk) && Files(archive.disk)[cut.payload[k].name] == cut.payload[k].bytes
    {
      var fault := archive.Faults();
      if fault { return Some(Io(Fault)); }
      if !archive.Holds(cut.payload[i].name, cut.payload[i].bytes) {
        if cut.WellFormed() && Within(Files(archive.disk), cut.Plan()) && cut.payload[i].name in Files(archive.disk) {
          assert cut.Plan()[i] == cut.payload[i];
          WithinValue(cut, Files(archive.disk), i);
        }
        return Some(Altered);
      }
      i := i + 1;
    }
    r := None;
  }

  /** The missing part of the plan is the missing payload, then the marker. */
  lemma MissingPlan(cut: Cut, saved: map<string, Bytes>)
    requires cut.WellFormed()
    ensures Missing(cut.Plan(), saved) ==
            if COMPLETE in saved then Missing(cut.payload, saved)
            else Missing(cut.payload, saved) + [Artifact(COMPLETE, cut.marker)]
    ensures Acceptable(cut, saved) && COMPLETE in saved ==> Missing(cut.payload, saved) == []
  {
    assert cut.Plan()[..|cut.payload|] == cut.payload;
    if Acceptable(cut, saved) && COMPLETE in saved && Missing(cut.payload, saved) != [] {
      MissingMember(cut.payload, saved, Missing(cut.payload, saved)[0]);
    }
  }

  /** Saved payload and missing payload together are all of the payload. */
  lemma FilledPayload(cut: Cut, saved: map<string, Bytes>)
    ensures forall f <- cut.payload :: f.name in AddAll(saved, Missing(cut.payload, saved))
  {
    var missing := Missing(cut.payload, saved);
    AddAllKeys(saved, missing);
    forall f | f in cut.payload ensures f.name in AddAll(saved, missing) {
      MissingMember(cut.payload, saved, f);
      if f.name !in saved {
        var k :| 0 <= k < |missing| && missing[k] == f;
      }
    }
  }

  lemma FilledValue(cut: Cut, saved: map<string, Bytes>, i: nat)
    requires cut.WellFormed() && Within(saved, cut.Plan()) && i < |cut.Plan()|
    ensures var f := cut.Plan()[i];
            var filled := AddAll(saved, Missing(cut.Plan(), saved));
            f.name in filled && filled[f.name] == f.bytes
  {
    var plan, missing, f := cut.Plan(), Missing(cut.Plan(), saved), cut.Plan()[i];
    PlanNames(cut);
    MissingDistinct(plan, saved);
    MissingMember(plan, saved, f);
    if f.name in saved {
      WithinValue(cut, saved, i);
      AddAllKeys(saved, missing);
      if InPlan(missing, f.name) {
        var k :| 0 <= k < |missing| && missing[k].name == f.name;
        MissingMember(plan, saved, missing[k]);
      }
    } else {
      var k :| 0 <= k < |missing| && missing[k] == f;
      AddAllValue(saved, missing, k);
    }
  }

  lemma FilledName(cut: Cut, saved: map<string, Bytes>, n: string)
    requires Within(saved, cut.Plan()) && n in AddAll(saved, Missing(cut.Plan(), saved))
    ensures InPlan(cut.Plan(), n)
  {
    var plan, missing := cut.Plan(), Missing(cut.Plan(), saved);
    AddAllKeys(saved, missing);
    if InPlan(missing, n) {
      var k :| 0 <= k < |missing| && missing[k].name == n;
      MissingMember(plan, saved, missing[k]);
      var i :| 0 <= i < |plan| && plan[i] == missing[k];
    }
  }

  lemma TargetHolds(plan: seq<Artifact>)
    requires NamesDistinct(plan)
    ensures forall n <- Target(plan) :: InPlan(plan, n)
    ensures forall i | 0 <= i < |plan| :: plan[i].name in Target(plan) && Target(plan)[plan[i].name] == plan[i].bytes
  {
    AddAllKeys(map[], plan);
    forall i | 0 <= i < |plan| ensures plan[i].name in Target(plan) && Target(plan)[plan[i].name] == plan[i].bytes {
      AddAllValue(map[], plan, i);
    }
  }

  lemma SameMap(a: map<string, Bytes>, b: map<string, Bytes>, plan: seq<Artifact>)
    requires forall n <- a :: InPlan(plan, n)
    requires forall n <- b :: InPlan(plan, n)
    requires forall i | 0 <= i < |plan| :: plan[i].name in a && plan[i].name in b && a[plan[i].name] == b[plan[i].name]
    ensures a == b
  {
  }

  /** Filling without a limit gives exactly the plan, whatever was saved before. */
  lemma FillIsTarget(cut: Cut, saved: map<string, Bytes>, budget: nat)
    requires cut.WellFormed() && Acceptable(cut, saved) && |Missing(cut.Plan(), saved)| <= budget
    ensures Fill(cut.Plan(), saved, budget) == Target(cut.Plan())
  {
    var plan, missing := cut.Plan(), Missing(cut.Plan(), saved);
    assert missing[..|missing|] == missing;
    PlanNames(cut);
    TargetHolds(plan);
    forall i | 0 <= i < |plan|
      ensures plan[i].name in AddAll(saved, missing) && AddAll(saved, missing)[plan[i].name] == plan[i].bytes
    {
      FilledValue(cut, saved, i);
    }
    forall n | n in AddAll(saved, missing) ensures InPlan(plan, n) {
      FilledName(cut, saved, n);
    }
    SameMap(AddAll(saved, missing), Target(plan), plan);
  }

  /** With all payload saved and nothing foreign, the inventory is the plan's. */
  lemma InventoryAsExpected(cut: Cut, saved: map<string, Bytes>)
    requires Within(saved, cut.Plan()) && forall f <- cut.payload :: f.name in saved
    ensures forall n :: n != COMPLETE ==> (n in saved <==> InPlan(cut.Plan(), n))
  {
    PlanNames(cut);
  }

  /** Publishes the marker and checks the inventory a last time. */
  method SaveMarker(archive: ImmutableArchive, cut: Cut, expected: set<string>, newly: nat)
    returns (r: Result<Progress, CutError>)
    requires cut.WellFormed() && Settled(archive, cut)
    requires forall n :: n in expected <==> InPlan(cut.Plan(), n)
    requires forall f <- cut.payload :: f.name in Files(archive.disk)
    modifies archive`disk, archive`trace, archive`nextTemporary
    ensures archive.Valid() && old(archive.trace) <= archive.trace
    ensures TraceOk(cut, archive.trace, |old(archive.trace)|)
    ensures r.Ok? ==> Settled(archive, cut) && archive.disk.staging == old(archive.disk.staging)
    ensures r.Ok? ==>
              var saved := Files(old(archive.disk));
              if COMPLETE in saved then r.value == Progress(newly, true) && Files(archive.disk) == saved
              else r.value == Progress(newly + 1, true) && Files(archive.disk) == saved[COMPLETE := cut.marker]
    ensures COMPLETE !in Files(old(archive.disk))
            && RetriesTaken(old(archive.disk.staging), archive.pid, old(archive.nextTemporary)) ==>
              r.Err? && archive.disk == old(archive.disk)
    ensures old(Undisturbed(archive)) ==> r.Ok?
  {
    assert cut.Plan()[|cut.payload|] == Artifact(COMPLETE, cut.marker);
    var marker := SaveOne(archive, cut, |cut.payload|);
    if marker.Err? { return Err(marker.error); }
    var fault := archive.Faults();
    if fault { return Err(Io(Fault)); }
    if Files(archive.disk).Keys != expected {
      InventoryAsExpected(cut, Files(archive.disk));
      return Err(Lost);
    }
    r := Ok(Progress(if marker.value then newly + 1 else newly, true));
  }

  /** The part of a run after all payload is saved: final checks, then the marker. */
  method Finish(
    archive: ImmutableArchive, cut: Cut, expected: set<string>, budget: nat, newly: nat, sourceUnchanged: bool)
    returns (r: Result<Progress, CutError>)
    requires cut.WellFormed() && Settled(archive, cut)
    requires forall n :: n in expected <==> InPlan(cut.Plan(), n)
    requires forall f <- cut.payload :: f.name in Files(archive.disk)
    modifies archive`disk, archive`trace, archive`nextTemporary
    ensures archive.Valid() && old(archive.trace) <= archive.trace
    ensures TraceOk(cut, archive.trace, |old(archive.trace)|)
    ensures r.Ok? ==> sourceUnchanged && Settled(archive, cut) && archive.disk.staging == old(archive.disk.staging)
    ensures r.Ok? ==>
              var saved := Files(old(archive.disk));
              if COMPLETE in saved then r.value == Progress(newly, true) && Files(archive.disk) == saved
              else if newly == budget then r.value == Progress(newly, false) && Files(archive.disk) == saved
              else r.value == Progress(newly + 1, true) && Files(archive.disk) == saved[COMPLETE := cut.marker]
    ensures !sourceUnchanged ==> archive.disk == old(archive.disk)
    ensures COMPLETE !in Files(old(archive.disk)) && newly != budget
            && RetriesTaken(old(archive.disk.staging), archive.pid, old(archive.nextTemporary)) ==>
              r.Err? && archive.disk == old(archive.disk)
    ensures old(Undisturbed(archive)) && sourceUnchanged ==> r.Ok?
  {
    var fault := archive.Faults();
    if fault { return Err(Io(Fault)); }
    InventoryAsExpected(cut, Files(archive.disk));
    var published := Files(archive.disk).Keys;
    var present := if COMPLETE in published then expected else expected - {COMPLETE};
    if published != present {
      return Err(Lost);
    }
    var changed := Recheck(archive, cut);
    if changed.Some? { return Err(changed.value); }
    if !sourceUnchanged {
      return Err(SourceChanged);
    }
    fault := archive.Faults();
    if fault { return Err(Io(Fault)); }
    if !archive.Contains(COMPLETE) && newly == budget {
      return Ok(Progress(newly, false));
    }
    r := SaveMarker(archive, cut, expected, newly);
  }

  lemma AcceptableIsRunState(cut: Cut, d: Disk)
    requires Sealed(d) && d.dirtyRoot == {} && Acceptable(cut, Files(d))
    ensures RunState(cut, d)
  {
  }

  lemma WithinPlan(saved: map<string, Bytes>, plan: seq<Artifact>)
    requires Within(saved, plan)
    ensures forall n <- saved :: InPlan(plan, n)
  {
  }

  lemma FillPayloadOnly(cut: Cut, saved: map<string, Bytes>, budget: nat)
    requires cut.WellFormed() && budget < |Missing(cut.payload, saved)|
    ensures Fill(cut.Plan(), saved, budget) == AddAll(saved, Missing(cut.payload, saved)[..budget])
    ensures budget < |Missing(cut.Plan(), saved)|
  {
    MissingPlan(cut, saved);
    assert Missing(cut.Plan(), saved)[..budget] == Missing(cut.payload, saved)[..budget];
  }

  lemma MarkerNotInPayload(cut: Cut, saved: map<string, Bytes>)
    requires cut.WellFormed()
    ensures COMPLETE in AddAll(saved, Missing(cut.payload, saved)) <==> COMPLETE in saved
  {
    var missing := Missing(cut.payload, saved);
    AddAllKeys(saved, missing);
    if InPlan(missing, COMPLETE) {
      var k :| 0 <= k < |missing| && missing[k].name == COMPLETE;
      MissingMember(cut.payload, saved, missing[k]);
    }
  }

  /** How the fill of the whole plan continues once all payload is there. */
  lemma FinishedFill(cut: Cut, saved: map<string, Bytes>, budget: nat)
    requires cut.WellFormed() && Acceptable(cut, saved) && |Missing(cut.payload, saved)| <= budget
    ensures var filled := AddAll(saved, Missing(cut.payload, saved));
            && (COMPLETE in filled <==> COMPLETE in saved)
            && Fill(cut.Plan(), saved, budget) ==
               if COMPLETE in saved || |Missing(cut.payload, saved)| == budget then filled
               else filled[COMPLETE := cut.marker]
  {
    var missing, all := Missing(cut.payload, saved), Missing(cut.Plan(), saved);
    MarkerNotInPayload(cut, saved);
    MissingPlan(cut, saved);
    if COMPLETE in saved || |missing| == budget {
      assert all[..Min(budget, |all|)] == missing;
    } else {
      assert all[..Min(budget, |all|)] == all;
      AddAllMore(saved, missing, Artifact(COMPLETE, cut.marker));
    }
  }

  /** What remains of a run once all payload is there, and what it then has done. */
  lemma FinishedRun(cut: Cut, saved: map<string, Bytes>, files: map<string, Bytes>, newly: nat, budget: nat)
    requires cut.WellFormed() && Acceptable(cut, saved)
    requires PayloadSaved(cut.payload, saved, files, newly, true, budget)
    ensures forall f <- cut.payload :: f.name in files
    ensures newly <= budget && (COMPLETE in files <==> COMPLETE in saved)
    ensures var all := Missing(cut.Plan(), saved);
            if COMPLETE in saved then newly == Min(budget, |all|) && |all| <= budget
            else if newly == budget then newly == Min(budget, |all|) && |all| > budget
            else newly + 1 == Min(budget, |all|) && |all| <= budget
    ensures Fill(cut.Plan(), saved, budget) ==
            if COMPLETE in saved || newly == budget then files else files[COMPLETE := cut.marker]
    ensures |Missing(cut.Plan(), saved)| <= budget ==> Fill(cut.Plan(), saved, budget) == Target(cut.Plan())
  {
    var missing := Missing(cut.payload, saved);
    assert missing[..newly] == missing;
    MissingPlan(cut, saved);
    FilledPayload(cut, saved);
    FinishedFill(cut, saved, budget);
    if |Missing(cut.Plan(), saved)| <= budget {
      FillIsTarget(cut, saved, budget);
    }
  }

  /** The first missing artifact of the plan is the first missing payload, or else the marker. */
  lemma FirstMissingOfPlan(cut: Cut, saved: map<string, Bytes>)
    ensures var k := FirstMissing(cut.payload, saved, 0);
            && FirstMissing(cut.Plan(), saved, 0) == (if k == |cut.payload| && COMPLETE in saved then k + 1 else k)
            && (k == |cut.payload| ==> Missing(cut.payload, saved) == [])
  {
    var plan := cut.Plan();
    var k, m := FirstMissing(cut.payload, saved, 0), FirstMissing(plan, saved, 0);
    assert forall i | 0 <= i < |cut.payload| :: plan[i] == cut.payload[i];
    assert plan[|cut.payload|].name == COMPLETE;
    if Missing(cut.payload, saved) != [] {
      MissingMember(cut.payload, saved, Missing(cut.payload, saved)[0]);
    }
  }

  /** A run that is blocked changes nothing; if it gets through the payload, none of that was
      missing, and the marker is missing and out of numbers. */
  lemma BlockedAtMarker(cut: Cut, d: Disk, pid: nat, next: nat, budget: nat, ok: bool, d': Disk, next': nat)
    requires PaceKept(StartOf(cut.payload, d, pid, next, budget), |cut.payload|, ok, d', next')
    ensures budget > 0 && Blocked(cut, Files(d), d.staging, pid, next) ==>
              && d' == d
              && (ok ==> Missing(cut.payload, Files(d)) == [] && COMPLETE !in Files(d)
                         && RetriesTaken(d.staging, pid, next'))
  {
    FirstMissingOfPlan(cut, Files(d));
  }

  /** The first two walks: everything is checked, then missing payload is saved. */
  method CheckAndSave(archive: ImmutableArchive, cut: Cut, budget: nat)
    returns (r: Result<(set<string>, nat, bool), CutError>)
    requires cut.WellFormed() && archive.Valid() && archive.disk.dirtyRoot == {}
    modifies archive`disk, archive`trace, archive`nextTemporary
    ensures archive.Valid() && old(archive.trace) <= archive.trace
    ensures !Acceptable(cut, Files(old(archive.disk))) ==>
              r.Err? && archive.disk == old(archive.disk) && archive.trace == old(archive.trace)
    ensures Acceptable(cut, Files(old(archive.disk))) ==> TraceOk(cut, archive.trace, |old(archive.trace)|)
    ensures r.Ok? ==>
              && Acceptable(cut, Files(old(archive.disk))) && Settled(archive, cut)
              && archive.disk.staging == old(archive.disk.staging)
              && (forall n :: n in r.value.0 <==> InPlan(cut.Plan(), n))
              && PayloadSaved(cut.payload, Files(old(archive.disk)), Files(archive.disk), r.value.1, r.value.2, budget)
    ensures old(Blocked(cut, Files(archive.disk), archive.disk.staging, archive.pid, archive.nextTemporary))
            && budget > 0 ==>
              && archive.disk == old(archive.disk)
              && (r.Ok? ==> r.value.1 == 0 && r.value.2 && COMPLETE !in Files(archive.disk)
                            && RetriesTaken(archive.disk.staging, archive.pid, archive.nextTemporary))
    ensures old(Undisturbed(archive)) && Acceptable(cut, Files(old(archive.disk))) ==> r.Ok?
  {
    ghost var saved := Files(archive.disk);
    var checked := Preflight(archive, cut);
    if checked.Err? { return Err(checked.error); }
    AcceptableIsRunState(cut, archive.disk);
    ghost var d, next := archive.disk, archive.nextTemporary;
    var payload, stop := SavePayload(archive, cut, budget);
    BlockedAtMarker(cut, d, archive.pid, next, budget, payload.Ok?, archive.disk, archive.nextTemporary);
    if payload.Err? { return Err(payload.error); }
    StoppedIsSaved(cut.payload, saved, Files(archive.disk), stop, payload.value.0, payload.value.1, budget);
    var fault := archive.Faults();
    if fault { return Err(Io(Fault)); }
    WithinPlan(Files(archive.disk), cut.Plan());
    if !(Files(archive.disk).Keys <= checked.value) {
      return Err(Foreign);
    }
    r := Ok((checked.value, payload.value.0, payload.value.1));
  }

  /** What a successful run reports and leaves. */
  ghost predicate RanFor(
    cut: Cut, saved: map<string, Bytes>, budget: nat, progress: Progress, files: map<string, Bytes>)
  {
    var missing := Missing(cut.Plan(), saved);
    && progress == Progress(Min(budget, |missing|), |missing| <= budget)
    && files == Fill(cut.Plan(), saved, budget)
    && (progress.complete ==> files == Target(cut.Plan()))
  }

  /** The rest of a run whose payload is all there. */
  method FinishRun(
    archive: ImmutableArchive, cut: Cut, expected: set<string>, budget: nat, newly: nat, sourceUnchanged: bool,
    ghost saved: map<string, Bytes>)
    returns (r: Result<Progress, CutError>)
    requires cut.WellFormed() && Settled(archive, cut) && Acceptable(cut, saved)
    requires forall n :: n in expected <==> InPlan(cut.Plan(), n)
    requires PayloadSaved(cut.payload, saved, Files(archive.disk), newly, true, budget)
    modifies archive`disk, archive`trace, archive`nextTemporary
    ensures archive.Valid() && old(archive.trace) <= archive.trace
    ensures TraceOk(cut, archive.trace, |old(archive.trace)|)
    ensures r.Ok? ==>
              && sourceUnchanged && Settled(archive, cut) && archive.disk.staging == old(archive.disk.staging)
              && RanFor(cut, saved, budget, r.value, Files(archive.disk))
    ensures COMPLETE !in Files(old(archive.disk)) && newly != budget
            && RetriesTaken(old(archive.disk.staging), archive.pid, old(archive.nextTemporary)) ==>
              r.Err? && archive.disk == old(archive.disk)
    ensures old(Undisturbed(archive)) && sourceUnchanged ==> r.Ok?
  {
    FinishedRun(cut, saved, Files(archive.disk), newly, budget);
    r := Finish(archive, cut, expected, budget, newly, sourceUnchanged);
  }

  /** One export run over an opened archive. A run whose first missing artifact is out of
      temporary numbers fails and changes nothing, so the next run under that pid does too. */
  method PublishSourceCut(archive: ImmutableArchive, cut: Cut, budget: nat, sourceUnchanged: bool)
    returns (r: Result<Progress, CutError>)
    requires cut.WellFormed() && archive.Valid() && archive.disk.dirtyRoot == {}
    modifies archive`disk, archive`trace, archive`nextTemporary
    ensures archive.Valid() && old(archive.trace) <= archive.trace
    ensures !Acceptable(cut, Files(old(archive.disk))) ==>
              r.Err? && archive.disk == old(archive.disk) && archive.trace == old(archive.trace)
    ensures Acceptable(cut, Files(old(archive.disk))) ==> TraceOk(cut, archive.trace, |old(archive.trace)|)
    ensures r.Ok? ==>
              && Acceptable(cut, Files(old(archive.disk)))
              && RanFor(cut, Files(old(archive.disk)), budget, r.value, Files(archive.disk))
    ensures r.Ok? && r.value.complete ==> sourceUnchanged
    ensures r.Ok? ==> Settled(archive, cut) && archive.disk.staging == old(archive.disk.staging)
    ensures old(Undisturbed(archive)) && Acceptable(cut, Files(old(archive.disk))) ==>
              (r.Ok? <==> sourceUnchanged || |Missing(cut.payload, Files(old(archive.disk)))| > budget)
    ensures old(Blocked(cut, Files(archive.disk), archive.disk.staging, archive.pid, archive.nextTemporary))
            && budget > 0 ==>
              r.Err? && archive.disk == old(archive.disk)
  {
    ghost var saved := Files(archive.disk);
    var payload := CheckAndSave(archive, cut, budget);
    if payload.Err? { return Err(payload.error); }
    var (expected, newly, savedAll) := payload.value;
    if !savedAll {
      FillPayloadOnly(cut, saved, budget);
      return Ok(Progress(newly, false));
    }
    ghost var trace := archive.trace;
    r := FinishRun(archive, cut, expected, budget, newly, sourceUnchanged, saved);
    TraceExtends(cut, old(archive.trace), trace, archive.trace);
  }
}
