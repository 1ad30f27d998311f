/**
 Whole lifetimes of an archive directory: any number of export runs, of any cuts, with
 any budgets, each cut short by a crash after any system call or not at all.
 */
module CutLifetimes {
  import opened Prelude
  import opened ArchiveDisk
  import opened ImmutableArchives
  import opened CutExport

  // ---- crash ordering ----------------------------------------------------------

  /** This cut is completely saved, and would still be after a power loss. */
  ghost predicate SavedDurably(cut: Cut, d: Disk) {
    && COMPLETE in Files(d) && Files(d)[COMPLETE] == cut.marker
    && forall f <- cut.payload :: f.name in Files(d) && Files(d)[f.name] == f.bytes && Durable(d, f.name)
  }

  /** A completion marker that can be seen stands over complete, durable material. */
  ghost predicate Honest(d: Disk, cuts: set<Cut>) {
    && Sealed(d)
    && (COMPLETE in Files(d) ==> exists cut <- cuts :: SavedDurably(cut, d))
  }

  lemma HonestSurvivesCrash(d: Disk, after: Disk, cuts: set<Cut>)
    requires Honest(d, cuts) && Survives(d, after)
    ensures Honest(after, cuts)
  {
  }

  lemma RunStateIsHonest(cut: Cut, d: Disk, cuts: set<Cut>)
    requires cut.WellFormed() && RunState(cut, d) && cut in cuts
    ensures Honest(d, cuts)
  {
    if COMPLETE in Files(d) {
      var plan := cut.Plan();
      forall i | 0 <= i < |plan| && plan[i].name in Files(d) ensures Files(d)[plan[i].name] == plan[i].bytes {
        WithinValue(cut, Files(d), i);
      }
      assert plan[|cut.payload|] == Artifact(COMPLETE, cut.marker);
      forall f | f in cut.payload ensures f.name in Files(d) && Files(d)[f.name] == f.bytes {
        var i :| 0 <= i < |cut.payload| && cut.payload[i] == f;
        assert plan[i] == f;
      }
      assert SavedDurably(cut, d);
    }
  }

  lemma SameFilesIsHonest(before: Disk, d: Disk, cuts: set<Cut>)
    requires Honest(before, cuts) && SameFiles(before, d)
    ensures Honest(d, cuts)
  {
  }

  ghost predicate AllHonest(trace: seq<Disk>, from: nat, cuts: set<Cut>) {
    forall k | from <= k < |trace| :: Honest(trace[k], cuts)
  }

  /** Where a run is cut short: after which of its system calls, and what is found then. */
  datatype Crash = Crash(step: nat, found: Disk, stagingLost: bool)

  datatype Attempt = Attempt(cut: Cut, budget: nat, sourceUnchanged: bool, pid: nat, crash: Option<Crash>)

  function Cuts(attempts: seq<Attempt>): set<Cut> {
    set a <- attempts :: a.cut
  }

  lemma SameFilesKeepsRunState(cut: Cut, before: Disk, d: Disk)
    requires RunState(cut, before) && SameFiles(before, d)
    ensures RunState(cut, d)
  {
    if COMPLETE in Files(d) {
      forall f | f in cut.payload ensures Durable(d, f.name) {
        assert f.name in Files(before);
      }
    }
  }

  /** Opening leaves honest disks honest, and disks of a run of the cut what they are. */
  lemma OpeningKeeps(start: Disk, before: seq<Disk>, trace: seq<Disk>, k: nat, cut: Cut, cuts: set<Cut>)
    requires before <= trace && |before| > 0 && before[|before| - 1] == start && AllSameFiles(start, trace, |before|)
    requires |before| - 1 <= k < |trace| && Honest(start, cuts)
    ensures Honest(trace[k], cuts) && (RunState(cut, start) ==> RunState(cut, trace[k]))
  {
    if k >= |before| {
      SameFilesIsHonest(start, trace[k], cuts);
      if RunState(cut, start) {
        SameFilesKeepsRunState(cut, start, trace[k]);
      }
    }
  }

  /** A successful run: it saved, durably, the first missing artifacts its budget allowed. */
  ghost predicate SavedMore(cut: Cut, before: Disk, d: Disk, budget: nat) {
    d.dirtyRoot == {} && Files(d) == Fill(cut.Plan(), Files(before), budget)
  }

  /** Opens the archive and exports, without a crash. Every disk the run passes through,
      including the one it started from, is honest; and if it started from a state of a run
      of its cut, every disk is one. A new process counts from zero: if it is blocked there,
      it leaves the archive as it found it, so every later run under that pid fails as well. */
  method Run(archive: ImmutableArchive, a: Attempt, ghost cuts: set<Cut>) returns (r: Result<Progress, CutError>)
    requires archive.Valid() && a.cut.WellFormed() && a.cut in cuts && Honest(archive.disk, cuts)
    modifies archive
    ensures archive.Valid() && old(archive.trace) <= archive.trace
    ensures AllHonest(archive.trace, |old(archive.trace)| - 1, cuts)
    ensures RunState(a.cut, old(archive.disk)) ==> TraceOk(a.cut, archive.trace, |old(archive.trace)| - 1)
    ensures r.Ok? ==>
              SavedMore(a.cut, old(archive.disk), archive.disk, a.budget)
    ensures r.Ok? && r.value.complete ==> Files(archive.disk) == Target(a.cut.Plan())
    ensures a.budget > 0 && old(Blocked(a.cut, Files(archive.disk), archive.disk.staging, a.pid, 0)) ==>
              && r.Err? && archive.disk.staging == old(archive.disk.staging)
              && Files(archive.disk) == old(Files(archive.disk))
  {
    ghost var start := archive.disk;
    var reopened := archive.Open(a.pid, true);
    ghost var trace := archive.trace;
    forall k | |old(archive.trace)| - 1 <= k < |trace|
      ensures Honest(trace[k], cuts) && (RunState(a.cut, start) ==> RunState(a.cut, trace[k]))
    {
      OpeningKeeps(start, old(archive.trace), trace, k, a.cut, cuts);
    }
    if reopened.Err? { return Err(Io(reopened.error)); }
    ghost var acceptable := Acceptable(a.cut, Files(archive.disk));
    r := PublishSourceCut(archive, a.cut, a.budget, a.sourceUnchanged);
    forall k | |trace| <= k < |archive.trace| ensures Honest(archive.trace[k], cuts) {
      assert acceptable;
      RunStateIsHonest(a.cut, archive.trace[k], cuts);
    }
    assert forall k | 0 <= k < |trace| :: archive.trace[k] == trace[k];
  }

  /** The run that began at `first` in the history stopped after some system call; the disk
      is what the crash left of that state. A disk no crash can leave stands for the
      death of the process alone. */
  method CrashAfter(archive: ImmutableArchive, first: nat, crash: Crash, ghost cuts: set<Cut>) returns (at: nat)
    requires archive.Valid() && first < |archive.trace| && AllHonest(archive.trace, first, cuts)
    modifies archive
    ensures archive.Valid() && Honest(archive.disk, cuts)
    ensures first <= at < |old(archive.trace)| && Survives(old(archive.trace)[at], archive.disk)
    ensures archive.trace == old(archive.trace)[..at + 1] + [archive.disk]
  {
    at := if first + crash.step < |archive.trace| then first + crash.step else |archive.trace| - 1;
    var stopped := archive.trace[at];
    var found := if Survives(stopped, crash.found) then crash.found else stopped;
    HonestSurvivesCrash(stopped, found, cuts);
    archive.Crash(at, found, crash.stagingLost);
  }

  lemma PrefixOn(a: seq<Disk>, b: seq<Disk>, c: seq<Disk>)
    requires a <= b <= c
    ensures a <= c
  {
  }

  /** Whatever a crash leaves of a run of a cut, the next run of that cut accepts. */
  lemma CrashLeavesResumable(cut: Cut, d: Disk, after: Disk)
    requires RunState(cut, d) && Survives(d, after)
    ensures RunState(cut, after) && Acceptable(cut, Files(after))
  {
    CrashOfSealed(d, after);
  }

  lemma {:induction false} NothingSaved(plan: seq<Artifact>)
    ensures Missing(plan, map[]) == plan
  {
    if plan != [] {
      NothingSaved(plan[..|plan| - 1]);
    }
  }

  lemma NothingMissingFromEmpty(cut: Cut)
    ensures Missing(cut.Plan(), map[]) == cut.Plan()
    ensures Acceptable(cut, map[])
  {
    NothingSaved(cut.Plan());
  }

  lemma FilledFromEmpty(cut: Cut)
    requires cut.WellFormed()
    ensures Fill(cut.Plan(), map[], |cut.Plan()|) == Target(cut.Plan())
  {
    NothingMissingFromEmpty(cut);
    FillIsTarget(cut, map[], |cut.Plan()|);
  }

  /** One run, cut short or not; None if it did not return. */
  method RunOrCrash(archive: ImmutableArchive, a: Attempt, ghost cuts: set<Cut>)
    returns (r: Option<Result<Progress, CutError>>)
    requires archive.Valid() && a.cut.WellFormed() && a.cut in cuts && Honest(archive.disk, cuts)
    modifies archive
    ensures archive.Valid() && old(archive.trace) <= archive.trace && Honest(archive.disk, cuts)
    ensures RunState(a.cut, old(archive.disk)) ==> RunState(a.cut, archive.disk)
    ensures r.Some? && r.value.Ok? ==>
              SavedMore(a.cut, old(archive.disk), archive.disk, a.budget)
    ensures r.Some? && r.value.Ok? && r.value.value.complete ==> Files(archive.disk) == Target(a.cut.Plan())
  {
    var first := |archive.trace| - 1;
    ghost var resumed := RunState(a.cut, archive.disk);
    var result := Run(archive, a, cuts);
    ghost var trace := archive.trace;
    match a.crash
    case None =>
      assert Honest(trace[|trace| - 1], cuts) && (resumed ==> RunState(a.cut, trace[|trace| - 1]));
      r := Some(result);
    case Some(crash) =>
      var at := CrashAfter(archive, first, crash, cuts);
      if resumed {
        assert RunState(a.cut, trace[at]);
        CrashLeavesResumable(a.cut, trace[at], archive.disk);
      }
      r := None;
  }

  /** Crash ordering. Starting from an archive without a marker, after any sequence of
      runs, each crashing after any of its system calls with any of the disks a crash may
      leave, a marker that is there stands over the complete durable payload of one of
      the cuts. Nothing that was durable at some moment of the whole history is lost at a
      later one. And a run that reports completion leaves exactly what one unlimited run
      into an empty directory would. */
  method Lifetime(archive: ImmutableArchive, attempts: seq<Attempt>) returns (last: Option<Result<Progress, CutError>>)
    requires archive.Valid() && COMPLETE !in Files(archive.disk)
    requires forall a <- attempts :: a.cut.WellFormed()
    modifies archive
    ensures archive.Valid() && old(archive.trace) <= archive.trace && Grows(archive.trace)
    ensures Honest(archive.disk, Cuts(attempts))
    ensures last.Some? && last.value.Ok? && last.value.value.complete ==>
              && attempts != []
              && var plan := attempts[|attempts| - 1].cut.Plan();
                 Files(archive.disk) == Fill(plan, map[], |plan|)
  {
    last := None;
    ghost var cuts := Cuts(attempts);
    var i := 0;
    while i < |attempts|
      invariant i <= |attempts| && archive.Valid() && old(archive.trace) <= archive.trace
      invariant Honest(archive.disk, cuts)
      invariant last.Some? && last.value.Ok? && last.value.value.complete ==>
                  i > 0 && Files(archive.disk) == Target(attempts[i - 1].cut.Plan())
    {
      ghost var trace := archive.trace;
      last := RunOrCrash(archive, attempts[i], cuts);
      PrefixOn(old(archive.trace), trace, archive.trace);
      i := i + 1;
    }
    if last.Some? && last.value.Ok? && last.value.value.complete {
      FilledFromEmpty(attempts[i - 1].cut);
    }
  }

  // ---- one cut, resumed -----------------------------------------------------------

  lemma {:induction false} MoreSavedLessMissing(
    plan: seq<Artifact>, saved: map<string, Bytes>, more: map<string, Bytes>)
    requires saved.Keys <= more.Keys
    ensures |Missing(plan, more)| <= |Missing(plan, saved)|
  {
    if plan != [] {
      MoreSavedLessMissing(plan[..|plan| - 1], saved, more);
    }
  }

  /** What is synchronized at one moment of a history is not missing at a later one. */
  lemma SavedStaysSaved(cut: Cut, history: seq<Disk>, j: nat, k: nat)
    requires Grows(history) && j <= k < |history| && Sealed(history[j]) && history[j].dirtyRoot == {}
    ensures |Missing(cut.Plan(), Files(history[k]))| <= |Missing(cut.Plan(), Files(history[j]))|
  {
    DurableForever(history, j, k);
    MoreSavedLessMissing(cut.Plan(), Files(history[j]), Files(history[k]));
  }

  /** One run of the cut in a history: it found and left a state of a run of the cut, and if
      it succeeded it saved more. */
  ghost predicate RanOnce(cut: Cut, history: seq<Disk>, start: nat, end: nat, budget: nat, outcome: Option<Progress>) {
    && start <= end < |history| && RunState(cut, history[start]) && RunState(cut, history[end])
    && (outcome.Some? ==> SavedMore(cut, history[start], history[end], budget))
  }

  /** Where the runs of one cut ended in the history, the start first, and what those that
      returned reported. */
  ghost predicate Resumed(
    cut: Cut, history: seq<Disk>, attempts: seq<Attempt>, ends: seq<nat>, outcomes: seq<Option<Progress>>)
  {
    && |ends| == |outcomes| + 1 && |outcomes| <= |attempts|
    && forall i | 0 <= i < |outcomes| ::
         RanOnce(cut, history, ends[i], ends[i + 1], attempts[i].budget, outcomes[i])
  }

  lemma RanBefore(
    cut: Cut, history: seq<Disk>, longer: seq<Disk>, start: nat, end: nat, budget: nat, outcome: Option<Progress>)
    requires history <= longer && RanOnce(cut, history, start, end, budget, outcome)
    ensures RanOnce(cut, longer, start, end, budget, outcome)
  {
  }

  lemma ResumedOn(
    cut: Cut, history: seq<Disk>, longer: seq<Disk>, attempts: seq<Attempt>, ends: seq<nat>,
    outcomes: seq<Option<Progress>>, end: nat, outcome: Option<Progress>)
    requires Resumed(cut, history, attempts, ends, outcomes) && |outcomes| < |attempts| && history <= longer
    requires RanOnce(cut, longer, ends[|outcomes|], end, attempts[|outcomes|].budget, outcome)
    ensures Resumed(cut, longer, attempts, ends + [end], outcomes + [outcome])
  {
    var ends', outcomes' := ends + [end], outcomes + [outcome];
    forall i | 0 <= i < |outcomes'|
      ensures RanOnce(cut, longer, ends'[i], ends'[i + 1], attempts[i].budget, outcomes'[i])
    {
      if i < |outcomes| {
        RanBefore(cut, history, longer, ends[i], ends[i + 1], attempts[i].budget, outcomes[i]);
      }
    }
  }

  lemma {:induction false} EndsInOrder(
    cut: Cut, history: seq<Disk>, attempts: seq<Attempt>, ends: seq<nat>, outcomes: seq<Option<Progress>>, i: nat,
    j: nat)
    requires Resumed(cut, history, attempts, ends, outcomes) && i <= j < |ends|
    ensures ends[i] <= ends[j]
  {
    if i < j {
      EndsInOrder(cut, history, attempts, ends, outcomes, i, j - 1);
      assert RanOnce(cut, history, ends[j - 1], ends[j], attempts[j - 1].budget, outcomes[j - 1]);
    }
  }

  /** Saved counts never go back: no later crash loses an artifact that a successful run had
      saved. */
  lemma CountsNeverGoBack(
    cut: Cut, history: seq<Disk>, attempts: seq<Attempt>, ends: seq<nat>, outcomes: seq<Option<Progress>>, i: nat,
    j: nat)
    requires Resumed(cut, history, attempts, ends, outcomes) && Grows(history)
    requires i < j < |ends| && outcomes[i].Some?
    ensures ends[i + 1] <= ends[j] < |history|
    ensures |Missing(cut.Plan(), Files(history[ends[j]]))| <= |Missing(cut.Plan(), Files(history[ends[i + 1]]))|
  {
    EndsInOrder(cut, history, attempts, ends, outcomes, i + 1, j);
    assert RanOnce(cut, history, ends[i], ends[i + 1], attempts[i].budget, outcomes[i]);
    assert j > 0 && RanOnce(cut, history, ends[j - 1], ends[j], attempts[j - 1].budget, outcomes[j - 1]);
    SavedStaysSaved(cut, history, ends[i + 1], ends[j]);
  }

  /** One more run of the cut, cut short or not. */
  method ResumeOnce(archive: ImmutableArchive, cut: Cut, a: Attempt) returns (outcome: Option<Progress>)
    requires archive.Valid() && cut.WellFormed() && a.cut == cut && RunState(cut, archive.disk)
    modifies archive
    ensures archive.Valid() && old(archive.trace) <= archive.trace && RunState(cut, archive.disk)
    ensures RanOnce(cut, archive.trace, |old(archive.trace)| - 1, |archive.trace| - 1, a.budget, outcome)
  {
    RunStateIsHonest(cut, archive.disk, {cut});
    var r := RunOrCrash(archive, a, {cut});
    outcome := if r.Some? && r.value.Ok? then Some(r.value.value) else None;
  }

  /** A lifetime of one cut: after any crashes, every run accepts what it finds. */
  method Resume(archive: ImmutableArchive, cut: Cut, attempts: seq<Attempt>)
    returns (outcomes: seq<Option<Progress>>, ghost ends: seq<nat>)
    requires archive.Valid() && cut.WellFormed() && RunState(cut, archive.disk)
    requires forall a <- attempts :: a.cut == cut
    modifies archive
    ensures archive.Valid() && Grows(archive.trace) && |outcomes| == |attempts|
    ensures Resumed(cut, archive.trace, attempts, ends, outcomes)
    ensures RunState(cut, archive.disk) && Acceptable(cut, Files(archive.disk))
  {
    outcomes, ends := [], [|archive.trace| - 1];
    while |outcomes| < |attempts|
      invariant |outcomes| <= |attempts| && archive.Valid() && RunState(cut, archive.disk)
      invariant Resumed(cut, archive.trace, attempts, ends, outcomes)
      invariant ends[|outcomes|] == |archive.trace| - 1
    {
      ghost var history := archive.trace;
      var outcome := ResumeOnce(archive, cut, attempts[|outcomes|]);
      ResumedOn(cut, history, archive.trace, attempts, ends, outcomes, |archive.trace| - 1, outcome);
      outcomes, ends := outcomes + [outcome], ends + [|archive.trace| - 1];
    }
    CrashLeavesResumable(cut, archive.disk, archive.disk);
  }

  // ---- exact progress -----------------------------------------------------------

  lemma {:induction false} ForeignNamesDoNotMatter(
    plan: seq<Artifact>, saved: map<string, Bytes>, name: string, bytes: Bytes)
    requires !InPlan(plan, name)
    ensures Missing(plan, saved[name := bytes]) == Missing(plan, saved)
  {
    if plan != [] {
      var init := plan[..|plan| - 1];
      assert plan[|plan| - 1].name != name && forall k | 0 <= k < |init| :: init[k] == plan[k];
      ForeignNamesDoNotMatter(init, saved, name, bytes);
    }
  }

  lemma LastNotAdded(plan: seq<Artifact>, saved: map<string, Bytes>, k: nat)
    requires NamesDistinct(plan) && plan != [] && k <= |Missing(plan[..|plan| - 1], saved)|
    ensures !InPlan(plan[..|plan| - 1], plan[|plan| - 1].name)
    ensures !InPlan(Missing(plan[..|plan| - 1], saved)[..k], plan[|plan| - 1].name)
  {
    var init, last := plan[..|plan| - 1], plan[|plan| - 1];
    DistinctInit(plan);
    forall a | a in Missing(init, saved) ensures a.name != last.name {
      MissingMember(init, saved, a);
    }
  }

  /** The last artifact of a plan is not missing, or not among those saved. */
  lemma MissingAfterOthers(plan: seq<Artifact>, saved: map<string, Bytes>, k: nat)
    requires NamesDistinct(plan) && plan != [] && k <= |Missing(plan[..|plan| - 1], saved)|
    requires var init := plan[..|plan| - 1];
             Missing(init, AddAll(saved, Missing(init, saved)[..k])) == Missing(init, saved)[k..]
    ensures Missing(plan, AddAll(saved, Missing(plan, saved)[..k])) == Missing(plan, saved)[k..]
  {
    var init, last := plan[..|plan| - 1], plan[|plan| - 1];
    var m, mi := Missing(plan, saved), Missing(init, saved);
    LastNotAdded(plan, saved, k);
    assert m[..k] == mi[..k];
    AddAllKeys(saved, mi[..k]);
    assert last.name !in saved ==> m[k..] == mi[k..] + [last];
  }

  /** The last artifact is saved with all missing ones before it. */
  lemma MissingAfterAll(plan: seq<Artifact>, saved: map<string, Bytes>)
    requires NamesDistinct(plan) && plan != [] && plan[|plan| - 1].name !in saved
    requires var init := plan[..|plan| - 1]; Missing(init, AddAll(saved, Missing(init, saved))) == []
    ensures Missing(plan, AddAll(saved, Missing(plan, saved))) == []
  {
    var init, last := plan[..|plan| - 1], plan[|plan| - 1];
    var m, mi := Missing(plan, saved), Missing(init, saved);
    LastNotAdded(plan, saved, |mi|);
    AddAllMore(saved, mi, last);
    ForeignNamesDoNotMatter(init, AddAll(saved, mi), last.name, last.bytes);
  }

  /** Saving the first k missing artifacts leaves exactly the others missing, in order. */
  lemma {:induction false} MissingAfter(plan: seq<Artifact>, saved: map<string, Bytes>, k: nat)
    requires NamesDistinct(plan) && k <= |Missing(plan, saved)|
    ensures Missing(plan, AddAll(saved, Missing(plan, saved)[..k])) == Missing(plan, saved)[k..]
  {
    if plan != [] {
      var mi := Missing(plan[..|plan| - 1], saved);
      DistinctInit(plan);
      if k <= |mi| {
        MissingAfter(plan[..|plan| - 1], saved, k);
        MissingAfterOthers(plan, saved, k);
      } else {
        MissingAfter(plan[..|plan| - 1], saved, |mi|);
        assert mi[..|mi|] == mi;
        MissingAfterAll(plan, saved);
        assert Missing(plan, saved)[..k] == Missing(plan, saved);
      }
    }
  }

  lemma FillWithin(cut: Cut, saved: map<string, Bytes>, budget: nat, n: string)
    requires cut.WellFormed() && Within(saved, cut.Plan()) && n in Fill(cut.Plan(), saved, budget)
    ensures var plan := cut.Plan();
            exists i :: 0 <= i < |plan| && plan[i].name == n && plan[i].bytes == Fill(plan, saved, budget)[n]
  {
    var plan, missing := cut.Plan(), Missing(cut.Plan(), saved);
    var added := missing[..Min(budget, |missing|)];
    PlanNames(cut);
    MissingDistinct(plan, saved);
    AddAllKeys(saved, added);
    if InPlan(added, n) {
      var k :| 0 <= k < |added| && added[k].name == n;
      DistinctPrefix(missing, |added|);
      AddAllValue(saved, added, k);
      MissingMember(plan, saved, missing[k]);
      var i :| 0 <= i < |plan| && plan[i] == missing[k];
    }
  }

  /** The marker is only ever added when nothing else is missing. */
  lemma MarkerIsLast(cut: Cut, saved: map<string, Bytes>, budget: nat)
    requires cut.WellFormed() && Acceptable(cut, saved) && COMPLETE in Fill(cut.Plan(), saved, budget)
    ensures forall f <- cut.payload :: f.name in Fill(cut.Plan(), saved, budget)
  {
    var plan, missing := cut.Plan(), Missing(cut.Plan(), saved);
    MissingPlan(cut, saved);
    var added := missing[..Min(budget, |missing|)];
    AddAllKeys(saved, added);
    if COMPLETE !in saved {
      var k :| 0 <= k < |added| && added[k].name == COMPLETE;
      if k < |missing| - 1 {
        MissingMember(cut.payload, saved, missing[k]);
      }
      forall f | f in cut.payload ensures f.name in AddAll(saved, added) {
        var i :| 0 <= i < |cut.payload| && cut.payload[i] == f;
        assert plan[i] == f && added == missing;
        FilledValue(cut, saved, i);
      }
    }
  }

  /** A run makes exactly min(budget, missing) progress, takes the first missing artifacts
      in walk order, and leaves an archive the next run accepts. */
  lemma RunShrinksMissing(cut: Cut, saved: map<string, Bytes>, budget: nat)
    requires cut.WellFormed() && Acceptable(cut, saved)
    ensures var missing := Missing(cut.Plan(), saved);
            Missing(cut.Plan(), Fill(cut.Plan(), saved, budget)) == missing[Min(budget, |missing|)..]
    ensures Acceptable(cut, Fill(cut.Plan(), saved, budget))
  {
    var missing := Missing(cut.Plan(), saved);
    PlanNames(cut);
    MissingAfter(cut.Plan(), saved, Min(budget, |missing|));
    forall n | n in Fill(cut.Plan(), saved, budget)
      ensures var plan := cut.Plan();
            exists i :: 0 <= i < |plan| && plan[i].name == n && plan[i].bytes == Fill(plan, saved, budget)[n]
    {
      FillWithin(cut, saved, budget, n);
    }
    if COMPLETE in Fill(cut.Plan(), saved, budget) {
      MarkerIsLast(cut, saved, budget);
    }
  }

  /** The archive after successful runs with these budgets, one after the other. */
  function AfterRuns(plan: seq<Artifact>, saved: map<string, Bytes>, budgets: seq<nat>): map<string, Bytes> {
    if budgets == [] then saved
    else Fill(plan, AfterRuns(plan, saved, budgets[..|budgets| - 1]), budgets[|budgets| - 1])
  }

  function Sum(budgets: seq<nat>): nat {
    if budgets == [] then 0 else Sum(budgets[..|budgets| - 1]) + budgets[|budgets| - 1]
  }

  lemma DropTwice(plan: seq<Artifact>, a: nat, b: nat)
    ensures var rest := plan[Min(a, |plan|)..]; rest[Min(b, |rest|)..] == plan[Min(a + b, |plan|)..]
  {
  }

  /** Whatever the budgets, only their sum counts: the first Sum(budgets) artifacts of the
      plan are saved. */
  lemma {:induction false} RunsAddUp(cut: Cut, budgets: seq<nat>)
    requires cut.WellFormed()
    ensures Acceptable(cut, AfterRuns(cut.Plan(), map[], budgets))
    ensures Missing(cut.Plan(), AfterRuns(cut.Plan(), map[], budgets)) == cut.Plan()[Min(Sum(budgets), |cut.Plan()|)..]
  {
    NothingMissingFromEmpty(cut);
    if budgets != [] {
      var earlier, last := budgets[..|budgets| - 1], budgets[|budgets| - 1];
      RunsAddUp(cut, earlier);
      RunShrinksMissing(cut, AfterRuns(cut.Plan(), map[], earlier), last);
      DropTwice(cut.Plan(), Sum(earlier), last);
    }
  }

  /** Confluence: any two series of runs that both complete the cut leave the same archive,
      the one a single unlimited run leaves. */
  lemma CompletedRunsAgree(cut: Cut, budgets: seq<nat>)
    requires cut.WellFormed() && |cut.Plan()| <= Sum(budgets)
    ensures AfterRuns(cut.Plan(), map[], budgets) == Fill(cut.Plan(), map[], |cut.Plan()|) == Target(cut.Plan())
  {
    FilledFromEmpty(cut);
    var saved := AfterRuns(cut.Plan(), map[], budgets);
    RunsAddUp(cut, budgets);
    FillIsTarget(cut, saved, 0);
    assert Missing(cut.Plan(), saved)[..0] == [];
  }

  function Repeated(budget: nat, runs: nat): seq<nat> {
    seq(runs, _ => budget)
  }

  lemma {:induction false} SumOfRepeated(budget: nat, runs: nat)
    ensures Sum(Repeated(budget, runs)) == runs * budget
  {
    if runs > 0 {
      assert Repeated(budget, runs)[..runs - 1] == Repeated(budget, runs - 1);
      SumOfRepeated(budget, runs - 1);
    }
  }

  lemma CeilingBound(n: nat, budget: nat, runs: nat)
    requires budget >= 1
    ensures n <= runs * budget <==> runs >= (n + budget - 1) / budget
  {
    var q, m := (n + budget - 1) / budget, (n + budget - 1) % budget;
    assert n + budget - 1 == q * budget + m;
    if runs >= q {
      assert runs * budget >= q * budget;
    } else {
      assert (runs + 1) * budget <= q * budget;
    }
  }  lemma LeftAfterRuns(cut: Cut, budget: nat, runs: nat)
    requires cut.WellFormed()
    ensures var n := |cut.Plan()|;
            |Missing(cut.Plan(), AfterRuns(cut.Plan(), map[], Repeated(budget, runs)))| == n - Min(runs * budget, n)
  {
    RunsAddUp(cut, Repeated(budget, runs));
    SumOfRepeated(budget, runs);
  }

  /** What is left of n after some runs fits one more run if and only if that many are needed. */
  lemma LastRun(n: nat, budget: nat, runs: nat, left: nat)
    requires budget >= 1 && left == n - Min(runs * budget, n)
    ensures left <= budget <==> runs + 1 >= (n + budget - 1) / budget
  {
    assert (runs + 1) * budget == runs * budget + budget;
    CeilingBound(n, budget, runs + 1);
  }

  /** From an empty archive, exactly ceil((n + 1) / budget) runs are needed: that run, and no
      earlier one, reports completion. */
  lemma ExactRunCount(cut: Cut, budget: nat, runs: nat)
    requires cut.WellFormed() && budget >= 1
    ensures var before := AfterRuns(cut.Plan(), map[], Repeated(budget, runs));
            |Missing(cut.Plan(), before)| <= budget <==> runs + 1 >= (|cut.Plan()| + budget - 1) / budget
  {
    LeftAfterRuns(cut, budget, runs);
    LastRun(
      |cut.Plan()|, budget, runs, |Missing(cut.Plan(), AfterRuns(cut.Plan(), map[], Repeated(budget, runs)))|);
  }
}
