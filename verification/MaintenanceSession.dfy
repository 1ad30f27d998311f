/**
 A maintenance session against a shared fenced store: it claims a writer generation,
 works under guarded operations, and checks the fence again before it saves its output and
 before it reports completion. Other claimants and writers run between any two of its
 store calls.
 */
module MaintenanceSession {
  import opened Prelude

  // ---- the store's history ---------------------------------------------------------

  /** One linearized store event, by the session that caused it. `Saved` marks a write to
      the session's own output file. */
  datatype Entry =
    | Install(session: nat, generation: nat)
    | Write(session: nat, generation: nat, key: nat, value: Bytes)
    | Read(session: nat, generation: nat, key: nat, seen: Option<Bytes>)
    | Check(session: nat, generation: nat, ok: bool)
    | Saved(session: nat, bytes: Bytes)

  type Log = seq<Entry>

  function Fence(initial: nat, log: Log): nat {
    if log == [] then initial
    else match log[|log| - 1]
      case Install(_, g) => g
      case _ => Fence(initial, log[..|log| - 1])
  }

  function Data(log: Log): map<nat, Bytes> {
    if log == [] then map[]
    else
      var before := Data(log[..|log| - 1]);
      match log[|log| - 1]
      case Write(_, _, k, v) => before[k := v]
      case _ => before
  }

  function At(data: map<nat, Bytes>, key: nat): Option<Bytes> {
    if key in data then Some(data[key]) else None
  }

  /** What the store lets happen next: a swap to a greater generation, and reads and writes
      only under the current one. */
  predicate Allowed(initial: nat, log: Log, e: Entry) {
    match e
    case Install(_, g) => Fence(initial, log) < g <= U64_MAX
    case Write(_, g, _, _) => g == Fence(initial, log)
    case Read(_, g, k, seen) => g == Fence(initial, log) && seen == At(Data(log), k)
    case Check(_, g, ok) => ok == (g == Fence(initial, log))
    case Saved(_, _) => true
  }

  ghost predicate ValidLog(initial: nat, log: Log) {
    forall i | 0 <= i < |log| :: Allowed(initial, log[..i], log[i])
  }

  // ---- one writer era -----------------------------------------------------------------

  ghost predicate NoInstall(log: Log, from: nat, until: nat) {
    forall i | from <= i < until && i < |log| :: !log[i].Install?
  }

  /** The session's claim at `claim` still stands at `check`: nothing was installed in
      between, and every write in between was made under the generation it claimed. */
  ghost predicate Exclusive(log: Log, session: nat, claim: nat, check: nat) {
    && claim < check <= |log| && log[claim].Install? && log[claim].session == session
    && NoInstall(log, claim + 1, check)
    && forall i | claim < i < check && log[i].Write? :: log[i].generation == log[claim].generation
  }

  lemma NoInstallStep(log: Log, i: nat, j: nat)
    requires i < j <= |log|
    ensures NoInstall(log, i, j) <==> NoInstall(log, i, j - 1) && !log[j - 1].Install?
  {
  }

  lemma FenceStep(initial: nat, log: Log, j: nat)
    requires ValidLog(initial, log) && j < |log|
    ensures if log[j].Install? then Fence(initial, log[..j]) < Fence(initial, log[..j + 1]) == log[j].generation
            else Fence(initial, log[..j]) == Fence(initial, log[..j + 1])
  {
    assert log[..j + 1][..j] == log[..j] && log[..j + 1][j] == log[j];
    assert Allowed(initial, log[..j], log[j]);
  }

  /** The fence never goes back, and moves exactly when something is installed. */
  lemma {:induction false} FenceGrows(initial: nat, log: Log, i: nat, j: nat)
    requires ValidLog(initial, log) && i <= j <= |log|
    ensures Fence(initial, log[..i]) <= Fence(initial, log[..j])
    ensures Fence(initial, log[..i]) == Fence(initial, log[..j]) <==> NoInstall(log, i, j)
  {
    if i < j {
      FenceGrows(initial, log, i, j - 1);
      FenceStep(initial, log, j - 1);
      NoInstallStep(log, i, j);
    }
  }

  /** The fence after a claim, as long as nothing else is installed. */
  lemma FenceOfClaim(initial: nat, log: Log, claim: nat, j: nat)
    requires ValidLog(initial, log) && claim < j <= |log| && log[claim].Install?
    ensures Fence(initial, log[..j]) == log[claim].generation <==> NoInstall(log, claim + 1, j)
    ensures Fence(initial, log[..claim]) < log[claim].generation <= Fence(initial, log[..j])
  {
    FenceStep(initial, log, claim);
    FenceGrows(initial, log, claim + 1, j);
  }

  /** A matching fence proves exclusivity back to the claim. */
  lemma MatchIsExclusive(initial: nat, log: Log, session: nat, g: nat, claim: nat, check: nat)
    requires ValidLog(initial, log) && claim < check <= |log|
    requires log[claim] == Install(session, g) && Fence(initial, log[..check]) == g
    ensures Exclusive(log, session, claim, check)
  {
    FenceOfClaim(initial, log, claim, check);
    forall i | claim < i < check && log[i].Write? ensures log[i].generation == g {
      assert Allowed(initial, log[..i], log[i]);
      FenceOfClaim(initial, log, claim, i);
    }
  }

  /** And a mismatch proves the opposite: the check fails only if another generation was
      installed after the claim. */
  lemma MismatchIsTakeover(initial: nat, log: Log, session: nat, g: nat, claim: nat, check: nat)
    requires ValidLog(initial, log) && claim < check <= |log|
    requires log[claim] == Install(session, g) && Fence(initial, log[..check]) != g
    ensures exists i :: claim < i < check && log[i].Install? && log[i].generation > g
  {
    FenceOfClaim(initial, log, claim, check);
    assert !NoInstall(log, claim + 1, check);
    var i :| claim + 1 <= i < check && i < |log| && log[i].Install?;
    FenceStep(initial, log, i);
    FenceOfClaim(initial, log, claim, i);
  }

  ghost predicate Installed(log: Log, until: nat, session: nat, g: nat) {
    exists j: nat :: j < until && j < |log| && log[j] == Install(session, g)
  }

  /** The rule for clients: who writes under a generation has installed it. */
  ghost predicate OwnersWrite(log: Log) {
    forall i | 0 <= i < |log| && log[i].Write? :: Installed(log, i, log[i].session, log[i].generation)
  }

  /** No generation is installed twice. */
  lemma InstalledOnce(initial: nat, log: Log, j: nat, k: nat)
    requires ValidLog(initial, log) && j < |log| && k < |log|
    requires log[j].Install? && log[k].Install? && log[j].generation == log[k].generation
    ensures j == k
  {
    if j < k {
      FenceOfClaim(initial, log, j, k);
      FenceStep(initial, log, k);
    } else if k < j {
      FenceOfClaim(initial, log, k, j);
      FenceStep(initial, log, j);
    }
  }

  /** Among clients that keep the rule, every write of an exclusive session's era is its own. */
  lemma EraWritesAreOwn(initial: nat, log: Log, session: nat, claim: nat, check: nat, i: nat)
    requires ValidLog(initial, log) && OwnersWrite(log) && Exclusive(log, session, claim, check)
    requires claim < i < check && log[i].Write?
    ensures log[i].session == session
  {
    assert Installed(log, i, log[i].session, log[i].generation);
    var j: nat :| j < i && j < |log| && log[j] == Install(log[i].session, log[i].generation);
    InstalledOnce(initial, log, j, claim);
  }

  // ---- what the session saw ---------------------------------------------------------------

  /** The data at the claim, overlaid with the writes under the generation it claimed. */
  function EraView(log: Log, claim: nat, j: nat): map<nat, Bytes>
    requires claim < j <= |log| && log[claim].Install?
    decreases j
  {
    if j == claim + 1 then Data(log[..j])
    else
      var before := EraView(log, claim, j - 1);
      match log[j - 1]
      case Write(_, g, k, v) => if g == log[claim].generation then before[k := v] else before
      case _ => before
  }

  lemma {:induction false} ExclusiveData(log: Log, session: nat, claim: nat, check: nat, j: nat)
    requires Exclusive(log, session, claim, check) && claim < j <= check
    ensures Data(log[..j]) == EraView(log, claim, j)
  {
    if j > claim + 1 {
      ExclusiveData(log, session, claim, check, j - 1);
      assert log[..j][..j - 1] == log[..j - 1] && log[..j][j - 1] == log[j - 1];
    }
  }

  /** Nothing was written under this generation in between. */
  ghost predicate NoWrite(log: Log, from: nat, until: nat, g: nat) {
    forall i | from <= i < until && i < |log| :: !(log[i].Write? && log[i].generation == g)
  }

  lemma {:induction false} UnwrittenView(log: Log, claim: nat, j: nat)
    requires claim < j <= |log| && log[claim].Install? && NoWrite(log, claim + 1, j, log[claim].generation)
    ensures EraView(log, claim, j) == Data(log[..claim + 1])
    decreases j
  {
    if j > claim + 1 {
      UnwrittenView(log, claim, j - 1);
    }
  }

  /** Everything an exclusive session read belongs to one era: each value is the one at its
      claim, overlaid with nothing but writes under its own generation. If there were none,
      it read one snapshot. */
  lemma ReadsAreOneEra(initial: nat, log: Log, session: nat, claim: nat, check: nat, i: nat)
    requires ValidLog(initial, log) && Exclusive(log, session, claim, check)
    requires claim < i < check && log[i].Read?
    ensures log[i].seen == At(EraView(log, claim, i), log[i].key)
    ensures NoWrite(log, claim + 1, i, log[claim].generation) ==>
              log[i].seen == At(Data(log[..claim + 1]), log[i].key)
  {
    assert Allowed(initial, log[..i], log[i]);
    ExclusiveData(log, session, claim, check, i);
    if NoWrite(log, claim + 1, i, log[claim].generation) {
      UnwrittenView(log, claim, i);
    }
  }

  // ---- the shared store and the session -----------------------------------------------------

  /** Whether a whole stretch of history was caused by others. */
  ghost predicate ByOthers(log: Log, from: nat, session: nat) {
    forall i | from <= i < |log| :: log[i].session != session
  }

  ghost predicate Extends(was: Log, now: Log) {
    was <= now
  }

  class Store {
    const initial: nat
    var log: Log

    ghost predicate Valid()
      reads this
    {
      ValidLog(initial, log)
    }

    constructor (initial: nat)
      ensures this.initial == initial && log == [] && Valid()
    {
      this.initial := initial;
      log := [];
    }

    method Append(e: Entry)
      requires Valid() && Allowed(initial, log, e)
      modifies this
      ensures Valid() && log == old(log) + [e]
    {
      var before := log;
      log := log + [e];
      forall i | 0 <= i < |log| ensures Allowed(initial, log[..i], log[i]) {
        assert log[..i] == before[..i];
        if i == |before| {
          assert log[..i] == before;
        }
      }
    }

    /** Any steps of other sessions that the store lets through. */
    method Interfere(session: nat)
      requires Valid()
      modifies this
      ensures Valid() && Extends(old(log), log) && ByOthers(log, |old(log)|, session)
    {
      var n: int := *;
      for k := 0 to if n < 0 then 0 else n
        invariant Valid() && Extends(old(log), log) && ByOthers(log, |old(log)|, session)
      {
        var e: Entry := *;
        if e.session != session && Allowed(initial, log, e) {
          Append(e);
        }
      }
    }

    /** A read under a context generation: the store refuses any other fence. */
    method GuardedRead(session: nat, g: nat, key: nat) returns (r: Result<Option<Bytes>, ()>)
      requires Valid()
      modifies this
      ensures Valid()
      ensures r.Ok? <==> Fence(initial, old(log)) == g
      ensures match r
              case Ok(seen) => log == old(log) + [Read(session, g, key, seen)]
              case Err(_) => log == old(log)
    {
      if Fence(initial, log) != g {
        return Err(());
      }
      var seen := At(Data(log), key);
      Append(Read(session, g, key, seen));
      r := Ok(seen);
    }

    method GuardedWrite(session: nat, g: nat, key: nat, value: Bytes) returns (ok: bool)
      requires Valid()
      modifies this
      ensures Valid()
      ensures ok <==> Fence(initial, old(log)) == g
      ensures log == if ok then old(log) + [Write(session, g, key, value)] else old(log)
    {
      ok := Fence(initial, log) == g;
      if ok {
        Append(Write(session, g, key, value));
      }
    }

    /** The swap: only over the exact expected fence, only to a greater one. */
    method AdvanceFence(session: nat, expected: nat, next: nat) returns (ok: bool)
      requires Valid() && next <= U64_MAX
      modifies this
      ensures Valid()
      ensures ok <==> expected < next && Fence(initial, old(log)) == expected
      ensures log == if ok then old(log) + [Install(session, next)] else old(log)
    {
      ok := expected < next && Fence(initial, log) == expected;
      if ok {
        Append(Install(session, next));
      }
    }
  }

  /** The claim entry that a session's generation rests on. */
  ghost predicate Claimed(log: Log, session: nat, g: nat, claim: nat) {
    claim < |log| && log[claim] == Install(session, g)
  }

  /** This session saved nothing from here on. */
  ghost predicate Unsaved(log: Log, from: nat, session: nat) {
    forall i | from <= i < |log| :: !(log[i].Saved? && log[i].session == session)
  }

  /** History grew and this session saved nothing in the new part. */
  ghost predicate Quiet(was: Log, now: Log, session: nat) {
    Extends(was, now) && Unsaved(now, |was|, session)
  }

  lemma QuietChain(a: Log, b: Log, c: Log, session: nat)
    requires Quiet(a, b, session) && Quiet(b, c, session)
    ensures Quiet(a, c, session)
  {
    assert forall i | 0 <= i < |b| :: b[i] == c[i];
  }

  lemma ClaimStays(was: Log, now: Log, session: nat, g: nat, claim: nat)
    requires Extends(was, now) && Claimed(was, session, g, claim)
    ensures Claimed(now, session, g, claim)
  {
  }

  lemma ExclusivePrefix(was: Log, now: Log, session: nat, claim: nat, check: nat)
    requires Extends(was, now) && Exclusive(was, session, claim, check)
    ensures Exclusive(now, session, claim, check)
  {
    assert forall i | 0 <= i < |was| :: was[i] == now[i];
  }

  // ---- working ------------------------------------------------------------------------------------

  /** One guarded operation of the session's work. */
  datatype Work = Get(key: nat) | Put(key: nat, value: Bytes)

  type Answers = seq<Option<Bytes>>

  /** What a command does next, given the answers so far; None once it is done. */
  type Program = Answers -> Option<Work>

  /** The entry that one operation leaves in the history, given what it returned. */
  ghost predicate Matches(e: Entry, me: nat, g: nat, w: Work, answer: Option<Bytes>) {
    match w
    case Get(key) => e == Read(me, g, key, answer)
    case Put(key, value) => e == Write(me, g, key, value)
  }

  /** The k-th operation is the one that the answers before it call for. */
  ghost predicate Step(log: Log, me: nat, g: nat, program: Program, seen: Answers, at: seq<nat>, k: nat)
    requires k < |seen| && k < |at|
  {
    && at[k] < |log| && program(seen[..k]).Some?
    && Matches(log[at[k]], me, g, program(seen[..k]).value, seen[k])
  }

  /** The first operations of a program happened, in order, between these two points of the
      history, and the session did nothing else there. */
  ghost predicate Performed(
    log: Log, me: nat, g: nat, program: Program, seen: Answers, at: seq<nat>, from: nat, until: nat)
  {
    && |seen| == |at| && until <= |log|
    && (forall k | 0 <= k < |at| :: from <= at[k] < until && Step(log, me, g, program, seen, at, k))
    && (forall k, l | 0 <= k < l < |at| :: at[k] < at[l])
    && (forall i | from <= i < until && log[i].session == me :: i in at)
  }

  method DoWork(store: Store, me: nat, g: nat, w: Work) returns (ok: bool, answer: Option<Bytes>)
    requires store.Valid()
    modifies store
    ensures store.Valid() && Quiet(old(store.log), store.log, me)
    ensures ok ==>
              && |store.log| > |old(store.log)| && Matches(store.log[|store.log| - 1], me, g, w, answer)
              && ByOthers(store.log[..|store.log| - 1], |old(store.log)|, me)
  {
    store.Interfere(me);
    ghost var before := store.log;
    answer := None;
    match w {
      case Get(key) =>
        var r := store.GuardedRead(me, g, key);
        ok := r.Ok?;
        if r.Ok? {
          answer := r.value;
        }
      case Put(key, value) =>
        ok := store.GuardedWrite(me, g, key, value);
    }
    assert ok ==> store.log[..|store.log| - 1] == before;
  }

  lemma StepStays(
    before: Log, now: Log, me: nat, g: nat, program: Program, seen: Answers, at: seq<nat>, answer: Option<Bytes>,
    last: nat, k: nat)
    requires Extends(before, now) && k < |seen| == |at| && Step(before, me, g, program, seen, at, k)
    ensures Step(now, me, g, program, seen + [answer], at + [last], k)
  {
    assert (seen + [answer])[..k] == seen[..k];
  }

  lemma PerformedOne(
    before: Log, now: Log, me: nat, g: nat, program: Program, seen: Answers, at: seq<nat>, from: nat,
    answer: Option<Bytes>)
    requires from <= |before| < |now| && Extends(before, now) && ByOthers(now[..|now| - 1], |before|, me)
    requires Performed(before, me, g, program, seen, at, from, |before|)
    requires program(seen).Some? && Matches(now[|now| - 1], me, g, program(seen).value, answer)
    ensures Performed(now, me, g, program, seen + [answer], at + [|now| - 1], from, |now|)
  {
    var seen', at' := seen + [answer], at + [|now| - 1];
    forall k | 0 <= k < |at'| ensures from <= at'[k] < |now| && Step(now, me, g, program, seen', at', k) {
      if k < |at| {
        assert Step(before, me, g, program, seen, at, k);
        StepStays(before, now, me, g, program, seen, at, answer, |now| - 1, k);
      } else {
        assert seen'[..k] == seen;
      }
    }
    forall i | |before| <= i < |now| - 1 ensures now[i].session != me {
      assert now[..|now| - 1][i] == now[i];
    }
    forall i | from <= i < |now| && now[i].session == me ensures i in at' {
      if i < |before| {
        assert before[i] == now[i];
      } else {
        assert at'[|at|] == i;
      }
    }
  }

  method DoNext(
    store: Store, me: nat, g: nat, program: Program, w: Work, ghost was: Log, seen: Answers, ghost at: seq<nat>)
    returns (ok: bool, seen': Answers, ghost at': seq<nat>)
    requires store.Valid() && program(seen) == Some(w) && Quiet(was, store.log, me)
    requires Performed(store.log, me, g, program, seen, at, |was|, |store.log|)
    modifies store
    ensures store.Valid() && Quiet(was, store.log, me)
    ensures ok ==> Performed(store.log, me, g, program, seen', at', |was|, |store.log|)
  {
    ghost var before := store.log;
    var answer: Option<Bytes>;
    ok, answer := DoWork(store, me, g, w);
    QuietChain(was, before, store.log, me);
    seen', at' := seen + [answer], at;
    if ok {
      PerformedOne(before, store.log, me, g, program, seen, at, |was|, answer);
      at' := at + [|store.log| - 1];
    }
  }

  /** Runs a program to its end, unless it takes more operations than the deadline allows. */
  method DoAll(store: Store, me: nat, g: nat, program: Program, limit: nat)
    returns (ok: bool, seen: Answers, ghost at: seq<nat>)
    requires store.Valid()
    modifies store
    ensures store.Valid() && Quiet(old(store.log), store.log, me)
    ensures ok ==>
              && program(seen) == None
              && Performed(store.log, me, g, program, seen, at, |old(store.log)|, |store.log|)
  {
    seen, at := [], [];
    for k := 0 to limit
      invariant store.Valid() && Quiet(old(store.log), store.log, me)
      invariant Performed(store.log, me, g, program, seen, at, |old(store.log)|, |store.log|)
    {
      match program(seen)
      case None => return true, seen, at;
      case Some(w) =>
        ok, seen, at := DoNext(store, me, g, program, w, old(store.log), seen, at);
        if !ok {
          return;
        }
    }
    ok := program(seen) == None;
  }

  // ---- opening ----------------------------------------------------------------------------------

  /** How the installation is compared with its pins: which row to read next, given the rows
      read so far, and whether what was read agrees. */
  datatype Inspection = Inspection(next: Program, accepts: Answers -> bool)

  ghost predicate ReadOnly(program: Program) {
    forall seen | program(seen).Some? :: program(seen).value.Get?
  }

  /** The inspection, run to its end under this generation, found the installation as pinned. */
  ghost predicate Agreed(
    log: Log, me: nat, g: nat, pins: Inspection, seen: Answers, at: seq<nat>, from: nat, until: nat)
  {
    Performed(log, me, g, pins.next, seen, at, from, until) && pins.next(seen) == None && pins.accepts(seen)
  }

  method RequireInstalled(store: Store, me: nat, g: nat, pins: Inspection, limit: nat)
    returns (ok: bool, ghost seen: Answers, ghost at: seq<nat>)
    requires store.Valid()
    modifies store
    ensures store.Valid() && Quiet(old(store.log), store.log, me)
    ensures ok ==> Agreed(store.log, me, g, pins, seen, at, |old(store.log)|, |store.log|)
  {
    var answers;
    ok, answers, at := DoAll(store, me, g, pins.next, limit);
    seen := answers;
    ok := ok && pins.accepts(answers);
  }

  /** Swaps the inspected fence for its successor. */
  method Claim(store: Store, me: nat, previous: nat, ghost was: Log) returns (ok: bool, ghost claim: nat)
    requires store.Valid() && previous < U64_MAX && Quiet(was, store.log, me)
    modifies store
    ensures store.Valid() && Quiet(was, store.log, me)
    ensures ok ==> |was| <= claim == |store.log| - 1 && Claimed(store.log, me, previous + 1, claim)
  {
    ghost var before := store.log;
    store.Interfere(me);
    claim := |store.log|;
    ok := store.AdvanceFence(me, previous, previous + 1);
    QuietChain(was, before, store.log, me);
  }

  /** Opens a session: inspect the fence, verify the installation under it, swap it for the
      successor, verify again under the new generation. */
  method OpenSession(store: Store, me: nat, pins: Inspection, limit: nat)
    returns (r: Result<nat, ()>, ghost claim: nat, ghost seen: Answers, ghost at: seq<nat>)
    requires store.Valid()
    modifies store
    ensures store.Valid() && Quiet(old(store.log), store.log, me)
    ensures r.Ok? ==> |old(store.log)| <= claim && Claimed(store.log, me, r.value, claim)
    ensures r.Ok? ==> Agreed(store.log, me, r.value, pins, seen, at, claim + 1, |store.log|)
  {
    claim, seen, at := 0, [], [];
    store.Interfere(me);
    var previous := Fence(store.initial, store.log);
    ghost var inspected := store.log;
    var installed: bool;
    installed, seen, at := RequireInstalled(store, me, previous, pins, limit);
    QuietChain(old(store.log), inspected, store.log, me);
    var late: bool := *;
    if !installed || late || previous >= U64_MAX {
      return Err(()), claim, seen, at;
    }
    var claimed;
    claimed, claim := Claim(store, me, previous, old(store.log));
    if !claimed {
      return Err(()), claim, seen, at;
    }
    ghost var before := store.log;
    installed, seen, at := RequireInstalled(store, me, previous + 1, pins, limit);
    QuietChain(old(store.log), before, store.log, me);
    if !installed {
      return Err(()), claim, seen, at;
    }
    ClaimStays(before, store.log, me, previous + 1, claim);
    r := Ok(previous + 1);
  }

  // ---- checking -----------------------------------------------------------------------------------

  /** The final fence check. It succeeds exactly when the fence is still the session's own
      and the deadline has not passed; success proves exclusivity up to this point. */
  method VerifyFinish(store: Store, me: nat, g: nat, ghost claim: nat) returns (ok: bool)
    requires store.Valid() && Claimed(store.log, me, g, claim)
    modifies store
    ensures store.Valid() && Quiet(old(store.log), store.log, me)
    ensures |store.log| > |old(store.log)|
    ensures ok ==> Exclusive(store.log, me, claim, |store.log|) && store.log[|store.log| - 1] == Check(me, g, true)
  {
    store.Interfere(me);
    ok := Fence(store.initial, store.log) == g;
    store.Append(Check(me, g, ok));
    var expired: bool := *;
    if ok {
      ghost var log := store.log;
      assert log[..|log|] == log && log[..|log| - 1] == log[..|log|][..|log| - 1];
      MatchIsExclusive(store.initial, log, me, g, claim, |log|);
    }
    ok := ok && !expired;
  }

  // ---- saving -------------------------------------------------------------------------------------

  /** The output went out after a check that was exclusive since the claim. Others may act
      between the two; the session itself does nothing in between. */
  ghost predicate SavedAfterCheck(log: Log, me: nat, claim: nat, check: nat, save: nat, report: Bytes) {
    && check < save < |log| && log[check].Check? && log[check].session == me && log[check].ok
    && Exclusive(log, me, claim, check + 1)
    && log[save] == Saved(me, report)
    && forall i | check < i < save :: log[i].session != me
  }

  lemma SavedLater(checked: Log, before: Log, now: Log, me: nat, g: nat, claim: nat, report: Bytes)
    requires checked != [] && Extends(checked, before) && ByOthers(before, |checked|, me)
    requires now == before + [Saved(me, report)]
    requires Exclusive(checked, me, claim, |checked|) && checked[|checked| - 1] == Check(me, g, true)
    ensures SavedAfterCheck(now, me, claim, |checked| - 1, |before|, report) && Extends(checked, now)
  {
    assert forall i | 0 <= i < |checked| :: checked[i] == now[i];
    ExclusivePrefix(checked, now, me, claim, |checked|);
  }

  /** Checks the fence, then writes the output. */
  method CheckAndSave(store: Store, me: nat, g: nat, report: Bytes, ghost claim: nat)
    returns (ok: bool, ghost check: nat, ghost save: nat)
    requires store.Valid() && Claimed(store.log, me, g, claim)
    modifies store
    ensures store.Valid() && Extends(old(store.log), store.log)
    ensures ok ==> |old(store.log)| <= check && SavedAfterCheck(store.log, me, claim, check, save, report)
    ensures !ok ==> Quiet(old(store.log), store.log, me)
  {
    ok := VerifyFinish(store, me, g, claim);
    check, save := |store.log| - 1, |store.log|;
    if ok {
      ghost var checked := store.log;
      store.Interfere(me);
      ghost var before := store.log;
      save := |before|;
      store.Append(Saved(me, report));
      SavedLater(checked, before, store.log, me, g, claim, report);
    }
  }

  /** Whether the save itself still lies in the session's era is decided by what others do
      after the check: it does if and only if nothing was installed before the save. */
  lemma SaveInEraIff(initial: nat, log: Log, me: nat, claim: nat, check: nat, save: nat, report: Bytes)
    requires ValidLog(initial, log) && SavedAfterCheck(log, me, claim, check, save, report)
    ensures Exclusive(log, me, claim, save + 1) <==> NoInstall(log, check + 1, save)
  {
    if NoInstall(log, check + 1, save) {
      assert NoInstall(log, claim + 1, save + 1);
      forall i | claim < i < save + 1 && log[i].Write? ensures log[i].generation == log[claim].generation {
        assert Allowed(initial, log[..i], log[i]);
        FenceOfClaim(initial, log, claim, i);
      }
    }
  }

  /** A takeover between the check and the save is possible: the output goes out although
      another generation is installed by then, and the check that follows the save fails. */
  lemma TakeoverBeforeSave(report: Bytes)
    ensures var log := [Install(1, 2), Check(1, 2, true), Install(2, 3), Saved(1, report), Check(1, 2, false)];
            && ValidLog(1, log) && SavedAfterCheck(log, 1, 0, 1, 3, report)
            && !Exclusive(log, 1, 0, 4)
  {
    var log := [Install(1, 2), Check(1, 2, true), Install(2, 3), Saved(1, report), Check(1, 2, false)];
    var a, b, c, d := log[..1], log[..2], log[..3], log[..4];
    assert log[..0] == [] && a == [Install(1, 2)] && b == a + [Check(1, 2, true)];
    assert c == b + [Install(2, 3)] && d == c + [Saved(1, report)];
    assert b[..1] == a && c[..2] == b && d[..3] == c;
    assert Fence(1, a) == 2 && Fence(1, b) == 2 && Fence(1, c) == 3 && Fence(1, d) == 3;
    assert log[2].Install?;
  }

  lemma PerformedStays(
    was: Log, now: Log, me: nat, g: nat, program: Program, seen: Answers, at: seq<nat>, from: nat, until: nat)
    requires Extends(was, now) && Performed(was, me, g, program, seen, at, from, until)
    ensures Performed(now, me, g, program, seen, at, from, until)
  {
    assert forall i | 0 <= i < |was| :: was[i] == now[i];
    forall k | 0 <= k < |at| ensures from <= at[k] < until && Step(now, me, g, program, seen, at, k) {
      assert Step(was, me, g, program, seen, at, k);
    }
  }

  lemma SaveStays(was: Log, now: Log, me: nat, claim: nat, check: nat, save: nat, report: Bytes)
    requires Extends(was, now) && SavedAfterCheck(was, me, claim, check, save, report)
    ensures SavedAfterCheck(now, me, claim, check, save, report)
  {
    assert forall i | 0 <= i < |was| :: was[i] == now[i];
    ExclusivePrefix(was, now, me, claim, check + 1);
  }

  /** The work of one command, then the check, then the output. Every save is preceded by
      an exclusive check that comes after every operation the output was made from. */
  method Execute(
    store: Store, me: nat, g: nat, program: Program, limit: nat, report: Answers -> Bytes, ghost claim: nat)
    returns (ok: bool, seen: Answers, ghost at: seq<nat>, ghost done: nat, ghost check: nat, ghost save: nat)
    requires store.Valid() && Claimed(store.log, me, g, claim)
    modifies store
    ensures store.Valid() && Extends(old(store.log), store.log)
    ensures ok ==> |old(store.log)| <= done <= check
    ensures ok ==> SavedAfterCheck(store.log, me, claim, check, save, report(seen))
    ensures ok ==> program(seen) == None && Performed(store.log, me, g, program, seen, at, |old(store.log)|, done)
    ensures !ok ==> Quiet(old(store.log), store.log, me)
  {
    check, save := 0, 0;
    ok, seen, at := DoAll(store, me, g, program, limit);
    done := |store.log|;
    if ok {
      ghost var worked := store.log;
      ClaimStays(old(store.log), worked, me, g, claim);
      ok, check, save := CheckAndSave(store, me, g, report(seen), claim);
      if ok {
        PerformedStays(worked, store.log, me, g, program, seen, at, |old(store.log)|, done);
      } else {
        QuietChain(old(store.log), worked, store.log, me);
      }
    }
  }

  // ---- a whole session -----------------------------------------------------------------------------

  /** Where a session's claim, inspection, operations, check and save lie in the history, and
      what its reads answered. */
  datatype Run = Run(
    claim: nat, pinsAt: seq<nat>, pinsSeen: Answers, ready: nat, at: seq<nat>, seen: Answers, done: nat, check: nat,
    save: nat)

  /** A command: how the installation is pinned, what is done, and what is made of it. */
  datatype Command = Command(pins: Inspection, program: Program, report: Answers -> Bytes, limit: nat)

  /** What a session that saved an output did, in order: it claimed its generation, found
      the installation as pinned, performed its work, passed a check that was exclusive since
      the claim, and saved what it made from the answers. */
  ghost predicate SavedByClaim(log: Log, me: nat, c: Command, run: Run) {
    && SavedAfterCheck(log, me, run.claim, run.check, run.save, c.report(run.seen))
    && run.claim < run.ready <= run.done <= run.check
    && Agreed(log, me, log[run.claim].generation, c.pins, run.pinsSeen, run.pinsAt, run.claim + 1, run.ready)
    && c.program(run.seen) == None
    && Performed(log, me, log[run.claim].generation, c.program, run.seen, run.at, run.ready, run.done)
  }

  lemma SavedStays(was: Log, now: Log, me: nat, c: Command, run: Run)
    requires Extends(was, now) && SavedByClaim(was, me, c, run)
    ensures SavedByClaim(now, me, c, run)
  {
    var g := was[run.claim].generation;
    PerformedStays(was, now, me, g, c.pins.next, run.pinsSeen, run.pinsAt, run.claim + 1, run.ready);
    PerformedStays(was, now, me, g, c.program, run.seen, run.at, run.ready, run.done);
    SaveStays(was, now, me, run.claim, run.check, run.save, c.report(run.seen));
  }

  /** A whole session. Reported completion means that no other generation was installed and
      nothing was written under another one from the claim to the final check, so the save
      lies in that era too. A saved output follows such a check, whether or not the session
      then completed. */
  method RunSession(store: Store, me: nat, c: Command, reserved: bool) returns (complete: bool, ghost run: Run)
    requires store.Valid()
    modifies store
    ensures store.Valid() && Extends(old(store.log), store.log)
    ensures !reserved ==> store.log == old(store.log) && !complete
    ensures complete ==> |old(store.log)| <= run.claim && Exclusive(store.log, me, run.claim, |store.log|)
    ensures complete ==> SavedByClaim(store.log, me, c, run)
    ensures Quiet(old(store.log), store.log, me) || SavedByClaim(store.log, me, c, run)
  {
    complete, run := false, Run(0, [], [], 0, [], [], 0, 0, 0);
    if !reserved {
      return;
    }
    var r, claim, pinsSeen, pinsAt := OpenSession(store, me, c.pins, c.limit);
    match r
    case Err(_) => return;
    case Ok(g) =>
      ghost var claimed := store.log;
      var executed, seen, at, done, check, save := Execute(store, me, g, c.program, c.limit, c.report, claim);
      if !executed {
        QuietChain(old(store.log), claimed, store.log, me);
        return;
      }
      run := Run(claim, pinsAt, pinsSeen, |claimed|, at, seen, done, check, save);
      ghost var saved := store.log;
      PerformedStays(claimed, saved, me, g, c.pins.next, pinsSeen, pinsAt, claim + 1, |claimed|);
      ClaimStays(claimed, saved, me, g, claim);
      complete := VerifyFinish(store, me, g, claim);
      SavedStays(saved, store.log, me, c, run);
  }

  // ---- what a saved output rests on ------------------------------------------------------------------

  /** A saved output reflects one writer era: it is made from answers that are the values at
      the claim overlaid with writes under the claimed generation only. Among clients that
      write only under generations they installed, those are the session's own; and if
      there are none, the output is made from one snapshot of the store. */
  lemma OutputIsOneEra(initial: nat, log: Log, me: nat, c: Command, run: Run, k: nat)
    requires ValidLog(initial, log) && SavedByClaim(log, me, c, run) && k < |run.seen|
    requires c.program(run.seen[..k]).Some? && c.program(run.seen[..k]).value.Get?
    ensures log[run.save] == Saved(me, c.report(run.seen))
    ensures run.seen[k] == At(EraView(log, run.claim, run.at[k]), c.program(run.seen[..k]).value.key)
    ensures NoWrite(log, run.claim + 1, run.at[k], log[run.claim].generation) ==>
              run.seen[k] == At(Data(log[..run.claim + 1]), c.program(run.seen[..k]).value.key)
    ensures OwnersWrite(log) ==>
              forall i | run.claim < i <= run.check && log[i].Write? :: log[i].session == me
  {
    assert Step(log, me, log[run.claim].generation, c.program, run.seen, run.at, k);
    ReadsAreOneEra(initial, log, me, run.claim, run.check + 1, run.at[k]);
    if OwnersWrite(log) {
      forall i | run.claim < i <= run.check && log[i].Write? ensures log[i].session == me {
        EraWritesAreOwn(initial, log, me, run.claim, run.check + 1, i);
      }
    }
  }

  /** While a session only reads, nothing is written under its generation, if clients keep
      the rule. */
  lemma NothingWritten(
    initial: nat, log: Log, me: nat, claim: nat, check: nat, program: Program, seen: Answers, at: seq<nat>, from: nat,
    until: nat)
    requires ValidLog(initial, log) && OwnersWrite(log) && Exclusive(log, me, claim, check)
    requires claim < from && until <= check && ReadOnly(program)
    requires Performed(log, me, log[claim].generation, program, seen, at, from, until)
    ensures NoWrite(log, from, until, log[claim].generation)
  {
    forall k | 0 <= k < |at| ensures log[at[k]].Read? {
      assert Step(log, me, log[claim].generation, program, seen, at, k);
    }
    forall i | from <= i < until ensures !log[i].Write? {
      if log[i].Write? {
        EraWritesAreOwn(initial, log, me, claim, check, i);
      }
    }
  }

  ghost predicate AnswerFrom(program: Program, data: map<nat, Bytes>, seen: Answers, k: nat)
    requires k < |seen|
  {
    var w := program(seen[..k]);
    w.Some? && w.value.Get? && seen[k] == At(data, w.value.key)
  }

  /** A program of reads, run against one state of the store, gets these answers. */
  ghost predicate AnswersFrom(program: Program, data: map<nat, Bytes>, seen: Answers) {
    forall k | 0 <= k < |seen| :: AnswerFrom(program, data, seen, k)
  }

  /** Reads of an exclusive session before anything is written under its generation. */
  lemma ReadsOneSnapshot(
    initial: nat, log: Log, me: nat, claim: nat, check: nat, program: Program, seen: Answers, at: seq<nat>, from: nat,
    until: nat)
    requires ValidLog(initial, log) && Exclusive(log, me, claim, check)
    requires claim < from && until <= check && ReadOnly(program)
    requires Performed(log, me, log[claim].generation, program, seen, at, from, until)
    requires NoWrite(log, claim + 1, until, log[claim].generation)
    ensures AnswersFrom(program, Data(log[..claim + 1]), seen)
  {
    var data := Data(log[..claim + 1]);
    forall k | 0 <= k < |seen| ensures AnswerFrom(program, data, seen, k) {
      assert Step(log, me, log[claim].generation, program, seen, at, k);
      ReadsAreOneEra(initial, log, me, claim, check, at[k]);
    }
  }

  /** The installation agreed with its pins already in the state that the claim found: the
      inspection, run against that one state, accepts. And the output of a command that
      only reads is made from that same state. */
  lemma PinsHeldAtClaim(initial: nat, log: Log, me: nat, c: Command, run: Run)
    requires ValidLog(initial, log) && OwnersWrite(log) && ReadOnly(c.pins.next) && SavedByClaim(log, me, c, run)
    ensures var data := Data(log[..run.claim + 1]);
            && AnswersFrom(c.pins.next, data, run.pinsSeen) && c.pins.next(run.pinsSeen) == None
            && c.pins.accepts(run.pinsSeen)
            && (ReadOnly(c.program) ==> AnswersFrom(c.program, data, run.seen) && c.program(run.seen) == None)
  {
    var claim, check := run.claim, run.check + 1;
    NothingWritten(initial, log, me, claim, check, c.pins.next, run.pinsSeen, run.pinsAt, claim + 1, run.ready);
    ReadsOneSnapshot(initial, log, me, claim, check, c.pins.next, run.pinsSeen, run.pinsAt, claim + 1, run.ready);
    if ReadOnly(c.program) {
      NothingWritten(initial, log, me, claim, check, c.program, run.seen, run.at, run.ready, run.done);
      ReadsOneSnapshot(initial, log, me, claim, check, c.program, run.seen, run.at, run.ready, run.done);
    }
  }
}
