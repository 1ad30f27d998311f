/**
 What a crash may take back when several exporters share an archive. A name that is found
 with equal bytes is not necessarily durable: another call may have linked it and not
 synchronized the directory yet.
 */
module RacingExporters {
  import opened Prelude
  import opened ArchiveDisk
  import opened PublishRace

  // ---- what a power loss may keep ----------------------------------------------------------

  /** The power loss that keeps, of the links not synchronized yet, exactly these. */
  function LossKeeping(d: Disk, kept: set<string>): Disk {
    Disk(d.content, {}, map n | n in d.root && (n !in d.dirtyRoot || n in kept) :: d.root[n], {}, d.staging, {})
  }

  lemma LossIsPossible(d: Disk, kept: set<string>)
    requires Valid(d)
    ensures PowerLoss(d, LossKeeping(d, kept))
  {
  }

  ghost predicate SurvivesEveryLoss(d: Disk, name: string) {
    forall after | PowerLoss(d, after) :: name in Files(after)
  }

  /** A name survives every power loss if and only if it is durable. */
  lemma SurvivesIffDurable(d: Disk, name: string)
    requires Sealed(d)
    ensures SurvivesEveryLoss(d, name) <==> Durable(d, name)
  {
    LossIsPossible(d, {});
    assert name in Files(LossKeeping(d, {})) <==> Durable(d, name);
    forall after | PowerLoss(d, after) && Durable(d, name) ensures name in Files(after) {
      CrashOfSealed(d, after);
    }
  }

  /** No power loss keeps the later name without the earlier one. */
  ghost predicate Ordered(d: Disk, earlier: string, later: string) {
    forall after | PowerLoss(d, after) && later in Files(after) :: earlier in Files(after)
  }

  /** Crash ordering of two names, a payload and its marker say, holds on a disk if and only
      if the earlier one is durable or the later one is not there. */
  lemma OrderedIffDurable(d: Disk, earlier: string, later: string)
    requires Sealed(d) && earlier != later
    ensures Ordered(d, earlier, later) <==> Durable(d, earlier) || later !in d.root
  {
    var after := LossKeeping(d, {later});
    LossIsPossible(d, {later});
    assert earlier in Files(after) <==> Durable(d, earlier);
    assert later in Files(after) <==> later in d.root;
    forall a | PowerLoss(d, a) && later in Files(a) && Durable(d, earlier) ensures earlier in Files(a) {
      CrashOfSealed(d, a);
    }
  }

  // ---- what Ok(false) says ---------------------------------------------------------------------

  /** The call is told Ok(false) by this event. */
  ghost predicate ToldFalse(s: System, e: Event, s': System, c: nat) {
    Transition(s, e, s') && !Accepted(s, c) && c in s'.calls && s'.calls[c].pc == Done(Ok(false))
  }

  lemma ComparedStep(s: System, c: Call, newIno: Ino, amount: nat, d: Disk, c': Call, next': map<nat, nat>)
    requires CallInv(s.disk, c) && Advance(s, c, newIno, amount, d, c', next') && c'.pc == Done(Ok(false))
    ensures c.pc == Compare && d == s.disk && c'.name == c.name
  {
  }

  /** Ok(false) leaves the disk as it was, so the name survives every power loss from then on
      if and only if it was durable at the comparison. */
  lemma AcceptedIsDurableIff(s: System, e: Event, s': System, c: nat)
    requires Inv(s) && ToldFalse(s, e, s', c)
    ensures s'.disk == s.disk
    ensures SurvivesEveryLoss(s'.disk, s'.calls[c].name) <==> Durable(s.disk, s.calls[c].name)
  {
    AcceptedByStep(s, e, s', c);
    ComparedStep(s, s.calls[c], e.newIno, e.amount, s'.disk, s'.calls[c], s'.next);
    SurvivesIffDurable(s.disk, s.calls[c].name);
  }

  /** And if it was, the name holds those bytes in every later state of the execution. */
  lemma AcceptedDurableStays(states: seq<System>, events: seq<Event>, i: nat, j: nat, c: nat)
    requires Execution(states, events) && i < j < |states| && ToldFalse(states[i], events[i], states[i + 1], c)
    requires Durable(states[i].disk, states[i].calls[c].name)
    ensures var call := states[i + 1].calls[c];
            && call.name in Files(states[j].disk) && Files(states[j].disk)[call.name] == call.bytes
            && Durable(states[j].disk, call.name)
  {
    Reachable(states, events, i);
    AcceptanceSeesOwnBytes(states[i], events[i], states[i + 1], c);
    LinkedBytesNeverChange(states, events, i, j, states[i + 1].calls[c].name);
  }

  /** If the archive started synchronized, a name found with equal bytes is durable unless
      another call linked it and is still before its root sync, or failed or died there. */
  lemma FoundIsDurableUnlessInFlight(states: seq<System>, events: seq<Event>, i: nat, c: nat)
    requires Execution(states, events) && i < |events| && states[0].disk.dirtyRoot == {}
    requires ToldFalse(states[i], events[i], states[i + 1], c)
    ensures var s := states[i];
            || Durable(s.disk, s.calls[c].name)
            || exists o :: o != c && o in s.calls && s.calls[o].name == s.calls[c].name
                           && LeftUnsynchronized(s.disk, s.calls[o])
  {
    Reachable(states, events, i);
    UnsynchronizedHasCall(states, events, i);
    var s, e, s' := states[i], events[i], states[i + 1];
    AcceptedByStep(s, e, s', c);
    ComparedStep(s, s.calls[c], e.newIno, e.amount, s'.disk, s'.calls[c], s'.next);
    AcceptanceSeesOwnBytes(s, e, s', c);
  }

  /** No other call has left this name linked and not synchronized. */
  ghost predicate NothingInFlight(s: System, name: string) {
    forall o <- s.calls :: s.calls[o].name == name ==> !LeftUnsynchronized(s.disk, s.calls[o])
  }

  lemma WinningStep(s: System, c: Call, newIno: Ino, amount: nat, d: Disk, c': Call, next': map<nat, nat>)
    requires CallInv(s.disk, c) && Advance(s, c, newIno, amount, d, c', next') && c'.pc == Done(Ok(true))
    ensures Durable(s.disk, c.name) && c'.name == c.name
  {
  }

  /** What this event tells the call may be relied on. */
  ghost predicate SafelyAccepted(s: System, e: Event, s': System, c: nat) {
    && Transition(s, e, s') && !Accepted(s, c) && Accepted(s', c) && c in s.calls
    && (s'.calls[c].pc == Done(Ok(true)) || NothingInFlight(s, s.calls[c].name))
  }

  /** A call that is told Ok(true), or Ok(false) while nothing is in flight under its name,
      is told so of a durable name. */
  lemma SafelyAcceptedIsDurable(states: seq<System>, events: seq<Event>, i: nat, c: nat)
    requires Execution(states, events) && i < |events| && states[0].disk.dirtyRoot == {}
    requires SafelyAccepted(states[i], events[i], states[i + 1], c)
    ensures Durable(states[i].disk, states[i].calls[c].name)
  {
    var s, e, s' := states[i], events[i], states[i + 1];
    if s'.calls[c].pc == Done(Ok(true)) {
      Reachable(states, events, i);
      AcceptedByStep(s, e, s', c);
      WinningStep(s, s.calls[c], e.newIno, e.amount, s'.disk, s'.calls[c], s'.next);
    } else {
      FoundIsDurableUnlessInFlight(states, events, i, c);
    }
  }

  /** Crash ordering for concurrent exporters: a payload that was safely accepted is ordered
      before every other name, its marker say, in every later state, whatever the exporters
      do and whenever they die. */
  lemma AcceptedStaysOrdered(states: seq<System>, events: seq<Event>, i: nat, j: nat, c: nat, later: string)
    requires Execution(states, events) && i < j < |states| && states[0].disk.dirtyRoot == {}
    requires SafelyAccepted(states[i], events[i], states[i + 1], c) && later != states[i].calls[c].name
    ensures Ordered(states[j].disk, states[i].calls[c].name, later)
  {
    var name := states[i].calls[c].name;
    SafelyAcceptedIsDurable(states, events, i, c);
    assert Sealed(states[i].disk) && Sealed(states[j].disk) by {
      Reachable(states, events, i);
      Reachable(states, events, j);
    }
    assert name in Files(states[i].disk);
    LinkedBytesNeverChange(states, events, i, j, name);
    OrderedIffDurable(states[j].disk, name, later);
  }

  // ---- two exporters lose the order --------------------------------------------------------------

  /** A stretch of an execution. */
  ghost predicate Stretch(states: seq<System>, events: seq<Event>) {
    && |states| == |events| + 1
    && forall i | 0 <= i < |events| :: Takes(states, events, i)
  }

  /** Some events lead from one state to the other. */
  ghost predicate Leads(s: System, events: seq<Event>, t: System) {
    exists states :: Stretch(states, events) && states[0] == s && states[|events|] == t
  }

  lemma LeadsNowhere(s: System)
    ensures Leads(s, [], s)
  {
    assert Stretch([s], []);
  }

  lemma LeadsOn(s: System, events: seq<Event>, t: System, e: Event, u: System)
    requires Leads(s, events, t) && Transition(t, e, u)
    ensures Leads(s, events + [e], u)
  {
    var states :| Stretch(states, events) && states[0] == s && states[|events|] == t;
    forall i | 0 <= i < |events + [e]| ensures Takes(states + [u], events + [e], i) {
      assert i < |events| ==> Takes(states, events, i);
    }
    assert Stretch(states + [u], events + [e]);
  }

  /** The same call at another point. */
  function At(s: System, c: nat, pc: Pc): System
    requires c in s.calls
  {
    s.(calls := s.calls[c := s.calls[c].(pc := pc)])
  }

  /** What a new call is asked to do, and by which process. */
  datatype Request = Request(name: string, bytes: Bytes, process: nat, pid: nat)

  function Spawned(c: nat, r: Request): Event {
    Spawn(c, r.name, r.bytes, r.process, r.pid)
  }

  function NextTemp(s: System, r: Request): Temp {
    Temp(r.pid, Next(s, r.process))
  }

  function Later(s: System, process: nat): map<nat, nat> {
    s.next[process := Bump(Next(s, process))]
  }

  /** A call that has taken its temporary number and looks for the final name. */
  function Looking(s: System, c: nat, r: Request): System {
    s.(calls := s.calls[c := Call(r.name, r.bytes, r.process, r.pid, Check, NextTemp(s, r), 0, 1, 0)],
       next := Later(s, r.process))
  }

  lemma Arrive(s: System, c: nat, r: Request)
    requires c !in s.calls
    ensures Leads(s, [Spawned(c, r), Step(c, 0, 0)], Looking(s, c, r))
  {
    var s1 := s.(calls := s.calls[c := Call(r.name, r.bytes, r.process, r.pid, Claim, Temp(r.pid, 0), 0, 0, 0)]);
    var s2 := Looking(s, c, r);
    assert Transition(s, Spawned(c, r), s1);
    assert s2.calls == s1.calls[c := s2.calls[c]];
    assert Transition(s1, Step(c, 0, 0), s2);
    LeadsNowhere(s);
    LeadsOn(s, [], s, Spawned(c, r), s1);
    LeadsOn(s, [] + [Spawned(c, r)], s1, Step(c, 0, 0), s2);
    assert [] + [Spawned(c, r)] + [Step(c, 0, 0)] == [Spawned(c, r), Step(c, 0, 0)];
  }

  lemma StretchesJoin(x: seq<System>, a: seq<Event>, y: seq<System>, b: seq<Event>)
    requires Stretch(x, a) && Stretch(y, b) && x[|a|] == y[0]
    ensures Stretch(x + y[1..], a + b)
  {
    forall i | 0 <= i < |a + b| ensures Takes(x + y[1..], a + b, i) {
      if i < |a| {
        assert Takes(x, a, i);
      } else {
        assert Takes(y, b, i - |a|);
      }
    }
  }

  lemma LeadsJoin(s: System, a: seq<Event>, t: System, b: seq<Event>, u: System)
    requires Leads(s, a, t) && Leads(t, b, u)
    ensures Leads(s, a + b, u)
  {
    var x :| Stretch(x, a) && x[0] == s && x[|a|] == t;
    var y :| Stretch(y, b) && y[0] == t && y[|b|] == u;
    StretchesJoin(x, a, y, b);
  }

  /** The look at the final name decides where the call goes on. */
  lemma Look(s: System, c: nat)
    requires c in s.calls && s.calls[c].pc == Check
    ensures Transition(s, Step(c, 0, 0), At(s, c, if s.calls[c].name in s.disk.root then Compare else Create))
  {
    var t := At(s, c, if s.calls[c].name in s.disk.root then Compare else Create);
    assert t.calls == s.calls[c := t.calls[c]];
  }

  /** Finding equal bytes ends the call with Ok(false). */
  lemma FindEqual(s: System, c: nat)
    requires c in s.calls && s.calls[c].pc == Compare
    requires s.calls[c].name in Files(s.disk) && Files(s.disk)[s.calls[c].name] == s.calls[c].bytes
    ensures Transition(s, Step(c, 0, 0), At(s, c, Done(Ok(false))))
  {
    var t := At(s, c, Done(Ok(false)));
    assert t.calls == s.calls[c := t.calls[c]];
  }

  /** The disk and the call once the whole staged file is linked but not synchronized. */
  function LinkedDisk(d: Disk, call: Call, ino: Ino): Disk {
    var written := WriteFile(CreateTemp(d, call.temp, ino), ino, call.bytes);
    LinkRoot(SyncStaging(SyncFile(written, ino)), call.name, ino)
  }

  function Linked(s: System, c: nat, ino: Ino): System
    requires c in s.calls
  {
    var call := s.calls[c];
    s.(disk := LinkedDisk(s.disk, call, ino), calls := s.calls[c := call.(pc := RootSync, ino := ino)])
  }

  /** One step of a call that changes the disk and its own entry. */
  function Moved(s: System, c: nat, d: Disk, call: Call): System {
    s.(disk := d, calls := s.calls[c := call])
  }

  lemma MoveOn(s0: System, events: seq<Event>, s: System, c: nat, ino: Ino, amount: nat, d: Disk, call: Call)
    requires Leads(s0, events, s) && c in s.calls && Advance(s, s.calls[c], ino, amount, d, call, s.next)
    ensures Leads(s0, events + [Step(c, ino, amount)], Moved(s, c, d, call))
  {
    LeadsOn(s0, events, s, Step(c, ino, amount), Moved(s, c, d, call));
  }

  /** A call that has written its temporary and is about to synchronize it. */
  function Staged(s: System, c: nat, ino: Ino): System
    requires c in s.calls
  {
    var call := s.calls[c].(ino := ino);
    Moved(s, c, WriteFile(CreateTemp(s.disk, call.temp, ino), ino, call.bytes), call.(pc := Sync))
  }

  /** The write of a whole file: one step, or none if there is nothing to write. */
  lemma WriteIt(s0: System, before: seq<Event>, s: System, c: nat) returns (events: seq<Event>)
    requires Leads(s0, before, s) && c in s.calls && s.calls[c].pc == Write(0)
    requires s.calls[c].ino in s.disk.content && s.disk.content[s.calls[c].ino] == []
    requires s.calls[c].ino in s.disk.dirtyData
    ensures var call := s.calls[c];
            Leads(s0, events, Moved(s, c, WriteFile(s.disk, call.ino, call.bytes), call.(pc := Write(|call.bytes|))))
  {
    var call := s.calls[c];
    var n := |call.bytes|;
    var d := WriteFile(s.disk, call.ino, call.bytes);
    if n == 0 {
      assert d == s.disk && s.calls[c := call.(pc := Write(0))] == s.calls;
      events := before;
    } else {
      assert call.bytes[..n] == call.bytes;
      MoveOn(s0, before, s, c, 0, n, d, call.(pc := Write(n)));
      events := before + [Step(c, 0, n)];
    }
  }

  lemma StageIt(s: System, c: nat, ino: Ino) returns (events: seq<Event>)
    requires c in s.calls && s.calls[c].pc == Create && s.calls[c].temp !in s.disk.staging
    requires ino !in s.disk.content
    ensures Leads(s, events, Staged(s, c, ino))
  {
    var call := s.calls[c].(ino := ino);
    var d1 := CreateTemp(s.disk, call.temp, ino);
    var d2 := WriteFile(d1, ino, call.bytes);
    LeadsNowhere(s);
    MoveOn(s, [], s, c, ino, 0, d1, call.(pc := Write(0)));
    var s1 := Moved(s, c, d1, call.(pc := Write(0)));
    events := WriteIt(s, [] + [Step(c, ino, 0)], s1, c);
    var s2 := Moved(s1, c, d2, call.(pc := Write(|call.bytes|)));
    MoveOn(s, events, s2, c, 0, 0, d2, call.(pc := Sync));
    events := events + [Step(c, 0, 0)];
    assert Moved(s2, c, d2, call.(pc := Sync)).calls == Staged(s, c, ino).calls;
  }

  lemma ExposeIt(s: System, c: nat) returns (events: seq<Event>)
    requires c in s.calls && s.calls[c].pc == Sync && s.calls[c].name !in s.disk.root
    ensures var call := s.calls[c];
            Leads(s, events, Moved(s, c, LinkRoot(SyncStaging(SyncFile(s.disk, call.ino)), call.name, call.ino),
                                   call.(pc := RootSync)))
  {
    var call := s.calls[c];
    var d1 := SyncFile(s.disk, call.ino);
    var d2 := SyncStaging(d1);
    var d3 := LinkRoot(d2, call.name, call.ino);
    LeadsNowhere(s);
    MoveOn(s, [], s, c, 0, 0, d1, call.(pc := StageSync));
    var s1 := Moved(s, c, d1, call.(pc := StageSync));
    events := [] + [Step(c, 0, 0)];
    MoveOn(s, events, s1, c, 0, 0, d2, call.(pc := Link));
    var s2 := Moved(s1, c, d2, call.(pc := Link));
    events := events + [Step(c, 0, 0)];
    MoveOn(s, events, s2, c, 0, 0, d3, call.(pc := RootSync));
    events := events + [Step(c, 0, 0)];
    assert Moved(s2, c, d3, call.(pc := RootSync)).calls == s.calls[c := call.(pc := RootSync)];
  }

  lemma LinkIt(s: System, c: nat, ino: Ino) returns (events: seq<Event>)
    requires c in s.calls && s.calls[c].pc == Create && s.calls[c].temp !in s.disk.staging
    requires ino !in s.disk.content && s.calls[c].name !in s.disk.root
    ensures Leads(s, events, Linked(s, c, ino))
  {
    var staged := Staged(s, c, ino);
    var first := StageIt(s, c, ino);
    var second := ExposeIt(staged, c);
    assert staged.calls[c := Linked(s, c, ino).calls[c]] == Linked(s, c, ino).calls;
    LeadsJoin(s, first, staged, second, Linked(s, c, ino));
    events := first + second;
  }

  /** The disk with one more file, linked and not synchronized. */
  ghost predicate AddsFile(d: Disk, r: Request, ino: Ino, temp: Temp, after: Disk) {
    && Valid(after)
    && after.content.Keys == d.content.Keys + {ino}
    && after.staging.Keys == d.staging.Keys + {temp}
    && after.root.Keys == d.root.Keys + {r.name}
    && after.dirtyRoot == d.dirtyRoot + {r.name}
    && Files(after) == Files(d)[r.name := r.bytes]
  }

  lemma LinkedDiskAdds(d: Disk, call: Call, r: Request, ino: Ino)
    requires Valid(d) && ino !in d.content && r.name !in d.root && call.name == r.name && call.bytes == r.bytes
    ensures AddsFile(d, r, ino, call.temp, LinkedDisk(d, call, ino))
  {
  }

  /** A call that is about to create its temporary. */
  ghost predicate Creating(s: System, c: nat, r: Request, t: System) {
    && t.disk == s.disk && t.calls.Keys == s.calls.Keys + {c} && t.next == Later(s, r.process)
    && t.calls[c].pc == Create && t.calls[c].temp == NextTemp(s, r)
    && t.calls[c].name == r.name && t.calls[c].bytes == r.bytes
  }

  lemma ArriveToCreate(s: System, c: nat, r: Request) returns (events: seq<Event>, t: System)
    requires c !in s.calls && r.name !in s.disk.root
    ensures Leads(s, events, t) && events != [] && events[0] == Spawned(c, r) && Creating(s, c, r, t)
  {
    var looking := Looking(s, c, r);
    Arrive(s, c, r);
    Look(looking, c);
    t := At(looking, c, Create);
    events := [Spawned(c, r), Step(c, 0, 0)];
    LeadsOn(s, events, looking, Step(c, 0, 0), t);
    events := events + [Step(c, 0, 0)];
  }

  /** A new call that gets as far as linking its file. */
  lemma ArriveAndLink(s: System, c: nat, r: Request, ino: Ino) returns (events: seq<Event>, t: System)
    requires c !in s.calls && r.name !in s.disk.root && NextTemp(s, r) !in s.disk.staging
    requires Valid(s.disk) && ino !in s.disk.content
    ensures Leads(s, events, t) && events != [] && events[0] == Spawned(c, r)
    ensures AddsFile(s.disk, r, ino, NextTemp(s, r), t.disk)
    ensures t.calls.Keys == s.calls.Keys + {c} && t.next == Later(s, r.process)
  {
    var arriving, creating := ArriveToCreate(s, c, r);
    var linking := LinkIt(creating, c, ino);
    t := Linked(creating, c, ino);
    assert AddsFile(s.disk, r, ino, NextTemp(s, r), t.disk) by {
      LinkedDiskAdds(s.disk, creating.calls[c], r, ino);
    }
    LeadsJoin(s, arriving, creating, linking, t);
    events := arriving + linking;
  }

  /** The call was told Ok(false) for this request. */
  ghost predicate WasFound(s: System, c: nat, r: Request) {
    && c in s.calls && s.calls[c].pc == Done(Ok(false)) && s.calls[c].process == r.process
    && s.calls[c].name == r.name && s.calls[c].bytes == r.bytes
  }

  /** A new call that finds its name with equal bytes. */
  lemma ArriveAndFind(s0: System, before: seq<Event>, s: System, c: nat, r: Request)
    returns (events: seq<Event>, t: System)
    requires Leads(s0, before, s) && c !in s.calls && r.name in Files(s.disk) && Files(s.disk)[r.name] == r.bytes
    ensures Leads(s0, events, t) && t.disk == s.disk
    ensures t.calls.Keys == s.calls.Keys + {c} && t.next == Later(s, r.process) && WasFound(t, c, r)
  {
    var looking := Looking(s, c, r);
    Arrive(s, c, r);
    events := before + [Spawned(c, r), Step(c, 0, 0)];
    LeadsJoin(s0, before, s, [Spawned(c, r), Step(c, 0, 0)], looking);
    Look(looking, c);
    var comparing := At(looking, c, Compare);
    t := At(comparing, c, Done(Ok(false)));
    LeadsOn(s0, events, looking, Step(c, 0, 0), comparing);
    FindEqual(comparing, c);
    LeadsOn(s0, events + [Step(c, 0, 0)], comparing, Step(c, 0, 0), t);
    events := events + [Step(c, 0, 0)] + [Step(c, 0, 0)];
  }

  /** A power loss that takes the payload and keeps the marker. */
  lemma LosePayload(s: System, kept: set<string>) returns (e: Event, t: System)
    requires Valid(s.disk)
    ensures Transition(s, e, t) && t.disk == LossKeeping(s.disk, kept)
  {
    LossIsPossible(s.disk, kept);
    e := Power(LossKeeping(s.disk, kept));
    t := System(LossKeeping(s.disk, kept), map c | c in s.calls :: Killed(s.calls[c]), map[]);
  }

  /** The files that are sure to survive, and those of them that a loss may leave besides. */
  function Surviving(files: map<string, Bytes>, dirty: set<string>, kept: set<string>): map<string, Bytes> {
    map n | n in files && (n !in dirty || n in kept) :: files[n]
  }

  lemma FilesAfterLoss(d: Disk, kept: set<string>)
    requires Valid(d)
    ensures Files(LossKeeping(d, kept)) == Surviving(Files(d), d.dirtyRoot, kept)
  {
  }

  lemma OnlyMarkerSurvives(files: map<string, Bytes>, dirty: set<string>, payload: Request, marker: Request)
    requires payload.name !in files && marker.name !in files && payload.name != marker.name
    ensures Surviving(files[payload.name := payload.bytes][marker.name := marker.bytes],
                      dirty + {payload.name} + {marker.name}, {marker.name})
         == Surviving(files, dirty, {})[marker.name := marker.bytes]
  {
  }

  lemma PayloadIsLost(
    d: Disk, payload: Request, ino: Ino, temp: Temp, d': Disk, marker: Request, ino': Ino, temp': Temp, d'': Disk)
    requires Valid(d) && payload.name !in d.root && marker.name !in d.root && payload.name != marker.name
    requires AddsFile(d, payload, ino, temp, d') && AddsFile(d', marker, ino', temp', d'')
    ensures Files(LossKeeping(d'', {marker.name}))
         == Surviving(Files(d), d.dirtyRoot, {})[marker.name := marker.bytes]
  {
    FilesAfterLoss(d'', {marker.name});
    OnlyMarkerSurvives(Files(d), d.dirtyRoot, payload, marker);
  }

  /** One execution through both halves, and where they meet. */
  lemma Joined(s: System, first: seq<Event>, t: System, second: seq<Event>, u: System)
    returns (states: seq<System>, events: seq<Event>, k: nat)
    requires Leads(s, first, t) && Leads(t, second, u) && second != [] && Sealed(s.disk) && s.calls == map[]
    ensures Execution(states, events) && k < |events| && states[0] == s && states[k] == t && events[k] == second[0]
    ensures states[|events|] == u
  {
    var x :| Stretch(x, first) && x[0] == s && x[|first|] == t;
    var y :| Stretch(y, second) && y[0] == t && y[|second|] == u;
    states, events, k := x + y[1..], first + second, |first|;
    StretchesJoin(x, first, y, second);
  }

  lemma TwoUnused(d: Disk) returns (ino: Ino, ino': Ino)
    ensures ino !in d.content && ino' !in d.content && ino != ino'
  {
    UnusedInode(d.content.Keys);
    ino :| ino !in d.content;
    UnusedInode(d.content.Keys + {ino});
    ino' :| ino' !in d.content.Keys + {ino};
  }

  /** Two exporters may start here: the disk lacks the payload and the marker, and the
      temporaries they will use are not taken. */
  ghost predicate Ready(d: Disk, payload: Request, marker: Request) {
    && Sealed(d) && payload.name !in d.root && marker.name !in d.root && payload.name != marker.name
    && payload.process != marker.process && Temp(payload.pid, 0) !in d.staging && Temp(marker.pid, 1) !in d.staging
  }

  /** Two processes take one number each. */
  lemma NumbersTaken(s: System, first: nat, t: System, second: nat, u: System)
    requires s.next == map[] && first != second && t.next == Later(s, first) && u.next == Later(t, second)
    ensures Next(u, second) == 1
  {
  }

  /** The first exporter links the payload, and the second is told Ok(false) for it. */
  lemma FoundInFlight(s0: System, payload: Request, again: Request, ino: Ino)
    returns (events: seq<Event>, s: System)
    requires Sealed(s0.disk) && s0.calls == map[] && s0.next == map[]
    requires payload.name !in s0.disk.root && Temp(payload.pid, 0) !in s0.disk.staging && ino !in s0.disk.content
    requires again.name == payload.name && again.bytes == payload.bytes && again.process != payload.process
    ensures Leads(s0, events, s) && AddsFile(s0.disk, payload, ino, NextTemp(s0, payload), s.disk)
    ensures 2 !in s.calls && Next(s, again.process) == 1 && WasFound(s, 1, again)
  {
    var linking, linked := ArriveAndLink(s0, 0, payload, ino);
    events, s := ArriveAndFind(s0, linking, linked, 1, again);
    NumbersTaken(s0, payload.process, linked, again.process, s);
  }

  /** A call links the marker, and the power goes. */
  lemma MarkAndLose(s: System, marker: Request, ino: Ino) returns (events: seq<Event>, marked: Disk, t: System)
    requires 2 !in s.calls && marker.name !in s.disk.root && NextTemp(s, marker) !in s.disk.staging
    requires Valid(s.disk) && ino !in s.disk.content
    ensures Leads(s, events, t) && events != [] && events[0] == Spawned(2, marker)
    ensures AddsFile(s.disk, marker, ino, NextTemp(s, marker), marked)
    ensures t.disk == LossKeeping(marked, {marker.name})
  {
    var marking, u := ArriveAndLink(s, 2, marker, ino);
    var loss;
    loss, t := LosePayload(u, {marker.name});
    LeadsOn(s, marking, u, loss, t);
    events, marked := marking + [loss], u.disk;
  }

  /** Two concurrent exporters can lose crash ordering, from every sealed disk that lacks the
      payload and the marker. The second one is told Ok(false) for the payload that the first
      has linked and not synchronized, links the marker, and the power goes before its own
      synchronization: the marker survives, the payload does not. One exporter at a time is
      needed for the ordering theorem. */
  lemma ConcurrentExportersLoseOrder(d: Disk, payload: Request, marker: Request)
    returns (states: seq<System>, events: seq<Event>, k: nat)
    requires Ready(d, payload, marker)
    ensures Execution(states, events) && states[0].disk == d && k < |events| && events[k] == Spawned(2, marker)
    ensures WasFound(states[k], 1, payload.(process := marker.process, pid := marker.pid))
    ensures Files(states[|events|].disk) == Surviving(Files(d), d.dirtyRoot, {})[marker.name := marker.bytes]
    ensures payload.name !in Files(states[|events|].disk)
  {
    var again := payload.(process := marker.process, pid := marker.pid);
    var ino, ino' := TwoUnused(d);
    var s0 := System(d, map[], map[]);
    var first, s := FoundInFlight(s0, payload, again, ino);
    var second, marked, t := MarkAndLose(s, marker, ino');
    states, events, k := Joined(s0, first, s, second, t);
    PayloadIsLost(d, payload, ino, NextTemp(s0, payload), s.disk, marker, ino', NextTemp(s, marker), marked);
  }
}
