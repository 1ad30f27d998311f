/**
 Boots of one data directory: every process claims a fresh writer generation by
 compare-and-swap on the persisted fence, seeds the store under sequence numbers from
 zero, then serves outbox attempts from a shared counter started after the reserved range.
 Processes race, crash at any point, and go on issuing after another one has fenced them.
 */
module BootIdentities {
  import opened Prelude
  import C = IdentityCounter

  const INITIAL_WRITER_FENCE: nat := 1

  // ---- identity bytes --------------------------------------------------------------

  function BigEndian(n: nat, width: nat): (r: Bytes)
    ensures |r| == width
  {
    if width == 0 then [] else BigEndian(n / 256, width - 1) + [n % 256]
  }

  lemma {:induction false} BigEndianInjective(a: nat, b: nat, width: nat)
    requires a < Power(width) && b < Power(width) && BigEndian(a, width) == BigEndian(b, width)
    ensures a == b
  {
    if width > 0 {
      var x, y := BigEndian(a, width), BigEndian(b, width);
      assert x[width - 1] == a % 256 && y[width - 1] == b % 256;
      assert x[..width - 1] == BigEndian(a / 256, width - 1) && y[..width - 1] == BigEndian(b / 256, width - 1);
      BigEndianInjective(a / 256, b / 256, width - 1);
    }
  }

  lemma PowerOfEight()
    ensures Power(8) == U64_MAX + 1
  {
    assert Power(4) == 0x1_0000_0000;
    assert Power(6) == 256 * (256 * Power(4));
    assert Power(8) == 256 * (256 * Power(6));
  }

  function Correlation(generation: nat, sequence: nat): (r: Bytes)
    ensures |r| == 16
  {
    BigEndian(generation, 8) + BigEndian(sequence, 8)
  }

  const LEASE_SUFFIX: Bytes := [115, 117, 110, 114, 105, 115, 101, 45, 100, 101, 118, 110, 101, 116, 118, 49]

  function Lease(generation: nat, sequence: nat): (r: Bytes)
    ensures |r| == 32
  {
    BigEndian(generation, 8) + BigEndian(sequence, 8) + LEASE_SUFFIX
  }

  /** Equal correlation or lease bytes mean equal generation and equal sequence. */
  lemma IdentityBytesInjective(g: nat, s: nat, g': nat, s': nat)
    requires g <= U64_MAX && s <= U64_MAX && g' <= U64_MAX && s' <= U64_MAX
    requires Correlation(g, s) == Correlation(g', s') || Lease(g, s) == Lease(g', s')
    ensures g == g' && s == s'
  {
    PowerOfEight();
    assert Lease(g, s)[..16] == Correlation(g, s) && Lease(g', s')[..16] == Correlation(g', s');
    assert Correlation(g, s)[..8] == BigEndian(g, 8) && Correlation(g', s')[..8] == BigEndian(g', 8);
    assert Correlation(g, s)[8..] == BigEndian(s, 8) && Correlation(g', s')[8..] == BigEndian(s', 8);
    BigEndianInjective(g, g', 8);
    BigEndianInjective(s, s', 8);
  }

  lemma {:induction false} ZeroBytes(width: nat)
    ensures BigEndian(0, width) == seq(width, _ => 0)
  {
    if width > 0 {
      ZeroBytes(width - 1);
    }
  }

  /** The refusal of an all-zero identity is unreachable: generation zero is never used. */
  lemma IdentityIsNotZero(g: nat, s: nat)
    requires 0 < g <= U64_MAX
    ensures Correlation(g, s) != seq(16, _ => 0) && Lease(g, s) != seq(32, _ => 0)
  {
    PowerOfEight();
    ZeroBytes(8);
    if Correlation(g, s) == seq(16, _ => 0) {
      assert Correlation(g, s)[..8] == BigEndian(g, 8) == BigEndian(0, 8);
      BigEndianInjective(g, 0, 8);
    }
    if Lease(g, s) == seq(32, _ => 0) {
      assert Lease(g, s)[..8] == BigEndian(g, 8) == BigEndian(0, 8);
      BigEndianInjective(g, 0, 8);
    }
  }

  // ---- processes -------------------------------------------------------------------

  /** Which optional seeds a boot runs after the marker and the paid contracts. */
  datatype Options = Options(publication: bool, execution: bool, generalCalls: bool)

  function SeedCount(o: Options): (r: nat)
    ensures 2 <= r <= 5
  {
    2 + (if o.publication then 1 else 0) + (if o.execution then 1 else 0) + (if o.generalCalls then 1 else 0)
  }

  datatype Phase =
    | Opening                                            // stores opened, fence not read
    | Claiming(persisted: nat)                           // fence read, not advanced yet
    | Seeding(generation: nat, next: nat, busy: bool)    // busy: an operation runs under `next`
    | Serving(generation: nat, reserved: nat, counter: C.State)
    | Ended

  datatype Process = Process(options: Options, phase: Phase)

  /** One identity handed to the store. */
  datatype Issue = Issue(process: nat, generation: nat, sequence: nat)

  datatype World = World(
    fence: nat,
    processes: map<nat, Process>,
    owners: map<nat, nat>,        // generation -> the process that installed it
    log: seq<Issue>)

  datatype Event =
    | Spawn(p: nat, options: Options)
    | ReadFence(p: nat)
    | Advance(p: nat)
    | BeginSeed(p: nat)
    | EndSeed(p: nat, ok: bool)
    | Serve(p: nat)
    | Attempt(p: nat, step: C.Event)
    | Kill(p: nat)
    | Foreign(next: nat)          // another claimant of the same fence

  function Boot(): World {
    World(INITIAL_WRITER_FENCE, map[], map[], [])
  }

  function PhaseOf(w: World, p: nat): Phase {
    if p in w.processes then w.processes[p].phase else Ended
  }

  predicate Enabled(w: World, e: Event) {
    match e
    case Spawn(p, _) => p !in w.processes
    case ReadFence(p) => PhaseOf(w, p).Opening?
    case Advance(p) => PhaseOf(w, p).Claiming?
    case BeginSeed(p) =>
      var ph := PhaseOf(w, p);
      ph.Seeding? && !ph.busy && ph.next < SeedCount(w.processes[p].options)
    case EndSeed(p, _) => var ph := PhaseOf(w, p); ph.Seeding? && ph.busy
    case Serve(p) =>
      var ph := PhaseOf(w, p);
      ph.Seeding? && !ph.busy && ph.next == SeedCount(w.processes[p].options)
    case Attempt(p, step) => var ph := PhaseOf(w, p); ph.Serving? && C.Enabled(ph.counter, step)
    case Kill(p) => p in w.processes
    case Foreign(next) => w.fence < next <= U64_MAX
  }

  function SetPhase(w: World, p: nat, phase: Phase): World
    requires p in w.processes
  {
    w.(processes := w.processes[p := w.processes[p].(phase := phase)])
  }

  /** The swap stores the successor only over the exact fence that was read. */
  function NextAdvance(w: World, p: nat): World
    requires PhaseOf(w, p).Claiming?
  {
    var persisted := PhaseOf(w, p).persisted;
    if w.fence != persisted then SetPhase(w, p, Ended)
    else
      SetPhase(w, p, Seeding(persisted + 1, 0, false))
        .(fence := persisted + 1, owners := w.owners[persisted + 1 := p])
  }

  /** A failed seed ends the boot. General calls without local execution end it too, after
      their own seed, which is the last one. */
  function NextEndSeed(w: World, p: nat, ok: bool): World
    requires PhaseOf(w, p).Seeding?
  {
    var ph := PhaseOf(w, p);
    var options := w.processes[p].options;
    if !ok || (options.generalCalls && !options.execution && ph.next + 1 == SeedCount(options))
    then SetPhase(w, p, Ended)
    else SetPhase(w, p, ph.(next := ph.next + 1, busy := false))
  }

  function Next(w: World, e: Event): World
    requires Enabled(w, e)
  {
    match e
    case Spawn(p, options) => w.(processes := w.processes[p := Process(options, Opening)])
    case ReadFence(p) =>
      // The next generation must exist.
      SetPhase(w, p, if w.fence == U64_MAX then Ended else Claiming(w.fence))
    case Advance(p) => NextAdvance(w, p)
    case BeginSeed(p) =>
      var ph := PhaseOf(w, p);
      SetPhase(w, p, ph.(busy := true)).(log := w.log + [Issue(p, ph.generation, ph.next)])
    case EndSeed(p, ok) => NextEndSeed(w, p, ok)
    case Serve(p) =>
      var ph := PhaseOf(w, p);
      SetPhase(w, p, Serving(ph.generation, ph.next, C.Start(ph.next)))
    case Attempt(p, step) =>
      var ph := PhaseOf(w, p);
      var counter := C.Next(C.Devnet, ph.counter, step);
      var served := SetPhase(w, p, ph.(counter := counter));
      if |counter.claims| > |ph.counter.claims|
      then served.(log := w.log + [Issue(p, ph.generation, counter.claims[|counter.claims| - 1])])
      else served
    case Kill(p) => SetPhase(w, p, Ended)
    case Foreign(next) => w.(fence := next)
  }

  ghost predicate Run(trace: seq<World>, events: seq<Event>) {
    && |trace| == |events| + 1 && trace[0] == Boot()
    && forall i | 0 <= i < |events| :: Enabled(trace[i], events[i]) && trace[i + 1] == Next(trace[i], events[i])
  }

  // ---- the invariant -----------------------------------------------------------------

  ghost predicate Owns(w: World, p: nat, g: nat) {
    g in w.owners && w.owners[g] == p
  }

  /** Every identity of this phase's process is below what it may issue next. */
  ghost predicate Below(e: Issue, ph: Phase) {
    match ph
    case Opening => false
    case Claiming(_) => false
    case Seeding(g, next, busy) => e.generation == g && (if busy then e.sequence <= next else e.sequence < next)
    case Serving(g, reserved, counter) =>
      e.generation == g && (e.sequence < reserved || e.sequence in counter.claims)
    case Ended => true
  }

  ghost predicate PhaseOk(w: World, p: nat, options: Options, ph: Phase) {
    match ph
    case Opening => true
    case Claiming(persisted) => persisted < U64_MAX
    case Seeding(g, next, busy) => Owns(w, p, g) && next + (if busy then 1 else 0) <= SeedCount(options)
    case Serving(g, reserved, counter) =>
      Owns(w, p, g) && reserved == SeedCount(options) && C.Linear(C.Devnet, reserved, counter)
    case Ended => true
  }

  ghost predicate IssueOk(w: World, e: Issue) {
    && Owns(w, e.process, e.generation) && e.sequence <= U64_MAX
    && Below(e, PhaseOf(w, e.process))
  }

  ghost predicate LogDistinct(log: seq<Issue>) {
    forall i, j | 0 <= i < j < |log| :: log[i].generation == log[j].generation ==> log[i].sequence != log[j].sequence
  }

  ghost predicate Unclaimed(w: World, p: nat) {
    forall g <- w.owners :: w.owners[g] != p
  }

  ghost predicate Inv(w: World) {
    && INITIAL_WRITER_FENCE <= w.fence <= U64_MAX
    && (forall g <- w.owners :: INITIAL_WRITER_FENCE < g <= w.fence)
    && (forall g <- w.owners :: w.owners[g] in w.processes)
    && (forall g, h | g in w.owners && h in w.owners && w.owners[g] == w.owners[h] :: g == h)
    && (forall p <- w.processes :: PhaseOk(w, p, w.processes[p].options, w.processes[p].phase))
    && (forall p <- w.processes :: w.processes[p].phase.Opening? || w.processes[p].phase.Claiming? ==> Unclaimed(w, p))
    && (forall e <- w.log :: IssueOk(w, e))
    && LogDistinct(w.log)
  }

  lemma InvHoldsAtBoot()
    ensures Inv(Boot())
  {
  }

  /** A process moves to a phase that still bounds everything it has issued. */
  lemma MoveKeepsInv(w: World, p: nat, phase: Phase)
    requires Inv(w) && p in w.processes
    requires PhaseOk(w, p, w.processes[p].options, phase)
    requires phase.Opening? || phase.Claiming? ==> Unclaimed(w, p)
    requires forall e <- w.log | e.process == p :: Below(e, phase)
    ensures Inv(SetPhase(w, p, phase))
  {
  }

  /** The owner of a generation issues a sequence it never issued before. */
  lemma IssueKeepsInv(w: World, e: Issue)
    requires Inv(w) && IssueOk(w, e)
    requires forall f <- w.log | f.process == e.process :: f.sequence != e.sequence
    ensures Inv(w.(log := w.log + [e]))
  {
  }

  /** The fence moves to a fresh generation, which the process then owns. */
  function Granted(w: World, p: nat, g: nat): World
    requires p in w.processes
  {
    SetPhase(w, p, Ended).(fence := g, owners := w.owners[g := p])
  }

  lemma AdvanceIsGrant(w: World, p: nat)
    requires PhaseOf(w, p).Claiming? && w.fence == PhaseOf(w, p).persisted
    ensures var g := w.fence + 1; NextAdvance(w, p) == SetPhase(Granted(w, p, g), p, Seeding(g, 0, false))
  {
  }

  lemma GrantKeepsInv(w: World, p: nat, g: nat)
    requires Inv(w) && p in w.processes && w.fence < g <= U64_MAX && Unclaimed(w, p)
    ensures Inv(Granted(w, p, g))
  {
  }

  lemma GrantedSeeds(w: World, p: nat, g: nat)
    requires Inv(w) && p in w.processes && w.fence < g <= U64_MAX && Unclaimed(w, p)
    ensures Inv(SetPhase(Granted(w, p, g), p, Seeding(g, 0, false)))
  {
    forall e <- w.log ensures e.process != p {
      assert IssueOk(w, e);
    }
    GrantKeepsInv(w, p, g);
    assert PhaseOk(Granted(w, p, g), p, w.processes[p].options, Seeding(g, 0, false));
    MoveKeepsInv(Granted(w, p, g), p, Seeding(g, 0, false));
  }

  lemma AdvanceKeepsInv(w: World, p: nat)
    requires Inv(w) && PhaseOf(w, p).Claiming?
    ensures Inv(NextAdvance(w, p))
  {
    assert PhaseOk(w, p, w.processes[p].options, w.processes[p].phase) && Unclaimed(w, p);
    if w.fence != PhaseOf(w, p).persisted {
      MoveKeepsInv(w, p, Ended);
    } else {
      AdvanceIsGrant(w, p);
      GrantedSeeds(w, p, w.fence + 1);
    }
  }

  lemma SeedKeepsInv(w: World, p: nat, e: Event)
    requires Inv(w) && Enabled(w, e)
    requires e == BeginSeed(p) || e == EndSeed(p, true) || e == EndSeed(p, false) || e == Serve(p)
    ensures Inv(Next(w, e))
  {
    var ph := PhaseOf(w, p);
    assert PhaseOk(w, p, w.processes[p].options, ph);
    forall f <- w.log | f.process == p ensures Below(f, ph) {
      assert IssueOk(w, f);
    }
    match e
    case BeginSeed(_) =>
      MoveKeepsInv(w, p, ph.(busy := true));
      IssueKeepsInv(SetPhase(w, p, ph.(busy := true)), Issue(p, ph.generation, ph.next));
    case EndSeed(_, ok) =>
      if NextEndSeed(w, p, ok) == SetPhase(w, p, Ended) {
        MoveKeepsInv(w, p, Ended);
      } else {
        MoveKeepsInv(w, p, ph.(next := ph.next + 1, busy := false));
      }
    case Serve(_) =>
      MoveKeepsInv(w, p, Serving(ph.generation, ph.next, C.Start(ph.next)));
  }

  lemma AttemptKeepsInv(w: World, p: nat, step: C.Event)
    requires Inv(w) && Enabled(w, Attempt(p, step))
    ensures Inv(Next(w, Attempt(p, step)))
  {
    var ph := PhaseOf(w, p);
    assert PhaseOk(w, p, w.processes[p].options, ph);
    var counter := C.Next(C.Devnet, ph.counter, step);
    C.StepIsLinear(C.Devnet, ph.reserved, ph.counter, step);
    var served := SetPhase(w, p, ph.(counter := counter));
    forall f <- w.log | f.process == p ensures Below(f, ph) && Below(f, ph.(counter := counter)) {
      assert IssueOk(w, f);
      assert forall x <- ph.counter.claims :: x in counter.claims;
    }
    MoveKeepsInv(w, p, ph.(counter := counter));
    if |counter.claims| > |ph.counter.claims| {
      var n := |counter.claims| - 1;
      assert counter.claims == ph.counter.claims + [counter.claims[n]];
      assert counter.claims[n] in counter.claims;
      IssueKeepsInv(served, Issue(p, ph.generation, counter.claims[n]));
    }
  }

  lemma SpawnKeepsInv(w: World, p: nat, options: Options)
    requires Inv(w) && p !in w.processes
    ensures Inv(Next(w, Spawn(p, options)))
  {
  }

  lemma ForeignKeepsInv(w: World, next: nat)
    requires Inv(w) && w.fence < next <= U64_MAX
    ensures Inv(w.(fence := next))
  {
  }

  lemma StepKeepsInv(w: World, e: Event)
    requires Inv(w) && Enabled(w, e)
    ensures Inv(Next(w, e))
  {
    match e
    case Spawn(p, options) => SpawnKeepsInv(w, p, options);
    case ReadFence(p) =>
      assert Unclaimed(w, p);
      forall f <- w.log ensures f.process != p {
        assert IssueOk(w, f);
      }
      MoveKeepsInv(w, p, if w.fence == U64_MAX then Ended else Claiming(w.fence));
    case Advance(p) => AdvanceKeepsInv(w, p);
    case BeginSeed(p) => SeedKeepsInv(w, p, e);
    case EndSeed(p, _) => SeedKeepsInv(w, p, e);
    case Serve(p) => SeedKeepsInv(w, p, e);
    case Attempt(p, step) => AttemptKeepsInv(w, p, step);
    case Kill(p) => MoveKeepsInv(w, p, Ended);
    case Foreign(next) => ForeignKeepsInv(w, next);
  }

  lemma {:induction false} Reachable(trace: seq<World>, events: seq<Event>, n: nat)
    requires Run(trace, events) && n < |trace|
    ensures Inv(trace[n])
  {
    if n == 0 {
      InvHoldsAtBoot();
    } else {
      Reachable(trace, events, n - 1);
      StepKeepsInv(trace[n - 1], events[n - 1]);
    }
  }

  // ---- main results --------------------------------------------------------------------

  /** Identities are globally unique: over all boots of a data directory, racing boots,
      crashes, foreign fence advances and thread interleavings, no issued identity is zero,
      and no two have the same correlation bytes or the same lease bytes. */
  lemma IdentitiesAreUnique(trace: seq<World>, events: seq<Event>, n: nat, i: nat, j: nat)
    requires Run(trace, events) && n < |trace| && i < |trace[n].log| && j < |trace[n].log|
    ensures var a, b := trace[n].log[i], trace[n].log[j];
            && Correlation(a.generation, a.sequence) != seq(16, _ => 0)
            && Lease(a.generation, a.sequence) != seq(32, _ => 0)
            && (i != j ==> Correlation(a.generation, a.sequence) != Correlation(b.generation, b.sequence))
            && (i != j ==> Lease(a.generation, a.sequence) != Lease(b.generation, b.sequence))
  {
    Reachable(trace, events, n);
    var w := trace[n];
    var a, b := w.log[i], w.log[j];
    assert IssueOk(w, a) && IssueOk(w, b);
    IdentityIsNotZero(a.generation, a.sequence);
    if Correlation(a.generation, a.sequence) == Correlation(b.generation, b.sequence)
       || Lease(a.generation, a.sequence) == Lease(b.generation, b.sequence) {
      IdentityBytesInjective(a.generation, a.sequence, b.generation, b.sequence);
    }
  }

  ghost predicate Holds(ph: Phase, g: nat) {
    (ph.Seeding? || ph.Serving?) && ph.generation == g
  }

  lemma OwnershipStep(w: World, e: Event, g: nat)
    requires Inv(w) && Enabled(w, e) && g in w.owners
    ensures g in Next(w, e).owners && Next(w, e).owners[g] == w.owners[g] && w.fence <= Next(w, e).fence
  {
    if e.Advance? {
      assert g <= w.fence;
    }
  }

  lemma {:induction false} OwnershipStays(trace: seq<World>, events: seq<Event>, n: nat, m: nat, g: nat)
    requires Run(trace, events) && n <= m < |trace| && g in trace[n].owners
    ensures g in trace[m].owners && trace[m].owners[g] == trace[n].owners[g] && trace[n].fence <= trace[m].fence
  {
    if n < m {
      OwnershipStays(trace, events, n, m - 1, g);
      Reachable(trace, events, m - 1);
      OwnershipStep(trace[m - 1], events[m - 1], g);
    }
  }

  /** One writer per generation: no two processes, past or present, hold the same one. */
  lemma OneProcessPerGeneration(trace: seq<World>, events: seq<Event>, n: nat, m: nat, p: nat, q: nat, g: nat)
    requires Run(trace, events) && n <= m < |trace|
    requires Holds(PhaseOf(trace[n], p), g) && Holds(PhaseOf(trace[m], q), g)
    ensures p == q
  {
    Reachable(trace, events, n);
    Reachable(trace, events, m);
    assert PhaseOk(trace[n], p, trace[n].processes[p].options, PhaseOf(trace[n], p));
    assert PhaseOk(trace[m], q, trace[m].processes[q].options, PhaseOf(trace[m], q));
    OwnershipStays(trace, events, n, m, g);
  }

  /** A fresh claim is above every generation ever installed before it. */
  lemma ClaimsIncrease(trace: seq<World>, events: seq<Event>, n: nat, p: nat, h: nat)
    requires Run(trace, events) && n < |events| && events[n] == Advance(p)
    requires PhaseOf(trace[n + 1], p).Seeding? && h in trace[n].owners
    ensures h < PhaseOf(trace[n + 1], p).generation == trace[n + 1].fence
  {
    Reachable(trace, events, n);
  }
}
