/**
 The shared sequence counter of an identity source. Any number of threads bump one atomic
 cell with a load and a loop of weak compare-and-exchange, which may fail spuriously. All
 accesses are relaxed: a load or a failed exchange may return any value the cell ever had.

 Two sources use it. The devnet source hands out the incremented value and stops at the
 largest u64. The host source hands out the value before the increment, wraps to zero, and
 treats zero as exhausted for good.
 */
module IdentityCounter {
  import opened Prelude

  datatype Kind = Devnet | Host

  /** What one attempt on an observed value would store and hand out. */
  datatype Update = Exhausted | Store(next: nat, claimed: nat)

  function UpdateOf(kind: Kind, current: nat): Update {
    match kind
    case Devnet => if current == U64_MAX then Exhausted else Store(current + 1, current + 1)
    case Host =>
      if current == 0 then Exhausted
      else Store(if current == U64_MAX then 0 else current + 1, current)
  }

  /** The values of the cell so far, the last one being current; the value each running call
      last observed; and everything handed out so far, in the order of the successful
      exchanges. */
  datatype State = State(history: seq<nat>, calls: map<nat, nat>, claims: seq<nat>, refusals: nat) {
    function Cell(): nat
      requires history != []
    {
      history[|history| - 1]
    }
  }

  /** `observed` is the position in the history of the value that a load or a failed exchange
      returns. */
  datatype Event =
    | Load(thread: nat, observed: nat)
    | Exchange(thread: nat, spurious: bool, observed: nat)

  function Start(initial: nat): State {
    State([initial], map[], [], 0)
  }

  predicate Enabled(s: State, e: Event) {
    e.observed < |s.history| && (e.thread in s.calls <==> e.Exchange?)
  }

  function Next(kind: Kind, s: State, e: Event): State
    requires Enabled(s, e)
  {
    match e
    case Load(t, observed) => s.(calls := s.calls[t := s.history[observed]])
    case Exchange(t, spurious, observed) =>
      match UpdateOf(kind, s.calls[t])
      case Exhausted => s.(calls := s.calls - {t}, refusals := s.refusals + 1)
      case Store(next, claimed) =>
        if s.Cell() == s.calls[t] && !spurious
        then s.(history := s.history + [next], calls := s.calls - {t}, claims := s.claims + [claimed])
        else s.(calls := s.calls[t := s.history[observed]])
  }

  ghost predicate Run(kind: Kind, trace: seq<State>, events: seq<Event>) {
    && |trace| == |events| + 1
    && forall i | 0 <= i < |events| :: Enabled(trace[i], events[i]) && trace[i + 1] == Next(kind, trace[i], events[i])
  }

  // ---- linearity -------------------------------------------------------------------

  /** The claim that comes after this many others. */
  function Claim(kind: Kind, initial: nat, index: nat): nat {
    match kind
    case Devnet => initial + 1 + index
    case Host => initial + index
  }

  /** The most claims a source can serve. */
  function Capacity(kind: Kind, initial: nat): int {
    match kind
    case Devnet => U64_MAX - initial
    case Host => if initial == 0 then 0 else U64_MAX - initial + 1
  }

  function CellAfter(kind: Kind, initial: nat, claims: nat): nat {
    match kind
    case Devnet => initial + claims
    case Host => if claims == Capacity(kind, initial) then 0 else initial + claims
  }

  /** The cell's values and the claims determine each other; a call that saw an exhausted
      cell, however long ago, proves that the cell is exhausted. */
  ghost predicate Linear(kind: Kind, initial: nat, s: State) {
    && |s.claims| <= Capacity(kind, initial)
    && |s.history| == |s.claims| + 1
    && (forall i | 0 <= i < |s.history| :: s.history[i] == CellAfter(kind, initial, i) <= U64_MAX)
    && (forall i | 0 <= i < |s.claims| :: s.claims[i] == Claim(kind, initial, i) <= U64_MAX)
    && (forall t <- s.calls :: s.calls[t] <= U64_MAX)
    && (forall t <- s.calls :: UpdateOf(kind, s.calls[t]).Exhausted? ==> |s.claims| == Capacity(kind, initial))
    && (s.refusals > 0 ==> |s.claims| == Capacity(kind, initial))
  }

  lemma StepIsLinear(kind: Kind, initial: nat, s: State, e: Event)
    requires initial <= U64_MAX && Linear(kind, initial, s) && Enabled(s, e)
    ensures Linear(kind, initial, Next(kind, s, e))
    ensures s.claims <= Next(kind, s, e).claims
    ensures |s.claims| == Capacity(kind, initial) ==> Next(kind, s, e).claims == s.claims
  {
  }

  /** Linear allocation, for both sources and every interleaving of any number of threads:
      claim number i is exactly the i-th value after the start, so claims are pairwise
      distinct, none is skipped, and the cell is the start plus the successful claims. */
  lemma {:induction false} RunsAreLinear(kind: Kind, initial: nat, trace: seq<State>, events: seq<Event>, n: nat)
    requires initial <= U64_MAX && Run(kind, trace, events) && trace[0] == Start(initial) && n < |trace|
    ensures Linear(kind, initial, trace[n])
  {
    if n > 0 {
      RunsAreLinear(kind, initial, trace, events, n - 1);
      StepIsLinear(kind, initial, trace[n - 1], events[n - 1]);
    }
  }

  /** Exhaustion is permanent in both sources: after one refusal no later call of the run
      is served, and a refusal comes only once the whole capacity was handed out. */
  lemma {:induction false} ExhaustionIsPermanent(
    kind: Kind, initial: nat, trace: seq<State>, events: seq<Event>, i: nat, j: nat)
    requires initial <= U64_MAX && Run(kind, trace, events) && trace[0] == Start(initial)
    requires i <= j < |trace| && trace[i].refusals > 0
    ensures trace[j].claims == trace[i].claims && |trace[i].claims| == Capacity(kind, initial)
    ensures trace[j].history == trace[i].history != [] && UpdateOf(kind, trace[j].Cell()).Exhausted?
  {
    RunsAreLinear(kind, initial, trace, events, i);
    if i < j {
      ExhaustionIsPermanent(kind, initial, trace, events, i, j - 1);
      RunsAreLinear(kind, initial, trace, events, j - 1);
      StepIsLinear(kind, initial, trace[j - 1], events[j - 1]);
      RunsAreLinear(kind, initial, trace, events, j);
    }
  }

  /** The host source starts at one and can hand out every value of 1..u64::MAX, each at
      most once; the devnet source never hands out its reserved start. */
  lemma ClaimsAreDistinct(kind: Kind, initial: nat, s: State, i: nat, j: nat)
    requires Linear(kind, initial, s) && i < j < |s.claims|
    ensures s.claims[i] < s.claims[j] <= U64_MAX
    ensures kind == Devnet ==> initial < s.claims[i]
    ensures kind == Host ==> initial <= s.claims[i] && (initial > 0 ==> s.claims[i] > 0)
  {
  }

  /** A call that sees the current cell and runs alone is always served while capacity
      remains. */
  lemma SoloCallIsServed(kind: Kind, initial: nat, s: State, t: nat)
    requires initial <= U64_MAX && Linear(kind, initial, s) && t !in s.calls
    ensures var current := |s.history| - 1;
            var after := Next(kind, Next(kind, s, Load(t, current)), Exchange(t, false, current));
            if |s.claims| < Capacity(kind, initial)
            then after.claims == s.claims + [Claim(kind, initial, |s.claims|)] && after.refusals == s.refusals
            else after.claims == s.claims && after.refusals == s.refusals + 1
  {
  }
}
