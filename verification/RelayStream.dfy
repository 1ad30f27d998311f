/**
 The bounded relay of an upstream response body. A pull reads one upstream chunk and
 passes it on; an abort signal, the consumer's cancel and upstream failures interleave with
 the asynchronous steps of the pull. Controller rules are those of section 4.6 of the
 WHATWG Streams Standard: enqueue and close throw unless the stream is readable and not
 closing, error is ignored unless it is readable, and cancel closes the stream at once.
 */
module RelayStream {
  import opened Prelude

  datatype Ending = End | Fail | Hang

  /** What upstream would send, and the limits of this response. */
  datatype Config = Config(chunks: seq<Bytes>, ending: Ending, maximum: nat, declared: Option<nat>) {
    function Ceiling(): nat {
      if declared.Some? then Min(maximum, declared.value) else maximum
    }
  }

  datatype Stream = Readable | CloseRequested | Closed | Cancelled | Errored

  /** How a read ended: `Interrupted` covers an upstream failure, an abort and a released
      reader; `DoneByCancel` is the end a cancelled reader reports. */
  datatype Item = Chunk(bytes: Bytes) | DoneUpstream | DoneByCancel | Interrupted

  /** Where the one pull in flight stands. */
  datatype Pull = Idle | AwaitingRead | Got(item: Item) | Closing | Failing

  datatype Finalizer = NotStarted | Running | Finished

  datatype State = State(
    stream: Stream,
    queue: seq<Bytes>,        // enqueued, not yet read by the consumer
    delivered: Bytes,
    accepted: nat,            // chunks passed to the controller
    taken: nat,               // chunks upstream has handed out
    total: nat,
    pull: Pull,
    finalizer: Finalizer,
    finalizations: nat,
    listening: bool,          // the abort listener of the stream
    aborted: bool,
    readerCancelled: bool)

  datatype Event =
    | Abort(lost: bool)       // lost: a chunk was on its way and is dropped
    | BeginPull
    | UpstreamAnswers
    | ContinuePull
    | FinishFinalize
    | AfterFinalize
    | ConsumerReads
    | ConsumerCancels

  function Concat(chunks: seq<Bytes>): Bytes {
    if chunks == [] then [] else Concat(chunks[..|chunks| - 1]) + chunks[|chunks| - 1]
  }

  // ---- steps --------------------------------------------------------------------------------

  /** Runs the finalizer's synchronous part, once. */
  function BeginFinalize(s: State, cancel: bool): State {
    if s.finalizer != NotStarted then s
    else
      s.(finalizer := Running, finalizations := s.finalizations + 1, listening := false,
         readerCancelled := s.readerCancelled || cancel)
  }

  function ControllerError(s: State): State {
    if s.stream == Readable || s.stream == CloseRequested then s.(stream := Errored, queue := []) else s
  }

  function Start(aborted: bool): State {
    var s := State(Readable, [], [], 0, 0, 0, Idle, NotStarted, 0, true, aborted, false);
    if aborted then BeginFinalize(ControllerError(s), true) else s
  }

  predicate Enabled(c: Config, s: State, e: Event) {
    match e
    case Abort(_) => !s.aborted
    case BeginPull => s.pull == Idle && s.stream == Readable
    case UpstreamAnswers => s.pull == AwaitingRead && (s.readerCancelled || s.taken < |c.chunks| || c.ending != Hang)
    case ContinuePull => s.pull.Got?
    case FinishFinalize => s.finalizer == Running
    case AfterFinalize => (s.pull == Closing || s.pull == Failing) && s.finalizer == Finished
    case ConsumerReads => (s.stream == Readable || s.stream == CloseRequested) && s.queue != []
    case ConsumerCancels => s.stream == Readable || s.stream == CloseRequested
  }

  function NextAbort(c: Config, s: State, lost: bool): State {
    var interrupted :=
      if s.pull != AwaitingRead then s
      else s.(pull := Got(Interrupted), taken := if lost && s.taken < |c.chunks| then s.taken + 1 else s.taken);
    var noted := interrupted.(aborted := true);
    if s.listening then BeginFinalize(ControllerError(noted), true) else noted
  }

  function NextAnswer(c: Config, s: State): State
    requires s.pull == AwaitingRead
  {
    if s.readerCancelled then s.(pull := Got(DoneByCancel))
    else if s.taken < |c.chunks| then s.(pull := Got(Chunk(c.chunks[s.taken])), taken := s.taken + 1)
    else s.(pull := Got(if c.ending == End then DoneUpstream else Interrupted))
  }

  function NextContinue(c: Config, s: State, item: Item): State {
    match item
    case Interrupted => BeginFinalize(s.(pull := Failing), true)
    case Chunk(bytes) =>
      if |bytes| > c.Ceiling() - s.total then BeginFinalize(s.(pull := Failing), true)
      else
        var counted := s.(total := s.total + |bytes|);
        if s.stream == Readable
        then counted.(queue := s.queue + [bytes], accepted := s.accepted + 1, pull := Idle)
        else BeginFinalize(counted.(pull := Failing), true)
    case _ =>
      if c.declared.Some? && s.total != c.declared.value then BeginFinalize(s.(pull := Failing), true)
      else BeginFinalize(s.(pull := Closing), false)
  }

  /** The close after a finished finalizer; it throws if the stream is no longer readable. */
  function NextClose(s: State): State {
    if s.stream != Readable then s.(pull := Failing)
    else s.(stream := if s.queue == [] then Closed else CloseRequested, pull := Idle)
  }

  function NextRead(s: State): State
    requires s.queue != []
  {
    s.(delivered := s.delivered + s.queue[0], queue := s.queue[1..],
       stream := if s.stream == CloseRequested && |s.queue| == 1 then Closed else s.stream)
  }

  function Next(c: Config, s: State, e: Event): State
    requires Enabled(c, s, e)
  {
    match e
    case Abort(lost) => NextAbort(c, s, lost)
    case BeginPull => s.(pull := if s.finalizer == Finished || s.aborted then Got(Interrupted) else AwaitingRead)
    case UpstreamAnswers => NextAnswer(c, s)
    case ContinuePull => NextContinue(c, s, s.pull.item)
    case FinishFinalize =>
      // Releasing the lock rejects a read that is still pending.
      s.(finalizer := Finished, pull := if s.pull == AwaitingRead then Got(Interrupted) else s.pull)
    case AfterFinalize => if s.pull == Closing then NextClose(s) else ControllerError(s).(pull := Idle)
    case ConsumerReads => NextRead(s)
    case ConsumerCancels => BeginFinalize(s.(stream := Cancelled, queue := []), true)
  }

  // ---- the invariant --------------------------------------------------------------------------

  /** What upstream sent so far is what was passed on, or the one chunk in hand. */
  ghost predicate InStep(c: Config, s: State) {
    match s.pull
    case Got(Chunk(bytes)) => s.taken == s.accepted + 1 && s.accepted < |c.chunks| && bytes == c.chunks[s.accepted]
    case Got(Interrupted) => true
    case Failing => true
    case _ => s.taken == s.accepted
  }

  ghost predicate Exhausted(c: Config, s: State) {
    && s.accepted == |c.chunks| && c.ending == End && s.total == |Concat(c.chunks)|
    && (c.declared.Some? ==> s.total == c.declared.value)
  }

  /** While the stream is open: the finalizer runs only inside the pull, and a read that
      reports the end reports the real end. */
  ghost predicate OpenOk(c: Config, s: State)
    requires s.accepted <= |c.chunks|
  {
    && InStep(c, s) && s.total == |Concat(c.chunks[..s.accepted])|
    && (match s.pull
        case Closing => s.finalizer != NotStarted && Exhausted(c, s)
        case Failing => s.finalizer != NotStarted
        case Got(DoneByCancel) => false
        case Got(DoneUpstream) => s.finalizer == NotStarted && s.accepted == |c.chunks| && c.ending == End
        case _ => s.finalizer == NotStarted)
    && (s.finalizer == NotStarted ==> s.listening && !s.aborted && !s.readerCancelled)
  }

  ghost predicate Inv(c: Config, s: State) {
    && s.accepted <= |c.chunks| && s.taken <= |c.chunks|
    && |Concat(c.chunks[..s.accepted])| <= s.total <= c.Ceiling()
    && s.finalizations == (if s.finalizer == NotStarted then 0 else 1)
    && (s.listening ==> s.finalizer == NotStarted)
    && match s.stream
       case Readable => OpenOk(c, s) && s.delivered + Concat(s.queue) == Concat(c.chunks[..s.accepted])
       case CloseRequested =>
         && s.pull == Idle && s.finalizer == Finished && !s.listening && Exhausted(c, s)
         && s.delivered + Concat(s.queue) == Concat(c.chunks) && s.queue != []
       case Closed => s.pull == Idle && Exhausted(c, s) && s.delivered == Concat(c.chunks) && s.finalizer == Finished
       case _ => s.finalizer != NotStarted && s.delivered <= Concat(c.chunks[..s.accepted]) && s.queue == []
  }

  lemma ConcatOne(bytes: Bytes)
    ensures Concat([bytes]) == bytes
  {
    assert [bytes][..0] == [];
    assert [] + bytes == bytes;
  }

  lemma {:induction false} ConcatFront(chunks: seq<Bytes>)
    requires chunks != []
    ensures Concat(chunks) == chunks[0] + Concat(chunks[1..])
  {
    if |chunks| == 1 {
      ConcatOne(chunks[0]);
      assert chunks == [chunks[0]] && chunks[1..] == [] && chunks[0] + [] == chunks[0];
    } else {
      var n := |chunks| - 1;
      var first, middle, last := chunks[0], chunks[1..][..n - 1], chunks[n];
      ConcatFront(chunks[..n]);
      assert chunks[..n][1..] == middle && chunks[1..][n - 1] == last;
      assert (first + Concat(middle)) + last == first + (Concat(middle) + last);
    }
  }

  lemma ConcatMore(chunks: seq<Bytes>, i: nat)
    requires i < |chunks|
    ensures Concat(chunks[..i + 1]) == Concat(chunks[..i]) + chunks[i]
  {
    assert chunks[..i + 1][..i] == chunks[..i];
  }

  lemma {:induction false} ConcatPrefix(chunks: seq<Bytes>, i: nat)
    requires i <= |chunks|
    ensures Concat(chunks[..i]) <= Concat(chunks)
    decreases |chunks| - i
  {
    if i == |chunks| {
      assert chunks[..i] == chunks;
    } else {
      ConcatPrefix(chunks, i + 1);
      ConcatMore(chunks, i);
    }
  }

  lemma StartOk(c: Config, aborted: bool)
    ensures Inv(c, Start(aborted))
  {
    assert c.chunks[..0] == [];
  }

  lemma PrefixOfJoin(a: Bytes, b: Bytes)
    ensures a <= a + b
  {
  }

  lemma AbortKeepsInv(c: Config, s: State, lost: bool)
    requires Inv(c, s) && !s.aborted
    ensures Inv(c, NextAbort(c, s, lost))
  {
    if s.stream == Readable && s.listening {
      PrefixOfJoin(s.delivered, Concat(s.queue));
    }
  }

  lemma PullKeepsInv(c: Config, s: State, e: Event)
    requires Inv(c, s) && Enabled(c, s, e) && (e == BeginPull || e == UpstreamAnswers || e == FinishFinalize)
    ensures Inv(c, Next(c, s, e))
  {
  }

  lemma EnqueueJoins(delivered: Bytes, queue: seq<Bytes>, bytes: Bytes)
    ensures delivered + Concat(queue + [bytes]) == (delivered + Concat(queue)) + bytes
  {
    var longer := queue + [bytes];
    assert longer[..|queue|] == queue;
  }

  /** An accepted chunk is queued and counted. */
  lemma ChunkKeepsInv(c: Config, s: State, bytes: Bytes)
    requires Inv(c, s) && s.pull == Got(Chunk(bytes)) && s.stream == Readable && |bytes| <= c.Ceiling() - s.total
    ensures Inv(c, NextContinue(c, s, Chunk(bytes)))
  {
    ConcatMore(c.chunks, s.accepted);
    EnqueueJoins(s.delivered, s.queue, bytes);
  }

  /** A chunk that is refused, or that comes too late, starts the failing end of the pull. */
  lemma RefusedKeepsInv(c: Config, s: State, bytes: Bytes)
    requires Inv(c, s) && s.pull == Got(Chunk(bytes)) && (s.stream != Readable || |bytes| > c.Ceiling() - s.total)
    ensures Inv(c, NextContinue(c, s, Chunk(bytes)))
  {
  }

  lemma EndKeepsInv(c: Config, s: State)
    requires Inv(c, s) && s.pull.Got? && !s.pull.item.Chunk?
    ensures Inv(c, NextContinue(c, s, s.pull.item))
  {
    if s.accepted == |c.chunks| {
      assert c.chunks[..s.accepted] == c.chunks;
    }
  }

  lemma ContinueKeepsInv(c: Config, s: State)
    requires Inv(c, s) && s.pull.Got?
    ensures Inv(c, NextContinue(c, s, s.pull.item))
  {
    match s.pull.item
    case Chunk(bytes) =>
      if s.stream == Readable && |bytes| <= c.Ceiling() - s.total {
        ChunkKeepsInv(c, s, bytes);
      } else {
        RefusedKeepsInv(c, s, bytes);
      }
    case _ => EndKeepsInv(c, s);
  }

  lemma CloseKeepsInv(c: Config, s: State)
    requires Inv(c, s) && Enabled(c, s, AfterFinalize)
    ensures Inv(c, Next(c, s, AfterFinalize))
  {
    if s.stream == Readable {
      PrefixOfJoin(s.delivered, Concat(s.queue));
      if s.pull == Closing {
        assert c.chunks[..s.accepted] == c.chunks;
        assert s.queue == [] ==> s.delivered + Concat(s.queue) == s.delivered;
      }
    }
  }

  lemma ConsumerKeepsInv(c: Config, s: State, e: Event)
    requires Inv(c, s) && Enabled(c, s, e) && (e == ConsumerReads || e == ConsumerCancels)
    ensures Inv(c, Next(c, s, e))
  {
    if e == ConsumerReads {
      ConcatFront(s.queue);
      assert s.delivered + Concat(s.queue) == (s.delivered + s.queue[0]) + Concat(s.queue[1..]);
      if |s.queue| == 1 {
        assert s.queue[1..] == [];
        assert (s.delivered + s.queue[0]) + [] == s.delivered + s.queue[0];
      }
    } else {
      PrefixOfJoin(s.delivered, Concat(s.queue));
      assert s.accepted == |c.chunks| ==> c.chunks[..s.accepted] == c.chunks;
    }
  }

  lemma StepKeepsInv(c: Config, s: State, e: Event)
    requires Inv(c, s) && Enabled(c, s, e)
    ensures Inv(c, Next(c, s, e))
  {
    match e
    case Abort(lost) => AbortKeepsInv(c, s, lost);
    case BeginPull => PullKeepsInv(c, s, e);
    case UpstreamAnswers => PullKeepsInv(c, s, e);
    case FinishFinalize => PullKeepsInv(c, s, e);
    case ContinuePull => ContinueKeepsInv(c, s);
    case AfterFinalize => CloseKeepsInv(c, s);
    case ConsumerReads => ConsumerKeepsInv(c, s, e);
    case ConsumerCancels => ConsumerKeepsInv(c, s, e);
  }

  // ---- main results -----------------------------------------------------------------------------

  ghost predicate Run(c: Config, trace: seq<State>, events: seq<Event>) {
    && |trace| == |events| + 1 && (exists aborted :: trace[0] == Start(aborted))
    && forall i | 0 <= i < |events| :: Enabled(c, trace[i], events[i]) && trace[i + 1] == Next(c, trace[i], events[i])
  }

  lemma {:induction false} Reachable(c: Config, trace: seq<State>, events: seq<Event>, n: nat)
    requires Run(c, trace, events) && n < |trace|
    ensures Inv(c, trace[n])
  {
    if n == 0 {
      var aborted :| trace[0] == Start(aborted);
      StartOk(c, aborted);
    } else {
      Reachable(c, trace, events, n - 1);
      StepKeepsInv(c, trace[n - 1], events[n - 1]);
    }
  }

  /** At every point of every interleaving: what the consumer got is a prefix of what
      upstream sent and within the ceiling, and the reader was finalised at most once. */
  lemma DeliveredIsBoundedPrefix(c: Config, trace: seq<State>, events: seq<Event>, n: nat)
    requires Run(c, trace, events) && n < |trace|
    ensures trace[n].delivered <= Concat(c.chunks) && |trace[n].delivered| <= c.Ceiling()
    ensures trace[n].finalizations <= 1
    ensures trace[n].stream != Readable ==> trace[n].finalizations == 1
  {
    Reachable(c, trace, events, n);
    var s := trace[n];
    ConcatPrefix(c.chunks, s.accepted);
    PrefixOfJoin(s.delivered, Concat(s.queue));
    assert c.chunks[..|c.chunks|] == c.chunks;
  }

  /** A clean close means that upstream really ended and every byte was delivered, as many
      as were declared if any number was. */
  lemma CleanCloseIsComplete(c: Config, trace: seq<State>, events: seq<Event>, n: nat)
    requires Run(c, trace, events) && n < |trace| && trace[n].stream == Closed
    ensures trace[n].delivered == Concat(c.chunks) && c.ending == End && |trace[n].delivered| <= c.Ceiling()
    ensures c.declared.Some? ==> |trace[n].delivered| == c.declared.value
  {
    Reachable(c, trace, events, n);
  }

  lemma TerminalStep(c: Config, s: State, e: Event)
    requires Enabled(c, s, e) && (s.stream == Errored || s.stream == Cancelled || s.stream == Closed)
    ensures Next(c, s, e).stream == s.stream && Next(c, s, e).delivered == s.delivered
  {
  }

  /** After an error or a cancel nothing more is delivered, and the stream stays as it is. */
  lemma {:induction false} NothingAfterTheEnd(c: Config, trace: seq<State>, events: seq<Event>, n: nat, m: nat)
    requires Run(c, trace, events) && n <= m < |trace|
    requires trace[n].stream == Errored || trace[n].stream == Cancelled || trace[n].stream == Closed
    ensures trace[m].stream == trace[n].stream && trace[m].delivered == trace[n].delivered
    decreases m
  {
    if n < m {
      NothingAfterTheEnd(c, trace, events, n, m - 1);
      TerminalStep(c, trace[m - 1], events[m - 1]);
    }
  }

  /** A body that may be relayed: it ends, within the maximum, at its declared length. */
  ghost predicate Fits(c: Config) {
    && c.ending == End && |Concat(c.chunks)| <= c.maximum
    && (c.declared.Some? ==> |Concat(c.chunks)| == c.declared.value)
  }

  // A cooperative consumer: it pulls and reads chunk after chunk, without abort or cancel.

  ghost predicate Steps(c: Config, s: State, events: seq<Event>, t: State)
    decreases |events|
  {
    if events == [] then s == t
    else Enabled(c, s, events[0]) && Steps(c, Next(c, s, events[0]), events[1..], t)
  }

  lemma {:induction false} StepsJoin(c: Config, s: State, a: seq<Event>, t: State, b: seq<Event>, u: State)
    requires Steps(c, s, a, t) && Steps(c, t, b, u)
    ensures Steps(c, s, a + b, u)
    decreases |a|
  {
    if a == [] {
      assert a + b == b;
    } else {
      StepsJoin(c, Next(c, s, a[0]), a[1..], t, b, u);
      assert (a + b)[1..] == a[1..] + b;
    }
  }

  /** The state after this many chunks were relayed and read. */
  function Relayed(c: Config, k: nat): State
    requires k <= |c.chunks|
  {
    var bytes := Concat(c.chunks[..k]);
    State(Readable, [], bytes, k, k, |bytes|, Idle, NotStarted, 0, true, false, false)
  }

  lemma OneMore(c: Config, k: nat)
    requires Fits(c) && k < |c.chunks|
    ensures Steps(c, Relayed(c, k), [BeginPull, UpstreamAnswers, ContinuePull, ConsumerReads], Relayed(c, k + 1))
  {
    var s, bytes := Relayed(c, k), c.chunks[k];
    ConcatMore(c.chunks, k);
    ConcatPrefix(c.chunks, k + 1);
    var got := s.(pull := Got(Chunk(bytes)), taken := k + 1);
    assert Next(c, Next(c, s, BeginPull), UpstreamAnswers) == got;
    var queued := Next(c, got, ContinuePull);
    assert queued.queue == [] + [bytes] == [bytes];
    assert queued.queue[1..] == [];
    assert Next(c, queued, ConsumerReads) == Relayed(c, k + 1);
    var script := [BeginPull, UpstreamAnswers, ContinuePull, ConsumerReads];
    assert script[1..] == [UpstreamAnswers, ContinuePull, ConsumerReads];
    assert script[1..][1..] == [ContinuePull, ConsumerReads];
    assert script[1..][1..][1..] == [ConsumerReads];
  }

  lemma LastClose(c: Config) returns (t: State)
    requires Fits(c)
    ensures Steps(c, Relayed(c, |c.chunks|),
                  [BeginPull, UpstreamAnswers, ContinuePull, FinishFinalize, AfterFinalize], t) && t.stream == Closed
  {
    var s := Relayed(c, |c.chunks|);
    assert c.chunks[..|c.chunks|] == c.chunks;
    var s1 := Next(c, s, BeginPull);
    var s2 := Next(c, s1, UpstreamAnswers);
    var s3 := Next(c, s2, ContinuePull);
    var s4 := Next(c, s3, FinishFinalize);
    t := Next(c, s4, AfterFinalize);
    var script := [BeginPull, UpstreamAnswers, ContinuePull, FinishFinalize, AfterFinalize];
    assert script[1..] == [UpstreamAnswers, ContinuePull, FinishFinalize, AfterFinalize];
    assert script[1..][1..] == [ContinuePull, FinishFinalize, AfterFinalize];
    assert script[1..][1..][1..] == [FinishFinalize, AfterFinalize];
    assert script[1..][1..][1..][1..] == [AfterFinalize];
  }

  lemma {:induction false} RelayRest(c: Config, k: nat) returns (events: seq<Event>, t: State)
    requires Fits(c) && k <= |c.chunks|
    ensures Steps(c, Relayed(c, k), events, t) && t.stream == Closed
    decreases |c.chunks| - k
  {
    if k == |c.chunks| {
      t := LastClose(c);
      events := [BeginPull, UpstreamAnswers, ContinuePull, FinishFinalize, AfterFinalize];
    } else {
      var rest;
      rest, t := RelayRest(c, k + 1);
      OneMore(c, k);
      var first := [BeginPull, UpstreamAnswers, ContinuePull, ConsumerReads];
      StepsJoin(c, Relayed(c, k), first, Relayed(c, k + 1), rest, t);
      events := first + rest;
    }
  }

  ghost predicate CanClose(c: Config) {
    exists events, t :: Steps(c, Start(false), events, t) && t.stream == Closed
  }

  lemma {:induction false} StepsKeepInv(c: Config, s: State, events: seq<Event>, t: State)
    requires Inv(c, s) && Steps(c, s, events, t)
    ensures Inv(c, t)
    decreases |events|
  {
    if events != [] {
      StepKeepsInv(c, s, events[0]);
      StepsKeepInv(c, Next(c, s, events[0]), events[1..], t);
    }
  }

  /** A body can be relayed to a clean close if and only if it ends within the maximum at
      its declared length. */
  lemma ClosesIffFits(c: Config)
    ensures CanClose(c) <==> Fits(c)
  {
    if CanClose(c) {
      var events, t :| Steps(c, Start(false), events, t) && t.stream == Closed;
      StartOk(c, false);
      StepsKeepInv(c, Start(false), events, t);
    }
    if Fits(c) {
      var events, t := RelayRest(c, 0);
      assert c.chunks[..0] == [];
      assert Start(false) == Relayed(c, 0);
    }
  }

  // ---- every run ends -----------------------------------------------------------------------------

  function PullWeight(pull: Pull, stream: Stream): nat {
    match pull
    case Idle => if stream == Readable then 6 else 0
    case AwaitingRead => 5
    case Got(Chunk(_)) => 8
    case Got(_) => 4
    case Closing => 3
    case Failing => 2
  }

  /** What is left to do: chunks to come, the pull in flight, the queue, the finalizer, and
      the one abort and the one end that can still happen. */
  function Left(c: Config, s: State): nat
    requires s.taken <= |c.chunks|
  {
    8 * (|c.chunks| - s.taken) + PullWeight(s.pull, s.stream) + |s.queue|
    + (match s.finalizer case NotStarted => 2 case Running => 1 case Finished => 0)
    + (if s.aborted then 0 else 1)
    + (if s.stream == Readable || s.stream == CloseRequested then 1 else 0)
  }

  ghost predicate Nearer(c: Config, s: State, next: State)
    requires s.taken <= |c.chunks|
  {
    next.taken <= |c.chunks| && Left(c, next) < Left(c, s)
  }

  lemma AbortCounts(c: Config, s: State, lost: bool)
    requires s.taken <= |c.chunks| && !s.aborted
    ensures Nearer(c, s, NextAbort(c, s, lost))
  {
  }

  lemma ContinueCounts(c: Config, s: State)
    requires s.taken <= |c.chunks| && s.pull.Got?
    ensures Nearer(c, s, NextContinue(c, s, s.pull.item))
  {
  }

  lemma PullCounts(c: Config, s: State, e: Event)
    requires s.taken <= |c.chunks| && Enabled(c, s, e) && (e == BeginPull || e == UpstreamAnswers)
    ensures Nearer(c, s, Next(c, s, e))
  {
  }

  lemma FinalizeCounts(c: Config, s: State, e: Event)
    requires s.taken <= |c.chunks| && Enabled(c, s, e) && (e == FinishFinalize || e == AfterFinalize)
    ensures Nearer(c, s, Next(c, s, e))
  {
  }

  lemma ConsumerCounts(c: Config, s: State, e: Event)
    requires s.taken <= |c.chunks| && Enabled(c, s, e) && (e == ConsumerReads || e == ConsumerCancels)
    ensures Nearer(c, s, Next(c, s, e))
  {
  }

  lemma EveryStepCounts(c: Config, s: State, e: Event)
    requires s.taken <= |c.chunks| && Enabled(c, s, e)
    ensures Nearer(c, s, Next(c, s, e))
  {
    match e
    case Abort(lost) => AbortCounts(c, s, lost);
    case ContinuePull => ContinueCounts(c, s);
    case BeginPull => PullCounts(c, s, e);
    case UpstreamAnswers => PullCounts(c, s, e);
    case FinishFinalize => FinalizeCounts(c, s, e);
    case AfterFinalize => FinalizeCounts(c, s, e);
    case ConsumerReads => ConsumerCounts(c, s, e);
    case ConsumerCancels => ConsumerCounts(c, s, e);
  }

  /** No interleaving goes on for ever: whatever abort, consumer and upstream do, a run has at
      most so many events. */
  lemma {:induction false} RunsAreBounded(c: Config, trace: seq<State>, events: seq<Event>, n: nat)
    requires Run(c, trace, events) && n <= |events|
    ensures trace[n].taken <= |c.chunks| && n + Left(c, trace[n]) <= 8 * |c.chunks| + 10
  {
    if n == 0 {
      var aborted :| trace[0] == Start(aborted);
    } else {
      RunsAreBounded(c, trace, events, n - 1);
      EveryStepCounts(c, trace[n - 1], events[n - 1]);
    }
  }

  /** Nothing is left to happen, except that somebody aborts or cancels. */
  ghost predicate Quiescent(c: Config, s: State) {
    forall e: Event | Enabled(c, s, e) :: e.Abort? || e.ConsumerCancels?
  }

  /** A run can only stop where the stream has ended, or at a read that upstream, having sent
      all it would, never answers. */
  lemma QuiescentIsTerminal(c: Config, trace: seq<State>, events: seq<Event>, n: nat)
    requires Run(c, trace, events) && n < |trace| && Quiescent(c, trace[n])
    ensures
      || (trace[n].stream != Readable && trace[n].stream != CloseRequested)
      || (c.ending == Hang && trace[n].taken == |c.chunks| && trace[n].pull == AwaitingRead)
  {
    Reachable(c, trace, events, n);
    var s := trace[n];
    assert Enabled(c, s, BeginPull) ==> false;
    assert Enabled(c, s, UpstreamAnswers) ==> false;
    assert Enabled(c, s, ContinuePull) ==> false;
    assert Enabled(c, s, FinishFinalize) ==> false;
    assert Enabled(c, s, AfterFinalize) ==> false;
    assert Enabled(c, s, ConsumerReads) ==> false;
  }

  /** Nobody interfered and nothing went wrong. */
  ghost predicate Calm(s: State) {
    && !s.aborted && s.stream != Errored && s.stream != Cancelled
    && s.pull != Failing && s.pull != Got(Interrupted)
  }

  lemma CalmStep(c: Config, s: State, e: Event)
    requires Fits(c) && Inv(c, s) && Calm(s) && Enabled(c, s, e) && !e.Abort? && !e.ConsumerCancels?
    ensures Calm(Next(c, s, e))
  {
    if e == ContinuePull && s.pull.item.Chunk? {
      ConcatMore(c.chunks, s.accepted);
      ConcatPrefix(c.chunks, s.accepted + 1);
    } else if e == ContinuePull {
      assert c.chunks[..|c.chunks|] == c.chunks;
    }
  }

  lemma {:induction false} StaysCalm(c: Config, trace: seq<State>, events: seq<Event>, n: nat)
    requires Fits(c) && Run(c, trace, events) && trace[0] == Start(false) && n < |trace|
    requires forall k | 0 <= k < n :: !events[k].Abort? && !events[k].ConsumerCancels?
    ensures Calm(trace[n])
  {
    if n > 0 {
      StaysCalm(c, trace, events, n - 1);
      Reachable(c, trace, events, n - 1);
      CalmStep(c, trace[n - 1], events[n - 1]);
    }
  }

  /** A body that fits is always relayed in full: every run that is neither aborted nor
      cancelled, in whatever order its steps come, stops only at a clean close. */
  lemma FittingBodyAlwaysCloses(c: Config, trace: seq<State>, events: seq<Event>)
    requires Fits(c) && Run(c, trace, events) && trace[0] == Start(false)
    requires forall k | 0 <= k < |events| :: !events[k].Abort? && !events[k].ConsumerCancels?
    requires Quiescent(c, trace[|events|])
    ensures trace[|events|].stream == Closed && trace[|events|].delivered == Concat(c.chunks)
  {
    var n := |events|;
    StaysCalm(c, trace, events, n);
    QuiescentIsTerminal(c, trace, events, n);
    CleanCloseIsComplete(c, trace, events, n);
  }
}
