/**
 Any number of `publish` calls racing on one archive directory, from threads and
 processes, with storage faults, killed processes and power losses at every step.

 Each call is a small machine; one event moves one call by one system call. The
 attachment checks of the source are points where a call may fail.
 */
module PublishRace {
  import opened Prelude
  import opened ArchiveDisk

  datatype Pc =
    | Claim                                      // take the next temporary number
    | Check                                      // is the final name there?
    | Compare                                    // read it and compare
    | Create                                     // open(create_new) the temporary
    | Write(done: nat)                           // write_all, any partial progress
    | Sync                                       // file.sync_all
    | StageSync                                  // staging directory sync_all
    | Link                                       // hard_link to the final name
    | RootSync                                   // root directory sync_all
    | ReadBack                                   // read the final name again
    | Cleanup(outcome: Option<IoError>)          // is the temporary still ours?
    | Remove(outcome: Option<IoError>)           // remove_file
    | RemovalSync(outcome: Option<IoError>)      // staging directory sync_all
    | Done(result: Result<bool, IoError>)
    | Dead

  /** One call of `publish(name, bytes)`. `attempts` counts loop iterations,
      `collisions` the ones that ended because the temporary was taken. The pid is only the
      label a process puts on its temporaries: two live processes may carry the same one. */
  datatype Call = Call(
    name: string, bytes: Bytes, process: nat, pid: nat, pc: Pc,
    temp: Temp, ino: Ino, attempts: nat, collisions: nat)

  datatype System = System(
    disk: Disk,
    calls: map<nat, Call>,
    next: map<nat, nat>)       // NEXT_TEMPORARY of each process

  datatype Event =
    | Spawn(c: nat, name: string, bytes: Bytes, process: nat, pid: nat)
    | Step(c: nat, newIno: Ino, amount: nat)
    | Fail(c: nat)
    | Kill(c: nat)
    | Exit(process: nat)         // a process dies; its pid may be used again
    | Power(after: Disk)

  function Next(s: System, process: nat): nat {
    if process in s.next then s.next[process] else 0
  }

  /** The end of `publish_number` when it returns an error: AlreadyExists goes round
      the loop again while the bound allows it. */
  function Refused(c: Call, e: IoError): Call {
    if e != AlreadyExists then c.(pc := Done(Err(e)))
    else if c.attempts < MAX_STAGING_COLLISION_RETRIES then c.(pc := Claim)
    else c.(pc := Done(Err(RetryBound)))
  }

  /** `outcome?; cleanup?; Ok(true)`. */
  function Finished(c: Call, outcome: Option<IoError>, cleanedUp: bool): Call {
    match outcome
    case Some(e) => Refused(c, e)
    case None => c.(pc := Done(if cleanedUp then Ok(true) else Err(Fault)))
  }

  /** One step of one call; `newIno` is the inode the file system hands out. */
  predicate Advance(s: System, c: Call, newIno: Ino, amount: nat, d: Disk, c': Call, next': map<nat, nat>) {
    match c.pc
    case Claim =>
      && d == s.disk
      && c' == c.(pc := Check, temp := Temp(c.pid, Next(s, c.process)), attempts := c.attempts + 1)
      && next' == s.next[c.process := Bump(Next(s, c.process))]
    case Check =>
      && d == s.disk && next' == s.next
      && c' == c.(pc := if c.name in s.disk.root then Compare else Create)
    case Compare =>
      && d == s.disk && next' == s.next
      && c' == c.(pc := if c.name in Files(s.disk) && Files(s.disk)[c.name] == c.bytes
                        then Done(Ok(false)) else Done(Err(Differs)))
    case Create =>
      && next' == s.next
      && if c.temp in s.disk.staging then
           d == s.disk && c' == Refused(c.(collisions := c.collisions + 1), AlreadyExists)
         else
           && newIno !in s.disk.content
           && d == CreateTemp(s.disk, c.temp, newIno)
           && c' == c.(pc := Write(0), ino := newIno)
    case Write(done) =>
      && next' == s.next
      && if done < |c.bytes| then
           && done < amount <= |c.bytes|
           && d == WriteFile(s.disk, c.ino, c.bytes[..amount])
           && c' == c.(pc := Write(amount))
         else
           d == s.disk && c' == c.(pc := Sync)
    case Sync =>
      d == SyncFile(s.disk, c.ino) && c' == c.(pc := StageSync) && next' == s.next
    case StageSync =>
      d == SyncStaging(s.disk) && c' == c.(pc := Link) && next' == s.next
    case Link =>
      && next' == s.next
      && if c.name in s.disk.root then
           d == s.disk && c' == c.(pc := Cleanup(Some(AlreadyExists)))
         else
           d == LinkRoot(s.disk, c.name, c.ino) && c' == c.(pc := RootSync)
    case RootSync =>
      d == SyncRoot(s.disk) && c' == c.(pc := ReadBack) && next' == s.next
    case ReadBack =>
      && d == s.disk && next' == s.next
      && c' == c.(pc := Cleanup(if c.name in Files(s.disk) && Files(s.disk)[c.name] == c.bytes
                                then None else Some(Differs)))
    case Cleanup(outcome) =>
      && d == s.disk && next' == s.next
      && c' == if c.temp in s.disk.staging && s.disk.staging[c.temp] == c.ino
               then c.(pc := Remove(outcome)) else Finished(c, outcome, false)
    case Remove(outcome) =>
      d == RemoveTemp(s.disk, c.temp) && c' == c.(pc := RemovalSync(outcome)) && next' == s.next
    case RemovalSync(outcome) =>
      d == SyncStaging(s.disk) && c' == Finished(c, outcome, true) && next' == s.next
    case Done(_) => false
    case Dead => false
  }

  /** A storage fault or a failed attachment check at the call's current point. Before
      the temporary is owned it ends the attempt; afterwards the cleanup still runs. */
  function Faulted(c: Call): Call
    requires !c.pc.Done? && !c.pc.Dead?
  {
    match c.pc
    case Write(_) => c.(pc := Cleanup(Some(Fault)))
    case Sync => c.(pc := Cleanup(Some(Fault)))
    case StageSync => c.(pc := Cleanup(Some(Fault)))
    case Link => c.(pc := Cleanup(Some(Fault)))
    case RootSync => c.(pc := Cleanup(Some(Fault)))
    case ReadBack => c.(pc := Cleanup(Some(Fault)))
    case Cleanup(outcome) => Finished(c, outcome, false)
    case Remove(outcome) => Finished(c, outcome, false)
    case RemovalSync(outcome) => Finished(c, outcome, false)
    case _ => c.(pc := Done(Err(Fault)))
  }

  function Killed(c: Call): Call {
    if c.pc.Done? then c else c.(pc := Dead)
  }

  /** The calls of a process die with it, and a new process counts from zero again. */
  function AfterExit(calls: map<nat, Call>, process: nat): map<nat, Call> {
    map c | c in calls :: if calls[c].process == process then Killed(calls[c]) else calls[c]
  }

  ghost predicate Transition(s: System, e: Event, s': System) {
    match e
    case Spawn(c, name, bytes, process, pid) =>
      && c !in s.calls
      && s' == s.(calls := s.calls[c := Call(name, bytes, process, pid, Claim, Temp(pid, 0), 0, 0, 0)])
    case Step(c, newIno, amount) =>
      && c in s.calls && c in s'.calls
      && s'.calls == s.calls[c := s'.calls[c]]
      && Advance(s, s.calls[c], newIno, amount, s'.disk, s'.calls[c], s'.next)
    case Fail(c) =>
      && c in s.calls && !s.calls[c].pc.Done? && !s.calls[c].pc.Dead?
      && s' == s.(calls := s.calls[c := Faulted(s.calls[c])])
    case Kill(c) =>
      c in s.calls && s' == s.(calls := s.calls[c := Killed(s.calls[c])])
    case Exit(process) => s' == s.(calls := AfterExit(s.calls, process), next := s.next - {process})
    case Power(after) =>
      && PowerLoss(s.disk, after)
      && s' == System(after, map c | c in s.calls :: Killed(s.calls[c]), map[])
  }

  ghost predicate Takes(states: seq<System>, events: seq<Event>, i: nat)
    requires |states| == |events| + 1 && i < |events|
  {
    Transition(states[i], events[i], states[i + 1])
  }

  /** A finite execution: states[i] --events[i]--> states[i+1]. */
  ghost predicate Execution(states: seq<System>, events: seq<Event>) {
    && |states| == |events| + 1
    && Sealed(states[0].disk) && states[0].calls == map[]
    && forall i | 0 <= i < |events| :: Takes(states, events, i)
  }

  // ---- what every event keeps -------------------------------------------------

  /** The call holds a complete, synchronized file that no final name refers to yet. */
  ghost predicate Staged(d: Disk, c: Call) {
    && c.ino in d.content && d.content[c.ino] == c.bytes && c.ino !in d.dirtyData
    && (forall n <- d.root :: d.root[n] != c.ino)
  }

  /** The call's own file is the one under the final name. */
  ghost predicate Won(d: Disk, c: Call) {
    c.name in d.root && d.root[c.name] == c.ino && c.ino in d.content && d.content[c.ino] == c.bytes
  }

  ghost predicate OwnsTemp(d: Disk, c: Call) {
    c.temp in d.staging && d.staging[c.temp] == c.ino
  }

  /** Attempts spent so far that were not staging collisions. */
  function OtherAttempts(c: Call): int {
    c.attempts - c.collisions
  }

  /** The one error after which the loop goes round again without a staging collision:
      hard_link lost the race, so the final name is taken. */
  ghost predicate LostLink(d: Disk, c: Call, outcome: Option<IoError>) {
    outcome == Some(AlreadyExists) ==> c.name in d.root
  }

  ghost predicate CleanupInv(d: Disk, c: Call, outcome: Option<IoError>) {
    && OtherAttempts(c) == 1
    && LostLink(d, c, outcome)
    && outcome != Some(RetryBound)
    && (outcome == None ==> Won(d, c) && Durable(d, c.name))
  }

  /** What holds of a call at its current point. */
  ghost predicate CallInv(d: Disk, c: Call) {
    && c.attempts <= MAX_STAGING_COLLISION_RETRIES
    && match c.pc
       case Claim =>
         && c.attempts < MAX_STAGING_COLLISION_RETRIES
         && (OtherAttempts(c) == 0 || (OtherAttempts(c) == 1 && c.name in d.root))
       case Check => OtherAttempts(c) == 1 || (OtherAttempts(c) == 2 && c.name in d.root)
       case Compare => c.name in d.root
       case Create => OtherAttempts(c) == 1
       case Write(done) =>
         && OtherAttempts(c) == 1 && OwnsTemp(d, c)
         && done <= |c.bytes| && c.ino in d.content && d.content[c.ino] == c.bytes[..done]
         && forall n <- d.root :: d.root[n] != c.ino
       case Sync =>
         && OtherAttempts(c) == 1 && OwnsTemp(d, c)
         && c.ino in d.content && d.content[c.ino] == c.bytes
         && forall n <- d.root :: d.root[n] != c.ino
       case StageSync => OtherAttempts(c) == 1 && OwnsTemp(d, c) && Staged(d, c)
       case Link => OtherAttempts(c) == 1 && OwnsTemp(d, c) && Staged(d, c)
       case RootSync => OtherAttempts(c) == 1 && OwnsTemp(d, c) && Won(d, c)
       case ReadBack => OtherAttempts(c) == 1 && OwnsTemp(d, c) && Won(d, c) && Durable(d, c.name)
       case Cleanup(o) => CleanupInv(d, c, o) && OwnsTemp(d, c)
       case Remove(o) => CleanupInv(d, c, o) && OwnsTemp(d, c)
       case RemovalSync(o) => CleanupInv(d, c, o)
       case Done(r) =>
         && (r == Ok(true) ==> Won(d, c) && Durable(d, c.name))
         && (r == Err(RetryBound) ==> c.attempts == MAX_STAGING_COLLISION_RETRIES && OtherAttempts(c) <= 1)
         && r != Err(AlreadyExists)
       case Dead => true
  }

  /** The call has been handed an inode in its current attempt. */
  predicate HasInode(c: Call) {
    match c.pc
    case Claim => false
    case Check => false
    case Compare => false
    case Create => false
    case Done(r) => r == Ok(true)
    case Dead => false
    case _ => true
  }

  /** No two calls were ever handed the same inode. */
  ghost predicate InodesDistinct(calls: map<nat, Call>) {
    forall c, c' | c in calls && c' in calls && c != c' && HasInode(calls[c]) && HasInode(calls[c']) ::
      calls[c].ino != calls[c'].ino
  }

  ghost predicate CallsHold(d: Disk, calls: map<nat, Call>) {
    forall c <- calls :: CallInv(d, calls[c]) && (HasInode(calls[c]) ==> calls[c].ino in d.content)
  }

  ghost predicate Inv(s: System) {
    Sealed(s.disk) && CallsHold(s.disk, s.calls) && InodesDistinct(s.calls)
  }

  /** The inode a call's step may touch. */
  function Own(c: Call, newIno: Ino): Ino {
    if c.pc.Create? then newIno else c.ino
  }

  /** How far one call's step may reach: its own inode's bytes, one new link to its own
      inode, its own temporary. */
  ghost predicate ReachData(d: Disk, c: Call, newIno: Ino, d': Disk) {
    && (forall i <- d.content :: i in d'.content && (i != Own(c, newIno) ==> d'.content[i] == d.content[i]))
    && d'.dirtyData <= d.dirtyData + {Own(c, newIno)}
  }

  ghost predicate ReachRoot(d: Disk, c: Call, newIno: Ino, d': Disk) {
    && (forall n <- d.root :: n in d'.root && d'.root[n] == d.root[n])
    && (forall n <- d'.root :: n in d.root || d'.root[n] == Own(c, newIno))
    && (forall n | Durable(d, n) :: Durable(d', n))
  }

  ghost predicate ReachStaging(d: Disk, c: Call, newIno: Ino, d': Disk) {
    forall t <- d.staging :: (t in d'.staging && d'.staging[t] == d.staging[t]) || d.staging[t] == Own(c, newIno)
  }

  lemma StepReachData(s: System, c: Call, newIno: Ino, amount: nat, d: Disk, c': Call, next': map<nat, nat>)
    requires Advance(s, c, newIno, amount, d, c', next')
    ensures ReachData(s.disk, c, newIno, d)
  {
  }

  lemma StepReachRoot(s: System, c: Call, newIno: Ino, amount: nat, d: Disk, c': Call, next': map<nat, nat>)
    requires Advance(s, c, newIno, amount, d, c', next')
    ensures ReachRoot(s.disk, c, newIno, d)
  {
  }

  lemma StepReachStaging(s: System, c: Call, newIno: Ino, amount: nat, d: Disk, c': Call, next': map<nat, nat>)
    requires CallInv(s.disk, c)
    requires Advance(s, c, newIno, amount, d, c', next')
    ensures ReachStaging(s.disk, c, newIno, d)
  {
  }

  lemma StepSealed(s: System, c: Call, newIno: Ino, amount: nat, d: Disk, c': Call, next': map<nat, nat>)
    requires Sealed(s.disk) && CallInv(s.disk, c)
    requires Advance(s, c, newIno, amount, d, c', next')
    ensures Sealed(d)
  {
  }

  /** The inode a call holds after its step is the one it held, or a new one. */
  ghost predicate KeepsInode(d: Disk, c: Call, newIno: Ino, d': Disk, c': Call) {
    HasInode(c') ==>
      && c'.ino in d'.content
      && ((HasInode(c) && c'.ino == c.ino) || (c'.ino == newIno && newIno !in d.content))
  }

  lemma LookupKeepsSelf(s: System, c: Call, newIno: Ino, amount: nat, d: Disk, c': Call, next': map<nat, nat>)
    requires Sealed(s.disk) && CallInv(s.disk, c)
    requires c.pc.Claim? || c.pc.Check? || c.pc.Compare? || c.pc.Create?
    requires Advance(s, c, newIno, amount, d, c', next')
    ensures CallInv(d, c') && KeepsInode(s.disk, c, newIno, d, c')
  {
  }

  lemma StagingKeepsSelf(s: System, c: Call, newIno: Ino, amount: nat, d: Disk, c': Call, next': map<nat, nat>)
    requires Sealed(s.disk) && CallInv(s.disk, c)
    requires c.pc.Write? || c.pc.Sync? || c.pc.StageSync?
    requires Advance(s, c, newIno, amount, d, c', next')
    ensures CallInv(d, c') && KeepsInode(s.disk, c, newIno, d, c')
  {
  }

  lemma LinkingKeepsSelf(s: System, c: Call, newIno: Ino, amount: nat, d: Disk, c': Call, next': map<nat, nat>)
    requires Sealed(s.disk) && CallInv(s.disk, c)
    requires c.pc.Link? || c.pc.RootSync? || c.pc.ReadBack?
    requires Advance(s, c, newIno, amount, d, c', next')
    ensures CallInv(d, c') && KeepsInode(s.disk, c, newIno, d, c')
  {
  }

  lemma CleanupKeepsSelf(s: System, c: Call, newIno: Ino, amount: nat, d: Disk, c': Call, next': map<nat, nat>)
    requires Sealed(s.disk) && CallInv(s.disk, c)
    requires c.pc.Cleanup? || c.pc.Remove? || c.pc.RemovalSync?
    requires Advance(s, c, newIno, amount, d, c', next')
    ensures CallInv(d, c') && KeepsInode(s.disk, c, newIno, d, c')
  {
  }

  lemma StepKeepsOther(d: Disk, mover: Call, newIno: Ino, d': Disk, c: Call)
    requires ReachData(d, mover, newIno, d') && ReachRoot(d, mover, newIno, d') && ReachStaging(d, mover, newIno, d')
    requires CallInv(d, c)
    requires HasInode(c) ==> c.ino in d.content && c.ino != Own(mover, newIno)
    ensures CallInv(d', c)
  {
  }

  lemma StepKeepsMover(s: System, c: Call, newIno: Ino, amount: nat, d: Disk, c': Call, next': map<nat, nat>)
    requires Sealed(s.disk) && CallInv(s.disk, c)
    requires Advance(s, c, newIno, amount, d, c', next')
    ensures CallInv(d, c') && KeepsInode(s.disk, c, newIno, d, c')
  {
    if c.pc.Claim? || c.pc.Check? || c.pc.Compare? || c.pc.Create? {
      LookupKeepsSelf(s, c, newIno, amount, d, c', next');
    } else if c.pc.Write? || c.pc.Sync? || c.pc.StageSync? {
      StagingKeepsSelf(s, c, newIno, amount, d, c', next');
    } else if c.pc.Link? || c.pc.RootSync? || c.pc.ReadBack? {
      LinkingKeepsSelf(s, c, newIno, amount, d, c', next');
    } else {
      CleanupKeepsSelf(s, c, newIno, amount, d, c', next');
    }
  }

  /** A step of a call that has no inode and creates none leaves the disk alone. */
  lemma LookupLeavesDisk(s: System, c: Call, newIno: Ino, amount: nat, d: Disk, c': Call, next': map<nat, nat>)
    requires !HasInode(c)
    requires Advance(s, c, newIno, amount, d, c', next')
    ensures d == s.disk || (c.pc.Create? && newIno !in s.disk.content)
  {
  }

  lemma StepKeepsCalls(s: System, c: nat, newIno: Ino, amount: nat, s': System)
    requires Inv(s) && Transition(s, Step(c, newIno, amount), s')
    ensures CallsHold(s'.disk, s'.calls)
  {
    var call, call' := s.calls[c], s'.calls[c];
    StepKeepsMover(s, call, newIno, amount, s'.disk, call', s'.next);
    if s'.disk != s.disk {
      StepReachData(s, call, newIno, amount, s'.disk, call', s'.next);
      StepReachRoot(s, call, newIno, amount, s'.disk, call', s'.next);
      StepReachStaging(s, call, newIno, amount, s'.disk, call', s'.next);
      if !HasInode(call) {
        LookupLeavesDisk(s, call, newIno, amount, s'.disk, call', s'.next);
      }
      forall o | o in s'.calls && o != c
        ensures CallInv(s'.disk, s'.calls[o])
      {
        StepKeepsOther(s.disk, call, newIno, s'.disk, s.calls[o]);
      }
    }
  }

  lemma StepKeepsInv(s: System, c: nat, newIno: Ino, amount: nat, s': System)
    requires Inv(s) && Transition(s, Step(c, newIno, amount), s')
    ensures Inv(s')
  {
    StepSealed(s, s.calls[c], newIno, amount, s'.disk, s'.calls[c], s'.next);
    StepKeepsCalls(s, c, newIno, amount, s');
    StepKeepsMover(s, s.calls[c], newIno, amount, s'.disk, s'.calls[c], s'.next);
  }

  lemma FaultKeepsCall(d: Disk, c: Call)
    requires CallInv(d, c) && !c.pc.Done? && !c.pc.Dead?
    ensures CallInv(d, Faulted(c))
    ensures HasInode(Faulted(c)) ==> HasInode(c) && Faulted(c).ino == c.ino
  {
  }

  lemma KillKeepsCall(d: Disk, c: Call)
    requires CallInv(d, c)
    ensures CallInv(d, Killed(c))
    ensures HasInode(Killed(c)) ==> HasInode(c) && Killed(c).ino == c.ino
  {
  }

  lemma PowerKeepsCall(d: Disk, after: Disk, c: Call)
    requires Sealed(d) && PowerLoss(d, after) && CallInv(d, c)
    ensures CallInv(after, Killed(c))
  {
  }

  lemma PowerKeepsInv(s: System, after: Disk, s': System)
    requires Inv(s) && Transition(s, Power(after), s')
    ensures Inv(s')
  {
    CrashOfSealed(s.disk, after);
    forall c | c in s'.calls
      ensures CallInv(s'.disk, s'.calls[c])
      ensures HasInode(s'.calls[c]) ==> HasInode(s.calls[c]) && s'.calls[c].ino == s.calls[c].ino
    {
      PowerKeepsCall(s.disk, after, s.calls[c]);
    }
  }

  lemma SpawnKeepsInv(s: System, e: Event, s': System)
    requires e.Spawn? && Inv(s) && Transition(s, e, s')
    ensures Inv(s')
  {
  }

  lemma FailKeepsInv(s: System, c: nat, s': System)
    requires Inv(s) && Transition(s, Fail(c), s')
    ensures Inv(s')
  {
    FaultKeepsCall(s.disk, s.calls[c]);
  }

  lemma KillKeepsInv(s: System, c: nat, s': System)
    requires Inv(s) && Transition(s, Kill(c), s')
    ensures Inv(s')
  {
    KillKeepsCall(s.disk, s.calls[c]);
  }

  lemma ExitKeepsInv(s: System, process: nat, s': System)
    requires Inv(s) && Transition(s, Exit(process), s')
    ensures Inv(s')
  {
    forall c | c in s'.calls
      ensures CallInv(s'.disk, s'.calls[c])
      ensures HasInode(s'.calls[c]) ==> HasInode(s.calls[c]) && s'.calls[c].ino == s.calls[c].ino
    {
      KillKeepsCall(s.disk, s.calls[c]);
    }
  }

  lemma TransitionKeepsInv(s: System, e: Event, s': System)
    requires Inv(s) && Transition(s, e, s')
    ensures Inv(s')
  {
    match e
    case Spawn(_, _, _, _, _) => SpawnKeepsInv(s, e, s');
    case Step(c, newIno, amount) => StepKeepsInv(s, c, newIno, amount, s');
    case Fail(c) => FailKeepsInv(s, c, s');
    case Kill(c) => KillKeepsInv(s, c, s');
    case Exit(process) => ExitKeepsInv(s, process, s');
    case Power(after) => PowerKeepsInv(s, after, s');
  }

  /** Every reachable state satisfies the invariant. */
  lemma {:induction false} Reachable(states: seq<System>, events: seq<Event>, i: nat)
    requires Execution(states, events) && i < |states|
    ensures Inv(states[i])
  {
    if i > 0 {
      Reachable(states, events, i - 1);
      assert Takes(states, events, i - 1);
      TransitionKeepsInv(states[i - 1], events[i - 1], states[i]);
    }
  }

  // ---- links that are not synchronized yet ------------------------------------

  /** A call that got as far as its root sync and no further: it stands before it, or it
      failed or died there. */
  predicate StoppedBeforeSync(pc: Pc) {
    match pc
    case RootSync => true
    case Cleanup(o) => o == Some(Fault)
    case Remove(o) => o == Some(Fault)
    case RemovalSync(o) => o == Some(Fault)
    case Done(r) => r == Err(Fault)
    case Dead => true
    case _ => false
  }

  /** The call linked the file that is under its name and did not synchronize the link. */
  ghost predicate LeftUnsynchronized(d: Disk, c: Call) {
    StoppedBeforeSync(c.pc) && c.name in d.root && d.root[c.name] == c.ino
  }

  /** Every link that is not synchronized has such a call. */
  ghost predicate UnsynchronizedHaveCalls(s: System) {
    forall n <- s.disk.dirtyRoot ::
      exists c :: c in s.calls && s.calls[c].name == n && LeftUnsynchronized(s.disk, s.calls[c])
  }

  lemma StepKeepsUnsynchronized(
    s: System, c: Call, newIno: Ino, amount: nat, d: Disk, c': Call, next': map<nat, nat>)
    requires Advance(s, c, newIno, amount, d, c', next')
    ensures d.dirtyRoot <= s.disk.dirtyRoot || (c'.name == c.name && LeftUnsynchronized(d, c'))
    ensures d.dirtyRoot <= s.disk.dirtyRoot + {c.name}
    ensures LeftUnsynchronized(s.disk, c) && d.dirtyRoot != {} ==> LeftUnsynchronized(d, c')
  {
  }

  lemma FaultKeepsUnsynchronized(d: Disk, c: Call)
    requires LeftUnsynchronized(d, c) && !c.pc.Done? && !c.pc.Dead?
    ensures LeftUnsynchronized(d, Faulted(c)) && Faulted(c).name == c.name
  {
  }

  lemma EventKeepsUnsynchronized(s: System, e: Event, s': System)
    requires Transition(s, e, s') && UnsynchronizedHaveCalls(s)
    ensures UnsynchronizedHaveCalls(s')
  {
    forall n | n in s'.disk.dirtyRoot
      ensures exists c :: c in s'.calls && s'.calls[c].name == n && LeftUnsynchronized(s'.disk, s'.calls[c])
    {
      if e.Step? {
        StepKeepsUnsynchronized(s, s.calls[e.c], e.newIno, e.amount, s'.disk, s'.calls[e.c], s'.next);
      }
      if n !in s.disk.dirtyRoot {
        assert e.Step? && s'.calls[e.c].name == n;
      } else {
        var c :| c in s.calls && s.calls[c].name == n && LeftUnsynchronized(s.disk, s.calls[c]);
        if e.Fail? && e.c == c {
          FaultKeepsUnsynchronized(s.disk, s.calls[c]);
        } else if e.Step? {
          StepReachRoot(s, s.calls[e.c], e.newIno, e.amount, s'.disk, s'.calls[e.c], s'.next);
        }
        assert c in s'.calls && s'.calls[c].name == n && LeftUnsynchronized(s'.disk, s'.calls[c]);
      }
    }
  }

  /** If every link was synchronized at the start, then in every later state a name that is
      linked and not durable was linked by a call that is still before its root sync, or
      failed or died there. */
  lemma {:induction false} UnsynchronizedHasCall(states: seq<System>, events: seq<Event>, i: nat)
    requires Execution(states, events) && i < |states| && states[0].disk.dirtyRoot == {}
    ensures UnsynchronizedHaveCalls(states[i])
  {
    if i > 0 {
      UnsynchronizedHasCall(states, events, i - 1);
      assert Takes(states, events, i - 1);
      EventKeepsUnsynchronized(states[i - 1], events[i - 1], states[i]);
    }
  }

  // ---- the promises of `publish` ----------------------------------------------

  /** Names never lose or change their bytes in one event, except that a power loss may
      take back a link that was not synchronized yet. */
  lemma EventKeepsNames(s: System, e: Event, s': System, name: string)
    requires Inv(s) && Transition(s, e, s')
    requires name in Files(s.disk)
    requires e.Power? ==> Durable(s.disk, name)
    ensures name in Files(s'.disk) && Files(s'.disk)[name] == Files(s.disk)[name]
    ensures Durable(s.disk, name) ==> Durable(s'.disk, name)
  {
    match e
    case Step(c, newIno, amount) =>
      var call := s.calls[c];
      StepReachRoot(s, call, newIno, amount, s'.disk, s'.calls[c], s'.next);
      StepReachData(s, call, newIno, amount, s'.disk, s'.calls[c], s'.next);
    case Power(after) => CrashOfSealed(s.disk, after);
    case _ =>
  }

  /** Bytes never change once linked: in any execution, a final name keeps its bytes
      from the moment it is seen as long as the power stays on, and forever once it is
      durable. */
  lemma {:induction false} LinkedBytesNeverChange(states: seq<System>, events: seq<Event>, i: nat, j: nat, name: string)
    requires Execution(states, events) && i <= j < |states|
    requires name in Files(states[i].disk)
    requires Durable(states[i].disk, name) || forall k | i <= k < j :: !events[k].Power?
    ensures name in Files(states[j].disk) && Files(states[j].disk)[name] == Files(states[i].disk)[name]
    ensures Durable(states[i].disk, name) ==> Durable(states[j].disk, name)
  {
    if i < j {
      var s, e, s' := states[j - 1], events[j - 1], states[j];
      LinkedBytesNeverChange(states, events, i, j - 1, name);
      assert Inv(s) by {
        Reachable(states, events, j - 1);
      }
      assert Takes(states, events, j - 1);
      EventKeepsNames(s, e, s', name);
    }
  }

  /** Calls are never forgotten and never change what they publish. */
  lemma EventKeepsCalls(s: System, e: Event, s': System, c: nat)
    requires Transition(s, e, s') && c in s.calls
    ensures c in s'.calls && s'.calls[c].name == s.calls[c].name && s'.calls[c].bytes == s.calls[c].bytes
    ensures s.calls[c].pc.Done? ==> s'.calls[c] == s.calls[c]
  {
  }

  lemma {:induction false} ResultsStay(states: seq<System>, events: seq<Event>, i: nat, j: nat, c: nat)
    requires Execution(states, events) && i <= j < |states| && c in states[i].calls
    ensures c in states[j].calls && states[j].calls[c].name == states[i].calls[c].name
    ensures states[j].calls[c].bytes == states[i].calls[c].bytes
    ensures states[i].calls[c].pc.Done? ==> states[j].calls[c] == states[i].calls[c]
  {
    if i < j {
      ResultsStay(states, events, i, j - 1, c);
      assert Takes(states, events, j - 1);
      EventKeepsCalls(states[j - 1], events[j - 1], states[j], c);
    }
  }

  /** Ok(true) means durable: from the moment a call returned Ok(true), every later
      state of the archive, after any power loss, holds exactly its bytes. */
  lemma PublishedForever(states: seq<System>, events: seq<Event>, i: nat, j: nat, c: nat)
    requires Execution(states, events) && i <= j < |states|
    requires c in states[i].calls && states[i].calls[c].pc == Done(Ok(true))
    ensures var call := states[i].calls[c];
            call.name in Files(states[j].disk) && Files(states[j].disk)[call.name] == call.bytes
            && Durable(states[j].disk, call.name)
  {
    Reachable(states, events, i);
    LinkedBytesNeverChange(states, events, i, j, states[i].calls[c].name);
  }

  /** At most one call ever gets Ok(true) for a name, over all crashes and races. */
  lemma OneWinner(states: seq<System>, events: seq<Event>, i: nat, j: nat, c: nat, c': nat)
    requires Execution(states, events) && i < |states| && j < |states|
    requires c in states[i].calls && states[i].calls[c].pc == Done(Ok(true))
    requires c' in states[j].calls && states[j].calls[c'].pc == Done(Ok(true))
    requires states[i].calls[c].name == states[j].calls[c'].name
    ensures c == c'
  {
    var k := if i <= j then j else i;
    ResultsStay(states, events, i, k, c);
    ResultsStay(states, events, j, k, c');
    Reachable(states, events, k);
  }

  /** Where the bytes under a final name may come from. */
  ghost predicate WholeArtifact(s0: System, s: System, name: string)
    requires name in Files(s.disk)
  {
    || (name in Files(s0.disk) && Files(s0.disk)[name] == Files(s.disk)[name])
    || exists c :: c in s.calls && s.calls[c].name == name && s.calls[c].bytes == Files(s.disk)[name]
  }

  lemma EventKeepsWhole(s0: System, s: System, e: Event, s': System, name: string)
    requires Inv(s) && Transition(s, e, s') && name in Files(s'.disk)
    requires name in Files(s.disk) ==> WholeArtifact(s0, s, name)
    ensures WholeArtifact(s0, s', name)
  {
    if name in Files(s.disk) {
      if e.Power? {
        CrashOfSealed(s.disk, e.after);
      } else {
        EventKeepsNames(s, e, s', name);
      }
      if c :| c in s.calls && s.calls[c].name == name && s.calls[c].bytes == Files(s.disk)[name] {
        EventKeepsCalls(s, e, s', c);
      }
    } else if e.Power? {
      CrashOfSealed(s.disk, e.after);
    } else if e.Step? {
      assert s'.calls[e.c].name == name;
    }
  }

  /** Crash atomicity: in every reachable state, also right after a power loss at any
      step of any call, a final name that exists holds the complete bytes some call was
      given for it, or the bytes it had from the start; never a partial file. */
  lemma {:induction false} NoTornFile(states: seq<System>, events: seq<Event>, i: nat, name: string)
    requires Execution(states, events) && i < |states| && name in Files(states[i].disk)
    ensures WholeArtifact(states[0], states[i], name)
  {
    if i > 0 {
      Reachable(states, events, i - 1);
      if name in Files(states[i - 1].disk) {
        NoTornFile(states, events, i - 1, name);
      }
      assert Takes(states, events, i - 1);
      EventKeepsWhole(states[0], states[i - 1], events[i - 1], states[i], name);
    }
  }

  ghost predicate Accepted(s: System, c: nat) {
    c in s.calls && s.calls[c].pc.Done? && s.calls[c].pc.result.Ok?
  }

  /** Only the call's own step can tell it Ok. */
  lemma AcceptedByStep(s: System, e: Event, s': System, c: nat)
    requires Transition(s, e, s') && !Accepted(s, c) && Accepted(s', c)
    ensures e.Step? && e.c == c && c in s.calls
    ensures Advance(s, s.calls[c], e.newIno, e.amount, s'.disk, s'.calls[c], s'.next)
  {
  }

  lemma AcceptingStep(s: System, c: Call, newIno: Ino, amount: nat, d: Disk, c': Call, next': map<nat, nat>)
    requires Valid(s.disk) && CallInv(s.disk, c)
    requires Advance(s, c, newIno, amount, d, c', next')
    requires c'.pc.Done? && c'.pc.result.Ok?
    ensures c.name in Files(s.disk) && Files(s.disk)[c.name] == c.bytes
    ensures d.root == s.disk.root && d.content == s.disk.content
  {
    assert c.pc.Compare? || c.pc.RemovalSync?;
  }

  /** A call can only be told Ok while the name holds exactly its bytes. */
  lemma AcceptanceSeesOwnBytes(s: System, e: Event, s': System, c: nat)
    requires Inv(s) && Transition(s, e, s')
    requires !Accepted(s, c) && Accepted(s', c)
    ensures var call := s'.calls[c];
            call.name in Files(s.disk) && Files(s.disk)[call.name] == call.bytes
    ensures s'.disk.root == s.disk.root && s'.disk.content == s.disk.content
  {
    AcceptedByStep(s, e, s', c);
    AcceptingStep(s, s.calls[c], e.newIno, e.amount, s'.disk, s'.calls[c], s'.next);
  }

  /** The call does not publish other bytes under this name and get away with it. */
  ghost predicate TurnedAway(s: System, c: nat, name: string, bytes: Bytes) {
    c in s.calls && s.calls[c].name == name && s.calls[c].bytes != bytes ==> !Accepted(s, c)
  }

  lemma EventTurnsAway(s: System, e: Event, s': System, c: nat, name: string, bytes: Bytes)
    requires Inv(s) && Transition(s, e, s')
    requires name in Files(s.disk) && Files(s.disk)[name] == bytes
    requires TurnedAway(s, c, name, bytes)
    ensures TurnedAway(s', c, name, bytes)
  {
    if c in s.calls {
      EventKeepsCalls(s, e, s', c);
    }
    if !Accepted(s, c) && Accepted(s', c) {
      AcceptanceSeesOwnBytes(s, e, s', c);
    }
  }

  lemma TurnsAwayNext(states: seq<System>, events: seq<Event>, i: nat, c: nat, name: string, bytes: Bytes)
    requires Execution(states, events) && i < |events| && TurnedAway(states[i], c, name, bytes)
    requires name in Files(states[i].disk) && Files(states[i].disk)[name] == bytes
    ensures TurnedAway(states[i + 1], c, name, bytes)
  {
    Reachable(states, events, i);
    assert Takes(states, events, i);
    EventTurnsAway(states[i], events[i], states[i + 1], c, name, bytes);
  }

  /** A loser with different bytes always fails: once a name is linked, no call that
      brings other bytes is ever told Ok, as long as the power stays on, and never if
      the name was durable. */
  lemma {:induction false} DifferentBytesNeverAccepted(
    states: seq<System>, events: seq<Event>, i: nat, j: nat, c: nat, name: string, bytes: Bytes)
    requires Execution(states, events) && i <= j < |states|
    requires name in Files(states[i].disk) && Files(states[i].disk)[name] == bytes
    requires Durable(states[i].disk, name) || forall k | i <= k < j :: !events[k].Power?
    requires !Accepted(states[i], c)
    ensures TurnedAway(states[j], c, name, bytes)
  {
    if i < j {
      DifferentBytesNeverAccepted(states, events, i, j - 1, c, name, bytes);
      LinkedBytesNeverChange(states, events, i, j - 1, name);
      TurnsAwayNext(states, events, j - 1, c, name, bytes);
    }
  }

  /** Giving up at the retry bound takes at least 31 staging collisions: at most one of
      the 32 rounds can be spent on a lost link. */
  lemma RetryBoundNeedsCollisions(states: seq<System>, events: seq<Event>, i: nat, c: nat)
    requires Execution(states, events) && i < |states|
    requires c in states[i].calls && states[i].calls[c].pc == Done(Err(RetryBound))
    ensures states[i].calls[c].attempts == MAX_STAGING_COLLISION_RETRIES
    ensures states[i].calls[c].collisions >= MAX_STAGING_COLLISION_RETRIES - 1
  {
    Reachable(states, events, i);
  }

  /** No live call holds the file behind this temporary. */
  ghost predicate Unowned(s: System, t: Temp) {
    && t in s.disk.staging
    && forall c <- s.calls :: HasInode(s.calls[c]) ==> s.calls[c].ino != s.disk.staging[t]
  }

  /** The staging entry refers to the same file with the same bytes. */
  ghost predicate SameTemp(d: Disk, d': Disk, t: Temp) {
    && t in d.staging && t in d'.staging && d'.staging[t] == d.staging[t]
    && d.staging[t] in d.content && d.staging[t] in d'.content
    && d'.content[d'.staging[t]] == d.content[d.staging[t]]
  }

  lemma StepKeepsUnowned(s: System, c: nat, newIno: Ino, amount: nat, s': System, t: Temp)
    requires Inv(s) && Transition(s, Step(c, newIno, amount), s') && Unowned(s, t)
    ensures Unowned(s', t) && SameTemp(s.disk, s'.disk, t)
  {
    var call := s.calls[c];
    StepKeepsMover(s, call, newIno, amount, s'.disk, s'.calls[c], s'.next);
    if s'.disk != s.disk {
      if !HasInode(call) {
        LookupLeavesDisk(s, call, newIno, amount, s'.disk, s'.calls[c], s'.next);
      }
      StepReachStaging(s, call, newIno, amount, s'.disk, s'.calls[c], s'.next);
      StepReachData(s, call, newIno, amount, s'.disk, s'.calls[c], s'.next);
    }
  }

  lemma EventKeepsUnowned(s: System, e: Event, s': System, t: Temp)
    requires Inv(s) && Transition(s, e, s') && !e.Power? && Unowned(s, t)
    ensures Unowned(s', t) && SameTemp(s.disk, s'.disk, t)
  {
    match e
    case Step(c, newIno, amount) => StepKeepsUnowned(s, c, newIno, amount, s', t);
    case Fail(c) => FaultKeepsCall(s.disk, s.calls[c]);
    case _ =>
  }

  /** A staging file that no live call owns is never removed or replaced by a call. */
  lemma {:induction false} UnownedStagingIsPreserved(states: seq<System>, events: seq<Event>, i: nat, j: nat, t: Temp)
    requires Execution(states, events) && i <= j < |states|
    requires Unowned(states[i], t)
    requires forall k | i <= k < j :: !events[k].Power?
    ensures Unowned(states[j], t) && SameTemp(states[i].disk, states[j].disk, t)
  {
    Reachable(states, events, i);
    if i < j {
      UnownedStagingIsPreserved(states, events, i, j - 1, t);
      Reachable(states, events, j - 1);
      assert Takes(states, events, j - 1);
      EventKeepsUnowned(states[j - 1], events[j - 1], states[j], t);
    }
  }
}
