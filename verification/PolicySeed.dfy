/**
 Seeding the local policy rows. The execution seeder reads both rows of a profile, refuses
 anything but absent or exact, writes what is missing in one transaction and reads both
 rows again. The publication seeder does the same for one row, and is done at once when it
 is already there.
 */
module PolicySeed {
  import opened Prelude
  import opened RowStore

  /** One policy row: its reserved key and its exact encoding. */
  datatype Entry = Entry(key: Bytes, bytes: Bytes)

  datatype SeedError = ReadFailed | Mismatch | TombstonedRow | CommitRejected | CommitIndeterminate

  ghost predicate KeysDistinct(entries: seq<Entry>) {
    forall i, j | 0 <= i < j < |entries| :: entries[i].key != entries[j].key
  }

  ghost predicate Exact(row: Row, e: Entry) {
    row.value == Some(e.bytes)
  }

  // ---- what a seeder may commit ---------------------------------------------------------

  function Keys(entries: seq<Entry>): set<Bytes> {
    set e <- entries :: e.key
  }

  /** A seeding transaction: it asserts every row of the profile, and puts the exact bytes
      of just those it asserts as never written. */
  ghost predicate SeedTx(tx: Tx, entries: seq<Entry>) {
    && (forall e <- entries :: e.key in tx.asserted)
    && (forall e <- entries :: e.key in tx.puts <==> tx.asserted[e.key] == INITIAL)
    && (forall e <- entries | e.key in tx.puts :: tx.puts[e.key] == Some(e.bytes))
    && tx.puts.Keys <= Keys(entries)
  }

  /** Every row it did not put was seen exact at the revision it asserts. */
  ghost predicate Backed(log: Log, tx: Tx, entries: seq<Entry>) {
    forall e <- entries | e.key in tx.asserted && tx.asserted[e.key] != INITIAL ::
      exists j :: 0 <= j <= |log| && RowAt(log[..j], e.key) == Row(Some(e.bytes), tx.asserted[e.key])
  }

  ghost predicate RowExact(log: Log, i: nat, e: Entry)
    requires i <= |log|
  {
    Exact(RowAt(log[..i], e.key), e)
  }

  /** The seeder touches no row that has a value and revives no tombstone; what it leaves
      alone is exact at that very moment, so right after its commit the whole profile is
      exact. This holds no matter who else writes. */
  lemma CommitCompletesProfile(log: Log, i: nat, entries: seq<Entry>, e: Entry)
    requires ValidLog(log) && i < |log| && SeedTx(log[i], entries) && Backed(log[..i], log[i], entries) && e in entries
    ensures e.key in log[i].puts ==> RowAt(log[..i], e.key) == Row(None, INITIAL)
    ensures e.key !in log[i].puts ==> RowExact(log, i, e)
    ensures RowExact(log, i + 1, e)
  {
    var tx := log[i];
    assert Applies(log[..i], tx);
    RowStep(log, i, e.key);
    if e.key in tx.puts {
      InitialIsAbsent(log[..i], e.key);
    } else {
      var before := log[..i];
      var j :| 0 <= j <= |before| && RowAt(before[..j], e.key) == Row(Some(e.bytes), tx.asserted[e.key]);
      SameRow(before, log, j, e.key);
      RevisionFixesRow(log, j, i, e.key);
    }
  }

  // ---- only seeders ------------------------------------------------------------------------

  ghost predicate Touches(tx: Tx, entries: seq<Entry>) {
    exists e <- entries :: e.key in tx.puts
  }

  /** Nobody but seeders of this profile writes its rows. */
  ghost predicate OnlySeeders(log: Log, entries: seq<Entry>) {
    forall i | 0 <= i < |log| :: Touches(log[i], entries) ==>
      SeedTx(log[i], entries) && Backed(log[..i], log[i], entries)
  }

  ghost predicate AllAbsent(log: Log, i: nat, entries: seq<Entry>)
    requires i <= |log|
  {
    forall e <- entries :: RowAt(log[..i], e.key) == Row(None, INITIAL)
  }

  ghost predicate AllExact(log: Log, i: nat, entries: seq<Entry>)
    requires i <= |log|
  {
    forall e <- entries :: RowAt(log[..i], e.key) == Row(Some(e.bytes), 1)
  }

  lemma FirstSeedWritesAll(log: Log, i: nat, entries: seq<Entry>)
    requires ValidLog(log) && OnlySeeders(log, entries) && i < |log| && Touches(log[i], entries)
    requires AllAbsent(log, i, entries) || AllExact(log, i, entries)
    ensures AllAbsent(log, i, entries)
    ensures forall e <- entries :: e.key in log[i].puts && log[i].puts[e.key] == Some(e.bytes)
  {
  }

  /** Two-row atomicity: at every point of every history in which only seeders write the
      profile, all its rows are absent or all are exact, and once exact they stay at their
      first revision: later seeders write nothing. */
  lemma {:induction false} AbsentOrExact(log: Log, i: nat, entries: seq<Entry>)
    requires ValidLog(log) && OnlySeeders(log, entries) && i <= |log|
    ensures AllAbsent(log, i, entries) || AllExact(log, i, entries)
    ensures i < |log| && AllExact(log, i, entries) ==> !Touches(log[i], entries)
    decreases i
  {
    if i > 0 {
      AbsentOrExact(log, i - 1, entries);
      if Touches(log[i - 1], entries) {
        FirstSeedWritesAll(log, i - 1, entries);
      }
      forall e <- entries
        ensures RowAt(log[..i], e.key)
             == if e.key in log[i - 1].puts then Row(log[i - 1].puts[e.key], RowAt(log[..i - 1], e.key).revision + 1)
                else RowAt(log[..i - 1], e.key)
      {
        RowStep(log, i - 1, e.key);
      }
    }
    if i < |log| && Touches(log[i], entries) {
      FirstSeedWritesAll(log, i, entries);
    }
  }

  // ---- the seeders --------------------------------------------------------------------------

  /** What a seeder accepts to find. */
  ghost predicate Acceptable(row: Row, e: Entry) {
    Exact(row, e) || row == Row(None, INITIAL)
  }

  ghost predicate Written(log: Log, entries: seq<Entry>) {
    forall e <- entries :: RowAt(log, e.key).revision != INITIAL
  }

  /** Between these two histories the seeder committed this transaction once, or nothing. */
  ghost predicate AtMostOnce(was: Log, now: Log, tx: Tx) {
    && was <= now
    && (forall i, j | |was| <= i < j < |now| :: now[i].writer != tx.writer || now[j].writer != tx.writer)
    && (forall i | |was| <= i < |now| && now[i].writer == tx.writer :: now[i] == tx)
  }

  /** The reads and the mutations gathered from these rows. */
  ghost predicate Gathered(log: Log, tx: Tx, entries: seq<Entry>) {
    SeedTx(tx, entries) && Backed(log, tx, entries) && tx.asserted.Keys == Keys(entries)
  }

  lemma BackedStays(was: Log, now: Log, tx: Tx, entries: seq<Entry>)
    requires was <= now && Backed(was, tx, entries)
    ensures Backed(now, tx, entries)
  {
    forall e <- entries | e.key in tx.asserted && tx.asserted[e.key] != INITIAL
      ensures exists j :: 0 <= j <= |now| && RowAt(now[..j], e.key) == Row(Some(e.bytes), tx.asserted[e.key])
    {
      var j :| 0 <= j <= |was| && RowAt(was[..j], e.key) == Row(Some(e.bytes), tx.asserted[e.key]);
      SameRow(was, now, j, e.key);
    }
  }

  /** The transaction with one more observed row, exact or never written. */
  function Observe(tx: Tx, e: Entry, row: Row): Tx {
    tx.(asserted := tx.asserted[e.key := row.revision],
        puts := if row.value == None then tx.puts[e.key := Some(e.bytes)] else tx.puts)
  }

  lemma KeysOfMore(entries: seq<Entry>, e: Entry)
    ensures Keys(entries + [e]) == Keys(entries) + {e.key}
    ensures forall f :: f in entries + [e] <==> f in entries || f == e
  {
    assert e in entries + [e];
    assert forall f :: f in entries + [e] <==> f in entries || f == e;
  }

  lemma ObserveIsSeed(tx: Tx, entries: seq<Entry>, e: Entry, row: Row)
    requires SeedTx(tx, entries) && tx.asserted.Keys == Keys(entries) && e.key !in Keys(entries)
    requires row.revision == INITIAL <==> row.value == None
    ensures SeedTx(Observe(tx, e, row), entries + [e])
    ensures Observe(tx, e, row).asserted.Keys == Keys(entries + [e])
  {
    KeysOfMore(entries, e);
    assert forall f <- entries :: f.key in Keys(entries);
  }

  lemma ObserveIsBacked(log: Log, tx: Tx, entries: seq<Entry>, e: Entry, row: Row)
    requires Backed(log, tx, entries) && tx.asserted.Keys == Keys(entries) && e.key !in Keys(entries)
    requires row == RowAt(log, e.key) && (row.value == Some(e.bytes) || row.revision == INITIAL)
    ensures Backed(log, Observe(tx, e, row), entries + [e])
  {
    KeysOfMore(entries, e);
    var tx' := Observe(tx, e, row);
    forall f <- entries + [e] | f.key in tx'.asserted && tx'.asserted[f.key] != INITIAL
      ensures exists j :: 0 <= j <= |log| && RowAt(log[..j], f.key) == Row(Some(f.bytes), tx'.asserted[f.key])
    {
      if f == e {
        assert log[..|log|] == log;
        assert RowAt(log[..|log|], e.key) == Row(Some(e.bytes), tx'.asserted[e.key]);
      } else {
        assert f.key in Keys(entries) && tx'.asserted[f.key] == tx.asserted[f.key];
      }
    }
  }

  ghost predicate AllAcceptable(log: Log, entries: seq<Entry>) {
    forall e <- entries :: Acceptable(RowAt(log, e.key), e)
  }

  ghost predicate NowExact(log: Log, entries: seq<Entry>) {
    forall e <- entries :: Exact(RowAt(log, e.key), e)
  }

  function Refusal(row: Row, e: Entry): Option<SeedError> {
    if row.value != None then (if row.value == Some(e.bytes) then None else Some(Mismatch))
    else if row.revision != INITIAL then Some(TombstonedRow)
    else None
  }

  /** The first row that is neither absent nor exact decides the error. */
  ghost predicate FirstRefusal(log: Log, entries: seq<Entry>, error: SeedError) {
    exists i ::
      && 0 <= i < |entries| && AllAcceptable(log, entries[..i])
      && Refusal(RowAt(log, entries[i].key), entries[i]) == Some(error)
  }

  lemma Refused(log: Log, entries: seq<Entry>, i: nat, error: SeedError, shared: bool)
    requires i < |entries| && Refusal(RowAt(log, entries[i].key), entries[i]) == Some(error)
    ensures !shared && AllAcceptable(log, entries[..i]) ==> FirstRefusal(log, entries, error)
    ensures !AllAcceptable(log, entries)
  {
    assert entries[i] in entries;
  }

  /** Every asserted revision still holds. */
  ghost predicate Current(log: Log, tx: Tx) {
    forall k <- tx.asserted :: RowAt(log, k).revision == tx.asserted[k]
  }

  lemma CurrentStep(log: Log, tx: Tx, entries: seq<Entry>, i: nat, row: Row)
    requires i < |entries| && row == RowAt(log, entries[i].key) && Acceptable(row, entries[i])
    requires AllAcceptable(log, entries[..i]) && Current(log, tx)
    ensures AllAcceptable(log, entries[..i + 1]) && Current(log, Observe(tx, entries[i], row))
  {
    assert entries[..i + 1] == entries[..i] + [entries[i]];
  }

  lemma GatherStep(start: Log, before: Log, log: Log, tx: Tx, entries: seq<Entry>, i: nat, row: Row)
    requires i < |entries| && KeysDistinct(entries) && start <= log && before <= log
    requires Gathered(before, tx, entries[..i]) && row == RowAt(log, entries[i].key) && Acceptable(row, entries[i])
    ensures row.revision == INITIAL <==> row.value == None
    ensures Gathered(log, Observe(tx, entries[i], row), entries[..i + 1])
    ensures entries[..i + 1] == entries[..i] + [entries[i]]
    ensures Written(start, entries) ==> row.value != None
  {
    var e := entries[i];
    assert entries[..i + 1] == entries[..i] + [e];
    assert e.key !in Keys(entries[..i]);
    InitialIsAbsent(log, e.key);
    BackedStays(before, log, tx, entries[..i]);
    ObserveIsSeed(tx, entries[..i], e, row);
    ObserveIsBacked(log, tx, entries[..i], e, row);
    assert log[..|start|] == start && log[..|log|] == log;
    RevisionFixesRow(log, |start|, |log|, e.key);
  }

  /** The read loop after its first rows: what was gathered since the call began. */
  ghost predicate Gathering(store: Store, start: Log, me: nat, entries: seq<Entry>, i: nat, tx: Tx)
    requires i <= |entries|
    reads store
  {
    && store.Valid() && ByOthers(start, store.log, me) && tx.writer == me && Gathered(store.log, tx, entries[..i])
    && (Written(start, entries) ==> tx.puts == map[])
    && (!store.shared ==> store.log == start && AllAcceptable(store.log, entries[..i]) && Current(store.log, tx))
  }

  /** Reads one row and adds it to the transaction, or refuses it. */
  method GatherOne(store: Store, me: nat, entries: seq<Entry>, i: nat, tx: Tx, ghost start: Log)
    returns (r: Result<Tx, SeedError>)
    requires KeysDistinct(entries) && i < |entries| && Gathering(store, start, me, entries, i, tx)
    modifies store
    ensures store.Valid() && ByOthers(start, store.log, me) && (!store.shared ==> store.log == start)
    ensures r.Ok? ==> Gathering(store, start, me, entries, i + 1, r.value)
    ensures !store.shared && r.Err? ==>
              !AllAcceptable(store.log, entries) && FirstRefusal(store.log, entries, r.error)
  {
    var e := entries[i];
    ghost var before := store.log;
    var got := store.Get(me, e.key);
    OthersChain(start, before, store.log, me);
    match got
    case Err(_) => return Err(ReadFailed);
    case Ok(row) =>
      if row.value != None && row.value != Some(e.bytes) {
        Refused(store.log, entries, i, Mismatch, store.shared);
        return Err(Mismatch);
      }
      if row.value == None && row.revision != INITIAL {
        Refused(store.log, entries, i, TombstonedRow, store.shared);
        return Err(TombstonedRow);
      }
      GatherStep(start, before, store.log, tx, entries, i, row);
      if !store.shared {
        CurrentStep(store.log, tx, entries, i, row);
      }
      r := Ok(Observe(tx, e, row));
  }

  /** Reads every row and gathers the transaction; refuses a foreign value and a tombstone
      before anything is written. */
  method Gather(store: Store, me: nat, entries: seq<Entry>) returns (r: Result<Tx, SeedError>)
    requires store.Valid() && KeysDistinct(entries)
    modifies store
    ensures store.Valid() && ByOthers(old(store.log), store.log, me)
    ensures r.Ok? ==> r.value.writer == me && Gathered(store.log, r.value, entries)
    ensures r.Ok? && Written(old(store.log), entries) ==> r.value.puts == map[]
    ensures !store.shared ==> store.log == old(store.log) && (r.Ok? <==> AllAcceptable(store.log, entries))
    ensures !store.shared && r.Ok? ==> Current(store.log, r.value)
    ensures !store.shared && r.Err? ==> FirstRefusal(store.log, entries, r.error)
  {
    var tx := Tx(me, map[], map[]);
    for i := 0 to |entries|
      invariant Gathering(store, old(store.log), me, entries, i, tx)
    {
      var next := GatherOne(store, me, entries, i, tx, old(store.log));
      match next
      case Err(e) => return Err(e);
      case Ok(more) => tx := more;
    }
    assert entries[..|entries|] == entries;
    r := Ok(tx);
  }

  /** Where each row of the profile was found exact. */
  ghost predicate SeenExact(log: Log, entries: seq<Entry>, at: seq<nat>, from: nat) {
    |at| == |entries| && forall i | 0 <= i < |at| :: from <= at[i] <= |log| && RowExact(log, at[i], entries[i])
  }

  lemma SeenOne(before: Log, log: Log, entries: seq<Entry>, at: seq<nat>, from: nat)
    requires before <= log && from <= |log| && |at| < |entries| && SeenExact(before, entries[..|at|], at, from)
    requires Exact(RowAt(log, entries[|at|].key), entries[|at|])
    ensures SeenExact(log, entries[..|at| + 1], at + [|log|], from)
    ensures entries[..|at| + 1] == entries[..|at|] + [entries[|at|]]
  {
    assert log[..|log|] == log;
    forall i | 0 <= i < |at| ensures RowExact(log, at[i], entries[i]) {
      assert RowExact(before, at[i], entries[..|at|][i]);
      SameRow(before, log, at[i], entries[i].key);
    }
  }

  /** Reads every row again; each must be exact. */
  method VerifyRows(store: Store, me: nat, entries: seq<Entry>) returns (r: Result<(), SeedError>, ghost at: seq<nat>)
    requires store.Valid()
    modifies store
    ensures store.Valid() && ByOthers(old(store.log), store.log, me)
    ensures r.Ok? ==> SeenExact(store.log, entries, at, |old(store.log)|)
    ensures !store.shared ==> store.log == old(store.log) && (r.Ok? <==> NowExact(store.log, entries))
  {
    at := [];
    for i := 0 to |entries|
      invariant store.Valid() && ByOthers(old(store.log), store.log, me)
      invariant |at| == i && SeenExact(store.log, entries[..i], at, |old(store.log)|)
      invariant !store.shared ==> store.log == old(store.log) && NowExact(store.log, entries[..i])
    {
      ghost var before := store.log;
      var got := store.Get(me, entries[i].key);
      match got
      case Err(_) => return Err(ReadFailed), at;
      case Ok(row) =>
        if row.value != Some(entries[i].bytes) {
          return Err(Mismatch), at;
        }
        OthersChain(old(store.log), before, store.log, me);
        SeenOne(before, store.log, entries, at, |old(store.log)|);
        at := at + [|store.log|];
    }
    assert entries[..|entries|] == entries;
    r := Ok(());
  }

  /** What one call of a seeder did: it committed nothing, or at most the one seeding
      transaction it sent, which rests on what it had read. */
  ghost predicate Disciplined(was: Log, now: Log, me: nat, entries: seq<Entry>, sent: Option<Tx>) {
    match sent
    case None => ByOthers(was, now, me)
    case Some(tx) =>
      && tx.writer == me && AtMostOnce(was, now, tx)
      && SeedTx(tx, entries) && tx.puts != map[]
      && (forall i | |was| <= i < |now| && now[i] == tx :: Backed(now[..i], tx, entries))
      && Backed(now, tx, entries)
  }

  lemma CommitIsDisciplined(was: Log, gathered: Log, before: Log, now: Log, tx: Tx, entries: seq<Entry>)
    requires ByOthers(was, gathered, tx.writer) && ByOthers(gathered, before, tx.writer)
    requires Gathered(gathered, tx, entries) && tx.puts != map[]
    requires now == before || now == before + [tx]
    ensures Disciplined(was, now, tx.writer, entries, Some(tx))
  {
    OthersChain(was, gathered, before, tx.writer);
    BackedStays(gathered, before, tx, entries);
    BackedStays(before, now, tx, entries);
    assert now[..|before|] == before;
    assert forall i | 0 <= i < |before| :: now[i] == before[i];
    assert forall i | |was| <= i < |now| && now[i].writer == tx.writer :: i == |before|;
  }

  lemma DisciplineStays(was: Log, mid: Log, now: Log, me: nat, entries: seq<Entry>, sent: Option<Tx>)
    requires Disciplined(was, mid, me, entries, sent) && ByOthers(mid, now, me)
    ensures Disciplined(was, now, me, entries, sent)
  {
    assert forall i | 0 <= i < |mid| :: now[i] == mid[i];
    if sent == None {
      OthersChain(was, mid, now, me);
    } else {
      var tx := sent.value;
      BackedStays(mid, now, tx, entries);
      assert forall i | |was| <= i < |now| && now[i].writer == me :: i < |mid|;
      forall i | |was| <= i < |now| && now[i] == tx ensures Backed(now[..i], tx, entries) {
        assert now[..i] == mid[..i];
      }
    }
  }

  /** Others that touch the profile commit only backed seeding transactions too. */
  ghost predicate OthersSeed(was: Log, now: Log, me: nat, entries: seq<Entry>) {
    forall i | |was| <= i < |now| && now[i].writer != me && Touches(now[i], entries) ::
      SeedTx(now[i], entries) && Backed(now[..i], now[i], entries)
  }

  /** What a seeder's call guarantees is what the two-row theorem assumes: whatever the call
      did, the history still has only seeders on the profile, and so its rows are all absent
      or all exact. */
  lemma CallsKeepOnlySeeders(was: Log, now: Log, me: nat, entries: seq<Entry>, sent: Option<Tx>)
    requires was <= now && ValidLog(now) && OnlySeeders(was, entries)
    requires Disciplined(was, now, me, entries, sent) && OthersSeed(was, now, me, entries)
    ensures OnlySeeders(now, entries)
    ensures AllAbsent(now, |now|, entries) || AllExact(now, |now|, entries)
  {
    forall i | 0 <= i < |now| && Touches(now[i], entries)
      ensures SeedTx(now[i], entries) && Backed(now[..i], now[i], entries)
    {
      if i < |was| {
        assert now[i] == was[i] && now[..i] == was[..i];
      }
    }
    AbsentOrExact(now, |now|, entries);
  }

  /** Alone on the store, a seeding transaction applies and makes the profile exact. */
  lemma AloneItCommits(log: Log, tx: Tx, entries: seq<Entry>)
    requires ValidLog(log) && Gathered(log, tx, entries) && Current(log, tx)
    ensures Applies(log, tx)
    ensures ValidLog(log + [tx]) ==> NowExact(log + [tx], entries)
    ensures tx.puts == map[] ==> NowExact(log, entries)
  {
    forall k <- tx.puts ensures RowAt(log, k).revision < U64_MAX {
      var e :| e in entries && e.key == k;
      assert RowAt(log, k).revision == INITIAL;
    }
    var next := log + [tx];
    assert next[..|log|] == log && next[..|next|] == next;
    forall e <- entries ensures ValidLog(next) ==> Exact(RowAt(next, e.key), e)
                        ensures tx.puts == map[] ==> Exact(RowAt(log, e.key), e)
    {
      if ValidLog(next) {
        CommitCompletesProfile(next, |log|, entries, e);
      }
      if e.key !in tx.puts {
        var j :| 0 <= j <= |log| && RowAt(log[..j], e.key) == Row(Some(e.bytes), tx.asserted[e.key]);
        RevisionFixesRow(log, j, |log|, e.key);
        assert log[..|log|] == log;
      }
    }
  }

  /** Seeds the rows of one execution profile.

      Under any interference: it commits at most one seeding transaction, it commits
      nothing when every row was ever written, and success means that every row was found
      exact during the call. Alone on the store: it succeeds exactly when every row is
      absent or exact, leaves all of them exact, and a refusal leaves the store as it was. */
  method SeedExecutionProfile(store: Store, me: nat, entries: seq<Entry>)
    returns (r: Result<(), SeedError>, ghost sent: Option<Tx>, ghost at: seq<nat>)
    requires store.Valid() && KeysDistinct(entries)
    modifies store
    ensures store.Valid() && Disciplined(old(store.log), store.log, me, entries, sent)
    ensures Written(old(store.log), entries) ==> sent == None
    ensures r.Ok? ==> SeenExact(store.log, entries, at, |old(store.log)|)
    ensures !store.shared ==> (r.Ok? <==> AllAcceptable(old(store.log), entries))
    ensures !store.shared && r.Ok? ==> NowExact(store.log, entries)
    ensures !store.shared && r.Err? ==> FirstRefusal(old(store.log), entries, r.error)
    ensures !store.shared && (r.Err? || sent == None) ==> store.log == old(store.log)
    ensures !store.shared && r.Ok? && sent.Some? ==> store.log == old(store.log) + [sent.value]
  {
    sent, at := None, [];
    var gathered := Gather(store, me, entries);
    match gathered
    case Err(e) => return Err(e), sent, at;
    case Ok(tx) =>
      if !store.shared {
        AloneItCommits(store.log, tx, entries);
      }
      if tx.puts != map[] {
        ghost var reading := store.log;
        sent := Some(tx);
        var outcome, before := store.Commit(me, tx);
        CommitIsDisciplined(old(store.log), reading, before, store.log, tx, entries);
        if outcome == Rejected {
          return Err(CommitRejected), sent, at;
        }
        if outcome == Indeterminate {
          return Err(CommitIndeterminate), sent, at;
        }
      }
      ghost var committed := store.log;
      r, at := VerifyRows(store, me, entries);
      DisciplineStays(old(store.log), committed, store.log, me, entries, sent);
  }

  lemma OneRow(start: Log, log: Log, tx: Tx, e: Entry)
    requires start <= log && RowAt(log, e.key).revision == INITIAL
    requires tx.asserted == map[e.key := INITIAL] && tx.puts == map[e.key := Some(e.bytes)]
    ensures Gathered(log, tx, [e]) && Current(log, tx) && !Written(start, [e])
  {
    assert Keys([e]) == {e.key};
    assert log[..|start|] == start && log[..|log|] == log;
    RevisionFixesRow(log, |start|, |log|, e.key);
    assert e in [e] && RowAt(start, e.key).revision == INITIAL;
  }

  /** Seeds the one publication row; an exact row ends the call at once. */
  method SeedPublicationPolicy(store: Store, me: nat, e: Entry)
    returns (r: Result<(), SeedError>, ghost sent: Option<Tx>, ghost at: seq<nat>)
    requires store.Valid()
    modifies store
    ensures store.Valid() && Disciplined(old(store.log), store.log, me, [e], sent)
    ensures Written(old(store.log), [e]) ==> sent == None
    ensures r.Ok? ==> SeenExact(store.log, [e], at, |old(store.log)|)
    ensures !store.shared ==> (r.Ok? <==> AllAcceptable(old(store.log), [e]))
    ensures !store.shared && r.Ok? ==> NowExact(store.log, [e])
    ensures !store.shared && r.Err? ==> FirstRefusal(old(store.log), [e], r.error)
    ensures !store.shared && (r.Err? || sent == None) ==> store.log == old(store.log)
    ensures !store.shared && r.Ok? && sent.Some? ==> store.log == old(store.log) + [sent.value]
  {
    sent, at := None, [];
    var got := store.Get(me, e.key);
    match got
    case Err(_) => return Err(ReadFailed), sent, at;
    case Ok(row) =>
      ghost var reading := store.log;
      assert reading[..|reading|] == reading && [e][0] == e;
      if row.value != None {
        if row.value != Some(e.bytes) {
          return Err(Mismatch), sent, at;
        }
        at := [|reading|];
        return Ok(()), sent, at;
      }
      if row.revision != INITIAL {
        return Err(TombstonedRow), sent, at;
      }
      var tx := Tx(me, map[e.key := row.revision], map[e.key := Some(e.bytes)]);
      OneRow(old(store.log), reading, tx, e);
      if !store.shared {
        AloneItCommits(reading, tx, [e]);
      }
      sent := Some(tx);
      var outcome, before := store.Commit(me, tx);
      CommitIsDisciplined(old(store.log), reading, before, store.log, tx, [e]);
      if outcome == Rejected {
        return Err(CommitRejected), sent, at;
      }
      if outcome == Indeterminate {
        return Err(CommitIndeterminate), sent, at;
      }
      ghost var committed := store.log;
      r, at := VerifyRows(store, me, [e]);
      DisciplineStays(old(store.log), committed, store.log, me, [e], sent);
  }
}
