/**
 A store of versioned rows. A row that was never written has the initial revision; every
 put or delete moves the revision up by one, and a delete leaves a tombstone. A transaction
 commits all of its mutations, and only if every revision it asserts still holds.
 */
module RowStore {
  import opened Prelude

  datatype Row = Row(value: Option<Bytes>, revision: nat)

  const INITIAL: nat := 0

  /** A committed or attempted transaction: asserted revisions and new values, where None
      deletes. */
  datatype Tx = Tx(writer: nat, asserted: map<Bytes, nat>, puts: map<Bytes, Option<Bytes>>)

  /** The committed transactions, oldest first. */
  type Log = seq<Tx>

  function RowAt(log: Log, k: Bytes): Row {
    if log == [] then Row(None, INITIAL)
    else
      var last, before := log[|log| - 1], RowAt(log[..|log| - 1], k);
      if k in last.puts then Row(last.puts[k], before.revision + 1) else before
  }

  predicate Applies(log: Log, tx: Tx) {
    && (forall k <- tx.asserted :: RowAt(log, k).revision == tx.asserted[k])
    && (forall k <- tx.puts :: RowAt(log, k).revision < U64_MAX)
  }

  ghost predicate ValidLog(log: Log) {
    forall i | 0 <= i < |log| :: Applies(log[..i], log[i])
  }

  // ---- revisions fix values ------------------------------------------------------------

  lemma RowStep(log: Log, i: nat, k: Bytes)
    requires i < |log|
    ensures RowAt(log[..i + 1], k)
         == if k in log[i].puts then Row(log[i].puts[k], RowAt(log[..i], k).revision + 1) else RowAt(log[..i], k)
  {
    assert log[..i + 1][..i] == log[..i] && log[..i + 1][i] == log[i];
  }

  /** A revision never goes back, and an unchanged revision means an unchanged row. */
  lemma {:induction false} RevisionFixesRow(log: Log, i: nat, j: nat, k: Bytes)
    requires i <= j <= |log|
    ensures RowAt(log[..i], k).revision <= RowAt(log[..j], k).revision
    ensures RowAt(log[..i], k).revision == RowAt(log[..j], k).revision ==> RowAt(log[..i], k) == RowAt(log[..j], k)
  {
    if i < j {
      RevisionFixesRow(log, i, j - 1, k);
      RowStep(log, j - 1, k);
    }
  }

  /** The initial revision means never written. */
  lemma {:induction false} InitialIsAbsent(log: Log, k: Bytes)
    ensures RowAt(log, k).revision == INITIAL ==> RowAt(log, k) == Row(None, INITIAL)
  {
    if log != [] {
      InitialIsAbsent(log[..|log| - 1], k);
    }
  }

  lemma SameRow(was: Log, now: Log, i: nat, k: Bytes)
    requires was <= now && i <= |was|
    ensures RowAt(was[..i], k) == RowAt(now[..i], k)
  {
    assert was[..i] == now[..i];
  }

  // ---- the shared store ---------------------------------------------------------------------

  datatype Outcome = Committed | Rejected | Indeterminate

  ghost predicate ByOthers(was: Log, now: Log, me: nat) {
    was <= now && forall i | |was| <= i < |now| :: now[i].writer != me
  }

  lemma OthersChain(a: Log, b: Log, c: Log, me: nat)
    requires ByOthers(a, b, me) && ByOthers(b, c, me)
    ensures ByOthers(a, c, me)
  {
    assert forall i | 0 <= i < |b| :: b[i] == c[i];
  }

  /** `shared` says whether other writers and failures may intervene. */
  class Store {
    const shared: bool
    var log: Log

    ghost predicate Valid()
      reads this
    {
      ValidLog(log)
    }

    constructor (shared: bool)
      ensures this.shared == shared && log == [] && Valid()
    {
      this.shared := shared;
      log := [];
    }

    method Append(tx: Tx)
      requires Valid() && Applies(log, tx)
      modifies this
      ensures Valid() && log == old(log) + [tx]
    {
      var before := log;
      log := log + [tx];
      forall i | 0 <= i < |log| ensures Applies(log[..i], log[i]) {
        assert log[..i] == before[..i];
        if i == |before| {
          assert log[..i] == before;
        }
      }
    }

    /** Any commits of other writers. */
    method Interfere(me: nat)
      requires Valid()
      modifies this
      ensures Valid() && ByOthers(old(log), log, me)
      ensures !shared ==> log == old(log)
    {
      if !shared {
        return;
      }
      var n: int := *;
      for i := 0 to if n < 0 then 0 else n
        invariant Valid() && ByOthers(old(log), log, me)
      {
        var tx: Tx := *;
        if tx.writer != me && Applies(log, tx) {
          Append(tx);
        }
      }
    }

    /** A read, after whatever others did; it may fail, for one because of a newer fence. */
    method Get(me: nat, k: Bytes) returns (r: Result<Row, ()>)
      requires Valid()
      modifies this
      ensures Valid() && ByOthers(old(log), log, me)
      ensures r.Ok? ==> r.value == RowAt(log, k)
      ensures !shared ==> log == old(log) && r.Ok?
    {
      Interfere(me);
      var fails: bool := *;
      if shared && fails {
        return Err(());
      }
      r := Ok(RowAt(log, k));
    }

    /** A commit, after whatever others did. A rejection proves that nothing was written; an
        indeterminate answer proves nothing. */
    method Commit(me: nat, tx: Tx) returns (r: Outcome, ghost before: Log)
      requires Valid() && tx.writer == me
      modifies this
      ensures Valid() && ByOthers(old(log), before, me)
      ensures log == before || (log == before + [tx] && Applies(before, tx))
      ensures r == Committed ==> log == before + [tx]
      ensures r == Rejected ==> log == before
      ensures !shared ==> before == old(log) && r == (if Applies(before, tx) then Committed else Rejected)
    {
      Interfere(me);
      before := log;
      var refused: bool, lost: bool := *, *;
      if !Applies(log, tx) || (shared && refused) {
        r := if shared && lost then Indeterminate else Rejected;
        return;
      }
      Append(tx);
      r := if shared && lost then Indeterminate else Committed;
    }
  }
}
