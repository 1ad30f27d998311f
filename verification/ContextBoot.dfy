/**
 How one boot verifies or seeds the protocol-context marker, with other writers running
 between any two of its store calls.
 */
module ContextBoot {
  import opened Prelude
  import opened ProtocolContext

  datatype Rejection = ObjectConflict | RequestAlreadyCommitted | OtherRejection

  datatype BootError =
    | ContextFenceMismatch
    | ReadFailed
    | UnexpectedHead
    | UnmarkedExistingObjectState
    | MissingObjectVersion
    | StoredObjectMismatch
    | BlobBackedSeedObject
    | ObjectDecoding
    | MarkerDecoding
    | ProtocolVersionMismatch
    | EpochMismatch
    | MissingSeedReceipt
    | ReceiptMismatch
    | CommitRejected(Rejection)
    | CommitIndeterminate

  predicate CanCreate(s: State, b: Boot, receipt: Receipt) {
    s.fence == b.generation && s.head == Absent && receipt.requestId !in s.receipts
  }

  function Created(s: State, record: Record, receipt: Receipt): State {
    s.(head := MarkerHead(record.digest), versions := s.versions[1 := record],
       receipts := s.receipts[receipt.requestId := receipt])
  }

  /** `shared`: others write and calls may fail. `respectful`: nobody else moves the head of
      an existing marker. */
  class Store {
    const shared: bool
    const respectful: bool
    var state: State

    ghost predicate Valid()
      reads this
    {
      state.Consistent()
    }

    constructor (shared: bool, respectful: bool, fence: nat)
      ensures this.shared == shared && this.respectful == respectful
      ensures state == State(fence, Absent, map[], map[]) && Valid()
    {
      this.shared, this.respectful := shared, respectful;
      state := State(fence, Absent, map[], map[]);
    }

    /** Anything other writers may do. */
    method Interfere()
      requires Valid()
      modifies this
      ensures Valid() && Evolves(old(state), state)
      ensures respectful ==> KeepsMarker(old(state), state)
      ensures !shared ==> state == old(state)
    {
      var next: State := *;
      if shared && Evolves(state, next) && (respectful ==> KeepsMarker(state, next)) {
        state := next;
      }
    }

    /** Reads run under the caller's generation; the store refuses any other fence. */
    method Readable(generation: nat) returns (ok: bool)
      requires Valid()
      modifies this
      ensures Valid() && Evolves(old(state), state)
      ensures respectful ==> KeepsMarker(old(state), state)
      ensures ok ==> state.fence == generation
      ensures !shared ==> state == old(state) && (ok <==> state.fence == generation)
    {
      Interfere();
      var fails: bool := *;
      ok := state.fence == generation && !(shared && fails);
    }

    /** The atomic creation: the head must still be absent and the receipt unused. */
    method CommitMarker(b: Boot, record: Record, receipt: Receipt) returns (r: Result<(), BootError>)
      requires Valid()
      modifies this
      ensures Valid() && Evolves(old(state), state)
      ensures respectful ==> KeepsMarker(old(state), state)
      ensures r.Ok? ==> 1 in state.versions && state.versions[1] == record && HasReceipt(state, receipt)
      ensures r.Ok? ==> state.head == MarkerHead(record.digest)
      ensures r.Err? ==> r.error.CommitRejected? || r.error.CommitIndeterminate?
      ensures !shared ==> (r.Ok? <==> CanCreate(old(state), b, receipt)) && (r.Err? ==> state == old(state))
      ensures !shared && r.Ok? ==> state == Created(old(state), record, receipt)
      ensures !shared && r.Err? ==> r.error.CommitRejected?
      ensures !shared && r.Err? ==>
                (r.error == CommitRejected(OtherRejection) <==> old(state).fence != b.generation)
    {
      Interfere();
      var refused: bool, lost: bool := *, *;
      if shared && lost {
        // The answer was lost: the creation happened or not.
        if !refused && CanCreate(state, b, receipt) {
          state := Created(state, record, receipt);
        }
        return Err(CommitIndeterminate);
      }
      if state.fence != b.generation || (shared && refused) {
        return Err(CommitRejected(OtherRejection));
      }
      if receipt.requestId in state.receipts {
        return Err(CommitRejected(RequestAlreadyCommitted));
      }
      if state.head != Absent {
        return Err(CommitRejected(ObjectConflict));
      }
      state := Created(state, record, receipt);
      r := Ok(());
    }
  }

  // ---- the checks on a stored record -------------------------------------------------------

  function CheckObject(codec: Codec, b: Boot, record: Record, bytes: Bytes, item: Object): Result<(), BootError> {
    if item.id != MARKER_ID || item.version != 1 || item.owner != Immutable
       || item.typeHash != MARKER_TYPE_HASH || item.schema != 1
    then Err(StoredObjectMismatch)
    else if codec.encode(item) != bytes then Err(StoredObjectMismatch)
    else if record.digest != Digest(record.digest.algorithm, ObjectPurpose, record.version, record.chain, bytes)
    then Err(StoredObjectMismatch)
    else
      match DecodeMarker(item.data)
      case None => Err(MarkerDecoding)
      case Some((version, epoch)) =>
        if EncodeMarker(version, epoch) != item.data then Err(StoredObjectMismatch)
        else if record.version != version then Err(StoredObjectMismatch)
        else if version != b.version then Err(ProtocolVersionMismatch)
        else if epoch != b.epoch then Err(EpochMismatch)
        else Ok(())
  }

  /** The checks on the immutable record, in order. */
  function CheckRecord(codec: Codec, b: Boot, digest: Digest, record: Record): Result<(), BootError> {
    if record.objectId != MARKER_ID || record.objectVersion != 1 || record.digest != digest || record.schema != 1
    then Err(StoredObjectMismatch)
    else if record.chain != b.chain then Err(StoredObjectMismatch)
    else if record.createdCheckpoint == 0 || record.createdCheckpoint > b.generation then Err(StoredObjectMismatch)
    else
      match record.payload
      case BlobReference => Err(BlobBackedSeedObject)
      case Inline(bytes) =>
        match codec.decode(bytes)
        case None => Err(ObjectDecoding)
        case Some(item) => CheckObject(codec, b, record, bytes, item)
  }

  /** The checks accept a record exactly when it is, bit for bit, what a boot of the same
      context would have created at some earlier or equal generation. */
  lemma ChecksAreExact(codec: Codec, b: Boot, digest: Digest, record: Record)
    requires codec.Valid() && b.Valid()
    ensures CheckRecord(codec, b, digest, record).Ok?
            <==> (&& digest == record.digest && 0 < record.createdCheckpoint <= b.generation
                  && record == MarkerRecord(codec, b, record.digest.algorithm, record.createdCheckpoint))
  {
    var item := MarkerObject(b.version, b.epoch);
    assert codec.decode(codec.encode(item)) == Some(item);
    MarkerCodecExact(item.data, b.version, b.epoch);
    if CheckRecord(codec, b, digest, record).Ok? {
      var stored := codec.decode(record.payload.bytes).value;
      assert CheckObject(codec, b, record, record.payload.bytes, stored).Ok?;
      MarkerCodecExact(stored.data, b.version, b.epoch);
      assert stored == item;
    }
  }

  /** A genuine marker of another context on the same chain is refused by name: the protocol
      version decides first, then the epoch. */
  lemma ForeignMarkerIsNamed(codec: Codec, b: Boot, other: Boot, algorithm: nat, checkpoint: nat)
    requires codec.Valid() && b.Valid() && other.Valid() && other.chain == b.chain && 0 < checkpoint <= b.generation
    ensures var record := MarkerRecord(codec, other, algorithm, checkpoint);
            CheckRecord(codec, b, record.digest, record)
            == if other.version != b.version then Err(ProtocolVersionMismatch)
               else if other.epoch != b.epoch then Err(EpochMismatch)
               else Ok(())
  {
    var item := MarkerObject(other.version, other.epoch);
    assert codec.decode(codec.encode(item)) == Some(item);
    MarkerCodecExact(item.data, other.version, other.epoch);
  }

  // ---- one boot -----------------------------------------------------------------------------------

  /** The record and the receipt a boot would commit. */
  function FreshRecord(codec: Codec, b: Boot): Record {
    MarkerRecord(codec, b, b.algorithm, b.generation)
  }

  function FreshReceipt(codec: Codec, b: Boot): Receipt {
    SeedReceipt(codec, b, FreshRecord(codec, b).digest)
  }

  /** Creates the marker in one commit. */
  method CreateMarker(store: Store, codec: Codec, b: Boot) returns (r: Result<(), BootError>)
    requires store.Valid() && codec.Valid() && b.Valid()
    modifies store
    ensures store.Valid() && Evolves(old(store.state), store.state)
    ensures store.respectful ==> KeepsMarker(old(store.state), store.state)
    ensures r.Ok? ==> Marked(store.state, codec, b)
    ensures r.Err? ==> r.error.CommitRejected? || r.error.CommitIndeterminate?
    ensures !store.shared ==> (r.Ok? <==> CanCreate(old(store.state), b, FreshReceipt(codec, b)))
    ensures !store.shared && r.Err? ==> store.state == old(store.state) && r.error.CommitRejected?
  {
    var record := FreshRecord(codec, b);
    var receipt := FreshReceipt(codec, b);
    r := store.CommitMarker(b, record, receipt);
    assert r.Ok? ==> Recorded(store.state, codec, b, b.algorithm, b.generation);
  }

  /** The head is a marker head over the first version record. */
  ghost predicate HeadMatches(s: State) {
    1 in s.versions && s.head == MarkerHead(s.versions[1].digest)
  }

  /** Verifies the current marker: its head, its record, its receipt, each read separately. */
  method VerifyMarker(store: Store, codec: Codec, b: Boot) returns (r: Result<(), BootError>)
    requires store.Valid() && codec.Valid() && b.Valid()
    modifies store
    ensures store.Valid() && Evolves(old(store.state), store.state)
    ensures store.respectful ==> KeepsMarker(old(store.state), store.state)
    ensures r.Ok? ==> Attested(store.state, codec, b)
    ensures store.respectful && Marked(old(store.state), codec, b) ==> r.Ok? || r.error == ReadFailed
    ensures !store.shared ==> store.state == old(store.state)
    ensures !store.shared ==> (r.Ok? <==> Marked(store.state, codec, b) && store.state.fence == b.generation)
    ensures !store.shared && store.state.fence == b.generation && HeadMatches(store.state)
            ==> var checked := CheckRecord(codec, b, store.state.versions[1].digest, store.state.versions[1]);
                checked.Err? ==> r == checked
  {
    var readable := store.Readable(b.generation);
    if !readable { return Err(ReadFailed); }
    var first := store.state;
    if !first.head.Current? { return Err(UnexpectedHead); }
    var digest := first.head.digest;
    if first.head != MarkerHead(digest) { return Err(StoredObjectMismatch); }
    readable := store.Readable(b.generation);
    if !readable { return Err(ReadFailed); }
    var second := store.state;
    if 1 !in second.versions { return Err(MissingObjectVersion); }
    var record := second.versions[1];
    var checked := CheckRecord(codec, b, digest, record);
    ChecksAreExact(codec, b, digest, record);
    if checked.Err? { return checked; }
    var receipt := SeedReceipt(codec, b, record.digest);
    readable := store.Readable(b.generation);
    if !readable { return Err(ReadFailed); }
    if receipt.requestId !in store.state.receipts { return Err(MissingSeedReceipt); }
    if store.state.receipts[receipt.requestId] != receipt { return Err(ReceiptMismatch); }
    assert Recorded(store.state, codec, b, record.digest.algorithm, record.createdCheckpoint);
    r := Ok(());
  }

  lemma MarkedAfter(s: State, t: State, codec: Codec, b: Boot)
    requires Evolves(s, t)
    ensures KeepsMarker(s, t) && Marked(s, codec, b) ==> Marked(t, codec, b)
  {
    if Marked(s, codec, b) {
      AttestedStays(s, t, codec, b);
    }
  }

  /** Verifies or, on a first boot, seeds the marker.

      Whatever others do, success attests this boot's context in the store. With a marker of
      the same context already there, made at an earlier or equal generation, only a storage
      read can fail. Alone on the store, success is exactly: the marker is this context's, or
      there was none in an empty store. */
  method VerifyOrSeed(store: Store, codec: Codec, b: Boot, contextFence: nat, storeWasEmpty: bool)
    returns (r: Result<(), BootError>)
    requires store.Valid() && codec.Valid() && b.Valid()
    modifies store
    ensures store.Valid() && Evolves(old(store.state), store.state)
    ensures store.respectful ==> KeepsMarker(old(store.state), store.state)
    ensures r.Ok? ==> Attested(store.state, codec, b)
    ensures contextFence != b.generation ==> r == Err(ContextFenceMismatch) && store.state == old(store.state)
    ensures store.respectful && contextFence == b.generation && Marked(old(store.state), codec, b)
            ==> r.Ok? || r.error == ReadFailed
    ensures !store.shared && contextFence == b.generation ==>
              (r.Ok? <==> && old(store.state).fence == b.generation
                          && (Marked(old(store.state), codec, b)
                              || (storeWasEmpty && CanCreate(old(store.state), b, FreshReceipt(codec, b)))))
    ensures !store.shared && r.Err? ==> store.state == old(store.state)
  {
    if contextFence != b.generation { return Err(ContextFenceMismatch); }
    var readable := store.Readable(b.generation);
    if !readable { return Err(ReadFailed); }
    ghost var first := store.state;
    match store.state.head
    case Tombstoned => return Err(UnexpectedHead);
    case Current(_, _, _, _) =>
      MarkedAfter(old(store.state), first, codec, b);
      r := VerifyMarker(store, codec, b);
      EvolvesChain(old(store.state), first, store.state);
    case Absent =>
      if !storeWasEmpty { return Err(UnmarkedExistingObjectState); }
      r := CreateMarker(store, codec, b);
      ghost var second := store.state;
      EvolvesChain(old(store.state), first, second);
      if r == Err(CommitRejected(ObjectConflict)) || r == Err(CommitRejected(RequestAlreadyCommitted)) {
        r := VerifyMarker(store, codec, b);
        EvolvesChain(old(store.state), second, store.state);
      }
  }

  /** Completeness across restarts: what one boot created, any later boot of the same
      context accepts as its own. */
  lemma LaterBootsAccept(codec: Codec, s: State, t: State, first: Boot, later: Boot)
    requires codec.Valid() && first.Valid() && later.Valid() && s.Consistent()
    requires CanCreate(s, first, FreshReceipt(codec, first))
    requires var created := Created(s, FreshRecord(codec, first), FreshReceipt(codec, first));
             Evolves(created, t) && KeepsMarker(created, t)
    requires later == first.(generation := later.generation) && first.generation <= later.generation
    ensures Marked(t, codec, later)
  {
    var created := Created(s, FreshRecord(codec, first), FreshReceipt(codec, first));
    assert FreshRecord(codec, first) == MarkerRecord(codec, later, first.algorithm, first.generation);
    assert Recorded(created, codec, later, first.algorithm, first.generation);
    MarkedAfter(created, t, codec, later);
  }
}
