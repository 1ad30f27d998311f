/**
 The protocol-context marker: a fixed object that the first boot of a data directory
 creates and every later boot verifies, so that all boots that come up agree on chain,
 protocol version and epoch. Boots race; other writers run between any two store calls.
 */
module ProtocolContext {
  import opened Prelude
  import F = CanonicalFrame

  // ---- the marker body -----------------------------------------------------------------

  const MARKER_TYPE_ID: nat := 0x7A10
  const MARKER_ENCODING_VERSION: nat := 1

  function MarkerFrame(version: nat, epoch: nat): F.Frame {
    F.Frame(MARKER_TYPE_ID, MARKER_ENCODING_VERSION, [F.Field(1, F.ToLE(version, 4)), F.Field(2, F.ToLE(epoch, 8))])
  }

  function EncodeMarker(version: nat, epoch: nat): Bytes {
    F.EncodeFrame(MarkerFrame(version, epoch))
  }

  function FieldOf(fields: seq<F.Field>, id: nat): Option<Bytes> {
    if fields == [] then None
    else if fields[0].id == id then Some(fields[0].bytes)
    else FieldOf(fields[1..], id)
  }

  predicate OnlyFields(fields: seq<F.Field>, allowed: set<nat>) {
    forall f <- fields :: f.id in allowed
  }

  function DecodeMarker(input: Bytes): Option<(nat, nat)> {
    match F.DecodeFrame(input)
    case None => None
    case Some(f) =>
      if f.typeId != MARKER_TYPE_ID || f.version != MARKER_ENCODING_VERSION || !OnlyFields(f.fields, {1, 2}) then None
      else
        match (FieldOf(f.fields, 1), FieldOf(f.fields, 2))
        case (Some(v), Some(e)) => if |v| == 4 && |e| == 8 then Some((F.FromLE(v), F.FromLE(e))) else None
        case _ => None
  }

  predicate Fits(version: nat, epoch: nat) {
    version < Power(4) && epoch < Power(8)
  }

  lemma {:induction false} IdsGrow(fields: seq<F.Field>, previous: Option<nat>, k: nat)
    requires F.FieldsValid(fields, previous) && k < |fields|
    ensures fields[0].id + k <= fields[k].id
    decreases k
  {
    if k > 0 {
      IdsGrow(fields[1..], Some(fields[0].id), k - 1);
    }
  }

  /** A frame with only the fields 1 and 2, both present, has just these two in order. */
  lemma TwoFields(fields: seq<F.Field>)
    requires F.FieldsValid(fields, None) && OnlyFields(fields, {1, 2})
    requires FieldOf(fields, 1).Some? && FieldOf(fields, 2).Some?
    ensures |fields| == 2 && fields[0].id == 1 && fields[1].id == 2
  {
    var last := |fields| - 1;
    assert fields[0] in fields && fields[last] in fields;
    IdsGrow(fields, None, last);
  }

  lemma MarkerDecodes(b: Bytes, version: nat, epoch: nat)
    requires DecodeMarker(b) == Some((version, epoch))
    ensures Fits(version, epoch) && b == EncodeMarker(version, epoch)
  {
    var f := F.DecodeFrame(b).value;
    F.FrameCodecExact(b, f);
    TwoFields(f.fields);
    var v, e := FieldOf(f.fields, 1).value, FieldOf(f.fields, 2).value;
    assert f.fields[1..][0] == f.fields[1];
    F.ToFromLE(v);
    F.ToFromLE(e);
    assert f.fields == [F.Field(1, v), F.Field(2, e)];
  }

  lemma MarkerFrameValid(version: nat, epoch: nat)
    requires Fits(version, epoch)
    ensures MarkerFrame(version, epoch).Valid()
  {
    var f := MarkerFrame(version, epoch);
    assert f.fields[1..] == [f.fields[1]] && [f.fields[1]][1..] == [];
    assert Power(2) == 65536;
    assert Power(4) == 65536 * 65536 by {
      assert Power(4) == 256 * (256 * Power(2));
    }
    assert F.EncodeFields([]) == [];
    assert |F.EncodeFields([f.fields[1]])| == 14;
    assert |F.EncodeFields(f.fields)| == 24;
  }

  lemma MarkerEncodes(version: nat, epoch: nat)
    requires Fits(version, epoch)
    ensures DecodeMarker(EncodeMarker(version, epoch)) == Some((version, epoch))
  {
    var f := MarkerFrame(version, epoch);
    MarkerFrameValid(version, epoch);
    F.FrameCodecExact(EncodeMarker(version, epoch), f);
    F.FromToLE(version, 4);
    F.FromToLE(epoch, 8);
    assert f.fields[1..][0] == f.fields[1];
    assert FieldOf(f.fields, 1) == Some(F.ToLE(version, 4));
    assert FieldOf(f.fields, 2) == FieldOf(f.fields[1..], 2) == Some(F.ToLE(epoch, 8));
  }

  /** The body codec is exact: a body decodes to a version and an epoch if and only if it is
      their encoding. The later comparison with the canonical body can never fail. */
  lemma MarkerCodecExact(b: Bytes, version: nat, epoch: nat)
    ensures DecodeMarker(b) == Some((version, epoch)) <==> Fits(version, epoch) && b == EncodeMarker(version, epoch)
  {
    if DecodeMarker(b) == Some((version, epoch)) {
      MarkerDecodes(b, version, epoch);
    }
    if Fits(version, epoch) && b == EncodeMarker(version, epoch) {
      MarkerEncodes(version, epoch);
    }
  }

  // ---- stored state ---------------------------------------------------------------------

  /** A digest stands for its own preimage, so equal digests mean equal inputs. */
  datatype Purpose = ObjectPurpose | TransactionPurpose | NodeEventPurpose

  datatype Digest = Digest(algorithm: nat, purpose: Purpose, version: nat, chain: Bytes, bytes: Bytes)

  datatype Owner = Immutable | Owned(Bytes)

  datatype Object = Object(id: Bytes, version: nat, owner: Owner, typeHash: Bytes, schema: nat, data: Bytes)

  datatype ObjectRef = ObjectRef(id: Bytes, version: nat, digest: Digest)

  datatype Payload = Inline(bytes: Bytes) | BlobReference

  datatype Record = Record(
    objectId: Bytes, objectVersion: nat, digest: Digest, schema: nat,
    chain: Bytes, version: nat,          // provenance
    createdCheckpoint: nat, payload: Payload)

  datatype Head =
    | Absent
    | Current(version: nat, digest: Digest, owner: Owner, routing: Option<Bytes>)
    | Tombstoned

  /** A receipt is found by the transaction digest of its bytes. */
  datatype Receipt = Receipt(requestId: Digest, eventDigest: Digest, bytes: Bytes)

  /** The part of a store that the marker lives in: its head, its version records, and the
      request receipts. */
  datatype State = State(fence: nat, head: Head, versions: map<nat, Record>, receipts: map<Digest, Receipt>) {
    /** A head that was ever set leaves its first version behind. */
    predicate Consistent() {
      head == Absent <==> 1 !in versions
    }
  }

  /** What any writer may do: advance the fence, add records and receipts, and move the head
      on. Records and receipts are written once, and a set head never becomes absent. */
  predicate Evolves(s: State, t: State) {
    && s.fence <= t.fence
    && (forall v <- s.versions :: v in t.versions && t.versions[v] == s.versions[v])
    && (forall id <- s.receipts :: id in t.receipts && t.receipts[id] == s.receipts[id])
    && (t.head == Absent ==> s.head == Absent)
    && t.Consistent()
  }

  predicate KeepsMarker(s: State, t: State) {
    s.head.Current? ==> t.head == s.head
  }

  lemma EvolvesChain(s: State, t: State, u: State)
    requires Evolves(s, t) && Evolves(t, u)
    ensures Evolves(s, u) && (KeepsMarker(s, t) && KeepsMarker(t, u) ==> KeepsMarker(s, u))
  {
  }

  // ---- the canonical marker ---------------------------------------------------------------

  const MARKER_ID: Bytes := [
    0xFE, 0xFE, 0xFE, 0xFE, 0xFE, 0xFE, 0xFE, 0xFE, 0xFE, 0xFE, 0xFE, 0xFE, 0xFE, 0xFE, 0xFE, 0xFE,
    0xFE, 0xFE, 0xFE, 0xFE, 0xFE, 0xFE, 0xFE, 0xFE, 0xFE, 0xFE, 0xFE, 0xFE, 0xFE, 0xFE, 0xFE, 0xFE]
  const MARKER_TYPE_HASH: Bytes := MARKER_ID

  /** Object codecs with a left inverse. */
  datatype Codec = Codec(encode: Object -> Bytes, decode: Bytes -> Option<Object>, encodeRef: ObjectRef -> Bytes) {
    ghost predicate Valid() {
      forall o: Object :: decode(encode(o)) == Some(o)
    }
  }

  /** What one boot runs under: the resolver's chain, protocol version and hash suite, the
      epoch, and its claimed generation. */
  datatype Boot = Boot(chain: Bytes, version: nat, algorithm: nat, epoch: nat, generation: nat) {
    predicate Valid() {
      Fits(version, epoch) && 0 < generation <= U64_MAX
    }

    function Hash(purpose: Purpose, bytes: Bytes): Digest {
      Digest(algorithm, purpose, version, chain, bytes)
    }
  }

  function MarkerObject(version: nat, epoch: nat): Object {
    Object(MARKER_ID, 1, Immutable, MARKER_TYPE_HASH, 1, EncodeMarker(version, epoch))
  }

  function MarkerRecord(codec: Codec, b: Boot, algorithm: nat, checkpoint: nat): Record {
    var bytes := codec.encode(MarkerObject(b.version, b.epoch));
    Record(MARKER_ID, 1, Digest(algorithm, ObjectPurpose, b.version, b.chain, bytes), 1, b.chain, b.version,
           checkpoint, Inline(bytes))
  }

  function MarkerHead(digest: Digest): Head {
    Current(1, digest, Immutable, None)
  }

  /** The receipt is a function of the marker alone. */
  function SeedReceipt(codec: Codec, b: Boot, digest: Digest): Receipt {
    var bytes := codec.encodeRef(ObjectRef(MARKER_ID, 1, digest));
    Receipt(b.Hash(TransactionPurpose, bytes), b.Hash(NodeEventPurpose, bytes), bytes)
  }

  ghost predicate HasReceipt(s: State, receipt: Receipt) {
    receipt.requestId in s.receipts && s.receipts[receipt.requestId] == receipt
  }

  /** The first version record is the marker of this boot's chain, version and epoch, made
      at this checkpoint, and its receipt is there. */
  ghost predicate Recorded(s: State, codec: Codec, b: Boot, algorithm: nat, checkpoint: nat) {
    && 1 in s.versions && s.versions[1] == MarkerRecord(codec, b, algorithm, checkpoint)
    && HasReceipt(s, SeedReceipt(codec, b, s.versions[1].digest))
  }

  ghost predicate Attested(s: State, codec: Codec, b: Boot) {
    exists algorithm: nat, checkpoint: nat ::
      0 < checkpoint <= b.generation && Recorded(s, codec, b, algorithm, checkpoint)
  }

  /** The whole marker as a boot with this context leaves it. */
  ghost predicate Marked(s: State, codec: Codec, b: Boot) {
    Attested(s, codec, b) && s.head == MarkerHead(s.versions[1].digest)
  }

  lemma AttestedStays(s: State, t: State, codec: Codec, b: Boot)
    requires Evolves(s, t) && Attested(s, codec, b)
    ensures Attested(t, codec, b)
    ensures Marked(s, codec, b) && KeepsMarker(s, t) ==> Marked(t, codec, b)
  {
    var algorithm, checkpoint :| 0 < checkpoint <= b.generation && Recorded(s, codec, b, algorithm, checkpoint);
    assert Recorded(t, codec, b, algorithm, checkpoint);
  }

  // ---- agreement ------------------------------------------------------------------------------

  /** Two attestations of one state are of the same chain, version and epoch. */
  lemma SameContext(s: State, codec: Codec, a: Boot, b: Boot)
    requires codec.Valid() && a.Valid() && b.Valid() && Attested(s, codec, a) && Attested(s, codec, b)
    ensures a.chain == b.chain && a.version == b.version && a.epoch == b.epoch
  {
    var x, y := MarkerObject(a.version, a.epoch), MarkerObject(b.version, b.epoch);
    assert s.versions[1].payload == Inline(codec.encode(x)) && s.versions[1].payload == Inline(codec.encode(y));
    assert codec.decode(codec.encode(x)) == Some(x) && codec.decode(codec.encode(y)) == Some(y);
    MarkerCodecExact(x.data, a.version, a.epoch);
    MarkerCodecExact(y.data, b.version, b.epoch);
  }

  ghost predicate History(states: seq<State>) {
    forall i | 0 <= i < |states| - 1 :: Evolves(states[i], states[i + 1])
  }

  lemma {:induction false} AttestedForever(states: seq<State>, i: nat, j: nat, codec: Codec, b: Boot)
    requires History(states) && i <= j < |states| && Attested(states[i], codec, b)
    ensures Attested(states[j], codec, b)
    decreases j
  {
    if i < j {
      AttestedForever(states, i, j - 1, codec, b);
      AttestedStays(states[j - 1], states[j], codec, b);
    }
  }

  /** Protocol-context agreement: in any history of one store, whoever writes to it, all
      boots that came up, at whatever points, carry the same chain, version and epoch. */
  lemma BootsAgree(states: seq<State>, i: nat, j: nat, codec: Codec, a: Boot, b: Boot)
    requires History(states) && i < |states| && j < |states| && codec.Valid() && a.Valid() && b.Valid()
    requires Attested(states[i], codec, a) && Attested(states[j], codec, b)
    ensures a.chain == b.chain && a.version == b.version && a.epoch == b.epoch
  {
    if i <= j {
      AttestedForever(states, i, j, codec, a);
      SameContext(states[j], codec, a, b);
    } else {
      AttestedForever(states, j, i, codec, b);
      SameContext(states[i], codec, a, b);
    }
  }
}
