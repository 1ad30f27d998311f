/**
 Read-only capture of a store: four collections are scanned page by page, every record is
 read in bounded chunks, and every blob a record refers to is read as well. All reads of
 the store are guarded by one snapshot token: they answer from the token's state, or fail.
 */
module SnapshotCapture {
  import opened Prelude

  const MAX_PORTABLE_PAGE_KEYS: nat := 128
  const MAX_PORTABLE_CHUNK_BYTES: nat := 1024 * 1024
  const MAX_BODY_BYTES: nat := 1024 * 1024
  const COLLECTIONS: nat := 4
  const OBJECT_VERSIONS: nat := 3

  // ---- the store ---------------------------------------------------------------------------

  /** A record has no payload, an inline one, or one held as a blob under its digest. Only
      the order of keys matters, so keys are numbers. */
  datatype Payload = NoPayload | InlineBody(bytes: Bytes) | BlobRef(digest: nat)

  datatype Record = Record(key: nat, metadata: Bytes, payload: Payload)

  datatype PayloadShape = ShapeNone | ShapeInline(length: nat) | ShapeBlob(digest: nat)

  datatype Descriptor = Descriptor(collection: nat, key: nat, metadata: Bytes, shape: PayloadShape)

  datatype Captured = Captured(descriptor: Descriptor, value: Option<Bytes>)

  predicate Sorted(records: seq<Record>) {
    forall i, j | 0 <= i < j < |records| :: records[i].key < records[j].key
  }

  datatype Database = Database(collections: seq<seq<Record>>, outbox: nat) {
    predicate Valid() {
      |collections| == COLLECTIONS && forall c | 0 <= c < COLLECTIONS :: Sorted(collections[c])
    }
  }

  function ShapeOf(p: Payload): PayloadShape {
    match p
    case NoPayload => ShapeNone
    case InlineBody(bytes) => ShapeInline(|bytes|)
    case BlobRef(digest) => ShapeBlob(digest)
  }

  function DescriptorOf(c: nat, r: Record): Descriptor {
    Descriptor(c, r.key, r.metadata, ShapeOf(r.payload))
  }

  // ---- the simple snapshot ---------------------------------------------------------------------

  function CapturedOf(c: nat, r: Record): Captured {
    Captured(DescriptorOf(c, r), if r.payload.InlineBody? then Some(r.payload.bytes) else None)
  }

  /** Every record of a collection, once and in order, with its full payload. */
  function Listing(c: nat, records: seq<Record>): (r: seq<Captured>)
    ensures |r| == |records|
    ensures forall i | 0 <= i < |r| :: r[i] == CapturedOf(c, records[i])
  {
    seq(|records|, i requires 0 <= i < |records| => CapturedOf(c, records[i]))
  }

  function ListingFrom(db: Database, c: nat): seq<Captured>
    requires c <= |db.collections|
    decreases |db.collections| - c
  {
    if c == |db.collections| then [] else Listing(c, db.collections[c]) + ListingFrom(db, c + 1)
  }

  function Snapshot(db: Database): seq<Captured> {
    ListingFrom(db, 0)
  }

  /** The blobs that captured object versions refer to. */
  function References(records: seq<Captured>): set<nat> {
    set r <- records | r.descriptor.collection == OBJECT_VERSIONS && r.descriptor.shape.ShapeBlob? ::
      r.descriptor.shape.digest
  }

  predicate Before(a: Descriptor, b: Descriptor) {
    a.collection < b.collection || (a.collection == b.collection && a.key < b.key)
  }

  ghost predicate InOrder(records: seq<Captured>) {
    forall i, j | 0 <= i < j < |records| :: Before(records[i].descriptor, records[j].descriptor)
  }

  lemma {:induction false} ListingFromExact(db: Database, c: nat)
    requires db.Valid() && c <= COLLECTIONS
    ensures InOrder(ListingFrom(db, c))
    ensures forall r <- ListingFrom(db, c) :: c <= r.descriptor.collection < COLLECTIONS
    ensures forall k, i | c <= k < COLLECTIONS && 0 <= i < |db.collections[k]| ::
              CapturedOf(k, db.collections[k][i]) in ListingFrom(db, c)
    decreases COLLECTIONS - c
  {
    if c < COLLECTIONS {
      ListingFromExact(db, c + 1);
      var head, tail := Listing(c, db.collections[c]), ListingFrom(db, c + 1);
      forall i | 0 <= i < |db.collections[c]| ensures CapturedOf(c, db.collections[c][i]) in head + tail {
        assert head[i] in head + tail;
      }
    }
  }

  /** The simple snapshot lists every record of the store exactly once, in order of
      collection and key, and nothing else. */
  lemma SnapshotIsExact(db: Database)
    requires db.Valid()
    ensures InOrder(Snapshot(db))
    ensures forall k, i | 0 <= k < COLLECTIONS && 0 <= i < |db.collections[k]| ::
              CapturedOf(k, db.collections[k][i]) in Snapshot(db)
    ensures |Snapshot(db)| == |db.collections[0]| + |db.collections[1]| + |db.collections[2]| + |db.collections[3]|
  {
    ListingFromExact(db, 0);
    assert ListingFrom(db, 4) == [];
    assert |ListingFrom(db, 3)| == |db.collections[3]| + |ListingFrom(db, 4)|;
    assert |ListingFrom(db, 2)| == |db.collections[2]| + |ListingFrom(db, 3)|;
    assert |ListingFrom(db, 1)| == |db.collections[1]| + |ListingFrom(db, 2)|;
    assert |ListingFrom(db, 0)| == |db.collections[0]| + |ListingFrom(db, 1)|;
  }

  // ---- guarded reads -----------------------------------------------------------------------------

  datatype CaptureError =
    | PageSizeTooLarge | Unavailable | OutboxNotEmpty | RecordDisappeared | RecordChanged | ForeignDescriptor
    | ForeignChunk | CursorStuck | BlobMissing | BlobTooLarge | SchemaMismatch

  datatype Page = Page(keys: seq<nat>, continuation: Option<nat>)

  /** How many keys of a sorted collection are at or before the cursor. */
  function Position(records: seq<Record>, after: Option<nat>): (r: nat)
    ensures r <= |records|
    ensures after.None? ==> r == 0
  {
    if records == [] || after.None? then 0
    else if records[|records| - 1].key <= after.value then |records|
    else Position(records[..|records| - 1], after)
  }

  function PageEnd(records: seq<Record>, start: nat, limit: nat): (r: nat)
    requires start <= |records|
    ensures start <= r <= |records|
  {
    Min(start + limit, |records|)
  }

  function KeysOf(records: seq<Record>): (r: seq<nat>)
    ensures |r| == |records| && forall i | 0 <= i < |r| :: r[i] == records[i].key
  {
    if records == [] then [] else [records[0].key] + KeysOf(records[1..])
  }

  /** The next keys after the cursor; the last one is the continuation if more remain. */
  function PageOf(records: seq<Record>, after: Option<nat>, limit: nat): Page
    requires limit > 0
  {
    var start := Position(records, after);
    var end := PageEnd(records, start, limit);
    Page(KeysOf(records[start..end]), if end < |records| then Some(records[end - 1].key) else None)
  }

  function Find(records: seq<Record>, key: nat): Option<Record> {
    if records == [] then None
    else if records[0].key == key then Some(records[0])
    else Find(records[1..], key)
  }

  lemma {:induction false} FindSorted(records: seq<Record>, i: nat)
    requires Sorted(records) && i < |records|
    ensures Find(records, records[i].key) == Some(records[i])
  {
    if i > 0 {
      assert Sorted(records[1..]) && records[1..][i - 1] == records[i];
      FindSorted(records[1..], i - 1);
    }
  }

  /** The position of the cursor that names a record is just past it. */
  lemma {:induction false} PositionSorted(records: seq<Record>, i: nat)
    requires Sorted(records) && i < |records|
    ensures Position(records, Some(records[i].key)) == i + 1
    decreases |records|
  {
    if i < |records| - 1 {
      assert Sorted(records[..|records| - 1]);
      PositionSorted(records[..|records| - 1], i);
    }
  }

  /** Two observations of one store: its version never goes back, and an equal version means
      an equal content. */
  ghost predicate Since(version: nat, db: Database, version': nat, db': Database) {
    version <= version' && (version == version' ==> db == db')
  }

  class Source {
    const shared: bool
    var db: Database
    var version: nat

    ghost predicate Valid()
      reads this
    {
      db.Valid()
    }

    /** The store went on from the token's state. */
    ghost predicate Tracks(token: nat, pinned: Database)
      reads this
    {
      Since(token, pinned, version, db)
    }

    constructor (shared: bool, db: Database)
      requires db.Valid()
      ensures Valid() && this.shared == shared && this.db == db && version == 0
    {
      this.shared, this.db, version := shared, db, 0;
    }

    /** Writers may commit, and every commit moves the version; then the guard compares the
        version with the token inside the read. */
    method Guard(token: nat) returns (ok: bool)
      requires Valid()
      modifies this
      ensures Valid() && Since(old(version), old(db), version, db)
      ensures ok ==> version == token
      ensures !shared ==> db == old(db) && version == old(version) && (ok <==> version == token)
    {
      var next: Database, commits: bool, fails: bool := *, *, *;
      if shared && commits && next.Valid() {
        db, version := next, version + 1;
      }
      ok := version == token && !(shared && fails);
    }
  }

  /** The bytes a guarded chunk read returns: none if the record is not the described one. */
  function ChunkOf(db: Database, d: Descriptor, offset: nat, count: nat): Option<Bytes>
    requires db.Valid() && d.collection < COLLECTIONS
  {
    match Find(db.collections[d.collection], d.key)
    case None => None
    case Some(r) =>
      if DescriptorOf(d.collection, r) != d || !r.payload.InlineBody? || offset > |r.payload.bytes| then None
      else Some(r.payload.bytes[offset..Min(offset + count, |r.payload.bytes|)])
  }

  // ---- the capture -----------------------------------------------------------------------------------

  /** Reads one payload chunk by chunk. */
  method ReadValue(source: Source, token: nat, d: Descriptor, ghost pinned: Database, ghost i: nat)
    returns (r: Result<Option<Bytes>, CaptureError>)
    requires source.Valid() && pinned.Valid() && source.Tracks(token, pinned)
    requires d.collection < COLLECTIONS && i < |pinned.collections[d.collection]|
    requires d == DescriptorOf(d.collection, pinned.collections[d.collection][i])
    modifies source
    ensures source.Valid() && source.Tracks(token, pinned)
    ensures r.Ok? ==> r.value == CapturedOf(d.collection, pinned.collections[d.collection][i]).value
    ensures !source.shared ==> source.version == old(source.version) && source.db == old(source.db)
    ensures !source.shared && source.version == token ==> r.Ok?
  {
    if !d.shape.ShapeInline? {
      return Ok(None);
    }
    ghost var record := pinned.collections[d.collection][i];
    FindSorted(pinned.collections[d.collection], i);
    var length := d.shape.length;
    var value: Bytes := [];
    var offset := 0;
    while offset < length
      invariant source.Valid() && source.Tracks(token, pinned)
      invariant offset <= length && value == record.payload.bytes[..offset]
      invariant !source.shared ==> source.version == old(source.version) && source.db == old(source.db)
    {
      var count := Min(MAX_PORTABLE_CHUNK_BYTES, length - offset);
      var ok := source.Guard(token);
      if !ok {
        return Err(Unavailable);
      }
      match ChunkOf(source.db, d, offset, count)
      case None => return Err(RecordChanged);
      case Some(bytes) =>
        if |bytes| != count {
          return Err(ForeignChunk);
        }
        value := value + bytes;
        offset := offset + count;
    }
    assert record.payload.bytes[..length] == record.payload.bytes;
    r := Ok(Some(value));
  }

  /** Describes and reads one enumerated record. */
  method CaptureKey(source: Source, token: nat, c: nat, key: nat, ghost pinned: Database, ghost i: nat)
    returns (r: Result<Captured, CaptureError>)
    requires source.Valid() && pinned.Valid() && source.Tracks(token, pinned)
    requires c < COLLECTIONS && i < |pinned.collections[c]| && key == pinned.collections[c][i].key
    modifies source
    ensures source.Valid() && source.Tracks(token, pinned)
    ensures r.Ok? ==> r.value == CapturedOf(c, pinned.collections[c][i])
    ensures !source.shared ==> source.version == old(source.version) && source.db == old(source.db)
    ensures !source.shared && source.version == token ==> r.Ok?
  {
    var ok := source.Guard(token);
    if !ok {
      return Err(Unavailable);
    }
    FindSorted(pinned.collections[c], i);
    match Find(source.db.collections[c], key)
    case None => return Err(RecordDisappeared);
    case Some(record) =>
      var d := DescriptorOf(c, record);
      if d.key != key {
        return Err(ForeignDescriptor);
      }
      var value := ReadValue(source, token, d, pinned, i);
      match value
      case Err(e) => r := Err(e);
      case Ok(v) => r := Ok(Captured(d, v));
  }

  /** Reads every record that one page lists. */
  method CapturePage(source: Source, token: nat, c: nat, keys: seq<nat>, ghost pinned: Database, ghost start: nat)
    returns (r: Result<seq<Captured>, CaptureError>)
    requires source.Valid() && pinned.Valid() && source.Tracks(token, pinned)
    requires c < COLLECTIONS && start + |keys| <= |pinned.collections[c]|
    requires forall k | 0 <= k < |keys| :: keys[k] == pinned.collections[c][start + k].key
    modifies source
    ensures source.Valid() && source.Tracks(token, pinned)
    ensures r.Ok? ==> r.value == Listing(c, pinned.collections[c][start..start + |keys|])
    ensures !source.shared ==> source.version == old(source.version) && source.db == old(source.db)
    ensures !source.shared && source.version == token ==> r.Ok?
  {
    var records: seq<Captured> := [];
    for k := 0 to |keys|
      invariant source.Valid() && source.Tracks(token, pinned)
      invariant records == Listing(c, pinned.collections[c][start..start + k])
      invariant !source.shared ==> source.version == old(source.version) && source.db == old(source.db)
    {
      var captured := CaptureKey(source, token, c, keys[k], pinned, start + k);
      match captured
      case Err(e) => return Err(e);
      case Ok(record) => records := records + [record];
    }
    r := Ok(records);
  }

  /** A cursor into a collection: nothing yet, or the key of the last record read. */
  ghost predicate CursorAt(all: seq<Record>, after: Option<nat>, start: nat) {
    start <= |all| && after == if start == 0 then None else Some(all[start - 1].key)
  }

  lemma CursorPosition(all: seq<Record>, after: Option<nat>, start: nat)
    requires Sorted(all) && CursorAt(all, after, start)
    ensures Position(all, after) == start
  {
    if start > 0 {
      PositionSorted(all, start - 1);
    }
  }

  /** The page lists the next records after the first `start`, and says whether more remain. */
  ghost predicate ListsNext(all: seq<Record>, after: Option<nat>, limit: nat, start: nat, page: Page)
    requires start <= |all| && limit > 0
  {
    var end := PageEnd(all, start, limit);
    && |page.keys| == end - start && (forall k | 0 <= k < |page.keys| :: page.keys[k] == all[start + k].key)
    && page.continuation == (if end < |all| then Some(all[end - 1].key) else None)
    && (page.continuation.Some? && after.Some? ==> after.value < page.continuation.value)
  }

  /** The page after a cursor lists the next records of the collection. */
  lemma PageAt(all: seq<Record>, after: Option<nat>, limit: nat, start: nat)
    requires Sorted(all) && CursorAt(all, after, start) && limit > 0
    ensures ListsNext(all, after, limit, start, PageOf(all, after, limit))
  {
    CursorPosition(all, after, start);
  }

  /** Reads one page of keys. */
  method ReadPage(
    source: Source, token: nat, c: nat, after: Option<nat>, pageSize: nat, ghost pinned: Database, ghost start: nat)
    returns (r: Result<Page, CaptureError>)
    requires source.Valid() && pinned.Valid() && source.Tracks(token, pinned)
    requires c < COLLECTIONS && 0 < pageSize && CursorAt(pinned.collections[c], after, start)
    modifies source
    ensures source.Valid() && source.Tracks(token, pinned)
    ensures r.Ok? ==> ListsNext(pinned.collections[c], after, pageSize, start, r.value)
    ensures !source.shared ==> source.version == old(source.version) && source.db == old(source.db)
    ensures !source.shared && source.version == token ==> r.Ok?
  {
    var ok := source.Guard(token);
    if !ok {
      return Err(Unavailable);
    }
    PageAt(pinned.collections[c], after, pageSize, start);
    r := Ok(PageOf(source.db.collections[c], after, pageSize));
  }

  /** Reads one page and everything it lists, and moves the cursor. */
  method NextPage(
    source: Source, token: nat, c: nat, after: Option<nat>, pageSize: nat, ghost pinned: Database, ghost start: nat)
    returns (r: Result<(seq<Captured>, Option<nat>), CaptureError>)
    requires source.Valid() && pinned.Valid() && source.Tracks(token, pinned)
    requires c < COLLECTIONS && 0 < pageSize && CursorAt(pinned.collections[c], after, start)
    modifies source
    ensures source.Valid() && source.Tracks(token, pinned)
    ensures r.Ok? ==>
              var all := pinned.collections[c];
              var end := PageEnd(all, start, pageSize);
              && r.value.0 == Listing(c, all[start..end])
              && r.value.1 == if end < |all| then Some(all[end - 1].key) else None
    ensures !source.shared ==> source.version == old(source.version) && source.db == old(source.db)
    ensures !source.shared && source.version == token ==> r.Ok?
  {
    var read := ReadPage(source, token, c, after, pageSize, pinned, start);
    match read
    case Err(e) => return Err(e);
    case Ok(page) =>
      var captured := CapturePage(source, token, c, page.keys, pinned, start);
      match captured
      case Err(e) => r := Err(e);
      case Ok(records) =>
        if page.continuation.Some? && after.Some? && page.continuation.value <= after.value {
          return Err(CursorStuck);
        }
        r := Ok((records, page.continuation));
  }

  lemma ListingJoins(c: nat, all: seq<Record>, start: nat, end: nat)
    requires start <= end <= |all|
    ensures Listing(c, all[..start]) + Listing(c, all[start..end]) == Listing(c, all[..end])
    ensures end == |all| ==> all[..end] == all
  {
  }

  /** Scans one collection to its end. The cursor moves forward with every page. */
  method CaptureCollection(source: Source, token: nat, c: nat, pageSize: nat, ghost pinned: Database)
    returns (r: Result<seq<Captured>, CaptureError>)
    requires source.Valid() && pinned.Valid() && source.Tracks(token, pinned)
    requires c < COLLECTIONS && 0 < pageSize
    modifies source
    ensures source.Valid() && source.Tracks(token, pinned)
    ensures r.Ok? ==> r.value == Listing(c, pinned.collections[c])
    ensures !source.shared ==> source.version == old(source.version) && source.db == old(source.db)
    ensures !source.shared && source.version == token ==> r.Ok?
  {
    var records: seq<Captured> := [];
    var after: Option<nat> := None;
    ghost var start: nat := 0;
    ghost var all := pinned.collections[c];
    var more := true;
    while more
      invariant source.Valid() && source.Tracks(token, pinned)
      invariant CursorAt(all, after, start)
      invariant records == Listing(c, if more then all[..start] else all)
      invariant !source.shared ==> source.version == old(source.version) && source.db == old(source.db)
      decreases more, |all| - start
    {
      var read := NextPage(source, token, c, after, pageSize, pinned, start);
      match read
      case Err(e) => return Err(e);
      case Ok((page, continuation)) =>
        ghost var end := PageEnd(all, start, pageSize);
        ListingJoins(c, all, start, end);
        records := records + page;
        match continuation
        case None => more := false;
        case Some(_) => after, start := continuation, end;
    }
    r := Ok(records);
  }

  // ---- referenced blobs ---------------------------------------------------------------------------------

  /** Blobs under their digests. If others share the store, a blob may come and go between
      two reads; in a content-addressed store a digest always means the same bytes, in any
      other even those may change. */
  class Blobs {
    const shared: bool
    const addressed: bool
    const content: nat -> Bytes
    var rows: map<nat, Bytes>

    ghost predicate Valid()
      reads this
    {
      addressed ==> forall d <- rows :: rows[d] == content(d)
    }

    constructor (shared: bool, addressed: bool, content: nat -> Bytes, rows: map<nat, Bytes>)
      requires addressed ==> forall d <- rows :: rows[d] == content(d)
      ensures Valid() && this.shared == shared && this.addressed == addressed && this.content == content
      ensures this.rows == rows
    {
      this.shared, this.addressed, this.content, this.rows := shared, addressed, content, rows;
    }

    /** The row under a digest, after anything that others may have done to the store. */
    method Row(digest: nat) returns (r: Option<Bytes>)
      requires Valid()
      modifies this
      ensures Valid() && (!shared ==> rows == old(rows))
      ensures r.Some? ==> digest in rows && r.value == rows[digest]
      ensures !shared ==> (r.Some? <==> digest in rows)
    {
      var next: map<nat, Bytes>, fails: bool := *, *;
      if shared {
        rows := map d | d in next :: if addressed then content(d) else next[d];
      }
      r := if digest in rows && !(shared && fails) then Some(rows[digest]) else None;
    }
  }

  /** What is known of a value read in chunks up to here. */
  ghost predicate BlobSoFar(blobs: Blobs, digest: nat, length: nat, value: Bytes)
    reads blobs
  {
    && |value| <= length
    && (blobs.addressed ==> |blobs.content(digest)| == length && value <= blobs.content(digest))
    && (!blobs.shared ==> digest in blobs.rows && |blobs.rows[digest]| == length && value <= blobs.rows[digest])
  }

  /** Reads the next chunk of a blob of this length; even an empty one takes one read. */
  method ReadBlobChunk(blobs: Blobs, digest: nat, length: nat, value: Bytes) returns (r: Result<Bytes, CaptureError>)
    requires blobs.Valid() && BlobSoFar(blobs, digest, length, value)
    modifies blobs
    ensures blobs.Valid() && (!blobs.shared ==> blobs.rows == old(blobs.rows) && r.Ok?)
    ensures r.Ok? ==> BlobSoFar(blobs, digest, length, r.value)
    ensures r.Ok? ==> |r.value| == Min(|value| + MAX_PORTABLE_CHUNK_BYTES, length)
  {
    var offset := |value|;
    var count := Min(MAX_PORTABLE_CHUNK_BYTES, length - offset);
    var row := blobs.Row(digest);
    if row.None? || |row.value| != length {
      return Err(RecordChanged);
    }
    var end := offset + Min(if count == 0 then 1 else count, length - offset);
    var chunk := row.value[offset..end];
    if |chunk| != count {
      return Err(ForeignChunk);
    }
    r := Ok(value + chunk);
  }

  /** Reads one blob, whose length was read first. Whatever happens to the store in between,
      the value has that length; in a content-addressed store it is the content. */
  method ReadBlob(blobs: Blobs, digest: nat, maximum: nat) returns (r: Result<Bytes, CaptureError>)
    requires blobs.Valid()
    modifies blobs
    ensures blobs.Valid()
    ensures r.Ok? ==> |r.value| <= maximum
    ensures r.Ok? && blobs.addressed ==> r.value == blobs.content(digest)
    ensures !blobs.shared ==> blobs.rows == old(blobs.rows)
    ensures !blobs.shared ==> (r.Ok? <==> digest in blobs.rows && |blobs.rows[digest]| <= maximum)
    ensures !blobs.shared && r.Ok? ==> r.value == blobs.rows[digest]
  {
    var row := blobs.Row(digest);
    if row.None? {
      return Err(BlobMissing);
    }
    var length := |row.value|;
    if length > maximum {
      return Err(BlobTooLarge);
    }
    var value: Bytes := [];
    var last := false;
    while !last
      invariant blobs.Valid() && BlobSoFar(blobs, digest, length, value)
      invariant last ==> |value| == length
      invariant !last ==> |value| < length || length == 0
      invariant !blobs.shared ==> blobs.rows == old(blobs.rows)
      decreases !last, length - |value|
    {
      var read := ReadBlobChunk(blobs, digest, length, value);
      match read
      case Err(e) => return Err(e);
      case Ok(more) => value, last := more, |more| == length;
    }
    r := Ok(value);
  }

  /** An object version is a blob reference without a value, or an inline one of its length. */
  predicate WellShaped(r: Captured) {
    r.descriptor.collection != OBJECT_VERSIONS ||
    match r.descriptor.shape
    case ShapeNone => false
    case ShapeInline(n) => r.value.Some? && |r.value.value| == n
    case ShapeBlob(_) => r.value.None?
  }

  datatype Capture = Capture(records: seq<Captured>, blobs: map<nat, Bytes>)

  ghost predicate Retrievable(blobs: Blobs, digest: nat)
    reads blobs
  {
    digest in blobs.rows && |blobs.rows[digest]| <= MAX_BODY_BYTES
  }

  /** These are the blobs under these digests, as far as the store can vouch for them. */
  ghost predicate BlobsOf(blobs: Blobs, digests: set<nat>, values: map<nat, Bytes>)
    reads blobs
  {
    && values.Keys == digests
    && forall d <- digests ::
         && |values[d]| <= MAX_BODY_BYTES
         && (blobs.addressed ==> values[d] == blobs.content(d))
         && (!blobs.shared ==> d in blobs.rows && values[d] == blobs.rows[d])
  }

  method CaptureBlobs(blobs: Blobs, digests: set<nat>) returns (r: Result<map<nat, Bytes>, CaptureError>)
    requires blobs.Valid()
    modifies blobs
    ensures blobs.Valid()
    ensures r.Ok? ==> BlobsOf(blobs, digests, r.value)
    ensures !blobs.shared ==> blobs.rows == old(blobs.rows)
    ensures !blobs.shared ==> (r.Ok? <==> forall d <- digests :: Retrievable(blobs, d))
  {
    var todo, values := digests, map[];
    while todo != {}
      invariant blobs.Valid() && todo <= digests && BlobsOf(blobs, digests - todo, values)
      invariant !blobs.shared ==> blobs.rows == old(blobs.rows)
    {
      var d :| d in todo;
      var value := ReadBlob(blobs, d, MAX_BODY_BYTES);
      match value
      case Err(e) => return Err(e);
      case Ok(bytes) => values, todo := values[d := bytes], todo - {d};
    }
    assert digests - todo == digests;
    r := Ok(values);
  }

  /** All four collections, in order. */
  method CaptureRecords(source: Source, token: nat, pageSize: nat, ghost pinned: Database)
    returns (r: Result<seq<Captured>, CaptureError>)
    requires source.Valid() && pinned.Valid() && source.Tracks(token, pinned) && 0 < pageSize
    modifies source
    ensures source.Valid() && source.Tracks(token, pinned)
    ensures r.Ok? ==> r.value == Snapshot(pinned)
    ensures !source.shared ==> source.version == old(source.version) && source.db == old(source.db)
    ensures !source.shared && source.version == token ==> r.Ok?
  {
    var records: seq<Captured> := [];
    for c := 0 to COLLECTIONS
      invariant source.Valid() && source.Tracks(token, pinned)
      invariant records + ListingFrom(pinned, c) == Snapshot(pinned)
      invariant !source.shared ==> source.version == old(source.version) && source.db == old(source.db)
    {
      var captured := CaptureCollection(source, token, c, pageSize, pinned);
      match captured
      case Err(e) => return Err(e);
      case Ok(more) =>
        assert records + (more + ListingFrom(pinned, c + 1)) == (records + more) + ListingFrom(pinned, c + 1);
        records := records + more;
    }
    assert records + [] == records;
    r := Ok(records);
  }

  /** What a capture needs to succeed. */
  ghost predicate Capturable(db: Database, blobs: Blobs)
    reads blobs
  {
    && db.outbox == 0 && (forall r <- Snapshot(db) :: WellShaped(r))
    && forall d <- References(Snapshot(db)) :: Retrievable(blobs, d)
  }

  /** The whole capture. Success, under any concurrent writes and for every page size, means
      that the records are exactly the simple snapshot of one state of the store, which is
      still the state at the final check; and the blobs are exactly the referenced ones, with
      their content if the blob store is content-addressed. Alone, it succeeds exactly when
      the store is capturable and the page size allowed. */
  method CaptureSnapshot(source: Source, blobs: Blobs, pageSize: nat) returns (r: Result<Capture, CaptureError>)
    requires source.Valid() && blobs.Valid() && 0 < pageSize
    modifies source, blobs
    ensures source.Valid() && Since(old(source.version), old(source.db), source.version, source.db)
    ensures r.Ok? ==> r.value.records == Snapshot(source.db) && source.db.outbox == 0
    ensures r.Ok? ==> BlobsOf(blobs, References(Snapshot(source.db)), r.value.blobs)
    ensures pageSize > MAX_PORTABLE_PAGE_KEYS ==> r == Err(PageSizeTooLarge)
    ensures !source.shared ==> source.db == old(source.db)
    ensures !source.shared && !blobs.shared ==>
              (r.Ok? <==> pageSize <= MAX_PORTABLE_PAGE_KEYS && Capturable(source.db, blobs))
  {
    if pageSize > MAX_PORTABLE_PAGE_KEYS {
      return Err(PageSizeTooLarge);
    }
    var token := source.version;
    ghost var pinned := source.db;
    var ok := source.Guard(token);
    if !ok {
      return Err(Unavailable);
    }
    if source.db.outbox != 0 {
      return Err(OutboxNotEmpty);
    }
    var captured := CaptureRecords(source, token, pageSize, pinned);
    match captured
    case Err(e) => return Err(e);
    case Ok(records) =>
      if exists r <- records :: !WellShaped(r) {
        return Err(SchemaMismatch);
      }
      var bodies := CaptureBlobs(blobs, References(records));
      match bodies
      case Err(e) => return Err(e);
      case Ok(values) =>
        ok := source.Guard(token);
        if !ok {
          return Err(Unavailable);
        }
        if source.db.outbox != 0 {
          return Err(OutboxNotEmpty);
        }
        r := Ok(Capture(records, values));
  }
}
