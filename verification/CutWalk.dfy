/**
 The fixed-order walk over a verified cut: four pins, then for each of seven streams its
 pages, each page followed by the chunks of the components it lists.
 */
module CutWalk {
  import opened Prelude
  import opened CutNames

  datatype Descriptor = Descriptor(collection: nat, key: Bytes, metadata: Bytes, length: nat, digest: Bytes)

  datatype Component = Component(descriptor: Descriptor, bytes: Bytes)

  /** A stream accumulator hashes descriptors into a chain one by one. It stands for what was
      folded into it. */
  type Accumulator = seq<Descriptor>

  /** What a package commits to for one stream. */
  datatype Root = Root(count: nat, root: Accumulator)

  /** The cut and the package a frame belongs to; it stands for both of their digests. */
  datatype Origin = Origin(identity: Bytes, roots: seq<Root>)

  /** The content of one saved file, before it is encoded. */
  datatype Frame =
    | PinFrame(bytes: Bytes)
    | PackageFrame(roots: seq<Root>)
    | PageFrame(
        origin: Origin, collection: nat, after: Option<Bytes>, previous: Accumulator, descriptors: seq<Descriptor>,
        accumulator: Accumulator, terminal: bool)
    | ChunkFrame(origin: Origin, descriptor: Descriptor, offset: nat, bytes: Bytes)

  datatype File = File(key: Key, frame: Frame)

  const MAX_BUSINESS_CUT_PAGE_ENTRIES: nat := 128
  const MAX_BUSINESS_CUT_CHUNK_BYTES: nat := 1024 * 1024
  const STREAMS: nat := 7

  /** Entries per page and bytes per chunk; both are non-zero in the source's type. */
  datatype Limits = Limits(pageEntries: nat, chunkBytes: nat) {
    predicate Valid() {
      1 <= pageEntries <= MAX_BUSINESS_CUT_PAGE_ENTRIES && 1 <= chunkBytes <= MAX_BUSINESS_CUT_CHUNK_BYTES
    }

    /** The saved form: a big-endian u16 and a big-endian u32. */
    function Bytes(): Bytes
      requires Valid()
    {
      [pageEntries / 256, pageEntries % 256,
       chunkBytes / 0x1000000, chunkBytes / 0x10000 % 256, chunkBytes / 0x100 % 256, chunkBytes % 256]
    }
  }

  function ParseLimits(b: Bytes): Option<Limits> {
    if |b| != 6 then None
    else
      var limits := Limits(
        b[0] as nat * 0x100 + b[1],
        b[2] as nat * 0x1000000 + b[3] as nat * 0x10000 + b[4] as nat * 0x100 + b[5]);
      if limits.Valid() then Some(limits) else None
  }

  lemma LimitsRoundTrip(limits: Limits)
    requires limits.Valid()
    ensures ParseLimits(limits.Bytes()) == Some(limits)
  {
    var c := limits.chunkBytes;
    assert c == c / 0x100 * 0x100 + c % 256 && c / 0x100 == c / 0x10000 * 0x100 + c / 0x100 % 256;
    assert c / 0x10000 == c / 0x1000000 * 0x100 + c / 0x10000 % 256;
  }

  /** How one cut is transferred. */
  datatype Transfer = Transfer(limits: Limits, origin: Origin) {
    predicate Valid() {
      limits.Valid()
    }
  }

  function Descriptors(components: seq<Component>): (r: seq<Descriptor>)
    ensures |r| == |components|
    ensures forall i | 0 <= i < |r| :: r[i] == components[i].descriptor
  {
    if components == [] then []
    else Descriptors(components[..|components| - 1]) + [components[|components| - 1].descriptor]
  }

  function RootOf(stream: seq<Component>): Root {
    Root(|stream|, Descriptors(stream))
  }

  function RootsOf(streams: seq<seq<Component>>): (r: seq<Root>)
    ensures |r| == |streams| && forall s | 0 <= s < |r| :: r[s] == RootOf(streams[s])
  {
    if streams == [] then [] else [RootOf(streams[0])] + RootsOf(streams[1..])
  }

  ghost predicate StreamValid(c: nat, stream: seq<Component>) {
    && |stream| <= U64_MAX
    && (forall i | 0 <= i < |stream| ::
          && stream[i].descriptor.collection == c
          && stream[i].descriptor.length == |stream[i].bytes| <= U64_MAX)
    && (forall i, j | 0 <= i < j < |stream| :: stream[i].descriptor.key != stream[j].descriptor.key)
  }

  /** A verified cut: its source token, its encoded identity, and the components of every
      stream in key order. Keys are distinct, and a descriptor states its component's length. */
  datatype SourceCut = SourceCut(token: Bytes, identity: Bytes, streams: seq<seq<Component>>) {
    ghost predicate Valid() {
      |streams| == STREAMS && forall s | 0 <= s < STREAMS :: StreamValid(s + 1, streams[s])
    }

    function Under(limits: Limits): Transfer {
      Transfer(limits, Origin(identity, RootsOf(streams)))
    }
  }

  // ---- bounded reads of the cut ------------------------------------------------

  datatype WalkError = BadCursor | BadLimit | BadRange | NoProgress | EmptyPage | Overflow

  datatype PageRead = PageRead(
    previous: Accumulator, descriptors: seq<Descriptor>, accumulator: Accumulator, terminal: bool)

  /** The position after the component with this key. */
  function After(stream: seq<Component>, key: Bytes): (r: Option<nat>)
    ensures r.Some? ==> 0 < r.value <= |stream| && stream[r.value - 1].descriptor.key == key
  {
    if stream == [] then None
    else if stream[|stream| - 1].descriptor.key == key then Some(|stream|)
    else After(stream[..|stream| - 1], key)
  }

  function PageEnd(stream: seq<Component>, start: nat, limit: nat): (end: nat)
    requires start <= |stream|
    ensures start <= end <= |stream|
  {
    Min(start + limit, |stream|)
  }

  /** One bounded page after a cursor, which must be an exact component key. */
  function ReadPage(stream: seq<Component>, after: Option<Bytes>, limit: nat): Result<PageRead, WalkError> {
    if limit > MAX_BUSINESS_CUT_PAGE_ENTRIES then Err(BadLimit)
    else
      var start := if after.None? then Some(0) else After(stream, after.value);
      if start.None? then Err(BadCursor)
      else
        var end := PageEnd(stream, start.value, limit);
        var previous, descriptors := Descriptors(stream[..start.value]), Descriptors(stream[start.value..end]);
        Ok(PageRead(previous, descriptors, previous + descriptors, end == |stream|))
  }

  function ReadChunk(component: Component, offset: nat, limit: nat): Result<Bytes, WalkError> {
    if limit > MAX_BUSINESS_CUT_CHUNK_BYTES then Err(BadLimit)
    else if offset > |component.bytes| || (offset == |component.bytes| && offset != 0) then Err(BadRange)
    else Ok(component.bytes[offset..Min(offset + limit, |component.bytes|)])
  }

  // ---- what the walk is meant to emit ------------------------------------------

  function ChunkFiles(c: nat, i: nat, component: Component, offset: nat, t: Transfer): seq<File>
    requires t.Valid()
    decreases |component.bytes| - offset
  {
    if offset >= |component.bytes| then []
    else
      var end := Min(offset + t.limits.chunkBytes, |component.bytes|);
      [File(Chunk(c, i, offset), ChunkFrame(t.origin, component.descriptor, offset, component.bytes[offset..end]))]
      + ChunkFiles(c, i, component, end, t)
  }

  function ComponentFiles(c: nat, stream: seq<Component>, from: nat, until: nat, t: Transfer): seq<File>
    requires t.Valid() && from <= until <= |stream|
    decreases |stream| - from
  {
    if from == until then []
    else ChunkFiles(c, from, stream[from], 0, t) + ComponentFiles(c, stream, from + 1, until, t)
  }

  function Cursor(stream: seq<Component>, start: nat): Option<Bytes>
    requires start <= |stream|
  {
    if start == 0 then None else Some(stream[start - 1].descriptor.key)
  }

  function PageFile(c: nat, stream: seq<Component>, start: nat, page: nat, t: Transfer): File
    requires t.Valid() && start <= |stream|
  {
    var end := PageEnd(stream, start, t.limits.pageEntries);
    File(Page(c, page),
         PageFrame(t.origin, c, Cursor(stream, start), Descriptors(stream[..start]), Descriptors(stream[start..end]),
                   Descriptors(stream[..end]), end == |stream|))
  }

  /** The files of one stream from a page boundary on. */
  function StreamFiles(c: nat, stream: seq<Component>, start: nat, page: nat, t: Transfer): seq<File>
    requires t.Valid() && start <= |stream|
    decreases |stream| - start
  {
    var end := PageEnd(stream, start, t.limits.pageEntries);
    [PageFile(c, stream, start, page, t)]
    + ComponentFiles(c, stream, start, end, t)
    + if end == |stream| then [] else StreamFiles(c, stream, end, page + 1, t)
  }

  function StreamsFrom(streams: seq<seq<Component>>, s: nat, t: Transfer): seq<File>
    requires t.Valid() && s <= |streams|
    decreases |streams| - s
  {
    if s == |streams| then [] else StreamFiles(s + 1, streams[s], 0, 0, t) + StreamsFrom(streams, s + 1, t)
  }

  function PinFiles(cut: SourceCut, limits: Limits): seq<File>
    requires limits.Valid()
  {
    [File(Pin(0), PinFrame(cut.token)), File(Pin(1), PinFrame(cut.identity)),
     File(Pin(2), PackageFrame(RootsOf(cut.streams))), File(Pin(3), PinFrame(limits.Bytes()))]
  }

  function Walk(cut: SourceCut, limits: Limits): seq<File>
    requires limits.Valid()
  {
    PinFiles(cut, limits) + StreamsFrom(cut.streams, 0, cut.Under(limits))
  }

  // ---- the walk itself ----------------------------------------------------------

  method VisitChunks(c: nat, i: nat, component: Component, t: Transfer) returns (r: Result<seq<File>, WalkError>)
    requires t.Valid() && component.descriptor.length == |component.bytes| <= U64_MAX
    ensures r == Ok(ChunkFiles(c, i, component, 0, t))
  {
    var files: seq<File> := [];
    var offset := 0;
    while offset < component.descriptor.length
      invariant offset <= |component.bytes|
      invariant files + ChunkFiles(c, i, component, offset, t) == ChunkFiles(c, i, component, 0, t)
    {
      match ReadChunk(component, offset, t.limits.chunkBytes)
      case Err(e) => return Err(e);
      case Ok(bytes) =>
        if |bytes| == 0 { return Err(NoProgress); }
        files := files + [File(Chunk(c, i, offset), ChunkFrame(t.origin, component.descriptor, offset, bytes))];
        if offset + |bytes| > U64_MAX { return Err(Overflow); }
        offset := offset + |bytes|;
    }
    assert files == ChunkFiles(c, i, component, 0, t);
    r := Ok(files);
  }

  method VisitComponents(c: nat, stream: seq<Component>, from: nat, until: nat, t: Transfer)
    returns (r: Result<seq<File>, WalkError>)
    requires t.Valid() && StreamValid(c, stream) && from <= until <= |stream|
    ensures r == Ok(ComponentFiles(c, stream, from, until, t))
  {
    var files: seq<File> := [];
    var i := from;
    while i < until
      invariant from <= i <= until
      invariant files + ComponentFiles(c, stream, i, until, t) == ComponentFiles(c, stream, from, until, t)
    {
      var visited := VisitChunks(c, i, stream[i], t);
      match visited
      case Err(e) => return Err(e);
      case Ok(chunks) =>
        ghost var rest := ComponentFiles(c, stream, i + 1, until, t);
        assert (files + chunks) + rest == files + (chunks + rest);
        files := files + chunks;
        if i + 1 > U64_MAX { return Err(Overflow); }
        i := i + 1;
    }
    assert files + [] == files;
    r := Ok(files);
  }

  /** In a stream with distinct keys a cursor finds its own position. */
  lemma {:induction false} AfterFinds(stream: seq<Component>, i: nat)
    requires i < |stream|
    requires forall a, b | 0 <= a < b < |stream| :: stream[a].descriptor.key != stream[b].descriptor.key
    ensures After(stream, stream[i].descriptor.key) == Some(i + 1)
  {
    if i < |stream| - 1 {
      AfterFinds(stream[..|stream| - 1], i);
    }
  }

  /** The last key of a page is the cursor of the next one. */
  lemma CursorMoves(stream: seq<Component>, start: nat, t: Transfer)
    requires t.Valid() && start <= |stream|
    ensures var end := PageEnd(stream, start, t.limits.pageEntries);
            var page := Descriptors(stream[start..end]);
            && |page| == end - start
            && (end < |stream| ==> page != [] && Some(page[|page| - 1].key) == Cursor(stream, end))
  {
  }

  lemma DescriptorsJoin(stream: seq<Component>, start: nat, end: nat)
    requires start <= end <= |stream|
    ensures Descriptors(stream[..start]) + Descriptors(stream[start..end]) == Descriptors(stream[..end])
  {
  }

  /** What a read of the page after this cursor returns. */
  lemma PageAt(c: nat, stream: seq<Component>, start: nat, t: Transfer)
    requires t.Valid() && StreamValid(c, stream) && start <= |stream|
    ensures var end := PageEnd(stream, start, t.limits.pageEntries);
            ReadPage(stream, Cursor(stream, start), t.limits.pageEntries)
            == Ok(PageRead(Descriptors(stream[..start]), Descriptors(stream[start..end]), Descriptors(stream[..end]),
                           end == |stream|))
  {
    if start > 0 {
      AfterFinds(stream, start - 1);
    }
    DescriptorsJoin(stream, start, PageEnd(stream, start, t.limits.pageEntries));
  }

  /** One page and the chunks of the components it lists; `next` is where the next page
      starts. */
  method VisitPage(c: nat, stream: seq<Component>, after: Option<Bytes>, start: nat, pageIndex: nat, t: Transfer)
    returns (r: Result<seq<File>, WalkError>, next: nat, cursor: Option<Bytes>, terminal: bool)
    requires t.Valid() && StreamValid(c, stream)
    requires start <= |stream| && after == Cursor(stream, start)
    ensures r.Ok? && next == PageEnd(stream, start, t.limits.pageEntries) && (terminal <==> next == |stream|)
    ensures r == Ok([PageFile(c, stream, start, pageIndex, t)] + ComponentFiles(c, stream, start, next, t))
    ensures !terminal ==> cursor.Some? && cursor == Cursor(stream, next)
  {
    PageAt(c, stream, start, t);
    CursorMoves(stream, start, t);
    next, cursor, terminal := start, None, false;
    match ReadPage(stream, after, t.limits.pageEntries)
    case Err(e) => r := Err(e);
    case Ok(page) =>
      var file := File(
        Page(c, pageIndex),
        PageFrame(t.origin, c, after, page.previous, page.descriptors, page.accumulator, page.terminal));
      next, terminal := start + |page.descriptors|, page.terminal;
      if page.descriptors != [] {
        cursor := Some(page.descriptors[|page.descriptors| - 1].key);
      }
      var visited := VisitComponents(c, stream, start, next, t);
      match visited
      case Err(e) => r := Err(e);
      case Ok(chunks) => r := Ok([file] + chunks);
  }

  /** The files still to be emitted from a page boundary on; none once the terminal page
      has been visited. */
  ghost function Rest(c: nat, stream: seq<Component>, start: nat, page: nat, done: bool, t: Transfer): seq<File>
    requires t.Valid() && start <= |stream|
  {
    if done then [] else StreamFiles(c, stream, start, page, t)
  }

  ghost predicate Tiles(files: seq<File>, rest: seq<File>, whole: seq<File>) {
    files + rest == whole
  }

  lemma StreamUnfolds(
    files: seq<File>, emitted: seq<File>, c: nat, stream: seq<Component>, start: nat, page: nat, t: Transfer,
    whole: seq<File>)
    requires t.Valid() && start <= |stream| && Tiles(files, Rest(c, stream, start, page, false, t), whole)
    requires emitted == [PageFile(c, stream, start, page, t)]
                        + ComponentFiles(c, stream, start, PageEnd(stream, start, t.limits.pageEntries), t)
    ensures var end := PageEnd(stream, start, t.limits.pageEntries);
            Tiles(files + emitted, Rest(c, stream, end, page + 1, end == |stream|, t), whole)
  {
    var end := PageEnd(stream, start, t.limits.pageEntries);
    var rest := Rest(c, stream, end, page + 1, end == |stream|, t);
    assert StreamFiles(c, stream, start, page, t) == emitted + rest;
    assert files + (emitted + rest) == (files + emitted) + rest;
  }

  /** Every page of one stream, in order, each followed by its components' chunks. */
  method VisitStream(c: nat, stream: seq<Component>, t: Transfer) returns (r: Result<seq<File>, WalkError>)
    requires t.Valid() && StreamValid(c, stream)
    ensures r == Ok(StreamFiles(c, stream, 0, 0, t))
  {
    var files: seq<File> := [];
    var after: Option<Bytes> := None;
    var pageIndex := 0;
    var componentIndex := 0;
    var done := false;
    ghost var whole := StreamFiles(c, stream, 0, 0, t);
    while !done
      invariant componentIndex <= |stream| && pageIndex <= componentIndex
      invariant !done ==> after == Cursor(stream, componentIndex)
      invariant Tiles(files, Rest(c, stream, componentIndex, pageIndex, done, t), whole)
      decreases !done, |stream| - componentIndex
    {
      var visited, next, cursor, terminal := VisitPage(c, stream, after, componentIndex, pageIndex, t);
      match visited
      case Err(e) => return Err(e);
      case Ok(emitted) =>
        StreamUnfolds(files, emitted, c, stream, componentIndex, pageIndex, t, whole);
        files := files + emitted;
        done := terminal;
        if !terminal {
          if cursor.None? { return Err(EmptyPage); }
          after := cursor;
          componentIndex := next;
          if pageIndex + 1 > U64_MAX { return Err(Overflow); }
          pageIndex := pageIndex + 1;
        }
    }
    assert files + [] == files;
    r := Ok(files);
  }

  lemma StreamVisited(
    files: seq<File>, emitted: seq<File>, streams: seq<seq<Component>>, s: nat, t: Transfer, whole: seq<File>)
    requires t.Valid() && s < |streams| && emitted == StreamFiles(s + 1, streams[s], 0, 0, t)
    requires Tiles(files, StreamsFrom(streams, s, t), whole)
    ensures Tiles(files + emitted, StreamsFrom(streams, s + 1, t), whole)
  {
    var rest := StreamsFrom(streams, s + 1, t);
    assert (files + emitted) + rest == files + (emitted + rest);
  }

  /** The whole walk. */
  method VisitCutFiles(cut: SourceCut, limits: Limits) returns (r: Result<seq<File>, WalkError>)
    requires limits.Valid() && cut.Valid()
    ensures r == Ok(Walk(cut, limits))
  {
    var t := cut.Under(limits);
    var files := PinFiles(cut, limits);
    ghost var whole := Walk(cut, limits);
    var s := 0;
    while s < |cut.streams|
      invariant s <= |cut.streams| && Tiles(files, StreamsFrom(cut.streams, s, t), whole)
    {
      var visited := VisitStream(s + 1, cut.streams[s], t);
      match visited
      case Err(e) => return Err(e);
      case Ok(emitted) =>
        StreamVisited(files, emitted, cut.streams, s, t, whole);
        files := files + emitted;
        s := s + 1;
    }
    assert files + [] == files;
    r := Ok(files);
  }
}
