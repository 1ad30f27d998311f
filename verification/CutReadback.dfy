/**
 The walk loses nothing and confuses nothing: its file names are pairwise distinct, and the
 reader of a saved cut accepts what a completed export leaves and restores every component.
 What the reader accepts at all is what the saved package commits to.
 */
module CutReadback {
  import opened Prelude
  import opened CutNames
  import opened CutWalk
  import E = CutExport
  import A = ImmutableArchives
  import D = ArchiveDisk

  // ---- distinct names --------------------------------------------------------------

  ghost predicate KeysDistinct(files: seq<File>) {
    forall i, j | 0 <= i < j < |files| :: files[i].key != files[j].key
  }

  lemma JoinDistinct(a: seq<File>, b: seq<File>)
    requires KeysDistinct(a) && KeysDistinct(b)
    requires forall f, g | f in a && g in b :: f.key != g.key
    ensures KeysDistinct(a + b)
  {
  }

  lemma {:induction false} ChunkKeys(c: nat, i: nat, component: Component, offset: nat, t: Transfer)
    requires t.Valid()
    ensures KeysDistinct(ChunkFiles(c, i, component, offset, t))
    ensures forall f <- ChunkFiles(c, i, component, offset, t) ::
              && f.key.Chunk? && f.key.collection == c && f.key.component == i
              && offset <= f.key.offset < |component.bytes|
    decreases |component.bytes| - offset
  {
    if offset < |component.bytes| {
      var end := Min(offset + t.limits.chunkBytes, |component.bytes|);
      ChunkKeys(c, i, component, end, t);
    }
  }

  lemma {:induction false} ComponentKeys(c: nat, stream: seq<Component>, from: nat, until: nat, t: Transfer)
    requires t.Valid() && StreamValid(c, stream) && from <= until <= |stream|
    ensures KeysDistinct(ComponentFiles(c, stream, from, until, t))
    ensures forall f <- ComponentFiles(c, stream, from, until, t) ::
              f.key.Chunk? && f.key.collection == c && from <= f.key.component < until && f.key.offset <= U64_MAX
    decreases |stream| - from
  {
    if from < until {
      ChunkKeys(c, from, stream[from], 0, t);
      ComponentKeys(c, stream, from + 1, until, t);
      JoinDistinct(ChunkFiles(c, from, stream[from], 0, t), ComponentFiles(c, stream, from + 1, until, t));
    }
  }

  /** Where the keys of a stream's files lie, from a page boundary on. */
  ghost predicate StreamKey(k: Key, c: nat, start: nat, page: nat) {
    match k
    case Pin(_) => false
    case Page(c', p) => c' == c && page <= p <= U64_MAX
    case Chunk(c', i, o) => c' == c && start <= i <= U64_MAX && o <= U64_MAX
  }

  /** One page file and the chunks of the components it lists. */
  function PageGroup(c: nat, stream: seq<Component>, start: nat, page: nat, t: Transfer): seq<File>
    requires t.Valid() && start <= |stream|
  {
    [PageFile(c, stream, start, page, t)]
    + ComponentFiles(c, stream, start, PageEnd(stream, start, t.limits.pageEntries), t)
  }

  ghost predicate GroupKey(k: Key, c: nat, start: nat, end: nat, page: nat) {
    match k
    case Pin(_) => false
    case Page(c', p) => c' == c && p == page <= U64_MAX
    case Chunk(c', i, o) => c' == c && start <= i < end && o <= U64_MAX
  }

  lemma GroupKeys(c: nat, stream: seq<Component>, start: nat, page: nat, t: Transfer)
    requires t.Valid() && StreamValid(c, stream) && page <= start <= |stream|
    ensures var group := PageGroup(c, stream, start, page, t);
            KeysDistinct(group) &&
            forall f <- group :: GroupKey(f.key, c, start, PageEnd(stream, start, t.limits.pageEntries), page)
  {
    var end := PageEnd(stream, start, t.limits.pageEntries);
    ComponentKeys(c, stream, start, end, t);
    JoinDistinct([PageFile(c, stream, start, page, t)], ComponentFiles(c, stream, start, end, t));
  }

  /** A stream is its first page group, then the rest from the next page boundary on. */
  lemma StreamSplits(c: nat, stream: seq<Component>, start: nat, page: nat, t: Transfer)
    requires t.Valid() && start <= |stream|
    ensures var end := PageEnd(stream, start, t.limits.pageEntries);
            StreamFiles(c, stream, start, page, t)
            == PageGroup(c, stream, start, page, t)
               + if end == |stream| then [] else StreamFiles(c, stream, end, page + 1, t)
  {
  }

  ghost predicate StreamKeysOk(files: seq<File>, c: nat, start: nat, page: nat) {
    KeysDistinct(files) && forall f <- files :: StreamKey(f.key, c, start, page)
  }

  lemma JoinKeys(group: seq<File>, rest: seq<File>, c: nat, start: nat, end: nat, page: nat)
    requires start <= end <= U64_MAX + 1
    requires KeysDistinct(group) && forall f <- group :: GroupKey(f.key, c, start, end, page)
    requires StreamKeysOk(rest, c, end, page + 1)
    ensures StreamKeysOk(group + rest, c, start, page)
  {
    JoinDistinct(group, rest);
  }

  lemma GroupThenRest(c: nat, stream: seq<Component>, start: nat, page: nat, t: Transfer, rest: seq<File>)
    requires t.Valid() && StreamValid(c, stream) && page <= start <= |stream|
    requires StreamKeysOk(rest, c, PageEnd(stream, start, t.limits.pageEntries), page + 1)
    ensures StreamKeysOk(PageGroup(c, stream, start, page, t) + rest, c, start, page)
  {
    GroupKeys(c, stream, start, page, t);
    JoinKeys(PageGroup(c, stream, start, page, t), rest, c, start, PageEnd(stream, start, t.limits.pageEntries), page);
  }

  lemma {:induction false} StreamKeys(c: nat, stream: seq<Component>, start: nat, page: nat, t: Transfer)
    requires t.Valid() && StreamValid(c, stream) && page <= start <= |stream|
    ensures StreamKeysOk(StreamFiles(c, stream, start, page, t), c, start, page)
    decreases |stream| - start
  {
    var rest := RestKeys(c, stream, start, page, t);
    GroupThenRest(c, stream, start, page, t, rest);
  }

  /** What follows the first page group of a stream, and its keys. */
  lemma {:induction false} RestKeys(c: nat, stream: seq<Component>, start: nat, page: nat, t: Transfer)
    returns (rest: seq<File>)
    requires t.Valid() && StreamValid(c, stream) && page <= start <= |stream|
    ensures StreamFiles(c, stream, start, page, t) == PageGroup(c, stream, start, page, t) + rest
    ensures StreamKeysOk(rest, c, PageEnd(stream, start, t.limits.pageEntries), page + 1)
    decreases |stream| - start, 0
  {
    StreamSplits(c, stream, start, page, t);
    var end := PageEnd(stream, start, t.limits.pageEntries);
    if end == |stream| {
      rest := [];
    } else {
      rest := StreamFiles(c, stream, end, page + 1, t);
      StreamKeys(c, stream, end, page + 1, t);
    }
  }

  lemma {:induction false} StreamsKeys(streams: seq<seq<Component>>, s: nat, t: Transfer)
    requires t.Valid() && s <= |streams|
    requires forall i | 0 <= i < |streams| :: StreamValid(i + 1, streams[i])
    ensures KeysDistinct(StreamsFrom(streams, s, t))
    ensures forall f <- StreamsFrom(streams, s, t) ::
              !f.key.Pin? && s < f.key.collection <= |streams| && StreamKey(f.key, f.key.collection, 0, 0)
    decreases |streams| - s
  {
    if s < |streams| {
      StreamKeys(s + 1, streams[s], 0, 0, t);
      StreamsKeys(streams, s + 1, t);
      JoinDistinct(StreamFiles(s + 1, streams[s], 0, 0, t), StreamsFrom(streams, s + 1, t));
    }
  }

  lemma PinKeys(cut: SourceCut, limits: Limits)
    requires limits.Valid()
    ensures KeysDistinct(PinFiles(cut, limits)) && |PinFiles(cut, limits)| == 4
    ensures forall f <- PinFiles(cut, limits) :: f.key.Pin? && f.key.index < 4
  {
  }

  /** The two parts of a walk, whose keys cannot meet. */
  lemma WalkParts(cut: SourceCut, limits: Limits) returns (pins: seq<File>, files: seq<File>)
    requires limits.Valid() && cut.Valid()
    ensures Walk(cut, limits) == pins + files && KeysDistinct(pins) && KeysDistinct(files)
    ensures (forall f <- pins :: f.key.Pin? && Fits(f.key)) && (forall f <- files :: !f.key.Pin? && Fits(f.key))
  {
    pins, files := PinFiles(cut, limits), StreamsFrom(cut.streams, 0, cut.Under(limits));
    StreamsKeys(cut.streams, 0, cut.Under(limits));
    PinKeys(cut, limits);
  }

  /** Every file of the walk has its own key, and the key fits its name. */
  lemma WalkKeys(cut: SourceCut, limits: Limits)
    requires limits.Valid() && cut.Valid()
    ensures KeysDistinct(Walk(cut, limits))
    ensures forall f <- Walk(cut, limits) :: Fits(f.key)
  {
    var pins, files := WalkParts(cut, limits);
    JoinDistinct(pins, files);
  }

  // ---- from frames to artifacts ------------------------------------------------------

  function Artifacts(files: seq<File>, encode: Frame -> Bytes): (r: seq<E.Artifact>)
    requires forall f <- files :: Fits(f.key)
    ensures |r| == |files|
    ensures forall i | 0 <= i < |files| :: r[i] == E.Artifact(Name(files[i].key), encode(files[i].frame))
  {
    seq(|files|, i requires 0 <= i < |files| => E.Artifact(Name(files[i].key), encode(files[i].frame)))
  }

  /** The saving plan of a cut: the walk's files, encoded, and the package bytes again as
      the completion marker. */
  function ExportOf(cut: SourceCut, limits: Limits, encode: Frame -> Bytes): E.Cut
    requires limits.Valid() && cut.Valid()
  {
    WalkKeys(cut, limits);
    E.Cut(Artifacts(Walk(cut, limits), encode), encode(PackageFrame(RootsOf(cut.streams))))
  }

  /** The walk meets everything an export relies on. */
  lemma WalkIsWellFormed(cut: SourceCut, limits: Limits, encode: Frame -> Bytes)
    requires limits.Valid() && cut.Valid()
    ensures ExportOf(cut, limits, encode).WellFormed()
  {
    var files := Walk(cut, limits);
    WalkKeys(cut, limits);
    var payload := ExportOf(cut, limits, encode).payload;
    forall i, j | 0 <= i < j < |payload| ensures payload[i].name != payload[j].name {
      if payload[i].name == payload[j].name {
        NamesInjective(files[i].key, files[j].key);
      }
    }
    forall i | 0 <= i < |payload|
      ensures payload[i].name != E.COMPLETE
      ensures A.NormalComponent(payload[i].name) && payload[i].name != A.STAGING_DIRECTORY
    {
      FirstLetters(files[i].key);
      assert E.COMPLETE[..3] == "com";
    }
  }

  // ---- reading back ---------------------------------------------------------------------

  /** A saved artifact, looked up by its exact name and decoded. */
  function Lookup(saved: map<string, Bytes>, decode: Bytes -> Option<Frame>, key: Key): Option<Frame> {
    if Fits(key) && Name(key) in saved then decode(saved[Name(key)]) else None
  }

  function Looker(saved: map<string, Bytes>, decode: Bytes -> Option<Frame>): Key -> Option<Frame> {
    k => Lookup(saved, decode, k)
  }

  /** What a reader has restored, and the keys of the files it read for it. */
  datatype Restored<T> = Restored(value: T, keys: set<Key>)

  /** The bytes of one component from an offset on; every chunk must be the exact one asked
      for. */
  function ReadChunks(look: Key -> Option<Frame>, c: nat, i: nat, d: Descriptor, offset: nat, t: Transfer)
    : Option<Restored<Bytes>>
    requires t.Valid()
    decreases d.length - offset
  {
    if offset >= d.length then Some(Restored([], {}))
    else
      var key := Chunk(c, i, offset);
      match look(key)
      case Some(ChunkFrame(origin, d', offset', bytes)) =>
        if origin != t.origin || d' != d || offset' != offset || |bytes| != Min(t.limits.chunkBytes, d.length - offset)
        then None
        else
          var rest := ReadChunks(look, c, i, d, offset + |bytes|, t);
          if rest.None? then None else Some(Restored(bytes + rest.value.value, {key} + rest.value.keys))
      case _ => None
  }

  function ReadComponents(look: Key -> Option<Frame>, c: nat, i: nat, descriptors: seq<Descriptor>, t: Transfer)
    : Option<Restored<seq<Component>>>
    requires t.Valid()
    decreases |descriptors|
  {
    if descriptors == [] then Some(Restored([], {}))
    else
      var body := ReadChunks(look, c, i, descriptors[0], 0, t);
      var rest := ReadComponents(look, c, i + 1, descriptors[1..], t);
      if body.None? || rest.None? then None
      else
        Some(Restored([Component(descriptors[0], body.value.value)] + rest.value.value,
                      body.value.keys + rest.value.keys))
  }

  function LastKey(folded: Accumulator): Option<Bytes> {
    if folded == [] then None else Some(folded[|folded| - 1].key)
  }

  /** Whether a page continues a stream of which this much was folded already. */
  predicate PageContinues(frame: Frame, c: nat, folded: Accumulator, root: Root, t: Transfer) {
    && frame.PageFrame? && frame.collection == c && |frame.descriptors| <= t.limits.pageEntries
    && frame.origin == t.origin && frame.after == LastKey(folded) && frame.previous == folded
    && frame.accumulator == folded + frame.descriptors && |frame.accumulator| <= root.count
    && (frame.terminal ==> |frame.accumulator| == root.count && frame.accumulator == root.root)
  }

  /** All components of one stream from a page on; the page number is a u64. */
  function ReadStream(look: Key -> Option<Frame>, c: nat, page: nat, folded: Accumulator, root: Root, t: Transfer)
    : Option<Restored<seq<Component>>>
    requires t.Valid()
    decreases U64_MAX + 1 - page
  {
    if page > U64_MAX then None
    else
      match look(Page(c, page))
      case None => None
      case Some(frame) =>
        if !PageContinues(frame, c, folded, root, t) then None
        else
          match ReadComponents(look, c, |folded|, frame.descriptors, t)
          case None => None
          case Some(listed) =>
            if frame.terminal then Some(Restored(listed.value, {Page(c, page)} + listed.keys))
            else
              match ReadStream(look, c, page + 1, frame.accumulator, root, t)
              case None => None
              case Some(rest) =>
                Some(Restored(listed.value + rest.value, {Page(c, page)} + listed.keys + rest.keys))
  }

  /** A stream and those after it, if all of them could be read. */
  function Together(
    stream: Option<Restored<seq<Component>>>, rest: Option<Restored<seq<seq<Component>>>>)
    : Option<Restored<seq<seq<Component>>>>
  {
    if stream.None? || rest.None? then None
    else Some(Restored([stream.value.value] + rest.value.value, stream.value.keys + rest.value.keys))
  }

  type StreamReader = nat -> Option<Restored<seq<Component>>>

  /** The reader of each stream of an archive. */
  function Reader(look: Key -> Option<Frame>, t: Transfer): StreamReader
    requires t.Valid()
  {
    (s: nat) =>
      if s < |t.origin.roots| then ReadStream(look, s + 1, 0, [], t.origin.roots[s], t) else None
  }

  lemma ReaderAt(look: Key -> Option<Frame>, t: Transfer, s: nat)
    requires t.Valid() && s < |t.origin.roots|
    ensures Reader(look, t)(s) == ReadStream(look, s + 1, 0, [], t.origin.roots[s], t)
  {
  }

  /** All streams from this one on. */
  function ReadStreams(read: StreamReader, s: nat, n: nat): Option<Restored<seq<seq<Component>>>>
    requires s <= n
    decreases n - s
  {
    if s == n then Some(Restored([], {})) else Together(read(s), ReadStreams(read, s + 1, n))
  }

  const PIN_KEYS: set<Key> := {Pin(0), Pin(1), Pin(2), Pin(3)}

  /** The inventory is exactly what was read, and the marker repeats the package. */
  predicate InventoryMatches(saved: map<string, Bytes>, keys: set<Key>, package: Bytes) {
    && (forall k <- keys :: Fits(k))
    && saved.Keys == (set k <- keys | Fits(k) :: Name(k)) + {E.COMPLETE}
    && saved[E.COMPLETE] == package
  }

  /** How files are encoded and decoded, and which source tokens belong to the reader's domain. */
  datatype Codec = Codec(encode: Frame -> Bytes, decode: Bytes -> Option<Frame>, local: Bytes -> bool) {
    ghost predicate Valid() {
      forall f: Frame :: decode(encode(f)) == Some(f)
    }
  }

  /** Reads a whole saved cut: the pins, the transfer settings and the source token among
      them, every stream, and the final comparison of the inventory and the marker. The
      result holds the streams and the keys of all files that were read. */
  function ReadArchive(saved: map<string, Bytes>, codec: Codec): Option<Restored<seq<seq<Component>>>> {
    var look := Looker(saved, codec.decode);
    match (look(Pin(0)), look(Pin(1)), look(Pin(2)), look(Pin(3)))
    case (Some(PinFrame(token)), Some(PinFrame(identity)), Some(PackageFrame(roots)), Some(PinFrame(settings))) =>
      var limits := ParseLimits(settings);
      if limits.None? || |roots| != STREAMS || !codec.local(token) then None
      else
        var t := Transfer(limits.value, Origin(identity, roots));
        var read := ReadStreams(Reader(look, t), 0, STREAMS);
        if read.None? then None
        else
          var keys := PIN_KEYS + read.value.keys;
          if !InventoryMatches(saved, keys, codec.encode(PackageFrame(roots))) then None
          else Some(Restored(read.value.value, keys))
    case _ => None
  }

  // ---- a completed export is accepted and restored ------------------------------------------

  function KeySet(files: seq<File>): set<Key> {
    set f <- files :: f.key
  }

  lemma KeySetJoin(a: seq<File>, b: seq<File>)
    ensures KeySet(a + b) == KeySet(a) + KeySet(b)
  {
    assert forall f | f in a || f in b :: f in a + b;
  }

  /** The archive answers these files. */
  ghost predicate Saved(look: Key -> Option<Frame>, files: seq<File>) {
    forall f <- files :: look(f.key) == Some(f.frame)
  }

  lemma SavedParts(look: Key -> Option<Frame>, a: seq<File>, b: seq<File>)
    requires Saved(look, a + b)
    ensures Saved(look, a) && Saved(look, b)
  {
    assert forall f | f in a || f in b :: f in a + b;
  }

  lemma OneKey(f: File)
    ensures KeySet([f]) == {f.key}
  {
  }

  lemma SplitAt(b: Bytes, i: nat, j: nat)
    requires i <= j <= |b|
    ensures b[i..] == b[i..j] + b[j..]
  {
  }

  lemma NothingLeft(b: Bytes)
    ensures b[|b|..] == []
  {
  }

  lemma ChunkStep(
    look: Key -> Option<Frame>, c: nat, i: nat, d: Descriptor, offset: nat, t: Transfer, bytes: Bytes, rest: Bytes,
    files: seq<File>)
    requires t.Valid() && offset < d.length && |bytes| == Min(t.limits.chunkBytes, d.length - offset)
    requires look(Chunk(c, i, offset)) == Some(ChunkFrame(t.origin, d, offset, bytes))
    requires ReadChunks(look, c, i, d, offset + |bytes|, t) == Some(Restored(rest, KeySet(files)))
    ensures ReadChunks(look, c, i, d, offset, t)
         == Some(Restored(bytes + rest, {Chunk(c, i, offset)} + KeySet(files)))
  {
  }

  /** The chunks of a component tile it: reading them in order restores its bytes. */
  lemma {:induction false} ChunksRestore(
    look: Key -> Option<Frame>, c: nat, i: nat, component: Component, offset: nat, t: Transfer)
    requires t.Valid() && component.descriptor.length == |component.bytes| && offset <= |component.bytes|
    requires Saved(look, ChunkFiles(c, i, component, offset, t))
    ensures ReadChunks(look, c, i, component.descriptor, offset, t)
         == Some(Restored(component.bytes[offset..], KeySet(ChunkFiles(c, i, component, offset, t))))
    decreases |component.bytes| - offset
  {
    if offset < |component.bytes| {
      var end := Min(offset + t.limits.chunkBytes, |component.bytes|);
      var first, rest := NextChunkRestores(look, c, i, component, offset, t);
      var bytes, after := component.bytes[offset..end], component.bytes[end..];
      ChunkStep(look, c, i, component.descriptor, offset, t, bytes, after, rest);
      KeySetJoin([first], rest);
      OneKey(first);
      SplitAt(component.bytes, offset, end);
    } else {
      NothingLeft(component.bytes);
      assert KeySet(ChunkFiles(c, i, component, offset, t)) == {};
    }
  }

  /** The next chunk file and those after it, and how they read back. */
  lemma {:induction false} NextChunkRestores(
    look: Key -> Option<Frame>, c: nat, i: nat, component: Component, offset: nat, t: Transfer)
    returns (first: File, rest: seq<File>)
    requires t.Valid() && component.descriptor.length == |component.bytes| && offset < |component.bytes|
    requires Saved(look, ChunkFiles(c, i, component, offset, t))
    ensures var end := Min(offset + t.limits.chunkBytes, |component.bytes|);
            && ChunkFiles(c, i, component, offset, t) == [first] + rest && first.key == Chunk(c, i, offset)
            && look(Chunk(c, i, offset))
               == Some(ChunkFrame(t.origin, component.descriptor, offset, component.bytes[offset..end]))
            && ReadChunks(look, c, i, component.descriptor, end, t)
               == Some(Restored(component.bytes[end..], KeySet(rest)))
    decreases |component.bytes| - offset, 0
  {
    var end := Min(offset + t.limits.chunkBytes, |component.bytes|);
    var files := ChunkFiles(c, i, component, offset, t);
    first, rest := files[0], ChunkFiles(c, i, component, end, t);
    assert files == [first] + rest && first in files;
    SavedParts(look, [first], rest);
    ChunksRestore(look, c, i, component, end, t);
  }

  lemma RestoreStep(
    look: Key -> Option<Frame>, c: nat, first: Component, i: nat, d: seq<Descriptor>, rest: seq<Component>,
    chunkKeys: set<Key>, restKeys: set<Key>, t: Transfer)
    requires t.Valid() && d != [] && d[0] == first.descriptor
    requires ReadChunks(look, c, i, d[0], 0, t) == Some(Restored(first.bytes[0..], chunkKeys))
    ensures ReadComponents(look, c, i + 1, d[1..], t) == Some(Restored(rest, restKeys))
            ==> ReadComponents(look, c, i, d, t) == Some(Restored([first] + rest, chunkKeys + restKeys))
  {
    assert first.bytes[0..] == first.bytes;
  }

  lemma {:induction false} ComponentsRestore(
    look: Key -> Option<Frame>, c: nat, stream: seq<Component>, from: nat, until: nat, t: Transfer)
    requires t.Valid() && StreamValid(c, stream) && from <= until <= |stream|
    requires Saved(look, ComponentFiles(c, stream, from, until, t))
    ensures ReadComponents(look, c, from, Descriptors(stream[from..until]), t)
         == Some(Restored(stream[from..until], KeySet(ComponentFiles(c, stream, from, until, t))))
    decreases |stream| - from
  {
    if from < until {
      var chunks, rest := NextComponentRestores(look, c, stream, from, until, t);
      KeySetJoin(chunks, rest);
      assert stream[from..until] == [stream[from]] + stream[from + 1..until];
    } else {
      assert stream[from..until] == [] && KeySet(ComponentFiles(c, stream, from, until, t)) == {};
    }
  }

  /** The files of the next component and of those after it, and how they read back. */
  lemma {:induction false} NextComponentRestores(
    look: Key -> Option<Frame>, c: nat, stream: seq<Component>, from: nat, until: nat, t: Transfer)
    returns (chunks: seq<File>, rest: seq<File>)
    requires t.Valid() && StreamValid(c, stream) && from < until <= |stream|
    requires Saved(look, ComponentFiles(c, stream, from, until, t))
    ensures ComponentFiles(c, stream, from, until, t) == chunks + rest
    ensures ReadComponents(look, c, from, Descriptors(stream[from..until]), t)
         == Some(Restored([stream[from]] + stream[from + 1..until], KeySet(chunks) + KeySet(rest)))
    decreases |stream| - from, 0
  {
    var first, d := stream[from], Descriptors(stream[from..until]);
    chunks, rest := ChunkFiles(c, from, first, 0, t), ComponentFiles(c, stream, from + 1, until, t);
    SavedParts(look, chunks, rest);
    ChunksRestore(look, c, from, first, 0, t);
    ComponentsRestore(look, c, stream, from + 1, until, t);
    assert d[1..] == Descriptors(stream[from + 1..until]);
    RestoreStep(look, c, first, from, d, stream[from + 1..until], KeySet(chunks), KeySet(rest), t);
  }

  /** How a stream reads whose first page group has these keys. */
  ghost predicate GroupReads(
    look: Key -> Option<Frame>, c: nat, stream: seq<Component>, start: nat, page: nat, t: Transfer, keys: set<Key>)
    requires t.Valid() && start <= |stream|
  {
    var end := PageEnd(stream, start, t.limits.pageEntries);
    ReadStream(look, c, page, Descriptors(stream[..start]), RootOf(stream), t)
    == if end == |stream| then Some(Restored(stream[start..end], keys))
       else
         match ReadStream(look, c, page + 1, Descriptors(stream[..end]), RootOf(stream), t)
         case None => None
         case Some(rest) => Some(Restored(stream[start..end] + rest.value, keys + rest.keys))
  }

  ghost predicate RestReadsBack(
    look: Key -> Option<Frame>, c: nat, stream: seq<Component>, end: nat, page: nat, t: Transfer, rest: seq<File>)
    requires t.Valid() && end <= |stream|
  {
    if end == |stream| then rest == []
    else
      ReadStream(look, c, page, Descriptors(stream[..end]), RootOf(stream), t)
      == Some(Restored(stream[end..], KeySet(rest)))
  }

  lemma GroupAndRest(
    look: Key -> Option<Frame>, c: nat, stream: seq<Component>, start: nat, page: nat, t: Transfer, group: seq<File>,
    rest: seq<File>)
    requires t.Valid() && start <= |stream| && GroupReads(look, c, stream, start, page, t, KeySet(group))
    requires RestReadsBack(look, c, stream, PageEnd(stream, start, t.limits.pageEntries), page + 1, t, rest)
    ensures ReadStream(look, c, page, Descriptors(stream[..start]), RootOf(stream), t)
         == Some(Restored(stream[start..], KeySet(group + rest)))
  {
    var end := PageEnd(stream, start, t.limits.pageEntries);
    KeySetJoin(group, rest);
    if end == |stream| {
      assert group + rest == group && stream[start..end] == stream[start..];
    } else {
      assert stream[start..] == stream[start..end] + stream[end..];
    }
  }

  lemma PageFits(c: nat, stream: seq<Component>, start: nat, page: nat, t: Transfer)
    requires t.Valid() && start <= |stream|
    ensures PageContinues(PageFile(c, stream, start, page, t).frame, c, Descriptors(stream[..start]), RootOf(stream), t)
  {
    DescriptorsJoin(stream, start, PageEnd(stream, start, t.limits.pageEntries));
    assert stream[..|stream|] == stream;
  }

  lemma ReadStep(
    look: Key -> Option<Frame>, c: nat, page: nat, folded: Accumulator, root: Root, t: Transfer, frame: Frame,
    listed: seq<Component>, keys: set<Key>)
    requires t.Valid() && page <= U64_MAX && look(Page(c, page)) == Some(frame)
    requires PageContinues(frame, c, folded, root, t)
    requires ReadComponents(look, c, |folded|, frame.descriptors, t) == Some(Restored(listed, keys))
    ensures ReadStream(look, c, page, folded, root, t)
            == if frame.terminal then Some(Restored(listed, {Page(c, page)} + keys))
               else
                 match ReadStream(look, c, page + 1, frame.accumulator, root, t)
                 case None => None
                 case Some(rest) => Some(Restored(listed + rest.value, {Page(c, page)} + keys + rest.keys))
  {
  }

  lemma GroupRestores(look: Key -> Option<Frame>, c: nat, stream: seq<Component>, start: nat, page: nat, t: Transfer)
    requires t.Valid() && StreamValid(c, stream) && page <= start <= |stream|
    requires Saved(look, PageGroup(c, stream, start, page, t))
    ensures GroupReads(look, c, stream, start, page, t, KeySet(PageGroup(c, stream, start, page, t)))
  {
    var end := PageEnd(stream, start, t.limits.pageEntries);
    var first, files := PageFile(c, stream, start, page, t), ComponentFiles(c, stream, start, end, t);
    SavedParts(look, [first], files);
    KeySetJoin([first], files);
    assert first in [first] && KeySet([first]) == {Page(c, page)};
    ComponentsRestore(look, c, stream, start, end, t);
    PageFits(c, stream, start, page, t);
    ReadStep(
      look, c, page, Descriptors(stream[..start]), RootOf(stream), t, first.frame, stream[start..end], KeySet(files));
  }

  lemma {:induction false} StreamRestores(
    look: Key -> Option<Frame>, c: nat, stream: seq<Component>, start: nat, page: nat, t: Transfer)
    requires t.Valid() && StreamValid(c, stream) && page <= start <= |stream|
    requires Saved(look, StreamFiles(c, stream, start, page, t))
    ensures ReadStream(look, c, page, Descriptors(stream[..start]), RootOf(stream), t)
         == Some(Restored(stream[start..], KeySet(StreamFiles(c, stream, start, page, t))))
    decreases |stream| - start
  {
    var rest := RestRestores(look, c, stream, start, page, t);
    var group := PageGroup(c, stream, start, page, t);
    SavedParts(look, group, rest);
    GroupRestores(look, c, stream, start, page, t);
    GroupAndRest(look, c, stream, start, page, t, group, rest);
  }

  /** What follows the first page group of a stream, and how it reads back. */
  lemma {:induction false} RestRestores(
    look: Key -> Option<Frame>, c: nat, stream: seq<Component>, start: nat, page: nat, t: Transfer)
    returns (rest: seq<File>)
    requires t.Valid() && StreamValid(c, stream) && page <= start <= |stream|
    requires Saved(look, StreamFiles(c, stream, start, page, t))
    ensures StreamFiles(c, stream, start, page, t) == PageGroup(c, stream, start, page, t) + rest
    ensures RestReadsBack(look, c, stream, PageEnd(stream, start, t.limits.pageEntries), page + 1, t, rest)
    decreases |stream| - start, 0
  {
    StreamSplits(c, stream, start, page, t);
    var end := PageEnd(stream, start, t.limits.pageEntries);
    if end == |stream| {
      rest := [];
    } else {
      rest := StreamFiles(c, stream, end, page + 1, t);
      SavedParts(look, PageGroup(c, stream, start, page, t), rest);
      StreamRestores(look, c, stream, end, page + 1, t);
    }
  }

  /** The reader restores this stream from exactly its files. */
  ghost predicate Restores(read: StreamReader, streams: seq<seq<Component>>, s: nat, t: Transfer)
    requires s < |streams| && t.Valid()
  {
    read(s) == Some(Restored(streams[s], KeySet(StreamFiles(s + 1, streams[s], 0, 0, t))))
  }

  lemma OneStreamRestores(look: Key -> Option<Frame>, c: nat, stream: seq<Component>, t: Transfer)
    requires t.Valid() && StreamValid(c, stream) && Saved(look, StreamFiles(c, stream, 0, 0, t))
    ensures ReadStream(look, c, 0, [], RootOf(stream), t)
         == Some(Restored(stream, KeySet(StreamFiles(c, stream, 0, 0, t))))
  {
    StreamRestores(look, c, stream, 0, 0, t);
    assert Descriptors(stream[..0]) == [] && stream[0..] == stream;
  }

  lemma ReaderRestores(look: Key -> Option<Frame>, streams: seq<seq<Component>>, s: nat, t: Transfer)
    requires t.Valid() && t.origin.roots == RootsOf(streams) && s < |streams| && StreamValid(s + 1, streams[s])
    requires Saved(look, StreamFiles(s + 1, streams[s], 0, 0, t))
    ensures Restores(Reader(look, t), streams, s, t)
  {
    OneStreamRestores(look, s + 1, streams[s], t);
    ReaderAt(look, t, s);
  }

  lemma {:induction false} SavedStream(
    look: Key -> Option<Frame>, streams: seq<seq<Component>>, from: nat, s: nat, t: Transfer)
    requires t.Valid() && from <= s < |streams| && Saved(look, StreamsFrom(streams, from, t))
    ensures Saved(look, StreamFiles(s + 1, streams[s], 0, 0, t))
    decreases s - from
  {
    SavedParts(look, StreamFiles(from + 1, streams[from], 0, 0, t), StreamsFrom(streams, from + 1, t));
    if from < s {
      SavedStream(look, streams, from + 1, s, t);
    }
  }

  lemma OneMoreStream(streams: seq<seq<Component>>, s: nat, first: seq<File>, rest: seq<File>)
    requires s < |streams|
    ensures Together(Some(Restored(streams[s], KeySet(first))), Some(Restored(streams[s + 1..], KeySet(rest))))
         == Some(Restored(streams[s..], KeySet(first + rest)))
  {
    KeySetJoin(first, rest);
    assert streams[s..] == [streams[s]] + streams[s + 1..];
  }

  lemma {:induction false} StreamsRestore(read: StreamReader, streams: seq<seq<Component>>, s: nat, t: Transfer)
    requires t.Valid() && s <= |streams| && forall i | s <= i < |streams| :: Restores(read, streams, i, t)
    ensures ReadStreams(read, s, |streams|) == Some(Restored(streams[s..], KeySet(StreamsFrom(streams, s, t))))
    decreases |streams| - s
  {
    if s < |streams| {
      StreamsRestore(read, streams, s + 1, t);
      assert Restores(read, streams, s, t);
      OneMoreStream(streams, s, StreamFiles(s + 1, streams[s], 0, 0, t), StreamsFrom(streams, s + 1, t));
    } else {
      assert streams[s..] == [] && KeySet(StreamsFrom(streams, s, t)) == {};
    }
  }

  /** What the archive of a complete saving plan holds: every file under its name, the marker,
      and nothing else. */
  lemma TargetAnswers(files: seq<File>, codec: Codec, package: Bytes)
    requires (forall f <- files :: Fits(f.key)) && E.Cut(Artifacts(files, codec.encode), package).WellFormed()
    requires codec.Valid()
    ensures var saved := E.Target(E.Cut(Artifacts(files, codec.encode), package).Plan());
            Saved(Looker(saved, codec.decode), files) && InventoryMatches(saved, KeySet(files), package)
  {
    var saving := E.Cut(Artifacts(files, codec.encode), package);
    var saved := E.Target(saving.Plan());
    E.PlanNames(saving);
    E.TargetHolds(saving.Plan());
    forall i | 0 <= i < |files|
      ensures Lookup(saved, codec.decode, files[i].key) == Some(files[i].frame) && Name(files[i].key) in saved
    {
      assert saving.Plan()[i] == saving.payload[i];
    }
    assert saving.Plan()[|files|] == E.Artifact(E.COMPLETE, package);
    forall n <- saved ensures n == E.COMPLETE || exists k <- KeySet(files) :: Fits(k) && Name(k) == n {
      if n != E.COMPLETE {
        var i :| 0 <= i < |saving.payload| && saving.payload[i].name == n;
        assert files[i] in files && files[i].key in KeySet(files);
      }
    }
  }

  lemma PinSet(cut: SourceCut, limits: Limits)
    requires limits.Valid()
    ensures KeySet(PinFiles(cut, limits)) == PIN_KEYS
  {
    var pins := PinFiles(cut, limits);
    assert pins[0] in pins && pins[1] in pins && pins[2] in pins && pins[3] in pins;
  }

  lemma AllRestore(look: Key -> Option<Frame>, streams: seq<seq<Component>>, t: Transfer)
    requires t.Valid() && t.origin.roots == RootsOf(streams) && Saved(look, StreamsFrom(streams, 0, t))
    requires forall i | 0 <= i < |streams| :: StreamValid(i + 1, streams[i])
    ensures ReadStreams(Reader(look, t), 0, |streams|) == Some(Restored(streams, KeySet(StreamsFrom(streams, 0, t))))
  {
    forall s | 0 <= s < |streams| ensures Restores(Reader(look, t), streams, s, t) {
      SavedStream(look, streams, 0, s, t);
      ReaderRestores(look, streams, s, t);
    }
    StreamsRestore(Reader(look, t), streams, 0, t);
    assert streams[0..] == streams;
  }

  /** The files of a walk after the pins, and how they read back. */
  lemma WalkReads(look: Key -> Option<Frame>, cut: SourceCut, limits: Limits) returns (files: seq<File>)
    requires limits.Valid() && cut.Valid() && Saved(look, Walk(cut, limits))
    ensures Saved(look, PinFiles(cut, limits)) && KeySet(Walk(cut, limits)) == PIN_KEYS + KeySet(files)
    ensures ReadStreams(Reader(look, cut.Under(limits)), 0, |cut.streams|) == Some(Restored(cut.streams, KeySet(files)))
  {
    var pins, t := PinFiles(cut, limits), cut.Under(limits);
    files := StreamsFrom(cut.streams, 0, t);
    SavedParts(look, pins, files);
    KeySetJoin(pins, files);
    PinSet(cut, limits);
    AllRestore(look, cut.streams, t);
  }

  lemma PinsRead(look: Key -> Option<Frame>, cut: SourceCut, limits: Limits)
    requires limits.Valid() && Saved(look, PinFiles(cut, limits))
    ensures look(Pin(0)) == Some(PinFrame(cut.token)) && look(Pin(1)) == Some(PinFrame(cut.identity))
    ensures look(Pin(2)) == Some(PackageFrame(RootsOf(cut.streams))) && look(Pin(3)) == Some(PinFrame(limits.Bytes()))
  {
    var pins := PinFiles(cut, limits);
    assert pins[0] in pins && pins[1] in pins && pins[2] in pins && pins[3] in pins;
  }

  lemma ReadsWhole(saved: map<string, Bytes>, codec: Codec, cut: SourceCut, limits: Limits, keys: set<Key>)
    requires limits.Valid() && |cut.streams| == STREAMS && codec.local(cut.token)
    requires Saved(Looker(saved, codec.decode), PinFiles(cut, limits))
    requires ReadStreams(Reader(Looker(saved, codec.decode), cut.Under(limits)), 0, |cut.streams|)
          == Some(Restored(cut.streams, keys))
    requires InventoryMatches(saved, PIN_KEYS + keys, codec.encode(PackageFrame(RootsOf(cut.streams))))
    ensures ReadArchive(saved, codec) == Some(Restored(cut.streams, PIN_KEYS + keys))
  {
    PinsRead(Looker(saved, codec.decode), cut, limits);
    LimitsRoundTrip(limits);
  }

  /** Faithful serialisation: a reader of the source's domain accepts the archive that a
      completed export leaves, with its settings, inventory and marker, reads exactly the
      files of the walk and restores every stream of the cut exactly, for any page and chunk
      size and any encoder that has a left inverse. */
  lemma ExportReadsBack(cut: SourceCut, limits: Limits, codec: Codec)
    requires limits.Valid() && cut.Valid() && codec.Valid() && codec.local(cut.token)
    ensures ReadArchive(E.Target(ExportOf(cut, limits, codec.encode).Plan()), codec)
         == Some(Restored(cut.streams, KeySet(Walk(cut, limits))))
  {
    var saved := E.Target(ExportOf(cut, limits, codec.encode).Plan());
    WalkKeys(cut, limits);
    WalkIsWellFormed(cut, limits, codec.encode);
    TargetAnswers(Walk(cut, limits), codec, codec.encode(PackageFrame(RootsOf(cut.streams))));
    var files := WalkReads(Looker(saved, codec.decode), cut, limits);
    ReadsWhole(saved, codec, cut, limits, KeySet(files));
  }

  // ---- what the reader accepts at all ----------------------------------------------------------

  ghost predicate LengthsHold(components: seq<Component>) {
    forall x <- components :: |x.bytes| == x.descriptor.length
  }

  lemma {:induction false} ChunksAreComplete(
    look: Key -> Option<Frame>, c: nat, i: nat, d: Descriptor, offset: nat, t: Transfer)
    requires t.Valid() && offset <= d.length && ReadChunks(look, c, i, d, offset, t).Some?
    ensures |ReadChunks(look, c, i, d, offset, t).value.value| == d.length - offset
    decreases d.length - offset
  {
    if offset < d.length {
      ChunksAreComplete(look, c, i, d, offset + Min(t.limits.chunkBytes, d.length - offset), t);
    }
  }

  lemma {:induction false} ComponentsAreListed(
    look: Key -> Option<Frame>, c: nat, i: nat, descriptors: seq<Descriptor>, t: Transfer)
    requires t.Valid() && ReadComponents(look, c, i, descriptors, t).Some?
    ensures var read := ReadComponents(look, c, i, descriptors, t).value.value;
            Descriptors(read) == descriptors && LengthsHold(read)
    decreases |descriptors|
  {
    if descriptors != [] {
      ChunksAreComplete(look, c, i, descriptors[0], 0, t);
      ComponentsAreListed(look, c, i + 1, descriptors[1..], t);
    }
  }

  lemma DescriptorsOfJoin(a: seq<Component>, b: seq<Component>)
    ensures Descriptors(a + b) == Descriptors(a) + Descriptors(b)
  {
  }

  lemma Associates(a: Accumulator, b: Accumulator, c: Accumulator)
    ensures a + (b + c) == a + b + c
  {
  }

  lemma LengthsJoin(a: seq<Component>, b: seq<Component>)
    requires LengthsHold(a) && LengthsHold(b)
    ensures LengthsHold(a + b)
  {
  }

  lemma CommittedStep(
    folded: Accumulator, descriptors: seq<Descriptor>, listed: seq<Component>, rest: seq<Component>, root: Root)
    requires Descriptors(listed) == descriptors && LengthsHold(listed) && LengthsHold(rest)
    requires folded + descriptors + Descriptors(rest) == root.root
    ensures folded + Descriptors(listed + rest) == root.root && LengthsHold(listed + rest)
  {
    DescriptorsOfJoin(listed, rest);
    Associates(folded, descriptors, Descriptors(rest));
    LengthsJoin(listed, rest);
  }

  lemma {:induction false} StreamIsCommitted(
    look: Key -> Option<Frame>, c: nat, page: nat, folded: Accumulator, root: Root, t: Transfer)
    requires t.Valid() && ReadStream(look, c, page, folded, root, t).Some?
    ensures var read := ReadStream(look, c, page, folded, root, t).value.value;
            folded + Descriptors(read) == root.root && |root.root| == root.count && LengthsHold(read)
    decreases U64_MAX + 1 - page
  {
    var frame := look(Page(c, page)).value;
    ComponentsAreListed(look, c, |folded|, frame.descriptors, t);
    if !frame.terminal {
      StreamIsCommitted(look, c, page + 1, frame.accumulator, root, t);
      CommittedStep(
        folded, frame.descriptors, ReadComponents(look, c, |folded|, frame.descriptors, t).value.value,
        ReadStream(look, c, page + 1, frame.accumulator, root, t).value.value, root);
    }
  }

  /** This stream is what its root commits to, with bodies of the stated lengths. */
  ghost predicate Committed(stream: seq<Component>, root: Root) {
    RootOf(stream) == root && LengthsHold(stream)
  }

  lemma ReaderIsCommitted(look: Key -> Option<Frame>, t: Transfer, s: nat)
    requires t.Valid() && s < |t.origin.roots| && Reader(look, t)(s).Some?
    ensures Committed(Reader(look, t)(s).value.value, t.origin.roots[s])
  {
    StreamIsCommitted(look, s + 1, 0, [], t.origin.roots[s], t);
    var stream := Reader(look, t)(s).value.value;
    assert [] + Descriptors(stream) == Descriptors(stream);
  }

  lemma {:induction false} StreamsAreCommitted(read: StreamReader, roots: seq<Root>, s: nat)
    requires s <= |roots| && ReadStreams(read, s, |roots|).Some?
    requires forall i: nat | i < |roots| && read(i).Some? :: Committed(read(i).value.value, roots[i])
    ensures var streams := ReadStreams(read, s, |roots|).value.value;
            RootsOf(streams) == roots[s..] && forall x <- streams :: LengthsHold(x)
    decreases |roots| - s
  {
    if s < |roots| {
      StreamsAreCommitted(read, roots, s + 1);
      var rest := ReadStreams(read, s + 1, |roots|).value.value;
      assert ([read(s).value.value] + rest)[1..] == rest;
      assert roots[s..] == [roots[s]] + roots[s + 1..];
    }
  }

  /** Whatever an archive holds, a reader that accepts it returns components whose descriptors
      are exactly those its package commits to, stream by stream, with bodies of the stated
      lengths; the source token is of its domain; and the archive holds exactly the files
      that were read and the marker. */
  lemma AcceptedIsCommitted(saved: map<string, Bytes>, codec: Codec)
    requires ReadArchive(saved, codec).Some?
    ensures var read := ReadArchive(saved, codec).value;
            && |read.value| == STREAMS && (forall x <- read.value :: LengthsHold(x))
            && Lookup(saved, codec.decode, Pin(2)) == Some(PackageFrame(RootsOf(read.value)))
            && InventoryMatches(saved, read.keys, codec.encode(PackageFrame(RootsOf(read.value))))
            && exists token :: Lookup(saved, codec.decode, Pin(0)) == Some(PinFrame(token)) && codec.local(token)
  {
    var look := Looker(saved, codec.decode);
    var identity, roots := look(Pin(1)).value.bytes, look(Pin(2)).value.roots;
    var t := Transfer(ParseLimits(look(Pin(3)).value.bytes).value, Origin(identity, roots));
    forall s: nat | s < |roots| && Reader(look, t)(s).Some?
      ensures Committed(Reader(look, t)(s).value.value, roots[s])
    {
      ReaderIsCommitted(look, t, s);
    }
    StreamsAreCommitted(Reader(look, t), roots, 0);
    assert roots[0..] == roots;
    assert codec.local(look(Pin(0)).value.bytes);
  }

  // ---- one export run, end to end --------------------------------------------------------------------

  /** The encoded artifacts of walked files. */
  method EncodeFiles(files: seq<File>, encode: Frame -> Bytes) returns (artifacts: seq<E.Artifact>)
    requires forall f <- files :: Fits(f.key)
    ensures artifacts == Artifacts(files, encode)
  {
    artifacts := [];
    for i := 0 to |files|
      invariant |artifacts| == i
      invariant forall k | 0 <= k < i :: artifacts[k] == E.Artifact(Name(files[k].key), encode(files[k].frame))
    {
      artifacts := artifacts + [E.Artifact(Name(files[i].key), encode(files[i].frame))];
    }
  }

  /** One export run of a source cut: walk it, encode it, save what is missing within the
      budget. A run that reports completion leaves an archive that the reader accepts and
      restores to exactly the streams of the source. */
  method ExportSourceCut(
    archive: A.ImmutableArchive, source: SourceCut, limits: Limits, codec: Codec, budget: nat, sourceUnchanged: bool)
    returns (r: Result<E.Progress, E.CutError>)
    requires limits.Valid() && source.Valid() && archive.Valid() && archive.disk.dirtyRoot == {}
    requires codec.Valid() && codec.local(source.token)
    modifies archive`disk, archive`trace, archive`nextTemporary
    ensures archive.Valid()
    ensures r.Ok? ==>
              var plan := ExportOf(source, limits, codec.encode).Plan();
              D.Files(archive.disk) == E.Fill(plan, D.Files(old(archive.disk)), budget)
    ensures r.Ok? && r.value.complete ==>
              ReadArchive(D.Files(archive.disk), codec) == Some(Restored(source.streams, KeySet(Walk(source, limits))))
  {
    var walked := VisitCutFiles(source, limits);
    match walked
    case Err(_) => return Err(E.SourceChanged);
    case Ok(files) =>
      WalkKeys(source, limits);
      var payload := EncodeFiles(files, codec.encode);
      var cut := E.Cut(payload, codec.encode(PackageFrame(RootsOf(source.streams))));
      assert cut == ExportOf(source, limits, codec.encode);
      WalkIsWellFormed(source, limits, codec.encode);
      r := E.PublishSourceCut(archive, cut, budget, sourceUnchanged);
      ExportReadsBack(source, limits, codec);
  }
}
