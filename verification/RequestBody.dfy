/** Creating body storages and the per-request storage cache (common/body_storage.go,
    common/gin.go). Disk failures are parameters. */
module RequestBody {
  import opened Common
  import opened BodyStorage

  /** The BodyStorage interface over its two implementations. */
  datatype Storage = Memory(m: MemoryStorage) | Disk(d: DiskStorage)

  datatype Created = Ok(storage: Storage) | TooLarge | DiskFailed

  ghost function Footprint(s: Storage): set<object> {
    match s
    case Memory(m) => {m}
    case Disk(d) => {d, d.file}
  }

  function StatsOf(s: Storage): CacheStats {
    match s
    case Memory(m) => m.stats
    case Disk(d) => d.stats
  }

  function BackendOf(s: Storage): Backend {
    if s.Memory? then ByteReader else FileReader
  }

  ghost predicate Live(s: Storage)
    reads Footprint(s), StatsOf(s)
  {
    match s
    case Memory(m) => m.Valid()
    case Disk(d) => d.Valid()
  }

  ghost function View(s: Storage): Body
    reads Footprint(s)
  {
    match s
    case Memory(m) => m.View()
    case Disk(d) => d.View()
  }

  /** Of the storages open before, only this one can have left, and it has if it is closed. */
  ghost predicate OpenNow(s: Storage, memory: set<MemoryStorage>, disk: set<DiskStorage>)
    reads Footprint(s), StatsOf(s)
  {
    var stats := StatsOf(s);
    stats.openMemory == (if s.Memory? && View(s).closed then memory - {s.m} else memory)
    && stats.openDisk == (if s.Disk? && View(s).closed then disk - {s.d} else disk)
  }

  /** One call through the interface. */
  method Perform(s: Storage, op: Op) returns (out: Out)
    requires Live(s) && StatsOf(s).Valid()
    modifies Footprint(s), StatsOf(s)
    ensures Live(s) && StatsOf(s).Valid() && (View(s), out) == Do(BackendOf(s), old(View(s)), op)
    ensures OpenNow(s, old(StatsOf(s).openMemory), old(StatsOf(s).openDisk))
    ensures StatsOf(s).diskBytes <= old(StatsOf(s).diskBytes)
  {
    match s
    case Memory(m) =>
      match op {
        case Read(n) => var r := m.Read(n); out := ReadResult(r);
        case Seek(offset, whence) => var r := m.Seek(offset, whence); out := SeekResult(r);
        case Bytes => var r := m.Bytes(); out := BytesResult(r);
        case Close => m.Close(); out := ClosedResult;
      }
    case Disk(d) =>
      match op {
        case Read(n) => var r := d.Read(n); out := ReadResult(r);
        case Seek(offset, whence) => var r := d.Seek(offset, whence); out := SeekResult(r);
        case Bytes => var r := d.Bytes(); out := BytesResult(r);
        case Close => d.Close(); out := ClosedResult;
      }
  }

  /** What a sequence of calls answers, and the state it leaves. */
  function DoAll(k: Backend, b: Body, ops: seq<Op>): (Body, seq<Out>) {
    if ops == [] then (b, [])
    else
      var before := DoAll(k, b, ops[..|ops| - 1]);
      var last := Do(k, before.0, ops[|ops| - 1]);
      (last.0, before.1 + [last.1])
  }

  lemma DoAllOneMore(k: Backend, b: Body, ops: seq<Op>, i: nat)
    requires i < |ops|
    ensures var before := DoAll(k, b, ops[..i]); var last := Do(k, before.0, ops[i]);
            DoAll(k, b, ops[..i + 1]) == (last.0, before.1 + [last.1])
  {
    assert ops[..i + 1][..i] == ops[..i];
  }

  /** No call of the sequence meets a state in which the backends differ. */
  predicate AlikeRun(b: Body, ops: seq<Op>) {
    ops == []
    || (AlikeRun(b, ops[..|ops| - 1]) && Alike(DoAll(ByteReader, b, ops[..|ops| - 1]).0, ops[|ops| - 1]))
  }

  /** Over a whole sequence of calls the two backends give the same answers if and only if no call
      is an empty read at the end or a SEEK_DATA or SEEK_HOLE inside the body. */
  lemma {:induction false} AlikeRunExactly(b: Body, ops: seq<Op>)
    ensures DoAll(ByteReader, b, ops).1 == DoAll(FileReader, b, ops).1 <==> AlikeRun(b, ops)
    ensures AlikeRun(b, ops) ==> DoAll(ByteReader, b, ops) == DoAll(FileReader, b, ops)
  {
    if ops != [] {
      var front, last := ops[..|ops| - 1], ops[|ops| - 1];
      AlikeRunExactly(b, front);
      var m, d := DoAll(ByteReader, b, front), DoAll(FileReader, b, front);
      AnswersSplit(m.1, d.1, Do(ByteReader, m.0, last).1, Do(FileReader, d.0, last).1);
      if AlikeRun(b, front) { AlikeExactly(m.0, last); }
    }
  }

  lemma AnswersSplit(a: seq<Out>, b: seq<Out>, x: Out, y: Out)
    ensures a + [x] == b + [y] <==> a == b && x == y
  {
    if a + [x] == b + [y] {
      assert (a + [x])[..|a|] == a && (b + [y])[..|b|] == b;
      assert (a + [x])[|a|] == x && (b + [y])[|b|] == y;
    }
  }

  method PerformAll(s: Storage, ops: seq<Op>) returns (outs: seq<Out>)
    requires Live(s) && StatsOf(s).Valid()
    modifies Footprint(s), StatsOf(s)
    ensures Live(s) && StatsOf(s).Valid() && (View(s), outs) == DoAll(BackendOf(s), old(View(s)), ops)
    ensures OpenNow(s, old(StatsOf(s).openMemory), old(StatsOf(s).openDisk))
  {
    outs := [];
    ghost var start, b := View(s), View(s);
    for i := 0 to |ops|
      invariant Live(s) && StatsOf(s).Valid() && View(s) == b && (b, outs) == DoAll(BackendOf(s), start, ops[..i])
      invariant OpenNow(s, old(StatsOf(s).openMemory), old(StatsOf(s).openDisk))
    {
      DoAllOneMore(BackendOf(s), start, ops, i);
      var out := PerformNext(s, ops[i], old(StatsOf(s).openMemory), old(StatsOf(s).openDisk));
      outs := outs + [out];
      b := View(s);
    }
    assert ops[..|ops|] == ops;
  }

  method PerformNext(s: Storage, op: Op, ghost memory: set<MemoryStorage>, ghost disk: set<DiskStorage>) returns (out: Out)
    requires Live(s) && StatsOf(s).Valid() && OpenNow(s, memory, disk)
    modifies Footprint(s), StatsOf(s)
    ensures Live(s) && StatsOf(s).Valid() && (View(s), out) == Do(BackendOf(s), old(View(s)), op)
    ensures OpenNow(s, memory, disk)
  {
    out := Perform(s, op);
  }

  /** A memory and a disk storage of the same body cannot be told apart by a sequence of calls
      exactly when AlikeRun holds of it. */
  method Compare(m: MemoryStorage, d: DiskStorage, ops: seq<Op>) returns (fromMemory: seq<Out>, fromDisk: seq<Out>)
    requires m.Valid() && d.Valid() && m.stats == d.stats && m.stats.Valid() && m.View() == d.View()
    modifies m, d, d.file, m.stats
    ensures fromMemory == fromDisk <==> AlikeRun(old(m.View()), ops)
    ensures fromMemory == fromDisk ==> m.View() == d.View()
  {
    AlikeRunExactly(m.View(), ops);
    fromMemory := PerformAll(Memory(m), ops);
    fromDisk := PerformAll(Disk(d), ops);
  }

  // ----- creation -----

  /** What creation adds to the open storages: the created one and no other. */
  ghost predicate Added(stats: CacheStats, r: Created, memory: set<MemoryStorage>, disk: set<DiskStorage>)
    reads stats
  {
    stats.openMemory == (if r.Ok? && r.storage.Memory? then memory + {r.storage.m} else memory)
    && stats.openDisk == (if r.Ok? && r.storage.Disk? then disk + {r.storage.d} else disk)
  }

  /** CreateBodyStorage: a disk failure falls back to memory. */
  method CreateBodyStorage(stats: CacheStats, data: seq<byte>, diskOk: bool) returns (s: Storage)
    requires stats.Valid()
    modifies stats
    ensures stats.Valid() && StatsOf(s) == stats && Live(s) && View(s) == Body(data, 0, false)
    ensures fresh(Footprint(s)) && Added(stats, Ok(s), old(stats.openMemory), old(stats.openDisk))
    ensures s.Disk? <==> diskOk && old(MovedToDisk(stats, |data|))
    ensures stats.diskBytes == old(stats.diskBytes) + if s.Disk? then |data| else 0
  {
    var size := |data|;
    if stats.enabled && size >= stats.threshold && stats.IsAvailable(size) {
      if !diskOk {
        var m := new MemoryStorage(stats, data);
        return Memory(m);
      }
      var d := new DiskStorage(stats, data);
      return Disk(d);
    }
    var m := new MemoryStorage(stats, data);
    return Memory(m);
  }

  /** The bytes a reader limited to one more than maxBytes delivers. */
  function Limited(stream: seq<byte>, maxBytes: nat): seq<byte> {
    if |stream| > maxBytes + 1 then stream[..maxBytes + 1] else stream
  }

  /** A body declared this long is written to disk while it is read. */
  predicate WrittenDirectly(stats: CacheStats, contentLength: int)
    reads stats
  {
    stats.enabled && contentLength > 0 && contentLength >= stats.threshold
    && stats.diskBytes + contentLength <= stats.maxBytes
  }

  /** A body found this long is moved to disk. */
  predicate MovedToDisk(stats: CacheStats, size: int)
    reads stats
  {
    stats.enabled && size >= stats.threshold && stats.diskBytes + size <= stats.maxBytes
  }

  /** CreateBodyStorageFromReader: a stream is accepted, with exactly its bytes, if and only if it
      is no longer than maxBytes; it goes to disk exactly as its declared and its real length say;
      only a disk failure while reading is an error. Usage stays within the configured maximum as
      long as the body is no longer than declared. */
  method CreateFromReader(stats: CacheStats, stream: seq<byte>, contentLength: int, maxBytes: nat, diskOk: bool)
    returns (r: Created)
    requires stats.Valid()
    modifies stats
    ensures stats.Valid() && Added(stats, r, old(stats.openMemory), old(stats.openDisk))
    ensures r.DiskFailed? <==> old(WrittenDirectly(stats, contentLength)) && !diskOk
    ensures r.TooLarge? <==> !r.DiskFailed? && |stream| > maxBytes
    ensures r.Ok? ==> |stream| <= maxBytes && StatsOf(r.storage) == stats && Live(r.storage)
                      && View(r.storage) == Body(stream, 0, false) && fresh(Footprint(r.storage))
    ensures r.Ok? ==> (r.storage.Disk? <==> old(WrittenDirectly(stats, contentLength))
                                            || (diskOk && old(MovedToDisk(stats, |stream|))))
    ensures stats.diskBytes == old(stats.diskBytes) + if r.Ok? && r.storage.Disk? then |stream| else 0
    ensures old(stats.diskBytes) <= stats.maxBytes && |stream| <= contentLength ==> stats.diskBytes <= stats.maxBytes
  {
    if stats.enabled && contentLength > 0 && contentLength >= stats.threshold && stats.IsAvailable(contentLength) {
      if !diskOk { return DiskFailed; }
      var written := Limited(stream, maxBytes);
      if |written| > maxBytes { return TooLarge; }
      var d := new DiskStorage(stats, written);
      return Ok(Disk(d));
    }
    var data := Limited(stream, maxBytes);
    if |data| > maxBytes { return TooLarge; }
    var s := CreateBodyStorage(stats, data, diskOk);
    return Ok(s);
  }

  // ----- the storage cached in the request context -----

  /** The request body of net/http: reading or closing it is what the first fetch does, and a
      closed body fails to read. A request without a body keeps answering the end of the body. */
  datatype Incoming = NoBody | Unread(stream: seq<byte>) | ClosedBody

  class Context {
    const stats: CacheStats
    const contentLength: int
    const maxRequestBodyMB: int
    var requestBody: Incoming
    var legacyBody: Option<seq<byte>>
    var cached: Option<Storage>

    /** A cached storage is a live object of this request. */
    ghost predicate Valid()
      reads this, stats, if cached.Some? then Footprint(cached.value) else {}
    {
      stats.Valid()
      && (cached.Some? ==> StatsOf(cached.value) == stats && Live(cached.value)
                           && this !in Footprint(cached.value) && stats !in Footprint(cached.value))
    }

    ghost function Objects(): set<object>
      reads this
    {
      {this, stats} + if cached.Some? then Footprint(cached.value) else {}
    }

    constructor (stats: CacheStats, body: Incoming, contentLength: int, maxRequestBodyMB: int)
      requires stats.Valid()
      ensures Valid() && cached == None && legacyBody == None && requestBody == body && this.stats == stats
    {
      this.stats, this.contentLength, this.maxRequestBodyMB := stats, contentLength, maxRequestBodyMB;
      requestBody, legacyBody, cached := body, None, None;
    }

    /** The configured limit, or 128 MB. */
    function MaxBytes(): (n: nat)
      ensures if maxRequestBodyMB >= 1 then n == maxRequestBodyMB * 1024 * 1024 else n == 134217728
    {
      (if maxRequestBodyMB <= 0 then 128 else maxRequestBodyMB) * 0x10_0000
    }

    /** What the next fetch has to hand out, from the first cache level that answers. */
    ghost function Expected(): Option<seq<byte>>
      reads this, if cached.Some? then Footprint(cached.value) else {}
    {
      if cached.Some? then Some(View(cached.value).content)
      else if legacyBody.Some? then legacyBody
      else match requestBody
        case NoBody => Some([])
        case Unread(stream) => Some(stream)
        case ClosedBody => None
    }

    /** The request body after this fetch. */
    function Consumed(): Incoming
      reads this
    {
      if cached.None? && legacyBody.None? && requestBody.Unread? then ClosedBody else requestBody
    }

    /** A first fetch can answer: a body kept earlier, no body, or one not yet read and within the
        size limit. */
    predicate Fetchable()
      reads this
    {
      legacyBody.Some? || requestBody.NoBody? || (requestBody.Unread? && |requestBody.stream| <= MaxBytes())
    }

    /** The body is still to be read, and is written to disk while it is. */
    predicate StreamsToDisk()
      reads this, stats
    {
      legacyBody.None? && !requestBody.ClosedBody? && WrittenDirectly(stats, contentLength)
    }

    /** GetRequestBody: the cached storage rewound, or a new one. None is the error return. */
    method GetBodyStorage(diskOk: bool) returns (s: Option<Storage>)
      requires Valid()
      modifies Objects()
      ensures Valid() && cached == (if s.Some? then s else old(cached))
      ensures legacyBody == old(legacyBody) && requestBody == old(Consumed())
      ensures s.Some? ==> old(Expected()).Some? && View(s.value) == Body(old(Expected()).value, 0, false)
      ensures old(cached).Some? ==> (s.Some? ==> s == old(cached)) && (s.Some? <==> !old(View(cached.value).closed))
      ensures old(cached).None? ==>
                (s.Some? <==> old(Fetchable()) && (diskOk || !old(StreamsToDisk())))
                && (s.Some? ==> (s.value.Disk? <==> old(StreamsToDisk())
                                                    || (diskOk && old(MovedToDisk(stats, |Expected().value|)))))
                && stats.diskBytes == old(stats.diskBytes) + if s.Some? && s.value.Disk? then |View(s.value).content| else 0
    {
      if cached.Some? {
        s := Rewind();
      } else {
        s := FirstFetch(diskOk);
      }
    }

    method Rewind() returns (s: Option<Storage>)
      requires Valid() && cached.Some?
      modifies Footprint(cached.value), stats
      ensures Valid() && s == if old(View(cached.value).closed) then None else cached
      ensures s.Some? ==> View(s.value) == Body(old(Expected()).value, 0, false)
    {
      var out := Perform(cached.value, Seek(0, 0));
      if out.s.SeekClosed? { return None; }
      return cached;
    }

    method FirstFetch(diskOk: bool) returns (s: Option<Storage>)
      requires Valid() && cached.None?
      modifies this, stats
      ensures Valid() && cached == s
      ensures legacyBody == old(legacyBody) && requestBody == old(Consumed())
      ensures s.Some? ==> old(Expected()).Some? && View(s.value) == Body(old(Expected()).value, 0, false)
                          && fresh(Footprint(s.value))
      ensures s.Some? <==> old(Fetchable()) && (diskOk || !old(StreamsToDisk()))
      ensures s.Some? ==> (s.value.Disk? <==> old(StreamsToDisk())
                                              || (diskOk && old(MovedToDisk(stats, |Expected().value|))))
      ensures stats.diskBytes == old(stats.diskBytes) + if s.Some? && s.value.Disk? then |View(s.value).content| else 0
    {
      if legacyBody.Some? {
        s := FromLegacy(diskOk);
      } else if requestBody.ClosedBody? {
        s := None;
      } else {
        s := FromRequest(diskOk);
      }
    }

    method FromLegacy(diskOk: bool) returns (s: Option<Storage>)
      requires Valid() && cached.None? && legacyBody.Some?
      modifies this`cached, stats
      ensures Valid() && s.Some? && cached == s
      ensures View(s.value) == Body(legacyBody.value, 0, false) && fresh(Footprint(s.value))
      ensures s.value.Disk? <==> diskOk && old(MovedToDisk(stats, |legacyBody.value|))
      ensures stats.diskBytes == old(stats.diskBytes) + if s.value.Disk? then |legacyBody.value| else 0
    {
      var created := CreateBodyStorage(stats, legacyBody.value, diskOk);
      SetCached(created);
      return Some(created);
    }

    method FromRequest(diskOk: bool) returns (s: Option<Storage>)
      requires Valid() && cached.None? && !requestBody.ClosedBody?
      modifies this`cached, this`requestBody, stats
      ensures Valid() && cached == s && requestBody == if old(requestBody).Unread? then ClosedBody else old(requestBody)
      ensures var body := if old(requestBody).Unread? then old(requestBody).stream else [];
              (s.Some? <==> |body| <= MaxBytes() && (diskOk || !old(WrittenDirectly(stats, contentLength))))
              && (s.Some? ==> View(s.value) == Body(body, 0, false) && fresh(Footprint(s.value)))
              && (s.Some? ==> (s.value.Disk? <==> old(WrittenDirectly(stats, contentLength))
                                                  || (diskOk && old(MovedToDisk(stats, |body|)))))
              && stats.diskBytes == old(stats.diskBytes) + if s.Some? && s.value.Disk? then |body| else 0
    {
      var body := if requestBody.Unread? then requestBody.stream else [];
      if requestBody.Unread? { requestBody := ClosedBody; }
      var r := CreateFromReader(stats, body, contentLength, MaxBytes(), diskOk);
      if !r.Ok? { return None; }
      SetCached(r.storage);
      return Some(r.storage);
    }

    method SetCached(s: Storage)
      requires stats.Valid() && StatsOf(s) == stats && Live(s)
      requires this !in Footprint(s) && stats !in Footprint(s)
      modifies this`cached
      ensures Valid() && cached == Some(s) && View(s) == old(View(s))
    {
      cached := Some(s);
    }

    /** CleanupBodyStorage. */
    method Cleanup()
      requires Valid()
      modifies Objects()
      ensures Valid() && cached == None
      ensures old(cached).Some? ==> View(old(cached).value).closed
    {
      if cached.Some? {
        var out := Perform(cached.value, Close);
        cached := None;
      }
    }

    /** One attempt: the storage rewound, then the attempt's own calls. */
    method Attempt(ops: seq<Op>) returns (answers: seq<Out>)
      requires Valid() && cached.Some? && !View(cached.value).closed
      requires forall j :: 0 <= j < |ops| ==> !ops[j].Close?
      modifies Objects()
      ensures Valid() && cached == old(cached) && Objects() == old(Objects())
      ensures View(cached.value).content == old(View(cached.value).content) && !View(cached.value).closed
      ensures answers == DoAll(BackendOf(cached.value), Body(old(View(cached.value).content), 0, false), ops).1
    {
      var s := GetBodyStorage(true);
      StaysOpen(BackendOf(s.value), View(s.value), ops);
      answers := PerformAll(s.value, ops);
    }

    /** Between first fetch and cleanup every attempt sees the whole body from offset 0, whatever
        the attempts before it read, sought or fetched. */
    method Attempts(calls: seq<seq<Op>>) returns (outs: seq<seq<Out>>)
      requires Valid() && cached.Some? && !View(cached.value).closed
      requires forall i, j :: 0 <= i < |calls| && 0 <= j < |calls[i]| ==> !calls[i][j].Close?
      modifies Objects()
      ensures Valid() && |outs| == |calls|
      ensures forall i :: 0 <= i < |outs| ==> outs[i] == DoAll(BackendOf(old(cached).value), Body(old(View(cached.value).content), 0, false), calls[i]).1
    {
      outs := [];
      ghost var content := View(cached.value).content;
      ghost var storage := cached;
      for i := 0 to |calls|
        invariant Valid() && cached == storage && |outs| == i
        invariant View(cached.value).content == content && !View(cached.value).closed
        invariant forall k :: 0 <= k < i ==> outs[k] == DoAll(BackendOf(storage.value), Body(content, 0, false), calls[k]).1
      {
        var answers := Attempt(calls[i]);
        outs := outs + [answers];
      }
    }
  }

  lemma {:induction false} StaysOpen(k: Backend, b: Body, ops: seq<Op>)
    requires forall i :: 0 <= i < |ops| ==> !ops[i].Close?
    ensures DoAll(k, b, ops).0.content == b.content && DoAll(k, b, ops).0.closed == b.closed
  {
    if ops != [] { StaysOpen(k, b, ops[..|ops| - 1]); }
  }

  // ----- accounting over whole runs -----

  datatype Event =
    /** A request body arrives. */
    | Receive(stream: seq<byte>, declared: int, maxBytes: nat, diskOk: bool)
    /** Any call on any storage created so far; a closed storage may be closed again. */
    | CallMemory(index: nat, op: Op)
    | CallDisk(index: nat, op: Op)

  /** A memory storage of the run: open exactly while it is in the open set. */
  ghost predicate MemoryEntry(stats: CacheStats, m: MemoryStorage, open: set<MemoryStorage>)
    reads m
  {
    m.stats == stats && m.size == |m.data| && (m.closed <==> m !in open)
  }

  /** The memory storages in the open set are exactly those of the run that are not closed. */
  ghost predicate MemoryBooks(stats: CacheStats, mems: seq<MemoryStorage>, open: set<MemoryStorage>)
    reads mems
  {
    (forall m :: m in mems ==> MemoryEntry(stats, m, open)) && forall m :: m in open ==> m in mems
  }

  ghost function Files(disks: seq<DiskStorage>): set<OsFile> {
    set d | d in disks :: d.file
  }

  ghost predicate OwnFiles(disks: seq<DiskStorage>) {
    forall d, e :: d in disks && e in disks && d != e ==> d.file != e.file
  }

  ghost predicate DiskEntry(stats: CacheStats, d: DiskStorage, open: set<DiskStorage>)
    reads d, d.file
  {
    d.stats == stats && d.size == |d.file.content| && (d.closed <==> d !in open) && (!d.closed ==> d.file.open)
  }

  ghost predicate DiskBooks(stats: CacheStats, disks: seq<DiskStorage>, open: set<DiskStorage>)
    reads disks, Files(disks)
  {
    (forall d :: d in disks ==> DiskEntry(stats, d, open)) && (forall d :: d in open ==> d in disks) && OwnFiles(disks)
  }

  method OnMemory(stats: CacheStats, mems: seq<MemoryStorage>, index: nat, op: Op)
    requires index < |mems| && MemoryBooks(stats, mems, stats.openMemory) && stats.Valid()
    modifies mems[index], stats
    ensures MemoryBooks(stats, mems, stats.openMemory) && stats.Valid()
    ensures stats.openDisk == old(stats.openDisk) && stats.diskBytes <= old(stats.diskBytes)
  {
    ghost var me := mems[index];
    assert MemoryEntry(stats, me, stats.openMemory);
    var out := Perform(Memory(mems[index]), op);
    forall m | m in mems && m != me ensures MemoryEntry(stats, m, stats.openMemory) {
      assert old(MemoryEntry(stats, m, stats.openMemory));
    }
  }

  method OnDisk(stats: CacheStats, disks: seq<DiskStorage>, index: nat, op: Op)
    requires index < |disks| && DiskBooks(stats, disks, stats.openDisk) && stats.Valid()
    modifies disks[index], disks[index].file, stats
    ensures DiskBooks(stats, disks, stats.openDisk) && stats.Valid()
    ensures stats.openMemory == old(stats.openMemory) && stats.diskBytes <= old(stats.diskBytes)
  {
    ghost var me := disks[index];
    assert DiskEntry(stats, me, stats.openDisk);
    var out := Perform(Disk(disks[index]), op);
    forall d | d in disks && d != me ensures DiskEntry(stats, d, stats.openDisk) {
      assert old(DiskEntry(stats, d, stats.openDisk)) && d.file != me.file;
    }
  }

  lemma MemoryAdded(stats: CacheStats, mems: seq<MemoryStorage>, open: set<MemoryStorage>, m: MemoryStorage)
    requires MemoryBooks(stats, mems, open) && MemoryEntry(stats, m, open + {m})
    ensures MemoryBooks(stats, mems + [m], open + {m})
  {
    forall x | x in mems && x != m ensures MemoryEntry(stats, x, open + {m}) {
      assert MemoryEntry(stats, x, open);
    }
  }

  lemma DiskAdded(stats: CacheStats, disks: seq<DiskStorage>, open: set<DiskStorage>, d: DiskStorage)
    requires DiskBooks(stats, disks, open) && DiskEntry(stats, d, open + {d})
    requires forall e :: e in disks ==> e.file != d.file
    ensures DiskBooks(stats, disks + [d], open + {d})
  {
    forall x | x in disks && x != d ensures DiskEntry(stats, x, open + {d}) {
      assert DiskEntry(stats, x, open);
    }
  }

  /** Creation leaves the books of the storages created before alone. */
  method CreateBeside(stats: CacheStats, mems: seq<MemoryStorage>, disks: seq<DiskStorage>, e: Event) returns (r: Created)
    requires e.Receive? && stats.Valid()
    requires MemoryBooks(stats, mems, stats.openMemory) && DiskBooks(stats, disks, stats.openDisk)
    modifies stats
    ensures stats.Valid() && Added(stats, r, old(stats.openMemory), old(stats.openDisk))
    ensures MemoryBooks(stats, mems, old(stats.openMemory)) && DiskBooks(stats, disks, old(stats.openDisk))
    ensures r.Ok? ==> StatsOf(r.storage) == stats && Live(r.storage) && !View(r.storage).closed && fresh(Footprint(r.storage))
    ensures old(stats.diskBytes) <= stats.maxBytes && |e.stream| <= e.declared ==> stats.diskBytes <= stats.maxBytes
  {
    r := CreateFromReader(stats, e.stream, e.declared, e.maxBytes, e.diskOk);
  }

  method OnReceive(stats: CacheStats, mems: seq<MemoryStorage>, disks: seq<DiskStorage>, e: Event)
    returns (mems': seq<MemoryStorage>, disks': seq<DiskStorage>)
    requires e.Receive? && stats.Valid()
    requires MemoryBooks(stats, mems, stats.openMemory) && DiskBooks(stats, disks, stats.openDisk)
    modifies stats
    ensures MemoryBooks(stats, mems', stats.openMemory) && DiskBooks(stats, disks', stats.openDisk) && stats.Valid()
    ensures forall m :: m in mems' ==> m in mems || fresh(m)
    ensures forall d :: d in disks' ==> d in disks || (fresh(d) && fresh(d.file))
    ensures old(stats.diskBytes) <= stats.maxBytes && |e.stream| <= e.declared ==> stats.diskBytes <= stats.maxBytes
  {
    var r := CreateBeside(stats, mems, disks, e);
    if !r.Ok? { return mems, disks; }
    match r.storage
    case Memory(m) =>
      MemoryAdded(stats, mems, old(stats.openMemory), m);
      return mems + [m], disks;
    case Disk(d) =>
      DiskAdded(stats, disks, old(stats.openDisk), d);
      return mems, disks + [d];
  }

  predicate DeclaredHonestly(e: Event) {
    e.Receive? ==> |e.stream| <= e.declared
  }

  /** In every sequential run, repeated closes included, the counters are the count and byte sum
      of the storages not yet closed, and disk usage stays within the maximum as long as bodies
      are no longer than declared. */
  method Serve(stats: CacheStats, events: seq<Event>) returns (mems: seq<MemoryStorage>, disks: seq<DiskStorage>)
    requires stats.Valid() && stats.openMemory == {} && stats.openDisk == {} && 0 <= stats.maxBytes
    modifies stats
    ensures stats.Valid() && MemoryBooks(stats, mems, stats.openMemory) && DiskBooks(stats, disks, stats.openDisk)
    ensures stats.openMemory == set m | m in mems && !m.closed
    ensures stats.openDisk == set d | d in disks && !d.closed
    ensures (forall i :: 0 <= i < |events| ==> DeclaredHonestly(events[i])) ==> stats.diskBytes <= stats.maxBytes
  {
    mems, disks := [], [];
    for k := 0 to |events|
      invariant stats.Valid() && MemoryBooks(stats, mems, stats.openMemory) && DiskBooks(stats, disks, stats.openDisk)
      invariant (forall m :: m in mems ==> fresh(m)) && (forall d :: d in disks ==> fresh(d) && fresh(d.file))
      invariant (forall i :: 0 <= i < k ==> DeclaredHonestly(events[i])) ==> stats.diskBytes <= stats.maxBytes
    {
      match events[k] {
        case Receive(stream, declared, _, _) =>
          assert DeclaredHonestly(events[k]) ==> |stream| <= declared;
          mems, disks := OnReceive(stats, mems, disks, events[k]);
        case CallMemory(index, op) =>
          if index < |mems| {
            assert mems[index] in mems;
            OnMemory(stats, mems, index, op);
          }
        case CallDisk(index, op) =>
          if index < |disks| {
            assert disks[index] in disks;
            OnDisk(stats, disks, index, op);
          }
      }
    }
  }
}
