/** Request-body storage (common/body_storage.go, common/disk_cache_config.go): a memory and a disk
    backend behind one interface, with shared usage counters. */
module BodyStorage {
  import opened Common

  // ----- what a storage is to its reader -----

  /** The stored bytes, the read position and whether the storage was closed. */
  datatype Body = Body(content: seq<byte>, pos: nat, closed: bool)

  datatype ReadOut = Got(data: seq<byte>) | EndOfBody | ReadClosed

  datatype SeekOut = SoughtTo(pos: nat) | InvalidSeek | SeekClosed

  datatype BytesOut = All(data: seq<byte>) | BytesClosed

  /** bytes.Reader.Read into a buffer of n bytes: at the end even an empty read reports the end. */
  function ReaderRead(content: seq<byte>, pos: nat, n: nat): (nat, ReadOut) {
    if pos >= |content| then (pos, EndOfBody)
    else
      var end := if |content| - pos < n then |content| else pos + n;
      (end, Got(content[pos..end]))
  }

  /** bytes.Reader.Seek: whence is io.SeekStart (0), io.SeekCurrent (1) or io.SeekEnd (2). */
  function ReaderSeek(content: seq<byte>, pos: nat, offset: int, whence: int): (nat, SeekOut) {
    if whence !in {0, 1, 2} then (pos, InvalidSeek)
    else
      var target := (if whence == 0 then 0 else if whence == 1 then pos else |content|) + offset;
      if target < 0 then (pos, InvalidSeek) else (target, SoughtTo(target))
  }

  /** os.File.Read: an empty read returns at once, before the end of the file is looked at. */
  function FileRead(content: seq<byte>, pos: nat, n: nat): (nat, ReadOut) {
    if n == 0 then (pos, Got([]))
    else
      var left := if pos < |content| then content[pos..] else [];
      var data := if |left| < n then left else left[..n];
      (pos + |data|, if data == [] then EndOfBody else Got(data))
  }

  /** os.File.Seek on Linux: also SEEK_DATA (3) and SEEK_HOLE (4), on a file without holes. */
  function FileSeek(content: seq<byte>, pos: nat, offset: int, whence: int): (nat, SeekOut) {
    var target := match whence
      case 0 => offset
      case 1 => pos + offset
      case 2 => |content| + offset
      case 3 => if offset < |content| then offset else -1
      case 4 => if 0 <= offset < |content| then |content| else -1
      case _ => -1;
    if target < 0 then (pos, InvalidSeek) else (target, SoughtTo(target))
  }

  datatype Op = Read(n: nat) | Seek(offset: int, whence: int) | Bytes | Close

  datatype Out = ReadResult(r: ReadOut) | SeekResult(s: SeekOut) | BytesResult(b: BytesOut) | ClosedResult

  datatype Backend = ByteReader | FileReader

  /** The behaviour of each backend. */
  function Do(backend: Backend, b: Body, op: Op): (Body, Out) {
    match op
    case Read(n) =>
      if b.closed then (b, ReadResult(ReadClosed))
      else
        var r := if backend.ByteReader? then ReaderRead(b.content, b.pos, n) else FileRead(b.content, b.pos, n);
        (b.(pos := r.0), ReadResult(r.1))
    case Seek(offset, whence) =>
      if b.closed then (b, SeekResult(SeekClosed))
      else
        var r := if backend.ByteReader? then ReaderSeek(b.content, b.pos, offset, whence)
                 else FileSeek(b.content, b.pos, offset, whence);
        (b.(pos := r.0), SeekResult(r.1))
    case Bytes => (b, BytesResult(if b.closed then BytesClosed else All(b.content)))
    case Close => (b.(closed := true), ClosedResult)
  }

  /** The call is none of the two kinds the backends answer differently: an empty read at or past
      the end, and a seek by SEEK_DATA or SEEK_HOLE inside the body. */
  predicate Alike(b: Body, op: Op) {
    b.closed
    || match op
       case Read(n) => n > 0 || b.pos < |b.content|
       case Seek(offset, whence) => whence !in {3, 4} || !(0 <= offset < |b.content|)
       case _ => true
  }

  lemma AlikeExactly(b: Body, op: Op)
    ensures Do(ByteReader, b, op).1 == Do(FileReader, b, op).1 <==> Alike(b, op)
    ensures Alike(b, op) ==> Do(ByteReader, b, op) == Do(FileReader, b, op)
  {
    match op
    case Read(n) => ReadsAlike(b.content, b.pos, n);
    case Seek(offset, whence) => SeeksAlike(b.content, b.pos, offset, whence);
    case _ =>
  }

  lemma ReadsAlike(content: seq<byte>, pos: nat, n: nat)
    ensures ReaderRead(content, pos, n).1 == FileRead(content, pos, n).1 <==> n > 0 || pos < |content|
    ensures n > 0 || pos < |content| ==> ReaderRead(content, pos, n) == FileRead(content, pos, n)
  {
    if n > 0 && pos < |content| {
      var left := content[pos..];
      assert left[..|left|] == left;
      var end := if |content| - pos < n then |content| else pos + n;
      assert content[pos..end] == left[..end - pos];
    }
  }

  lemma SeeksAlike(content: seq<byte>, pos: nat, offset: int, whence: int)
    ensures var m, d := ReaderSeek(content, pos, offset, whence), FileSeek(content, pos, offset, whence);
            if whence in {3, 4} && 0 <= offset < |content| then m.1 != d.1 else m == d
  {
  }

  // ----- the shared counters -----

  class CacheStats {
    var diskFiles: int
    var diskBytes: int
    var memoryBuffers: int
    var memoryBytes: int
    const enabled: bool
    const threshold: int
    const maxBytes: int
    ghost var openMemory: set<MemoryStorage>
    ghost var openDisk: set<DiskStorage>

    /** The counters are the count and byte sum of the storages that are still open. */
    ghost predicate Valid()
      reads this
    {
      memoryBuffers == |openMemory| && memoryBytes == MemorySize(openMemory)
      && diskFiles == |openDisk| && diskBytes == DiskSize(openDisk)
    }

    constructor (enabled: bool, thresholdMB: int, maxSizeMB: int)
      ensures Valid() && openMemory == {} && openDisk == {}
      ensures this.enabled == enabled && threshold == thresholdMB * 0x10_0000 && maxBytes == maxSizeMB * 0x10_0000
    {
      diskFiles, diskBytes, memoryBuffers, memoryBytes := 0, 0, 0, 0;
      this.enabled, threshold, maxBytes := enabled, thresholdMB * 0x10_0000, maxSizeMB * 0x10_0000;
      openMemory, openDisk := {}, {};
    }

    function IsAvailable(size: int): bool
      reads this
    {
      enabled && diskBytes + size <= maxBytes
    }

    method DecrementDiskFiles(size: int)
      modifies this`diskFiles, this`diskBytes
      ensures diskFiles == if old(diskFiles) - 1 < 0 then 0 else old(diskFiles) - 1
      ensures diskBytes == if old(diskBytes) - size < 0 then 0 else old(diskBytes) - size
    {
      diskFiles := diskFiles - 1;
      if diskFiles < 0 { diskFiles := 0; }
      diskBytes := diskBytes - size;
      if diskBytes < 0 { diskBytes := 0; }
    }
  }

  ghost function MemorySize(s: set<MemoryStorage>): (n: nat) {
    if s == {} then 0 else var m :| m in s; m.size + MemorySize(s - {m})
  }

  ghost function DiskSize(s: set<DiskStorage>): (n: nat) {
    if s == {} then 0 else var d :| d in s; d.size + DiskSize(s - {d})
  }

  lemma {:induction false} MemorySizeWithout(s: set<MemoryStorage>, m: MemoryStorage)
    requires m in s
    ensures MemorySize(s) == m.size + MemorySize(s - {m})
  {
    var x :| x in s && MemorySize(s) == x.size + MemorySize(s - {x});
    if x != m {
      MemorySizeWithout(s - {x}, m);
      MemorySizeWithout(s - {m}, x);
      assert s - {x} - {m} == s - {m} - {x};
    }
  }

  lemma {:induction false} DiskSizeWithout(s: set<DiskStorage>, d: DiskStorage)
    requires d in s
    ensures DiskSize(s) == d.size + DiskSize(s - {d})
  {
    var x :| x in s && DiskSize(s) == x.size + DiskSize(s - {x});
    if x != d {
      DiskSizeWithout(s - {x}, d);
      DiskSizeWithout(s - {d}, x);
      assert s - {x} - {d} == s - {d} - {x};
    }
  }

  // ----- the memory backend: a bytes.Reader over the data -----

  class MemoryStorage {
    const data: seq<byte>
    const size: nat
    const stats: CacheStats
    var pos: nat
    var closed: bool

    ghost predicate Valid()
      reads this, stats
    {
      size == |data| && (closed <==> this !in stats.openMemory)
    }

    ghost function View(): Body
      reads this
    {
      Body(data, pos, closed)
    }

    constructor (stats: CacheStats, data: seq<byte>)
      requires stats.Valid()
      modifies stats
      ensures this.stats == stats && stats.Valid() && Valid() && View() == Body(data, 0, false)
      ensures stats.openMemory == old(stats.openMemory) + {this} && stats.openDisk == old(stats.openDisk)
      ensures stats.diskBytes == old(stats.diskBytes)
    {
      this.data, this.size, this.stats := data, |data|, stats;
      pos, closed := 0, false;
      new;
      stats.memoryBuffers := stats.memoryBuffers + 1;
      stats.memoryBytes := stats.memoryBytes + size;
      ghost var others := stats.openMemory;
      stats.openMemory := others + {this};
      MemorySizeWithout(stats.openMemory, this);
      assert stats.openMemory - {this} == others;
    }

    method Read(n: nat) returns (r: ReadOut)
      requires Valid()
      modifies this`pos
      ensures Valid() && (View(), ReadResult(r)) == Do(ByteReader, old(View()), Op.Read(n))
    {
      if closed { return ReadClosed; }
      var next := ReaderRead(data, pos, n);
      pos := next.0;
      return next.1;
    }

    method Seek(offset: int, whence: int) returns (r: SeekOut)
      requires Valid()
      modifies this`pos
      ensures Valid() && (View(), SeekResult(r)) == Do(ByteReader, old(View()), Op.Seek(offset, whence))
    {
      if closed { return SeekClosed; }
      var next := ReaderSeek(data, pos, offset, whence);
      pos := next.0;
      return next.1;
    }

    method Bytes() returns (r: BytesOut)
      requires Valid()
      ensures (View(), BytesResult(r)) == Do(ByteReader, View(), Op.Bytes)
    {
      if closed { return BytesClosed; }
      return All(data);
    }

    /** Only the first close gives the memory back. */
    method Close()
      requires Valid() && stats.Valid()
      modifies this`closed, stats`memoryBuffers, stats`memoryBytes, stats`openMemory
      ensures Valid() && stats.Valid() && View() == Do(ByteReader, old(View()), Op.Close).0
      ensures stats.openMemory == old(stats.openMemory) - {this}
    {
      if !closed {
        closed := true;
        MemorySizeWithout(stats.openMemory, this);
        stats.memoryBuffers := stats.memoryBuffers - 1;
        stats.memoryBytes := stats.memoryBytes - size;
        stats.openMemory := stats.openMemory - {this};
      }
    }
  }

  // ----- the disk backend: an open file with its own offset -----

  class OsFile {
    var content: seq<byte>
    var offset: nat
    var open: bool

    constructor (content: seq<byte>)
      ensures this.content == content && offset == 0 && open
    {
      this.content, offset, open := content, 0, true;
    }

    method Read(n: nat) returns (r: ReadOut)
      requires open
      modifies this`offset
      ensures (offset, r) == FileRead(content, old(offset), n)
    {
      var next := FileRead(content, offset, n);
      offset := next.0;
      return next.1;
    }

    method Seek(delta: int, whence: int) returns (r: SeekOut)
      requires open
      modifies this`offset
      ensures (offset, r) == FileSeek(content, old(offset), delta, whence)
    {
      var next := FileSeek(content, offset, delta, whence);
      offset := next.0;
      return next.1;
    }
  }

  class DiskStorage {
    const file: OsFile
    const size: nat
    const stats: CacheStats
    var closed: bool

    ghost predicate Valid()
      reads this, file, stats
    {
      size == |file.content| && (closed <==> this !in stats.openDisk) && (!closed ==> file.open)
    }

    ghost function View(): Body
      reads this, file
    {
      Body(file.content, file.offset, closed)
    }

    constructor (stats: CacheStats, written: seq<byte>)
      requires stats.Valid()
      modifies stats
      ensures this.stats == stats && stats.Valid() && Valid() && View() == Body(written, 0, false)
      ensures stats.openDisk == old(stats.openDisk) + {this} && stats.openMemory == old(stats.openMemory)
      ensures stats.diskBytes == old(stats.diskBytes) + |written| && fresh(file)
    {
      file := new OsFile(written);
      this.size, this.stats := |written|, stats;
      closed := false;
      new;
      stats.diskFiles := stats.diskFiles + 1;
      stats.diskBytes := stats.diskBytes + size;
      ghost var others := stats.openDisk;
      stats.openDisk := others + {this};
      DiskSizeWithout(stats.openDisk, this);
      assert stats.openDisk - {this} == others;
    }

    method Read(n: nat) returns (r: ReadOut)
      requires Valid()
      modifies file`offset
      ensures Valid() && (View(), ReadResult(r)) == Do(FileReader, old(View()), Op.Read(n))
    {
      if closed { return ReadClosed; }
      r := file.Read(n);
    }

    method Seek(offset: int, whence: int) returns (r: SeekOut)
      requires Valid()
      modifies file`offset
      ensures Valid() && (View(), SeekResult(r)) == Do(FileReader, old(View()), Op.Seek(offset, whence))
    {
      if closed { return SeekClosed; }
      r := file.Seek(offset, whence);
    }

    /** Reads the whole file from the start and puts the read position back. */
    method Bytes() returns (r: BytesOut)
      requires Valid()
      modifies file`offset
      ensures Valid() && (View(), BytesResult(r)) == Do(FileReader, old(View()), Op.Bytes)
    {
      if closed { return BytesClosed; }
      var current := file.Seek(0, 1);
      var start := file.Seek(0, 0);
      var data := ReadFull(size);
      assert data == file.content;
      var restored := file.Seek(current.pos, 0);
      return All(data);
    }

    /** io.ReadFull from the start of the file. */
    method ReadFull(n: nat) returns (data: seq<byte>)
      requires file.open && file.offset == 0 && n <= |file.content|
      modifies file`offset
      ensures data == file.content[..n]
    {
      data := [];
      while |data| < n
        invariant |data| <= n && file.offset == |data| && data == file.content[..|data|]
        decreases n - |data|
      {
        var part := file.Read(n - |data|);
        data := data + part.data;
      }
    }

    /** Only the first close removes the file and gives its space back. */
    method Close()
      requires Valid() && stats.Valid()
      modifies this`closed, file`open, stats`diskFiles, stats`diskBytes, stats`openDisk
      ensures Valid() && stats.Valid() && View() == Do(FileReader, old(View()), Op.Close).0
      ensures stats.openDisk == old(stats.openDisk) - {this} && stats.diskBytes <= old(stats.diskBytes)
    {
      if !closed {
        closed := true;
        file.open := false;
        DiskSizeWithout(stats.openDisk, this);
        stats.DecrementDiskFiles(size);
        stats.openDisk := stats.openDisk - {this};
      }
    }
  }
}
