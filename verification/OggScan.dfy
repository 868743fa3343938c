/** The Ogg page scanner behind getOpusDuration (common/audio.go), against the page format of
    section 6 of RFC 3533. */
module OggScan {
  import opened Common

  type bytes = seq<byte>

  /** "OggS". */
  const CAPTURE: bytes := [0x4f, 0x67, 0x67, 0x53]
  const HEADER_SIZE := 27
  const SAMPLE_RATE := 48000.0

  function FromLE(bs: bytes): nat {
    if bs == [] then 0 else bs[0] + 256 * FromLE(bs[1..])
  }

  function Sum(bs: bytes): nat {
    if bs == [] then 0 else bs[0] + Sum(bs[1..])
  }

  /** int64(uint64) conversion: two's complement. */
  function Signed(u: nat): int {
    if u >= 0x8000_0000_0000_0000 then u - 0x1_0000_0000_0000_0000 else u
  }

  function Max(a: int, b: int): int {
    if a > b then a else b
  }

  function GranuleAt(d: bytes): int
    requires |d| >= HEADER_SIZE
  {
    Signed(FromLE(d[6..14]))
  }

  /** Bytes from a page start to the byte after its payload, as its segment table declares. */
  function PageLength(d: bytes): (n: nat)
    requires |d| >= HEADER_SIZE && |d| >= HEADER_SIZE + d[26]
    ensures n >= HEADER_SIZE
  {
    HEADER_SIZE + d[26] + Sum(d[HEADER_SIZE..HEADER_SIZE + d[26]])
  }

  /** What one round of the loop finds at the front of the unread bytes. */
  datatype Round = End | NoPage | LastPage(granule: int) | NextPage(granule: int, length: nat)

  function Look(d: bytes): (r: Round)
    ensures r.NoPage? ==> d != []
    ensures r.NextPage? ==> 0 < r.length < |d|
  {
    if |d| < HEADER_SIZE then End
    else if d[..4] != CAPTURE then NoPage
    else if |d| < HEADER_SIZE + d[26] || PageLength(d) >= |d| then LastPage(GranuleAt(d))
    else NextPage(GranuleAt(d), PageLength(d))
  }

  /** The largest granule position so far and the offsets at which a page was recognised. */
  datatype Progress = Progress(total: int, stops: seq<nat>)

  function Note(acc: Progress, base: nat, granule: int): Progress {
    Progress(Max(acc.total, granule), acc.stops + [base])
  }

  /** Scanning the unread bytes d, which start at offset base. */
  function Scan(d: bytes, base: nat, acc: Progress): Progress
    decreases |d|
  {
    match Look(d)
    case End => acc
    case NoPage => Scan(d[1..], base + 1, acc)
    case LastPage(g) => Note(acc, base, g)
    case NextPage(g, n) => Scan(d[n..], base + n, Note(acc, base, g))
  }

  lemma SumAppend(a: bytes, x: byte)
    ensures Sum(a + [x]) == Sum(a) + x
  {
    if a != [] {
      assert (a + [x])[1..] == a[1..] + [x];
    }
  }

  lemma SliceOfSlice(s: bytes, a: nat, b: nat, i: nat, j: nat)
    requires i <= j && a + j <= b <= |s|
    ensures s[a..b][i..j] == s[a + i..a + j] && s[a..][i..j] == s[a + i..a + j]
  {
    var m, t := s[a..b], s[a..];
    forall k | 0 <= k < j - i ensures m[i..j][k] == s[a + i..a + j][k] && t[i..j][k] == s[a + i..a + j][k] {
      assert m[i..j][k] == m[i + k] && t[i..j][k] == t[i + k];
    }
  }

  lemma TailOfTail(s: bytes, a: nat, i: nat)
    requires a + i <= |s|
    ensures s[a..][i..] == s[a + i..]
  {
  }

  /** What the scan still finds from a position on; the position may lie past the end. */
  ghost function From(data: bytes, pos: nat, acc: Progress): Progress {
    if pos <= |data| then Scan(data[pos..], pos, acc) else acc
  }

  /** One round of the loop, from the buffer read at pos and the segment table behind it. */
  lemma ScanRound(data: bytes, pos: nat, acc: Progress)
    ensures From(data, pos, acc) ==
            if pos + HEADER_SIZE > |data| then acc
            else
              var buf := data[pos..pos + HEADER_SIZE]; var table := pos + HEADER_SIZE; var n := buf[26];
              if buf[0..4] != CAPTURE then From(data, pos + 1, acc)
              else
                var found := Note(acc, pos, Signed(FromLE(buf[6..14])));
                if |data| - table < n then found else From(data, table + n + Sum(data[table..table + n]), found)
  {
    if pos + HEADER_SIZE <= |data| {
      var d, table := data[pos..], pos + HEADER_SIZE;
      var n := d[26];
      SliceOfSlice(data, pos, table, 0, 4);
      SliceOfSlice(data, pos, table, 6, 14);
      TailOfTail(data, pos, 1);
      if table + n <= |data| {
        SliceOfSlice(data, pos, table + n, HEADER_SIZE, HEADER_SIZE + n);
        if pos + PageLength(d) <= |data| { TailOfTail(data, pos, PageLength(d)); }
      }
    }
  }

  /** getOpusDuration. */
  method GetOpusDuration(data: bytes) returns (duration: real)
    ensures duration == Scan(data, 0, Progress(0, [])).total as real / 48000.0
  {
    var totalGranulePos, stops := ScanPages(data);
    duration := totalGranulePos as real / SAMPLE_RATE;
  }

  /** The scanning loop: it ends on every byte string, because each round moves the position on. */
  method ScanPages(data: bytes) returns (totalGranulePos: int, ghost stops: seq<nat>)
    ensures totalGranulePos == Scan(data, 0, Progress(0, [])).total
    ensures stops == Scan(data, 0, Progress(0, [])).stops
  {
    totalGranulePos, stops := 0, [];
    var pos, more := 0, true;
    assert data[0..] == data;
    while more
      invariant pos >= 0
      invariant Scan(data, 0, Progress(0, []))
             == if more then From(data, pos, Progress(totalGranulePos, stops)) else Progress(totalGranulePos, stops)
      decreases more, if pos > |data| then 0 else |data| - pos + 1
    {
      totalGranulePos, stops, pos, more := ReadPage(data, pos, totalGranulePos, stops);
    }
  }

  /** One round of the loop: a read that comes up short ends it. */
  method ReadPage(data: bytes, start: nat, total: int, ghost seen: seq<nat>)
    returns (totalGranulePos: int, ghost stops: seq<nat>, pos: nat, more: bool)
    ensures more ==> start < pos && start < |data|
    ensures var found := Progress(totalGranulePos, stops);
            From(data, start, Progress(total, seen)) == if more then From(data, pos, found) else found
  {
    ScanRound(data, start, Progress(total, seen));
    totalGranulePos, stops, pos, more := total, seen, start, false;
    if |data| - pos < HEADER_SIZE { return; }
    var buf := data[pos..pos + HEADER_SIZE];
    pos := pos + HEADER_SIZE;
    if buf[0..4] != CAPTURE {
      pos, more := pos - 26, true;
      return;
    }
    var granulePos := Signed(FromLE(buf[6..14]));
    stops := stops + [start];
    if granulePos > totalGranulePos {
      totalGranulePos := granulePos;
    }
    var numSegments := buf[26];
    if |data| - pos < numSegments { return; }
    var pageSize := PayloadSize(data[pos..pos + numSegments]);
    pos, more := pos + numSegments + pageSize, true;
  }

  method PayloadSize(segmentTable: bytes) returns (pageSize: nat)
    ensures pageSize == Sum(segmentTable)
  {
    pageSize := 0;
    for i := 0 to |segmentTable|
      invariant pageSize == Sum(segmentTable[..i])
    {
      assert segmentTable[..i + 1] == segmentTable[..i] + [segmentTable[i]];
      SumAppend(segmentTable[..i], segmentTable[i]);
      pageSize := pageSize + segmentTable[i];
    }
    assert segmentTable[..|segmentTable|] == segmentTable;
  }

  // ----- pages as the format defines them -----

  /** version and flags; granule position; serial, sequence number and checksum; lacing; payload. */
  datatype Page = Page(flags: bytes, granule: int, ids: bytes, segments: bytes, payload: bytes)

  predicate WellFormed(p: Page) {
    |p.flags| == 2 && |p.ids| == 12 && |p.segments| <= 255 && |p.payload| == Sum(p.segments)
    && -0x8000_0000_0000_0000 <= p.granule < 0x8000_0000_0000_0000
  }

  function ToLE(u: nat, n: nat): (r: bytes)
    ensures |r| == n
  {
    if n == 0 then [] else [u % 256] + ToLE(u / 256, n - 1)
  }

  function Unsigned(g: int): int {
    if g < 0 then g + 0x1_0000_0000_0000_0000 else g
  }

  function Encode(p: Page): bytes
    requires WellFormed(p)
  {
    ['O' as int, 'g' as int, 'g' as int, 'S' as int] + (p.flags + (ToLE(Unsigned(p.granule), 8) + (p.ids + ([|p.segments|] + (p.segments + p.payload)))))
  }

  function Pow256(n: nat): nat {
    if n == 0 then 1 else 256 * Pow256(n - 1)
  }

  lemma {:induction false} LERoundTrip(u: nat, n: nat)
    requires u < Pow256(n)
    ensures FromLE(ToLE(u, n)) == u
  {
    if n > 0 {
      LERoundTrip(u / 256, n - 1);
      assert ToLE(u, n)[1..] == ToLE(u / 256, n - 1);
    }
  }

  lemma Assoc(a: bytes, b: bytes, c: bytes)
    ensures (a + b) + c == a + (b + c)
  {
  }

  lemma SkipFront(a: bytes, b: bytes, i: nat, j: nat)
    requires i <= j <= |b|
    ensures (a + b)[|a| + i..|a| + j] == b[i..j]
  {
  }

  lemma Front(a: bytes, b: bytes)
    ensures (a + b)[0..|a|] == a && (a + b)[..|a|] == a
  {
  }

  /** The parts behind each other, each as a prefix of what is left. */
  lemma PartsOf(a: bytes, b: bytes, c: bytes, d: bytes, e: bytes, f: bytes, rest: bytes)
    requires |a| == 4 && |b| == 2 && |c| == 8 && |d| == 12 && |e| == 1
    ensures var w := a + (b + (c + (d + (e + (f + rest)))));
            w[..4] == a && w[6..14] == c && w[26..27] == e && w[27..27 + |f|] == f
  {
    var x5 := f + rest;
    var x4 := e + x5;
    var x3 := d + x4;
    var x2 := c + x3;
    var x1 := b + x2;
    var n := |f|;
    Front(a, x1);
    SkipFront(a, x1, 2, 10); SkipFront(b, x2, 0, 8); Front(c, x3);
    SkipFront(a, x1, 22, 23); SkipFront(b, x2, 20, 21); SkipFront(c, x3, 12, 13); SkipFront(d, x4, 0, 1); Front(e, x5);
    SkipFront(a, x1, 23, 23 + n); SkipFront(b, x2, 21, 21 + n); SkipFront(c, x3, 13, 13 + n);
    SkipFront(d, x4, 1, 1 + n); SkipFront(e, x5, 0, n); Front(f, rest);
  }

  lemma AppendInside(a: bytes, b: bytes, c: bytes, d: bytes, e: bytes, f: bytes, g: bytes, rest: bytes)
    ensures a + (b + (c + (d + (e + (f + g))))) + rest == a + (b + (c + (d + (e + (f + (g + rest))))))
  {
    Assoc(f, g, rest);
    Assoc(e, f + g, rest);
    Assoc(d, e + (f + g), rest);
    Assoc(c, d + (e + (f + g)), rest);
    Assoc(b, c + (d + (e + (f + g))), rest);
    Assoc(a, b + (c + (d + (e + (f + g)))), rest);
  }

  /** The scanner reads back each field of an encoded page. */
  lemma HeaderFields(p: Page, rest: bytes)
    requires WellFormed(p)
    ensures var d := Encode(p) + rest; var n := HEADER_SIZE + |p.segments|;
            |d| >= n && d[..4] == CAPTURE && d[6..14] == ToLE(Unsigned(p.granule), 8)
            && d[26..27] == [|p.segments|] && d[HEADER_SIZE..n] == p.segments
            && |Encode(p)| == n + |p.payload|
  {
    var le, count := ToLE(Unsigned(p.granule), 8), [|p.segments|];
    AppendInside(CAPTURE, p.flags, le, p.ids, count, p.segments, p.payload, rest);
    PartsOf(CAPTURE, p.flags, le, p.ids, count, p.segments, p.payload + rest);
  }

  lemma PageRecognised(p: Page, rest: bytes)
    requires WellFormed(p)
    ensures Look(Encode(p) + rest)
         == if rest == [] then LastPage(p.granule) else NextPage(p.granule, |Encode(p)|)
  {
    HeaderFields(p, rest);
    var d := Encode(p) + rest;
    assert d[26] == d[26..27][0];
    assert Pow256(8) == 0x1_0000_0000_0000_0000;
    LERoundTrip(Unsigned(p.granule), 8);
  }

  /** One unfolding of the scan over a recognised block. */
  lemma ScanBlock(block: bytes, rest: bytes, granule: int, base: nat, acc: Progress)
    requires block != []
    requires Look(block + rest) == if rest == [] then LastPage(granule) else NextPage(granule, |block|)
    ensures Scan(block + rest, base, acc) == Scan(rest, base + |block|, Note(acc, base, granule))
  {
    assert (block + rest)[|block|..] == rest;
  }

  /** Byte strings a scanner consumes as one page with the given granule position. */
  ghost predicate ReadsAs(scan: (bytes, nat, Progress) -> Progress, block: bytes, granule: int) {
    forall rest: bytes, base: nat, acc: Progress {:trigger scan(block + rest, base, acc)} ::
      scan(block + rest, base, acc) == scan(rest, base + |block|, Note(acc, base, granule))
  }

  function Blocks(pages: seq<Page>): seq<bytes>
    requires forall p :: p in pages ==> WellFormed(p)
  {
    seq(|pages|, i requires 0 <= i < |pages| => assert pages[i] in pages; Encode(pages[i]))
  }

  function Granules(pages: seq<Page>): seq<int> {
    seq(|pages|, i requires 0 <= i < |pages| => pages[i].granule)
  }

  function Concat(blocks: seq<bytes>): bytes {
    if blocks == [] then [] else blocks[0] + Concat(blocks[1..])
  }

  function MaxOf(granules: seq<int>, floor: int): int {
    if granules == [] then floor else MaxOf(granules[1..], Max(floor, granules[0]))
  }

  /** Where each block starts. */
  function Starts(blocks: seq<bytes>, base: nat): seq<nat> {
    if blocks == [] then [] else [base] + Starts(blocks[1..], base + |blocks[0]|)
  }

  /** On a run of pages the scan stops at exactly the page starts and takes every granule position. */
  lemma {:induction false} ScanBlocks(scan: (bytes, nat, Progress) -> Progress, blocks: seq<bytes>, granules: seq<int>,
                                      base: nat, acc: Progress)
    requires |blocks| == |granules| && forall i :: 0 <= i < |blocks| ==> ReadsAs(scan, blocks[i], granules[i])
    requires forall b, a :: scan([], b, a) == a
    ensures scan(Concat(blocks), base, acc)
         == Progress(MaxOf(granules, acc.total), acc.stops + Starts(blocks, base))
  {
    if blocks != [] {
      var block, rest := blocks[0], Concat(blocks[1..]);
      assert ReadsAs(scan, block, granules[0]);
      var next := Note(acc, base, granules[0]);
      assert scan(block + rest, base, acc) == scan(rest, base + |block|, next);
      ScanBlocks(scan, blocks[1..], granules[1..], base + |block|, next);
      var later := Starts(blocks[1..], base + |block|);
      assert acc.stops + [base] + later == acc.stops + ([base] + later);
    }
  }

  predicate CaptureAt(d: bytes, i: nat) {
    i + 4 <= |d| && d[i..i + 4] == CAPTURE
  }

  lemma CaptureInTail(d: bytes, i: nat)
    requires d != [] && CaptureAt(d[1..], i)
    ensures CaptureAt(d, i + 1)
  {
    assert d[1..][i..i + 4] == d[i + 1..i + 1 + 4];
  }

  lemma ScanSkipsOne(d: bytes, base: nat, acc: Progress)
    requires |d| >= HEADER_SIZE && !CaptureAt(d, 0)
    ensures Scan(d, base, acc) == Scan(d[1..], base + 1, acc)
  {
    assert d[0..4] == d[..4];
  }

  lemma {:induction false} ScanSkips(d: bytes, n: nat, base: nat, acc: Progress)
    requires n <= |d| && (forall i :: 0 <= i < n ==> !CaptureAt(d, i)) && (n < |d| ==> |d| - n >= HEADER_SIZE)
    ensures Scan(d, base, acc) == Scan(d[n..], base + n, acc)
    decreases n
  {
    if n == 0 {
      assert d[0..] == d;
    } else if |d| >= HEADER_SIZE {
      var tail := d[1..];
      forall i | 0 <= i < n - 1 ensures !CaptureAt(tail, i) {
        if CaptureAt(tail, i) { CaptureInTail(d, i); }
      }
      ScanSkipsOne(d, base, acc);
      ScanSkips(tail, n - 1, base + 1, acc);
      assert tail[n - 1..] == d[n..];
    }
  }

  lemma PagesRead(pages: seq<Page>)
    requires forall p :: p in pages ==> WellFormed(p)
    ensures var blocks := Blocks(pages);
            forall i :: 0 <= i < |pages| ==> |blocks[i]| >= HEADER_SIZE && ReadsAs(Scan, blocks[i], pages[i].granule)
  {
    forall i | 0 <= i < |pages|
      ensures |Blocks(pages)[i]| >= HEADER_SIZE && ReadsAs(Scan, Blocks(pages)[i], pages[i].granule)
    {
      assert pages[i] in pages;
      PageReadsAs(pages[i]);
    }
  }

  lemma RecognisedReadsAs(block: bytes, granule: int)
    requires block != []
    requires forall rest: bytes {:trigger block + rest} ::
               Look(block + rest) == if rest == [] then LastPage(granule) else NextPage(granule, |block|)
    ensures ReadsAs(Scan, block, granule)
  {
    forall rest: bytes, base: nat, acc: Progress
      ensures Scan(block + rest, base, acc) == Scan(rest, base + |block|, Note(acc, base, granule))
    {
      ScanBlock(block, rest, granule, base, acc);
    }
  }

  lemma PageReadsAs(p: Page)
    requires WellFormed(p)
    ensures |Encode(p)| >= HEADER_SIZE && ReadsAs(Scan, Encode(p), p.granule)
  {
    HeaderFields(p, []);
    forall rest ensures Look(Encode(p) + rest) == if rest == [] then LastPage(p.granule) else NextPage(p.granule, |Encode(p)|) {
      PageRecognised(p, rest);
    }
    RecognisedReadsAs(Encode(p), p.granule);
  }

  /** After a prefix in which no capture pattern starts, a file of well-formed pages gives the
      maximum of 0 and all granule positions, and the scan stops at exactly the page starts. */
  lemma ScanFile(prefix: bytes, pages: seq<Page>)
    requires forall p :: p in pages ==> WellFormed(p)
    requires forall i :: 0 <= i < |prefix| ==> !CaptureAt(prefix + Concat(Blocks(pages)), i)
    ensures Scan(prefix + Concat(Blocks(pages)), 0, Progress(0, []))
         == Progress(MaxOf(Granules(pages), 0), Starts(Blocks(pages), |prefix|))
  {
    var blocks, start := Blocks(pages), Progress(0, []);
    PagesRead(pages);
    ScanSkipsPrefix(prefix, Concat(blocks), start);
    ScanBlocks(Scan, blocks, Granules(pages), |prefix|, start);
    assert [] + Starts(blocks, |prefix|) == Starts(blocks, |prefix|);
  }

  lemma ScanSkipsPrefix(prefix: bytes, rest: bytes, acc: Progress)
    requires rest == [] || |rest| >= HEADER_SIZE
    requires forall i :: 0 <= i < |prefix| ==> !CaptureAt(prefix + rest, i)
    ensures Scan(prefix + rest, 0, acc) == Scan(rest, |prefix|, acc)
  {
    assert (prefix + rest)[|prefix|..] == rest;
    SkippedTo(prefix + rest, |prefix|, rest, acc);
  }

  lemma SkippedTo(d: bytes, n: nat, rest: bytes, acc: Progress)
    requires n <= |d| && d[n..] == rest && (rest == [] || |rest| >= HEADER_SIZE)
    requires forall i :: 0 <= i < n ==> !CaptureAt(d, i)
    ensures Scan(d, 0, acc) == Scan(rest, n, acc)
  {
    ScanSkips(d, n, 0, acc);
  }

  /** The folded maximum is the least upper bound of the floor and the granule positions. */
  lemma {:induction false} MaxOfBounds(granules: seq<int>, floor: int)
    ensures var m := MaxOf(granules, floor);
            m >= floor && (forall g :: g in granules ==> m >= g) && (m == floor || m in granules)
  {
    if granules != [] {
      MaxOfBounds(granules[1..], Max(floor, granules[0]));
      assert granules == [granules[0]] + granules[1..];
    }
  }
}
