/**
 The content scanner: reads an extent of a disk in chunks and stops at the first chunk that
 holds a byte other than zero.
 */
module Scan {
  import opened Common
  import opened Gpt
  import GptLayout

  const CHUNK := 1024 * 1024

  datatype Evidence =
    | AllZeroes(bytesRead: u64)
    | NonZero(bytesRead: u64, relativeOffset: u64, value: bv8)

  predicate ZeroRun(disk: Bytes, offset: nat, n: nat) {
    n == 0 || (offset + n <= |disk| && forall k :: offset <= k < offset + n ==> disk[k] == 0)
  }

  /** How many bytes have been read once the chunk holding position `i` has been. */
  function ChunkEnd(i: nat, length: nat): nat {
    var end := (i / CHUNK + 1) * CHUNK;
    if end < length then end else length
  }

  /** The first position of a byte other than zero, or the length: the plain linear search. */
  function FirstNonZero(b: Bytes): (i: nat)
    ensures i <= |b| && ZeroRun(b, 0, i) && (i < |b| ==> b[i] != 0)
  {
    if b == [] || b[0] != 0 then 0 else 1 + FirstNonZero(b[1..])
  }

  method Position(b: Bytes) returns (i: nat)
    ensures i <= |b| && ZeroRun(b, 0, i) && (i < |b| ==> b[i] != 0)
  {
    i := 0;
    while i < |b|
      invariant i <= |b| && ZeroRun(b, 0, i)
    {
      if b[i] != 0 { break; }
      i := i + 1;
    }
  }

  predicate ExtentOk(offset: u64, length: u64) {
    length > 0 && offset as int + length as int < 0x1_0000_0000_0000_0000
  }

  /** What each answer says about the disk. */
  ghost predicate Justified(disk: Bytes, offset: nat, length: nat, r: Result<Evidence, Error>) {
    match r
    case Ok(AllZeroes(read)) => read as int == length && ZeroRun(disk, offset, length)
    case Ok(NonZero(read, at, value)) =>
      && at as int < length && ZeroRun(disk, offset, at as int)
      && offset + at as int < |disk| && value == disk[offset + at as int] && value != 0
      && read as int == ChunkEnd(at as int, length) && offset + read as int <= |disk|
    case Err(e) =>
      e == ReadFailed
      && exists done: nat :: done < length && done % CHUNK == 0 && ZeroRun(disk, offset, done)
                             && offset + ChunkEnd(done, length) > |disk|
  }

  /** A read asked of the device: start and size. */
  type Request = (nat, nat)

  /** Inside the extent, on chunk boundaries, and whole sectors whenever the extent is. */
  ghost predicate RequestOk(q: Request, k: nat, offset: nat, length: nat) {
    && q.0 == offset + k * CHUNK
    && 0 < q.1 <= CHUNK && q.0 + q.1 <= offset + length
    && (offset % 512 == 0 && length % 512 == 0 ==> q.0 % 512 == 0 && q.1 % 512 == 0)
  }

  ghost predicate RequestsOk(issued: seq<Request>, offset: nat, length: nat) {
    forall k :: 0 <= k < |issued| ==> RequestOk(issued[k], k, offset, length)
  }

  /** One chunk: its first byte other than zero, `n` when it has none, or a failed read. */
  method ReadChunk(disk: Bytes, offset: nat, done: nat, n: nat) returns (r: Result<nat, Error>)
    requires ZeroRun(disk, offset, done) && n > 0
    ensures r.Ok? <==> offset + done + n <= |disk|
    ensures r.Ok? ==> r.value <= n && ZeroRun(disk, offset, done + r.value)
    ensures r.Ok? && r.value < n ==> disk[offset + done + r.value] != 0
    ensures r.Err? ==> r.error == ReadFailed
  {
    var at := offset + done;
    if !Readable(disk, at, n) { return Err(ReadFailed); }
    var chunk := Read(disk, at, n);
    var i := Position(chunk);
    forall k | at <= k < at + i ensures disk[k] == 0 { assert chunk[k - at] == disk[k]; }
    assert i < n ==> chunk[i] == disk[at + i];
    return Ok(i);
  }

  method ScanExtent(disk: Bytes, offset: u64, length: u64)
    returns (r: Result<Evidence, Error>, ghost issued: seq<Request>)
    ensures ExtentOk(offset, length) ==> Justified(disk, offset as int, length as int, r)
    ensures !ExtentOk(offset, length) ==> r == Err(InvalidLength) && issued == []
    ensures RequestsOk(issued, offset as int, length as int)
  {
    issued := [];
    if length == 0 || length > 0xffff_ffff_ffff_ffff - offset { return Err(InvalidLength), []; }
    var done: u64 := 0;
    while done < length
      invariant done <= length && ZeroRun(disk, offset as int, done as int)
      invariant done < length ==> done as int == |issued| * CHUNK
      invariant RequestsOk(issued, offset as int, length as int)
    {
      var n := if length - done < 1048576 then length - done else 1048576;
      ChunkOf(offset as int, done as int, |issued|, length as int, n as int);
      issued := issued + [(offset as int + done as int, n as int)];
      var chunk := ReadChunk(disk, offset as int, done as int, n as int);
      if chunk.Err? { return Err(ReadFailed), issued; }
      if chunk.value < n as int {
        SameChunk(done as int, |issued| - 1, chunk.value, length as int);
        var value := disk[offset as int + done as int + chunk.value];
        return Ok(NonZero(done + n, done + chunk.value as u64, value)), issued;
      }
      done := done + n;
    }
    return Ok(AllZeroes(done)), issued;
  }

  lemma ChunkOf(offset: nat, done: nat, k: nat, length: nat, n: nat)
    requires done == k * CHUNK && done < length && n == if length - done < CHUNK then length - done else CHUNK
    ensures done % CHUNK == 0 && ChunkEnd(done, length) == done + n
    ensures RequestOk((offset + done, n), k, offset, length)
  {
    assert done == 512 * (2048 * k);
    if offset % 512 == 0 && length % 512 == 0 {
      WholeSectors(offset, done);
      WholeSectors(length, done);
    }
  }

  lemma WholeSectors(a: nat, b: nat)
    requires a % 512 == 0 && b % 512 == 0
    ensures (a + b) % 512 == 0 && (b <= a ==> (a - b) % 512 == 0)
  {
    var x, y := a / 512, b / 512;
    assert a == 512 * x && b == 512 * y;
    Sectors(x + y);
    Sectors(x - y);
  }

  lemma Sectors(k: int)
    ensures (512 * k) % 512 == 0
  {
  }

  lemma SameChunk(done: nat, k: nat, i: nat, length: nat)
    requires done == k * CHUNK && i < CHUNK && done + i < length
    ensures ChunkEnd(done + i, length) == ChunkEnd(done, length)
  {
  }

  /** The answer of the linear search is the only one that fits. */
  lemma FirstIs(b: Bytes, first: nat)
    requires first == FirstNonZero(b)
    ensures forall i: nat :: i < |b| && ZeroRun(b, 0, i) && b[i] != 0 ==> i == first
    ensures ZeroRun(b, 0, |b|) ==> first == |b|
  {
  }

  lemma SameRun(disk: Bytes, o: nat, b: Bytes)
    requires o + |b| <= |disk| && b == disk[o..o + |b|]
    ensures forall i: nat :: i <= |b| ==> (ZeroRun(disk, o, i) <==> ZeroRun(b, 0, i))
  {
    forall i: nat | i <= |b| && ZeroRun(disk, o, i) ensures ZeroRun(b, 0, i) {}
    forall i: nat | i <= |b| && ZeroRun(b, 0, i) ensures ZeroRun(disk, o, i) {
      forall k | o <= k < o + i ensures disk[k] == 0 { assert b[k - o] == disk[k]; }
    }
  }

  lemma ExtentSearch(disk: Bytes, o: nat, n: nat)
    requires o + n <= |disk|
    ensures var first := FirstNonZero(disk[o..o + n]);
            && (forall i: nat :: i < n && ZeroRun(disk, o, i) && disk[o + i] != 0 ==> i == first)
            && (ZeroRun(disk, o, n) ==> first == n)
  {
    var b := disk[o..o + n];
    FirstIs(b, FirstNonZero(b));
    SameRun(disk, o, b);
    forall i: nat | i < n ensures disk[o + i] == b[i] {}
  }

  /** On an extent inside the disk the chunked scan answers exactly what the linear search does. */
  lemma RefinesLinearSearch(disk: Bytes, offset: u64, length: u64, r: Result<Evidence, Error>)
    requires length > 0 && offset as int + length as int < 0x1_0000_0000_0000_0000
    requires offset as int + length as int <= |disk|
    requires Justified(disk, offset as int, length as int, r)
    ensures r.Ok?
    ensures var first := FirstNonZero(disk[offset as int..offset as int + length as int]);
            && (r.value.AllZeroes? ==> first == length as int && r.value.bytesRead == length)
            && (r.value.NonZero? ==>
                  && first < length as int && r.value.relativeOffset as int == first
                  && r.value.value == disk[offset as int + first]
                  && r.value.bytesRead as int == ChunkEnd(first, length as int))
  {
    ExtentSearch(disk, offset as int, length as int);
  }

  /** Every read asked of the device for a listed partition starts on a sector and is whole sectors. */
  lemma PartitionReadsAreSectors(
    disk: Bytes, len: u64, partitions: seq<GptLayout.Partition>, p: nat, issued: seq<Request>, k: nat)
    requires GptLayout.ValidDisk(disk, len) && GptLayout.Lists(GptLayout.Table(disk), GptLayout.ENTRIES, partitions)
    requires p < |partitions| && k < |issued|
    requires RequestsOk(issued, partitions[p].offset as int, partitions[p].length as int)
    ensures issued[k].0 % 512 == 0 && issued[k].1 % 512 == 0
  {
    GptLayout.PartitionBounds(disk, len, partitions, p);
    assert RequestOk(issued[k], k, partitions[p].offset as int, partitions[p].length as int);
  }
}
