/**
 The partition table behind the headers: what a disk must look like for the reader to accept
 it, and what the accepted layout then guarantees.
 */
module GptLayout {
  import opened Common
  import opened Crc
  import opened Gpt

  const SECTOR := 512
  const ENTRIES := 128
  const ENTRY_SIZE := 128
  const TABLE_SIZE := 16384

  // ---- names ----

  function Unit(lo: bv8, hi: bv8): u16 {
    (Value(lo) + 0x100 * Value(hi)) as u16
  }

  /** The code units of an entry's name from unit `k` on, up to the first zero. */
  function NameFrom(e: Bytes, k: nat): seq<u16>
    requires |e| == ENTRY_SIZE && k <= 36
    decreases 36 - k
  {
    if k == 36 then []
    else
      var u := Unit(e[56 + 2 * k], e[57 + 2 * k]);
      if u == 0 then [] else [u] + NameFrom(e, k + 1)
  }

  predicate HighSurrogate(u: u16) { 0xd800 <= u < 0xdc00 }
  predicate LowSurrogate(u: u16) { 0xdc00 <= u < 0xe000 }

  predicate IsUtf16(units: seq<u16>) {
    if units == [] then true
    else if HighSurrogate(units[0]) then |units| >= 2 && LowSurrogate(units[1]) && IsUtf16(units[2..])
    else !LowSurrogate(units[0]) && IsUtf16(units[1..])
  }

  // ---- one entry ----

  function Entry(table: Bytes, i: nat): (e: Bytes)
    requires |table| == TABLE_SIZE && i < ENTRIES
    ensures |e| == ENTRY_SIZE
  {
    table[ENTRY_SIZE * i..ENTRY_SIZE * i + ENTRY_SIZE]
  }

  predicate Used(e: Bytes)
    requires |e| == ENTRY_SIZE
  {
    !AllZero(e[..16])
  }

  function Start(e: Bytes): u64
    requires |e| == ENTRY_SIZE
  {
    U64(e, 32)
  }

  function End(e: Bytes): u64
    requires |e| == ENTRY_SIZE
  {
    U64(e, 40)
  }

  function Identity(e: Bytes): Bytes
    requires |e| == ENTRY_SIZE
  {
    e[16..32]
  }

  predicate EntryOk(e: Bytes, first: u64, last: u64)
    requires |e| == ENTRY_SIZE
  {
    if Used(e) then
      first <= Start(e) <= End(e) <= last && !AllZero(Identity(e)) && IsUtf16(NameFrom(e, 0))
    else AllZero(e)
  }

  /** Different identities and no sector in common. */
  predicate Compatible(e: Bytes, f: Bytes)
    requires |e| == |f| == ENTRY_SIZE
  {
    Identity(e) != Identity(f) && (End(e) < Start(f) || End(f) < Start(e))
  }

  predicate RowOk(table: Bytes, i: nat, first: u64, last: u64)
    requires |table| == TABLE_SIZE && i < ENTRIES
  {
    EntryOk(Entry(table, i), first, last)
  }

  predicate RowUsed(table: Bytes, i: nat)
    requires |table| == TABLE_SIZE && i < ENTRIES
  {
    Used(Entry(table, i))
  }

  predicate RowsCompatible(table: Bytes, i: nat, j: nat)
    requires |table| == TABLE_SIZE && i < ENTRIES && j < ENTRIES
  {
    RowUsed(table, i) && RowUsed(table, j) ==> Compatible(Entry(table, i), Entry(table, j))
  }

  predicate TableOk(table: Bytes, n: nat, first: u64, last: u64)
    requires |table| == TABLE_SIZE && n <= ENTRIES
  {
    RowsOk(table, n, first, last) && RowsApart(table, n)
  }

  predicate RowsOk(table: Bytes, n: nat, first: u64, last: u64)
    requires |table| == TABLE_SIZE && n <= ENTRIES
  {
    forall i {:trigger RowOk(table, i, first, last)} :: 0 <= i < n ==> RowOk(table, i, first, last)
  }

  predicate RowsApart(table: Bytes, n: nat)
    requires |table| == TABLE_SIZE && n <= ENTRIES
  {
    forall i, j {:trigger RowsCompatible(table, i, j)} :: 0 <= i < j < n ==> RowsCompatible(table, i, j)
  }

  // ---- partitions ----

  datatype Partition = Partition(id: string, kind: string, name: seq<u16>, offset: u64, length: u64, attributes: u64)
  datatype Layout = Layout(diskId: string, partitions: seq<Partition>)

  /** A sector number whose byte address, and the next one's, fits 64 bits. */
  predicate Addressable(lba: u64) {
    lba < 0x7f_ffff_ffff_ffff
  }

  predicate Sized(e: Bytes)
    requires |e| == ENTRY_SIZE
  {
    Start(e) <= End(e) && Addressable(End(e))
  }

  function PartitionOf(e: Bytes): Partition
    requires |e| == ENTRY_SIZE && Sized(e)
  {
    Partition(
      Guid(Identity(e)), Guid(e[..16]), NameFrom(e, 0), Start(e) * 512, (End(e) - Start(e) + 1) * 512, U64(e, 48))
  }

  predicate Clashes(p: Partition, q: Partition) {
    p.id == q.id
    || (p.offset as int < q.offset as int + q.length as int && q.offset as int < p.offset as int + p.length as int)
  }

  lemma ClashMeansIncompatible(e: Bytes, f: Bytes)
    requires |e| == |f| == ENTRY_SIZE && Sized(e) && Sized(f)
    ensures Clashes(PartitionOf(e), PartitionOf(f)) <==> !Compatible(e, f)
  {
    GuidInjective(Identity(e), Identity(f));
  }

  /** The non-empty entries among the first `n`, in table order. */
  function UsedIndexes(table: Bytes, n: nat): (r: seq<nat>)
    requires |table| == TABLE_SIZE && n <= ENTRIES
    ensures forall i: nat {:trigger i in r} {:trigger RowUsed(table, i)} :: i in r <==> i < n && RowUsed(table, i)
    ensures forall k :: 0 <= k < |r| ==> r[k] < n
    ensures forall a, b :: 0 <= a < b < |r| ==> r[a] < r[b]
  {
    if n == 0 then []
    else
      var r := UsedIndexes(table, n - 1);
      if RowUsed(table, n - 1) then r + [n - 1] else r
  }

  predicate IsRow(table: Bytes, i: nat, p: Partition)
    requires |table| == TABLE_SIZE && i < ENTRIES
  {
    Sized(Entry(table, i)) && p == PartitionOf(Entry(table, i))
  }

  ghost predicate Lists(table: Bytes, n: nat, partitions: seq<Partition>)
    requires |table| == TABLE_SIZE && n <= ENTRIES
  {
    var used := UsedIndexes(table, n);
    && |partitions| == |used|
    && forall k {:trigger partitions[k]} :: 0 <= k < |used| ==> IsRow(table, used[k], partitions[k])
  }

  method AnyClash(partitions: seq<Partition>, p: Partition) returns (clash: bool)
    requires p.offset as int + p.length as int < 0x1_0000_0000_0000_0000
    requires forall q :: q in partitions ==> q.offset as int + q.length as int < 0x1_0000_0000_0000_0000
    ensures clash <==> ClashesWithListed(p, partitions)
  {
    for i := 0 to |partitions|
      invariant forall k :: 0 <= k < i ==> !Clashes(p, partitions[k])
    {
      var q := partitions[i];
      if q.id == p.id || (p.offset < q.offset + q.length && q.offset < p.offset + p.length) {
        assert Clashes(p, partitions[i]);
        return true;
      }
    }
    return false;
  }

  ghost predicate Fitting(partitions: seq<Partition>) {
    forall q :: q in partitions ==> q.offset as int + q.length as int < 0x1_0000_0000_0000_0000
  }

  lemma ListedFit(table: Bytes, n: nat, partitions: seq<Partition>)
    requires |table| == TABLE_SIZE && n <= ENTRIES && Lists(table, n, partitions)
    ensures Fitting(partitions)
  {
    forall q | q in partitions ensures q.offset as int + q.length as int < 0x1_0000_0000_0000_0000 {
      var k :| 0 <= k < |partitions| && partitions[k] == q;
      assert IsRow(table, UsedIndexes(table, n)[k], q);
    }
  }

  ghost predicate ClashesWithListed(p: Partition, partitions: seq<Partition>) {
    exists k :: 0 <= k < |partitions| && Clashes(p, partitions[k])
  }

  ghost predicate ClashesEarlier(table: Bytes, n: nat)
    requires |table| == TABLE_SIZE && n < ENTRIES
  {
    exists i :: 0 <= i < n && !RowsCompatible(table, i, n)
  }

  /** A clash with something listed is a clash with an earlier used entry. */
  lemma ListedClash(table: Bytes, n: nat, partitions: seq<Partition>)
    requires |table| == TABLE_SIZE && n < ENTRIES && Lists(table, n, partitions) && Sized(Entry(table, n))
    requires RowUsed(table, n) && ClashesWithListed(PartitionOf(Entry(table, n)), partitions)
    ensures ClashesEarlier(table, n)
  {
    var used := UsedIndexes(table, n);
    var k :| 0 <= k < |partitions| && Clashes(PartitionOf(Entry(table, n)), partitions[k]);
    assert IsRow(table, used[k], partitions[k]);
    ClashMeansIncompatible(Entry(table, n), Entry(table, used[k]));
    assert used[k] in used;
    assert !RowsCompatible(table, used[k], n);
  }

  lemma EarlierClash(table: Bytes, n: nat, partitions: seq<Partition>)
    requires |table| == TABLE_SIZE && n < ENTRIES && Lists(table, n, partitions) && Sized(Entry(table, n))
    requires ClashesEarlier(table, n)
    ensures ClashesWithListed(PartitionOf(Entry(table, n)), partitions)
  {
    var used := UsedIndexes(table, n);
    var i :| 0 <= i < n && !RowsCompatible(table, i, n);
    assert i in used;
    var k :| 0 <= k < |used| && used[k] == i;
    assert IsRow(table, i, partitions[k]);
    ClashMeansIncompatible(Entry(table, n), Entry(table, i));
    assert Clashes(PartitionOf(Entry(table, n)), partitions[k]);
  }

  lemma ListsMore(table: Bytes, n: nat, partitions: seq<Partition>)
    requires |table| == TABLE_SIZE && n < ENTRIES && Lists(table, n, partitions)
    ensures !RowUsed(table, n) ==> Lists(table, n + 1, partitions)
    ensures forall p :: RowUsed(table, n) && IsRow(table, n, p) ==> Lists(table, n + 1, partitions + [p])
  {
  }

  lemma ClashIffEarlier(table: Bytes, n: nat, partitions: seq<Partition>)
    requires |table| == TABLE_SIZE && n < ENTRIES && Lists(table, n, partitions) && Sized(Entry(table, n))
    requires RowUsed(table, n)
    ensures ClashesWithListed(PartitionOf(Entry(table, n)), partitions) <==> ClashesEarlier(table, n)
  {
    if ClashesWithListed(PartitionOf(Entry(table, n)), partitions) { ListedClash(table, n, partitions); }
    if ClashesEarlier(table, n) { EarlierClash(table, n, partitions); }
  }

  /** One entry read: `None` for an unused one. */
  method ReadEntry(e: Bytes, first: u64, last: u64) returns (r: Result<Option<Partition>, Error>)
    requires |e| == ENTRY_SIZE && Addressable(last)
    ensures r.Ok? <==> EntryOk(e, first, last)
    ensures r.Ok? && Used(e) ==> Sized(e) && r.value == Some(PartitionOf(e))
    ensures r.Ok? && !Used(e) ==> r.value == None
  {
    if AllZero(e[..16]) {
      if !AllZero(e) { return Err(StaleEntry); }
      return Ok(None);
    }
    var start, end := U64(e, 32), U64(e, 40);
    if start < first || end > last || start > end || AllZero(e[16..32]) {
      return Err(BadBounds);
    }
    if !IsUtf16(NameFrom(e, 0)) { return Err(BadName); }
    var p := PartitionFrom(e, start, end);
    return Ok(Some(p));
  }

  method PartitionFrom(e: Bytes, start: u64, end: u64) returns (p: Partition)
    requires |e| == ENTRY_SIZE && start == Start(e) && end == End(e) && Sized(e)
    ensures p == PartitionOf(e)
  {
    p := Partition(Guid(e[16..32]), Guid(e[..16]), NameFrom(e, 0), start * 512, (end - start + 1) * 512, U64(e, 48));
  }

  lemma RowsOkGrows(table: Bytes, n: nat, first: u64, last: u64)
    requires |table| == TABLE_SIZE && n < ENTRIES
    ensures RowsOk(table, n + 1, first, last) <==> RowsOk(table, n, first, last) && RowOk(table, n, first, last)
  {
    if RowsOk(table, n, first, last) && RowOk(table, n, first, last) {
      forall i | 0 <= i < n + 1 ensures RowOk(table, i, first, last) {
        assert i < n || i == n;
      }
    }
  }

  lemma RowsApartGrows(table: Bytes, n: nat)
    requires |table| == TABLE_SIZE && n < ENTRIES
    ensures RowsApart(table, n + 1) <==> RowsApart(table, n) && !ClashesEarlier(table, n)
  {
    if RowsApart(table, n) && !ClashesEarlier(table, n) {
      forall i, j | 0 <= i < j < n + 1 ensures RowsCompatible(table, i, j) {
        assert j < n || j == n;
      }
    }
    if ClashesEarlier(table, n) {
      var i :| 0 <= i < n && !RowsCompatible(table, i, n);
      assert !RowsApart(table, n + 1);
    }
  }

  lemma TableGrows(table: Bytes, n: nat, first: u64, last: u64)
    requires |table| == TABLE_SIZE && n < ENTRIES && TableOk(table, n, first, last)
    ensures TableOk(table, n + 1, first, last) <==>
              RowOk(table, n, first, last) && (RowUsed(table, n) ==> !ClashesEarlier(table, n))
  {
    RowsOkGrows(table, n, first, last);
    RowsApartGrows(table, n);
    if !RowUsed(table, n) { UnusedNeverClashes(table, n); }
  }

  lemma UnusedNeverClashes(table: Bytes, n: nat)
    requires |table| == TABLE_SIZE && n < ENTRIES && !RowUsed(table, n)
    ensures !ClashesEarlier(table, n)
  {
  }

  lemma TableShrinks(table: Bytes, n: nat, first: u64, last: u64)
    requires |table| == TABLE_SIZE && n <= ENTRIES && TableOk(table, ENTRIES, first, last)
    ensures TableOk(table, n, first, last)
  {
  }

  /** One round of the loop over the table. */
  method AddEntry(table: Bytes, n: nat, first: u64, last: u64, partitions: seq<Partition>)
    returns (r: Result<seq<Partition>, Error>)
    requires |table| == TABLE_SIZE && n < ENTRIES && Addressable(last)
    requires TableOk(table, n, first, last) && Lists(table, n, partitions)
    ensures r.Ok? <==> TableOk(table, n + 1, first, last)
    ensures r.Ok? ==> Lists(table, n + 1, r.value)
  {
    TableGrows(table, n, first, last);
    ListsMore(table, n, partitions);
    var entry := ReadEntry(Entry(table, n), first, last);
    if entry.Err? { return Err(entry.error); }
    if entry.value.None? { return Ok(partitions); }
    ListedFit(table, n, partitions);
    assert RowUsed(table, n) && IsRow(table, n, entry.value.value);
    ClashIffEarlier(table, n, partitions);
    var clash := AnyClash(partitions, entry.value.value);
    if clash { return Err(DuplicateOrOverlap); }
    return Ok(partitions + [entry.value.value]);
  }

  method ReadTable(table: Bytes, first: u64, last: u64) returns (r: Result<seq<Partition>, Error>)
    requires |table| == TABLE_SIZE && Addressable(last)
    ensures r.Ok? <==> TableOk(table, ENTRIES, first, last)
    ensures r.Ok? ==> Lists(table, ENTRIES, r.value)
  {
    var partitions := [];
    for n := 0 to ENTRIES
      invariant TableOk(table, n, first, last) && Lists(table, n, partitions)
    {
      var more := AddEntry(table, n, first, last, partitions);
      if more.Err? {
        if TableOk(table, ENTRIES, first, last) { TableShrinks(table, n + 1, first, last); }
        return Err(more.error);
      }
      partitions := more.value;
    }
    return Ok(partitions);
  }

  // ---- the whole disk ----

  predicate MbrOk(m: Bytes, last: u64)
    requires |m| == SECTOR
  {
    var size := U32(m, 458);
    && m[510] == 0x55 && m[511] == 0xaa && m[446] == 0 && m[450] == 0xee && U32(m, 454) == 1
    && (size == 0xffff_ffff || size == last as int)
    && AllZero(m[462..510])
  }

  /** The two headers agree and declare a usable range outside both copies of header and table. */
  predicate GeometryOk(h: Bytes, backup: Bytes, last: u64)
    requires |h| == |backup| == SECTOR && last >= 67
  {
    && h[40..72] == backup[40..72] && h[80..92] == backup[80..92]
    && U64(h, 72) == 2 && U64(backup, 72) == last - 32
    && U32(h, 80) == 128 && U32(h, 84) == 128
    && 34 <= U64(h, 40) <= U64(h, 48) <= last - 33
    && !AllZero(h[56..72])
  }

  predicate SizeOk(len: u64) {
    len >= 68 * 512 && len % 512 == 0
  }

  function LastLba(len: u64): (last: u64)
    requires SizeOk(len)
    ensures 67 <= last && Addressable(last) && last as int * 512 + 512 == len as int
  {
    len / 512 - 1
  }

  /** Every sector the reader looks at is there. */
  predicate AllReadable(disk: Bytes, len: u64)
    requires SizeOk(len)
  {
    Readable(disk, 1024, TABLE_SIZE) && Readable(disk, LastLba(len) as int * 512, 512)
  }

  function Mbr(disk: Bytes): (r: Bytes)
    requires |disk| >= 1024
    ensures |r| == SECTOR
  {
    Read(disk, 0, 512)
  }

  function Backup(disk: Bytes, len: u64): (r: Bytes)
    requires SizeOk(len) && AllReadable(disk, len)
    ensures |r| == SECTOR
  {
    Read(disk, LastLba(len) as int * 512, 512)
  }

  function Primary(disk: Bytes): (r: Bytes)
    requires |disk| >= 1024
    ensures |r| == SECTOR
  {
    Read(disk, 512, 512)
  }

  function Table(disk: Bytes): Bytes
    requires Readable(disk, 1024, TABLE_SIZE)
  {
    Read(disk, 1024, TABLE_SIZE)
  }

  predicate HeadersOk(disk: Bytes, len: u64)
    requires SizeOk(len) && AllReadable(disk, len)
  {
    var last := LastLba(len);
    && MbrOk(Mbr(disk), last)
    && HeaderOk(Primary(disk), 1, last) && HeaderOk(Backup(disk, len), last, 1)
    && GeometryOk(Primary(disk), Backup(disk, len), last)
  }

  predicate TablesOk(disk: Bytes, len: u64)
    requires SizeOk(len) && AllReadable(disk, len)
  {
    && Number(Crc32(Table(disk))) == U32(Primary(disk), 88)
    && BackupTable(disk, len) == Table(disk)
    && TableOk(Table(disk), ENTRIES, FirstUsable(disk), LastUsable(disk))
  }

  function BackupTable(disk: Bytes, len: u64): Bytes
    requires SizeOk(len) && AllReadable(disk, len)
  {
    Read(disk, (LastLba(len) as int - 32) * 512, TABLE_SIZE)
  }

  function FirstUsable(disk: Bytes): u64
    requires |disk| >= 1024
  {
    U64(Primary(disk), 40)
  }

  function LastUsable(disk: Bytes): u64
    requires |disk| >= 1024
  {
    U64(Primary(disk), 48)
  }

  /** What it takes to be accepted. */
  predicate ValidDisk(disk: Bytes, len: u64) {
    SizeOk(len) && AllReadable(disk, len) && HeadersOk(disk, len) && TablesOk(disk, len)
  }

  /** The capped comparison accepts the true size or the value that stands for any. */
  method CheckDiskSize(word: nat, last: u64) returns (ok: bool)
    requires word < 0x1_0000_0000
    ensures ok <==> word == 0xffff_ffff || word == last as int
  {
    var size := word as u64;
    var capped := if last < 0xffff_ffff then last else 0xffff_ffff;
    ok := size == capped || size == 0xffff_ffff;
  }

  method CheckMbr(disk: Bytes, last: u64) returns (r: Result<(), Error>)
    ensures r.Ok? <==> Readable(disk, 0, 512) && MbrOk(Read(disk, 0, 512), last)
  {
    if !Readable(disk, 0, 512) { return Err(ReadFailed); }
    var mbr := Read(disk, 0, 512);
    var sizeOk := CheckDiskSize(U32(mbr, 458), last);
    SignatureBytes(mbr);
    if mbr[510..] != [0x55, 0xaa] || mbr[446] != 0 || mbr[450] != 0xee || U32(mbr, 454) != 1
       || !sizeOk || !AllZero(mbr[462..510]) {
      return Err(NoProtectiveMbr);
    }
    return Ok(());
  }

  lemma SignatureBytes(m: Bytes)
    requires |m| == SECTOR
    ensures m[510..] == [0x55, 0xaa] <==> m[510] == 0x55 && m[511] == 0xaa
  {
  }

  method CheckGeometry(h: Bytes, backup: Bytes, last: u64) returns (ok: bool)
    requires |h| == |backup| == SECTOR && last >= 67
    ensures ok <==> GeometryOk(h, backup, last)
  {
    var first, lastUsable := U64(h, 40), U64(h, 48);
    if h[40..72] != backup[40..72] || h[80..92] != backup[80..92]
       || U64(h, 72) != 2 || U64(backup, 72) != last - 32
       || U32(h, 80) != 128 || U32(h, 84) != 128
       || first < 34 || lastUsable > last - 33 || first > lastUsable
       || AllZero(h[56..72]) {
      return false;
    }
    return true;
  }

  /** The backup header is the last sector, so a disk that has it has everything before it. */
  lemma BackupIsLast(disk: Bytes, len: u64)
    requires SizeOk(len)
    ensures Readable(disk, LastLba(len) as int * 512, 512) <==> AllReadable(disk, len)
    ensures AllReadable(disk, len) ==> |disk| >= 1024
  {
  }

  method CheckHeaders(disk: Bytes, len: u64) returns (r: Result<Bytes, Error>)
    requires SizeOk(len)
    ensures r.Ok? <==> AllReadable(disk, len) && HeadersOk(disk, len)
    ensures r.Ok? ==> r.value == Primary(disk) && Addressable(LastUsable(disk))
  {
    var last := len / 512 - 1;
    BackupIsLast(disk, len);
    var mbr := CheckMbr(disk, last);
    if mbr.Err? { return Err(mbr.error); }
    var h := Header(disk, 1, last);
    if h.Err? { return Err(h.error); }
    var backup := Header(disk, last, 1);
    if backup.Err? { return Err(backup.error); }
    var ok := CheckGeometry(h.value, backup.value, last);
    if !ok { return Err(BadGeometry); }
    return Ok(h.value);
  }

  method CheckTables(disk: Bytes, len: u64, h: Bytes) returns (r: Result<Bytes, Error>)
    requires SizeOk(len) && Readable(disk, LastLba(len) as int * 512, 512) && h == Primary(disk)
    ensures r.Ok? <==>
              && AllReadable(disk, len) && Number(Crc32(Table(disk))) == U32(h, 88)
              && BackupTable(disk, len) == Table(disk)
    ensures r.Ok? ==> r.value == Table(disk)
  {
    var last := len / 512 - 1;
    if !Readable(disk, 1024, TABLE_SIZE) { return Err(ReadFailed); }
    var entries := Read(disk, 1024, TABLE_SIZE);
    var crc := ComputeCrc32(entries);
    if Number(crc) != U32(h, 88) { return Err(TableMismatch); }
    var backupAt := (last - 32) * 512;
    if !Readable(disk, backupAt as int, TABLE_SIZE) { return Err(ReadFailed); }
    if entries != Read(disk, backupAt as int, TABLE_SIZE) { return Err(TableMismatch); }
    return Ok(entries);
  }

  method EnumerateIn(disk: Bytes, len: u64) returns (r: Result<Layout, Error>)
    ensures r.Ok? <==> ValidDisk(disk, len)
    ensures r.Ok? ==> r.value.diskId == DiskId(disk) && Lists(Table(disk), ENTRIES, r.value.partitions)
  {
    if len < 68 * 512 || len % 512 != 0 { return Err(InvalidLength); }
    r := ReadDisk(disk, len);
  }

  function HeaderId(h: Bytes): string
    requires |h| == SECTOR
  {
    Guid(h[56..72])
  }

  function DiskId(disk: Bytes): string
    requires |disk| >= 1024
  {
    HeaderId(Primary(disk))
  }

  method ReadTables(disk: Bytes, len: u64, h: Bytes) returns (r: Result<seq<Partition>, Error>)
    requires SizeOk(len) && Readable(disk, LastLba(len) as int * 512, 512)
    requires h == Primary(disk) && Addressable(LastUsable(disk))
    ensures r.Ok? <==> AllReadable(disk, len) && TablesOk(disk, len)
    ensures r.Ok? ==> Lists(Table(disk), ENTRIES, r.value)
  {
    var entries := CheckTables(disk, len, h);
    if entries.Err? { return Err(entries.error); }
    r := ReadTable(entries.value, U64(h, 40), U64(h, 48));
  }

  method ReadDisk(disk: Bytes, len: u64) returns (r: Result<Layout, Error>)
    requires SizeOk(len)
    ensures r.Ok? <==> AllReadable(disk, len) && HeadersOk(disk, len) && TablesOk(disk, len)
    ensures r.Ok? ==> r.value.diskId == DiskId(disk) && Lists(Table(disk), ENTRIES, r.value.partitions)
  {
    var headers := CheckHeaders(disk, len);
    if headers.Err? { return Err(headers.error); }
    var h := headers.value;
    var partitions := ReadTables(disk, len, h);
    if partitions.Err? { return Err(partitions.error); }
    return Ok(Layout(HeaderId(h), partitions.value));
  }

  // ---- what acceptance guarantees ----

  /** The bytes of a partition. */
  predicate Covers(p: Partition, at: int) {
    p.offset as int <= at < p.offset as int + p.length as int
  }

  /** Bytes the partition table itself occupies: MBR, both headers, both tables. */
  predicate Reserved(len: u64, at: int)
    requires SizeOk(len)
  {
    0 <= at < 1024 + TABLE_SIZE || (LastLba(len) as int - 32) * 512 <= at
  }

  lemma EntryBounds(e: Bytes, first: u64, last: u64)
    requires |e| == ENTRY_SIZE && Used(e) && EntryOk(e, first, last) && Sized(e)
    ensures var p := PartitionOf(e);
            && p.offset % 512 == 0 && p.length % 512 == 0 && p.length > 0
            && first as int * 512 <= p.offset as int
            && p.offset as int + p.length as int <= (last as int + 1) * 512
  {
  }

  /** Where a listed partition lies, from the table alone. */
  lemma RowBounds(table: Bytes, first: u64, last: u64, partitions: seq<Partition>, k: nat)
    requires |table| == TABLE_SIZE && TableOk(table, ENTRIES, first, last)
    requires Lists(table, ENTRIES, partitions) && k < |partitions|
    ensures var p := partitions[k];
            && p.offset % 512 == 0 && p.length % 512 == 0 && p.length > 0
            && first as int * 512 <= p.offset as int
            && p.offset as int + p.length as int <= (last as int + 1) * 512
  {
    var used := UsedIndexes(table, ENTRIES);
    assert used[k] in used;
    assert IsRow(table, used[k], partitions[k]) && RowOk(table, used[k], first, last) && RowUsed(table, used[k]);
    EntryBounds(Entry(table, used[k]), first, last);
  }

  lemma UsableRange(disk: Bytes, len: u64)
    requires SizeOk(len) && AllReadable(disk, len) && HeadersOk(disk, len)
    ensures 34 <= FirstUsable(disk) && LastUsable(disk) <= LastLba(len) - 33
  {
  }

  /** Whole sectors of a range, clear of everything reserved. */
  predicate WithinUsable(p: Partition, len: u64, first: u64, last: u64)
    requires SizeOk(len)
  {
    && p.offset % 512 == 0 && p.length % 512 == 0 && p.length > 0
    && first as int * 512 <= p.offset as int
    && p.offset as int + p.length as int <= (last as int + 1) * 512
    && p.offset as int >= 1024 + TABLE_SIZE
    && p.offset as int + p.length as int <= (LastLba(len) as int - 32) * 512
  }

  lemma RowWithin(table: Bytes, len: u64, first: u64, last: u64, partitions: seq<Partition>, k: nat)
    requires |table| == TABLE_SIZE && TableOk(table, ENTRIES, first, last)
    requires Lists(table, ENTRIES, partitions) && k < |partitions|
    requires SizeOk(len) && 34 <= first && last <= LastLba(len) - 33
    ensures WithinUsable(partitions[k], len, first, last)
  {
    RowBounds(table, first, last, partitions, k);
  }

  /** Every partition is whole sectors of the declared usable range, and touches nothing reserved. */
  lemma PartitionBounds(disk: Bytes, len: u64, partitions: seq<Partition>, k: nat)
    requires ValidDisk(disk, len) && Lists(Table(disk), ENTRIES, partitions) && k < |partitions|
    ensures WithinUsable(partitions[k], len, FirstUsable(disk), LastUsable(disk))
  {
    UsableRange(disk, len);
    RowWithin(Table(disk), len, FirstUsable(disk), LastUsable(disk), partitions, k);
  }

  /** `WithinUsable` in bytes: inside the disk, outside MBR, headers and tables. */
  lemma WithinMeansUnreserved(p: Partition, len: u64, first: u64, last: u64, at: int)
    requires SizeOk(len) && WithinUsable(p, len, first, last) && Covers(p, at)
    ensures 0 <= at < len as int && !Reserved(len, at)
  {
  }

  lemma RowsDisjoint(table: Bytes, first: u64, last: u64, partitions: seq<Partition>, j: nat, k: nat)
    requires |table| == TABLE_SIZE && TableOk(table, ENTRIES, first, last)
    requires Lists(table, ENTRIES, partitions) && j < k < |partitions|
    ensures partitions[j].id != partitions[k].id
    ensures forall at: int :: !(Covers(partitions[j], at) && Covers(partitions[k], at))
  {
    var used := UsedIndexes(table, ENTRIES);
    assert used[j] in used && used[k] in used;
    assert IsRow(table, used[j], partitions[j]) && IsRow(table, used[k], partitions[k]);
    assert RowsCompatible(table, used[j], used[k]);
    ClashMeansIncompatible(Entry(table, used[j]), Entry(table, used[k]));
  }

  /** No two partitions share an identity or a byte. */
  lemma PartitionsDisjoint(disk: Bytes, len: u64, partitions: seq<Partition>, j: nat, k: nat)
    requires ValidDisk(disk, len) && Lists(Table(disk), ENTRIES, partitions) && j < k < |partitions|
    ensures partitions[j].id != partitions[k].id
    ensures forall at: int :: !(Covers(partitions[j], at) && Covers(partitions[k], at))
  {
    RowsDisjoint(Table(disk), FirstUsable(disk), LastUsable(disk), partitions, j, k);
  }

  /** The list is the non-empty entries, each once, in table order. */
  lemma PartitionsComplete(table: Bytes, partitions: seq<Partition>) returns (source: seq<nat>)
    requires |table| == TABLE_SIZE && Lists(table, ENTRIES, partitions)
    ensures |source| == |partitions|
    ensures forall a, b :: 0 <= a < b < |source| ==> source[a] < source[b]
    ensures forall k :: 0 <= k < |source| ==> source[k] < ENTRIES && IsRow(table, source[k], partitions[k])
    ensures forall i: nat :: i in source <==> i < ENTRIES && !AllZero(Entry(table, i)[..16])
  {
    source := UsedIndexes(table, ENTRIES);
    forall i: nat ensures i in source <==> i < ENTRIES && !AllZero(Entry(table, i)[..16]) {
      assert i < ENTRIES ==> RowUsed(table, i) == !AllZero(Entry(table, i)[..16]);
    }
  }
}
