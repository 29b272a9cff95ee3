/**
 A writer of GPT disks, field by field as sections 5.3.2 and 5.3.3 of UEFI 2.10 lay them out, and
 the round trip: the reader accepts what it writes and lists what was asked for.
 */
module GptWriter {
  import opened Common
  import opened Crc
  import opened Gpt
  import opened GptLayout

  // ---- numbers as bytes, the least significant first ----

  lemma NextValue(b: bv8)
    requires b != 0xff
    ensures Value(b + 1) == Value(b) + 1
  {
  }

  lemma {:induction false} ByteOf(n: nat) returns (b: bv8)
    requires n < 0x100
    ensures Value(b) == n
  {
    if n == 0 {
      b := 0;
    } else {
      var less := ByteOf(n - 1);
      assert Value(0xff) == 0xff;
      NextValue(less);
      b := less + 1;
    }
  }

  lemma ByteExists(n: nat)
    requires n < 0x100
    ensures exists b: bv8 :: Value(b) == n
  {
    var b := ByteOf(n);
  }

  /** The byte with a value. */
  ghost function Octet(n: nat): (b: bv8)
    requires n < 0x100
    ensures Value(b) == n
  {
    ByteExists(n);
    var b: bv8 :| Value(b) == n;
    b
  }

  ghost function Put16(n: nat): (r: Bytes)
    requires n < 0x1_0000
    ensures |r| == 2
  {
    [Octet(n % 0x100), Octet(n / 0x100)]
  }

  ghost function Put32(n: nat): (r: Bytes)
    requires n < 0x1_0000_0000
    ensures |r| == 4
  {
    Put16(n % 0x1_0000) + Put16(n / 0x1_0000)
  }

  ghost function Put64(n: nat): (r: Bytes)
    requires n < 0x1_0000_0000_0000_0000
    ensures |r| == 8
  {
    Put32(n % 0x1_0000_0000) + Put32(n / 0x1_0000_0000)
  }

  /** `field` stands at `at`. */
  ghost predicate Stands(b: Bytes, at: nat, field: Bytes) {
    at + |field| <= |b| && b[at..at + |field|] == field
  }

  lemma StandsAt(b: Bytes, at: nat, field: Bytes, k: nat)
    requires Stands(b, at, field) && k < |field|
    ensures b[at + k] == field[k]
  {
    assert b[at..at + |field|][k] == b[at + k];
  }

  lemma Read16(b: Bytes, at: nat, n: nat)
    requires n < 0x1_0000 && Stands(b, at, Put16(n))
    ensures Value(b[at]) + 0x100 * Value(b[at + 1]) == n
  {
    StandsAt(b, at, Put16(n), 0);
    StandsAt(b, at, Put16(n), 1);
  }

  lemma StandsPart(b: Bytes, at: nat, first: Bytes, second: Bytes)
    requires Stands(b, at, first + second)
    ensures Stands(b, at, first) && Stands(b, at + |first|, second)
  {
    var both := first + second;
    assert b[at..at + |both|][..|first|] == b[at..at + |first|];
    assert b[at..at + |both|][|first|..] == b[at + |first|..at + |both|];
    assert both[..|first|] == first && both[|first|..] == second;
  }

  /** What is written with four bytes is read with them. */
  lemma Read32(b: Bytes, at: nat, n: nat)
    requires n < 0x1_0000_0000 && Stands(b, at, Put32(n))
    ensures U32(b, at) == n
  {
    StandsPart(b, at, Put16(n % 0x1_0000), Put16(n / 0x1_0000));
    Read16(b, at, n % 0x1_0000);
    Read16(b, at + 2, n / 0x1_0000);
  }

  /** And with eight. */
  lemma Read64(b: Bytes, at: nat, n: nat)
    requires n < 0x1_0000_0000_0000_0000 && Stands(b, at, Put64(n))
    ensures U64(b, at) as int == n
  {
    StandsPart(b, at, Put32(n % 0x1_0000_0000), Put32(n / 0x1_0000_0000));
    Read32(b, at, n % 0x1_0000_0000);
    Read32(b, at + 4, n / 0x1_0000_0000);
  }

  lemma StandsJoin(b: Bytes, at: nat, first: Bytes, second: Bytes)
    requires Stands(b, at, first) && Stands(b, at + |first|, second)
    ensures Stands(b, at, first + second)
  {
    assert b[at..at + |first| + |second|] == b[at..at + |first|] + b[at + |first|..at + |first| + |second|];
  }

  lemma StandsWhole(b: Bytes)
    ensures Stands(b, 0, b)
  {
  }

  function Zeros(n: nat): (r: Bytes)
    ensures |r| == n
  {
    seq(n, i => 0)
  }

  // ---- names ----

  /** A Unicode scalar value other than zero. */
  predicate IsScalar(c: nat) {
    0 < c < 0xd800 || 0xe000 <= c < 0x11_0000
  }

  /** UTF-16: one unit, or two from the surrogate ranges. */
  function Encode(c: nat): (r: seq<u16>)
    requires IsScalar(c)
    ensures 1 <= |r| <= 2
  {
    if c < 0x1_0000 then [c as u16]
    else [(0xd800 + (c - 0x1_0000) / 0x400) as u16, (0xdc00 + (c - 0x1_0000) % 0x400) as u16]
  }

  predicate IsText(text: seq<nat>) {
    forall i :: 0 <= i < |text| ==> IsScalar(text[i])
  }

  function Units(text: seq<nat>): seq<u16>
    requires IsText(text)
  {
    if text == [] then [] else Encode(text[0]) + Units(text[1..])
  }

  predicate NoZero(units: seq<u16>) {
    forall i :: 0 <= i < |units| ==> units[i] != 0
  }

  lemma {:induction false} UnitsAreUtf16(text: seq<nat>)
    requires IsText(text)
    ensures IsUtf16(Units(text)) && NoZero(Units(text))
  {
    if text != [] {
      var c, rest := text[0], Units(text[1..]);
      assert IsScalar(c);
      UnitsAreUtf16(text[1..]);
      if c < 0x1_0000 {
        assert (Encode(c) + rest)[1..] == rest;
      } else {
        assert (Encode(c) + rest)[2..] == rest;
      }
    }
  }

  /** The test for well-formedness accepts nothing else: such a name is the form of some text. */
  lemma {:induction false} Utf16IsText(units: seq<u16>) returns (text: seq<nat>)
    requires IsUtf16(units) && NoZero(units)
    ensures IsText(text) && Units(text) == units
  {
    if units == [] {
      text := [];
    } else if HighSurrogate(units[0]) {
      var rest := Utf16IsText(units[2..]);
      var c := 0x1_0000 + (units[0] as nat - 0xd800) * 0x400 + (units[1] as nat - 0xdc00);
      assert Encode(c) == [units[0], units[1]];
      text := [c] + rest;
      assert text[1..] == rest && units == [units[0], units[1]] + units[2..];
    } else {
      var rest := Utf16IsText(units[1..]);
      text := [units[0] as nat] + rest;
      assert text[1..] == rest && units == [units[0]] + units[1..];
    }
  }

  /** Two bytes a unit, zeros up to the field's 72 bytes. */
  ghost function NameBytes(name: seq<u16>): (r: Bytes)
    ensures |r| == 72
  {
    seq(72, i requires 0 <= i < 72 => NameByte(name, i))
  }

  ghost function NameByte(name: seq<u16>, i: nat): bv8 {
    if i / 2 < |name| then Put16(name[i / 2] as nat)[i % 2] else 0
  }

  lemma UnitReads(e: Bytes, name: seq<u16>, k: nat)
    requires |e| == ENTRY_SIZE && Stands(e, 56, NameBytes(name)) && k < 36
    ensures Unit(e[56 + 2 * k], e[57 + 2 * k]) == if k < |name| then name[k] else 0
  {
    StandsAt(e, 56, NameBytes(name), 2 * k);
    StandsAt(e, 56, NameBytes(name), 2 * k + 1);
    assert 2 * k / 2 == k && (2 * k + 1) / 2 == k && 2 * k % 2 == 0 && (2 * k + 1) % 2 == 1;
    assert NameBytes(name)[2 * k] == NameByte(name, 2 * k);
    assert NameBytes(name)[2 * k + 1] == NameByte(name, 2 * k + 1);
    assert Value(0) == 0;
  }

  lemma {:induction false} NameReads(e: Bytes, name: seq<u16>, k: nat)
    requires |e| == ENTRY_SIZE && Stands(e, 56, NameBytes(name)) && |name| <= 36 && NoZero(name) && k <= 36
    ensures NameFrom(e, k) == if k < |name| then name[k..] else []
    decreases 36 - k
  {
    if k < 36 {
      UnitReads(e, name, k);
      NameReads(e, name, k + 1);
      if k < |name| { assert name[k..] == [name[k]] + name[k + 1..]; }
    }
  }

  // ---- one entry ----

  /** What is asked for: kind, identity, first and last sector, attributes and name. */
  datatype Item = Item(kind: Bytes, id: Bytes, first: nat, last: nat, attributes: nat, text: seq<nat>)

  predicate ItemOk(p: Item, first: nat, last: nat) {
    && |p.kind| == |p.id| == 16 && !AllZero(p.kind) && !AllZero(p.id)
    && first <= p.first <= p.last <= last < 0x7f_ffff_ffff_ffff && p.attributes < 0x1_0000_0000_0000_0000
    && IsText(p.text) && |Units(p.text)| <= 36
  }

  ghost function EntryBytes(p: Item): (e: Bytes)
    requires ItemOk(p, p.first, p.last)
    ensures |e| == ENTRY_SIZE
  {
    p.kind + (p.id + (Put64(p.first) + (Put64(p.last) + (Put64(p.attributes) + NameBytes(Units(p.text))))))
  }

  lemma EntryStands(e: Bytes, p: Item)
    requires ItemOk(p, p.first, p.last) && e == EntryBytes(p)
    ensures Stands(e, 0, p.kind) && Stands(e, 16, p.id) && Stands(e, 32, Put64(p.first))
    ensures Stands(e, 40, Put64(p.last)) && Stands(e, 48, Put64(p.attributes))
    ensures Stands(e, 56, NameBytes(Units(p.text)))
  {
    var n := NameBytes(Units(p.text));
    var a := Put64(p.attributes) + n;
    var l := Put64(p.last) + a;
    var f := Put64(p.first) + l;
    StandsWhole(e);
    StandsPart(e, 0, p.kind, p.id + f);
    StandsPart(e, 16, p.id, f);
    StandsPart(e, 32, Put64(p.first), l);
    StandsPart(e, 40, Put64(p.last), a);
    StandsPart(e, 48, Put64(p.attributes), n);
  }

  /** What the reader makes of one item. */
  function Wanted(p: Item): Partition
    requires ItemOk(p, p.first, p.last)
  {
    Partition(Guid(p.id), Guid(p.kind), Units(p.text),
              (p.first * 512) as u64, ((p.last - p.first + 1) * 512) as u64, p.attributes as u64)
  }

  lemma EntryNumbers(e: Bytes, p: Item)
    requires ItemOk(p, p.first, p.last) && e == EntryBytes(p)
    ensures Start(e) as int == p.first && End(e) as int == p.last && U64(e, 48) as int == p.attributes
  {
    EntryStands(e, p);
    Read64(e, 32, p.first);
    Read64(e, 40, p.last);
    Read64(e, 48, p.attributes);
  }

  lemma EntryTexts(e: Bytes, p: Item)
    requires ItemOk(p, p.first, p.last) && e == EntryBytes(p)
    ensures e[..16] == p.kind && e[16..32] == p.id
    ensures NameFrom(e, 0) == Units(p.text) && IsUtf16(Units(p.text))
  {
    EntryStands(e, p);
    UnitsAreUtf16(p.text);
    NameReads(e, Units(p.text), 0);
  }

  /** The partition an accepted entry with these numbers and texts stands for. */
  lemma EntryStandsFor(e: Bytes, p: Item, start: u64, end: u64)
    requires ItemOk(p, p.first, p.last) && |e| == ENTRY_SIZE
    requires start == Start(e) && end == End(e) && start as int == p.first && end as int == p.last
    requires U64(e, 48) as int == p.attributes
    requires e[..16] == p.kind && Identity(e) == p.id && NameFrom(e, 0) == Units(p.text)
    ensures Sized(e) && PartitionOf(e) == Wanted(p)
  {
    assert (start * 512) as int == p.first * 512;
    assert ((end - start + 1) * 512) as int == (p.last - p.first + 1) * 512;
  }

  lemma EntryReads(e: Bytes, p: Item, first: u64, last: u64)
    requires ItemOk(p, first as nat, last as nat) && ItemOk(p, p.first, p.last) && e == EntryBytes(p)
    ensures Used(e) && EntryOk(e, first, last) && Sized(e) && PartitionOf(e) == Wanted(p)
    ensures Identity(e) == p.id && Start(e) as int == p.first && End(e) as int == p.last
  {
    EntryNumbers(e, p);
    EntryTexts(e, p);
    EntryStandsFor(e, p, Start(e), End(e));
  }

  // ---- the table ----

  ghost predicate ItemsOk(ps: seq<Item>, first: nat, last: nat) {
    |ps| <= ENTRIES && forall i :: 0 <= i < |ps| ==> ItemOk(ps[i], first, last)
  }

  /** No two items share an identity or a sector. */
  ghost predicate ItemsApart(ps: seq<Item>) {
    forall i, j :: 0 <= i < j < |ps| ==> ItemApart(ps[i], ps[j])
  }

  predicate ItemApart(p: Item, q: Item) {
    p.id != q.id && (p.last < q.first || q.last < p.first)
  }

  lemma ItemOkItself(p: Item, first: nat, last: nat)
    requires ItemOk(p, first, last)
    ensures ItemOk(p, p.first, p.last)
  {
  }

  ghost function TableByte(ps: seq<Item>, first: nat, last: nat, i: nat): bv8
    requires ItemsOk(ps, first, last)
  {
    if i / ENTRY_SIZE < |ps| then
      ItemOkItself(ps[i / ENTRY_SIZE], first, last);
      EntryBytes(ps[i / ENTRY_SIZE])[i % ENTRY_SIZE]
    else 0
  }

  ghost function TableBytes(ps: seq<Item>, first: nat, last: nat): (t: Bytes)
    requires ItemsOk(ps, first, last)
    ensures |t| == TABLE_SIZE
  {
    seq(TABLE_SIZE, i requires 0 <= i < TABLE_SIZE => TableByte(ps, first, last, i))
  }

  lemma RowPlace(n: nat, k: nat)
    requires k < ENTRY_SIZE
    ensures (ENTRY_SIZE * n + k) / ENTRY_SIZE == n && (ENTRY_SIZE * n + k) % ENTRY_SIZE == k
  {
  }

  lemma TableAt(ps: seq<Item>, first: nat, last: nat, n: nat, k: nat)
    requires ItemsOk(ps, first, last) && n < ENTRIES && k < ENTRY_SIZE
    ensures Entry(TableBytes(ps, first, last), n)[k] == TableByte(ps, first, last, ENTRY_SIZE * n + k)
    ensures (ENTRY_SIZE * n + k) / ENTRY_SIZE == n && (ENTRY_SIZE * n + k) % ENTRY_SIZE == k
  {
    RowPlace(n, k);
    assert Entry(TableBytes(ps, first, last), n)[k] == TableBytes(ps, first, last)[ENTRY_SIZE * n + k];
  }

  lemma RowWritten(ps: seq<Item>, first: nat, last: nat, n: nat)
    requires ItemsOk(ps, first, last) && n < ENTRIES
    ensures n < |ps| ==>
              ItemOk(ps[n], ps[n].first, ps[n].last) && Entry(TableBytes(ps, first, last), n) == EntryBytes(ps[n])
    ensures n >= |ps| ==> AllZero(Entry(TableBytes(ps, first, last), n))
  {
    var e := Entry(TableBytes(ps, first, last), n);
    if n < |ps| {
      ItemOkItself(ps[n], first, last);
      forall k: nat | k < ENTRY_SIZE ensures e[k] == EntryBytes(ps[n])[k] { TableAt(ps, first, last, n, k); }
    } else {
      forall k: nat | k < ENTRY_SIZE ensures e[k] == 0 { TableAt(ps, first, last, n, k); }
    }
  }

  lemma RowReads(ps: seq<Item>, first: u64, last: u64, n: nat)
    requires ItemsOk(ps, first as nat, last as nat) && n < ENTRIES
    ensures var t := TableBytes(ps, first as nat, last as nat);
            && RowOk(t, n, first, last) && (RowUsed(t, n) <==> n < |ps|)
            && (n < |ps| ==>
                  && ItemOk(ps[n], ps[n].first, ps[n].last) && IsRow(t, n, Wanted(ps[n]))
                  && Identity(Entry(t, n)) == ps[n].id
                  && Start(Entry(t, n)) as int == ps[n].first && End(Entry(t, n)) as int == ps[n].last)
  {
    var t := TableBytes(ps, first as nat, last as nat);
    RowWritten(ps, first as nat, last as nat, n);
    if n < |ps| {
      EntryReads(Entry(t, n), ps[n], first, last);
    } else {
      ZeroPart(Entry(t, n));
    }
  }

  lemma ZeroPart(e: Bytes)
    requires |e| == ENTRY_SIZE && AllZero(e)
    ensures AllZero(e[..16])
  {
  }

  lemma RowsReadApart(ps: seq<Item>, first: u64, last: u64, i: nat, j: nat)
    requires ItemsOk(ps, first as nat, last as nat) && ItemsApart(ps) && i < j < ENTRIES
    ensures RowsCompatible(TableBytes(ps, first as nat, last as nat), i, j)
  {
    RowReads(ps, first, last, i);
    RowReads(ps, first, last, j);
    if j < |ps| { assert ItemApart(ps[i], ps[j]); }
  }

  lemma TableAccepted(ps: seq<Item>, first: u64, last: u64)
    requires ItemsOk(ps, first as nat, last as nat) && ItemsApart(ps)
    ensures TableOk(TableBytes(ps, first as nat, last as nat), ENTRIES, first, last)
  {
    var t := TableBytes(ps, first as nat, last as nat);
    forall i: nat | i < ENTRIES ensures RowOk(t, i, first, last) {
      RowReads(ps, first, last, i);
    }
    forall i: nat, j: nat | i < j < ENTRIES ensures RowsCompatible(t, i, j) {
      RowsReadApart(ps, first, last, i, j);
    }
  }

  function AllWanted(ps: seq<Item>): seq<Partition>
    requires forall i :: 0 <= i < |ps| ==> ItemOk(ps[i], ps[i].first, ps[i].last)
  {
    seq(|ps|, i requires 0 <= i < |ps| => Wanted(ps[i]))
  }

  predicate CountsUp(r: seq<nat>, n: nat) {
    |r| == n && forall k :: 0 <= k < n ==> r[k] == k
  }

  predicate StartsCounting(r: seq<nat>, n: nat) {
    n <= |r| && forall k :: 0 <= k < n ==> r[k] == k
  }

  lemma {:induction false} CountsSoFar(r: seq<nat>, n: nat, k: nat)
    requires Ascending(r) && k <= n && forall i: nat :: i < n ==> i in r
    ensures StartsCounting(r, k)
  {
    if k > 0 {
      CountsSoFar(r, n, k - 1);
      assert k - 1 in r;
      var j :| 0 <= j < |r| && r[j] == k - 1;
      assert k - 1 <= j;
      assert r[k - 1] <= r[j];
      IndexBelow(r, k - 1);
    }
  }

  lemma {:induction false} IndexBelow(r: seq<nat>, i: nat)
    requires Ascending(r) && i < |r|
    ensures i <= r[i]
  {
    if i > 0 {
      IndexBelow(r, i - 1);
      assert r[i - 1] < r[i];
    }
  }

  lemma AscendingCounts(r: seq<nat>, n: nat)
    requires Ascending(r) && forall i: nat :: i in r <==> i < n
    ensures CountsUp(r, n)
  {
    CountsSoFar(r, n, n);
    if r != [] {
      assert r[|r|-1] in r;
      IndexBelow(r, |r| - 1);
    }
  }

  /** The used rows are the first ones. */
  lemma UsedAreFirst(t: Bytes, count: nat)
    requires |t| == TABLE_SIZE && count <= ENTRIES
    requires forall i: nat :: i < ENTRIES ==> (RowUsed(t, i) <==> i < count)
    ensures CountsUp(UsedIndexes(t, ENTRIES), count)
  {
    var used := UsedIndexes(t, ENTRIES);
    forall i: nat ensures i in used <==> i < count {
      assert i < ENTRIES ==> (RowUsed(t, i) <==> i < count);
    }
    AscendingCounts(used, count);
  }

  /** Whatever the reader lists for a written table is what was asked for. */
  lemma TableReads(ps: seq<Item>, first: u64, last: u64, partitions: seq<Partition>)
    requires ItemsOk(ps, first as nat, last as nat)
    requires Lists(TableBytes(ps, first as nat, last as nat), ENTRIES, partitions)
    ensures forall i :: 0 <= i < |ps| ==> ItemOk(ps[i], ps[i].first, ps[i].last)
    ensures partitions == AllWanted(ps)
  {
    var t := TableBytes(ps, first as nat, last as nat);
    forall n: nat | n < ENTRIES
      ensures (RowUsed(t, n) <==> n < |ps|)
      ensures n < |ps| ==> ItemOk(ps[n], ps[n].first, ps[n].last) && IsRow(t, n, Wanted(ps[n]))
    {
      RowReads(ps, first, last, n);
    }
    UsedAreFirst(t, |ps|);
    forall k | 0 <= k < |ps| ensures partitions[k] == Wanted(ps[k]) {
      assert IsRow(t, UsedIndexes(t, ENTRIES)[k], partitions[k]);
      assert IsRow(t, k, Wanted(ps[k]));
    }
  }

  // ---- the headers ----

  /** What a header says. */
  datatype Head = Head(lba: nat, alternate: nat, first: nat, last: nat, diskId: Bytes, table: nat, tableCrc: nat)

  predicate HeadOk(f: Head) {
    && f.lba < 0x1_0000_0000_0000_0000 && f.alternate < 0x1_0000_0000_0000_0000
    && f.first < 0x1_0000_0000_0000_0000 && f.last < 0x1_0000_0000_0000_0000
    && |f.diskId| == 16 && f.table < 0x1_0000_0000_0000_0000 && f.tableCrc < 0x1_0000_0000
  }

  /** "EFI PART" */
  function Signature(): Bytes {
    [0x45, 0x46, 0x49, 0x20, 0x50, 0x41, 0x52, 0x54]
  }

  /** Signature, revision 1.0 and header size. */
  ghost function HeadStart(): (r: Bytes)
    ensures |r| == 16
  {
    Signature() + (Put32(0x10000) + Put32(92))
  }

  /** Where the table is, how many entries of which size it has, and its checksum. */
  ghost function HeadTable(f: Head): (r: Bytes)
    requires HeadOk(f)
    ensures |r| == 440
  {
    Put64(f.table) + (Put32(128) + (Put32(128) + (Put32(f.tableCrc) + Zeros(420))))
  }

  /** The usable range and the disk's identity: what both headers have in common. */
  ghost function HeadRange(f: Head): (r: Bytes)
    requires HeadOk(f)
    ensures |r| == 32
  {
    Put64(f.first) + (Put64(f.last) + f.diskId)
  }

  /** Everything behind the checksum. */
  ghost function HeadRest(f: Head): (r: Bytes)
    requires HeadOk(f)
    ensures |r| == 492
  {
    Put32(0) + (Put64(f.lba) + (Put64(f.alternate) + (HeadRange(f) + HeadTable(f))))
  }

  ghost function HeadCrc(f: Head): nat
    requires HeadOk(f)
  {
    Number(Crc32(HeadStart() + [0, 0, 0, 0] + HeadRest(f)[..72]))
  }

  ghost function HeadBytes(f: Head): (h: Bytes)
    requires HeadOk(f)
    ensures |h| == 512
  {
    HeadStart() + (Put32(HeadCrc(f)) + HeadRest(f))
  }

  lemma StartStands(h: Bytes, f: Head)
    requires HeadOk(f) && h == HeadBytes(f)
    ensures Stands(h, 0, HeadStart()) && Stands(h, 16, Put32(HeadCrc(f))) && Stands(h, 20, HeadRest(f))
    ensures Stands(h, 0, Signature()) && Stands(h, 8, Put32(0x10000)) && Stands(h, 12, Put32(92))
  {
    StandsWhole(h);
    StandsPart(h, 0, HeadStart(), Put32(HeadCrc(f)) + HeadRest(f));
    StandsPart(h, 16, Put32(HeadCrc(f)), HeadRest(f));
    StandsPart(h, 0, Signature(), Put32(0x10000) + Put32(92));
    StandsPart(h, 8, Put32(0x10000), Put32(92));
  }

  lemma RestStands(h: Bytes, f: Head)
    requires HeadOk(f) && h == HeadBytes(f)
    ensures Stands(h, 20, Put32(0)) && Stands(h, 24, Put64(f.lba)) && Stands(h, 32, Put64(f.alternate))
    ensures Stands(h, 40, HeadRange(f)) && Stands(h, 72, HeadTable(f))
  {
    StartStands(h, f);
    var tail := HeadRange(f) + HeadTable(f);
    StandsPart(h, 20, Put32(0), Put64(f.lba) + (Put64(f.alternate) + tail));
    StandsPart(h, 24, Put64(f.lba), Put64(f.alternate) + tail);
    StandsPart(h, 32, Put64(f.alternate), tail);
    StandsPart(h, 40, HeadRange(f), HeadTable(f));
  }

  lemma RangeStands(h: Bytes, f: Head)
    requires HeadOk(f) && Stands(h, 40, HeadRange(f))
    ensures Stands(h, 40, Put64(f.first)) && Stands(h, 48, Put64(f.last)) && Stands(h, 56, f.diskId)
  {
    StandsPart(h, 40, Put64(f.first), Put64(f.last) + f.diskId);
    StandsPart(h, 48, Put64(f.last), f.diskId);
  }

  lemma TableStands(h: Bytes, f: Head)
    requires HeadOk(f) && Stands(h, 72, HeadTable(f))
    ensures Stands(h, 72, Put64(f.table)) && Stands(h, 80, Put32(128)) && Stands(h, 84, Put32(128))
    ensures Stands(h, 88, Put32(f.tableCrc))
  {
    var crc := Put32(f.tableCrc) + Zeros(420);
    StandsPart(h, 72, Put64(f.table), Put32(128) + (Put32(128) + crc));
    StandsPart(h, 80, Put32(128), Put32(128) + crc);
    StandsPart(h, 84, Put32(128), crc);
    StandsPart(h, 88, Put32(f.tableCrc), Zeros(420));
  }

  lemma HeadChecked(h: Bytes, f: Head)
    requires HeadOk(f) && h == HeadBytes(f)
    ensures Checked(h) == HeadStart() + [0, 0, 0, 0] + HeadRest(f)[..72]
  {
    StartStands(h, f);
    assert h[20..92] == h[20..512][..72];
    assert h[20..512] == HeadRest(f) && h[..16] == h[0..16] == HeadStart();
  }

  /** The reader accepts a written header. */
  lemma HeadAccepted(h: Bytes, f: Head)
    requires HeadOk(f) && h == HeadBytes(f)
    ensures HeaderOk(h, f.lba as u64, f.alternate as u64)
  {
    StartStands(h, f);
    RestStands(h, f);
    HeadChecked(h, f);
    Read32(h, 8, 0x10000);
    Read32(h, 12, 92);
    Read32(h, 16, HeadCrc(f));
    Read32(h, 20, 0);
    Read64(h, 24, f.lba);
    Read64(h, 32, f.alternate);
  }

  /** And reads from it what it says. */
  lemma HeadReads(h: Bytes, f: Head)
    requires HeadOk(f) && h == HeadBytes(f)
    ensures U64(h, 40) as int == f.first && U64(h, 48) as int == f.last && h[56..72] == f.diskId
    ensures U64(h, 72) as int == f.table && U32(h, 80) == 128 && U32(h, 84) == 128 && U32(h, 88) == f.tableCrc
    ensures h[40..72] == HeadRange(f)
    ensures h[80..92] == Put32(128) + (Put32(128) + Put32(f.tableCrc))
  {
    RestStands(h, f);
    RangeStands(h, f);
    TableStands(h, f);
    Read64(h, 40, f.first);
    Read64(h, 48, f.last);
    Read64(h, 72, f.table);
    Read32(h, 80, 128);
    Read32(h, 84, 128);
    Read32(h, 88, f.tableCrc);
    StandsJoin(h, 84, Put32(128), Put32(f.tableCrc));
    StandsJoin(h, 80, Put32(128), Put32(128) + Put32(f.tableCrc));
  }

  // ---- the protective MBR ----

  /** One partition of type 0xee over the whole disk, from sector 1. */
  ghost function MbrBytes(size: nat): (m: Bytes)
    requires size < 0x1_0000_0000
    ensures |m| == 512
  {
    Zeros(446) + ([0x00, 0x00, 0x02, 0x00] + ([0xee, 0xff, 0xff, 0xff]
      + (Put32(1) + (Put32(size) + (Zeros(48) + [0x55, 0xaa])))))
  }

  lemma MbrStands(m: Bytes, size: nat)
    requires size < 0x1_0000_0000 && m == MbrBytes(size)
    ensures Stands(m, 446, [0x00, 0x00, 0x02, 0x00]) && Stands(m, 450, [0xee, 0xff, 0xff, 0xff])
    ensures Stands(m, 454, Put32(1)) && Stands(m, 458, Put32(size))
    ensures Stands(m, 462, Zeros(48)) && Stands(m, 510, [0x55, 0xaa])
  {
    var end := Zeros(48) + [0x55, 0xaa];
    var tail := Put32(1) + (Put32(size) + end);
    StandsWhole(m);
    StandsPart(m, 0, Zeros(446), [0x00, 0x00, 0x02, 0x00] + ([0xee, 0xff, 0xff, 0xff] + tail));
    StandsPart(m, 446, [0x00, 0x00, 0x02, 0x00], [0xee, 0xff, 0xff, 0xff] + tail);
    StandsPart(m, 450, [0xee, 0xff, 0xff, 0xff], tail);
    StandsPart(m, 454, Put32(1), Put32(size) + end);
    StandsPart(m, 458, Put32(size), end);
    StandsPart(m, 462, Zeros(48), [0x55, 0xaa]);
  }

  lemma MbrBytesAt(m: Bytes, size: nat)
    requires size < 0x1_0000_0000 && m == MbrBytes(size)
    ensures m[446] == 0 && m[450] == 0xee && m[510] == 0x55 && m[511] == 0xaa && AllZero(m[462..510])
  {
    MbrStands(m, size);
    StandsAt(m, 446, [0x00, 0x00, 0x02, 0x00], 0);
    StandsAt(m, 450, [0xee, 0xff, 0xff, 0xff], 0);
    StandsAt(m, 510, [0x55, 0xaa], 0);
    StandsAt(m, 510, [0x55, 0xaa], 1);
  }

  lemma MbrNumbers(m: Bytes, size: nat)
    requires size < 0x1_0000_0000 && m == MbrBytes(size)
    ensures U32(m, 454) == 1 && U32(m, 458) == size
  {
    MbrStands(m, size);
    Read32(m, 454, 1);
    Read32(m, 458, size);
  }

  lemma MbrAccepted(m: Bytes, size: nat, last: u64)
    requires size < 0x1_0000_0000 && m == MbrBytes(size) && (size == 0xffff_ffff || size == last as int)
    ensures MbrOk(m, last)
  {
    MbrBytesAt(m, size);
    MbrNumbers(m, size);
  }

  // ---- the disk ----

  /**
   What is to be written: how many sectors, the usable range, the identity, the items, and what
   the rest of the disk holds. `wholeDisk` writes the greatest size in the MBR, as Windows does.
   */
  datatype Plan = Plan(
    sectors: nat, first: nat, last: nat, diskId: Bytes, items: seq<Item>, rest: Bytes, wholeDisk: bool)

  ghost predicate PlanOk(p: Plan) {
    && 68 <= p.sectors && p.sectors * 512 < 0x1_0000_0000_0000_0000
    && 34 <= p.first <= p.last <= p.sectors - 34
    && |p.diskId| == 16 && !AllZero(p.diskId)
    && ItemsOk(p.items, p.first, p.last) && ItemsApart(p.items)
    && |p.rest| == (p.sectors - 67) * 512
    && (p.wholeDisk || p.sectors <= 0x1_0000_0000)
  }

  ghost function PlanTable(p: Plan): (t: Bytes)
    requires PlanOk(p)
    ensures |t| == TABLE_SIZE
  {
    TableBytes(p.items, p.first, p.last)
  }

  ghost function PrimaryHead(p: Plan): (f: Head)
    requires PlanOk(p)
    ensures HeadOk(f)
  {
    Head(1, p.sectors - 1, p.first, p.last, p.diskId, 2, Number(Crc32(PlanTable(p))))
  }

  ghost function BackupHead(p: Plan): (f: Head)
    requires PlanOk(p)
    ensures HeadOk(f)
  {
    Head(p.sectors - 1, 1, p.first, p.last, p.diskId, p.sectors - 33, Number(Crc32(PlanTable(p))))
  }

  ghost function PlanMbr(p: Plan): (m: Bytes)
    requires PlanOk(p)
    ensures |m| == 512
  {
    MbrBytes(if p.wholeDisk then 0xffff_ffff else p.sectors - 1)
  }

  ghost function DiskBytes(p: Plan): (d: Bytes)
    requires PlanOk(p)
    ensures |d| == p.sectors * 512
  {
    PlanMbr(p) + (HeadBytes(PrimaryHead(p)) + (PlanTable(p) + (p.rest + (PlanTable(p) + HeadBytes(BackupHead(p))))))
  }

  lemma SixStand(d: Bytes, a: Bytes, b: Bytes, c: Bytes, e: Bytes, f: Bytes, g: Bytes)
    requires d == a + (b + (c + (e + (f + g))))
    ensures Stands(d, 0, a) && Stands(d, |a|, b) && Stands(d, |a| + |b|, c)
    ensures Stands(d, |a| + |b| + |c| + |e|, f) && Stands(d, |a| + |b| + |c| + |e| + |f|, g)
  {
    StandsWhole(d);
    StandsPart(d, 0, a, b + (c + (e + (f + g))));
    StandsPart(d, |a|, b, c + (e + (f + g)));
    StandsPart(d, |a| + |b|, c, e + (f + g));
    StandsPart(d, |a| + |b| + |c|, e, f + g);
    StandsPart(d, |a| + |b| + |c| + |e|, f, g);
  }

  lemma DiskSize(d: Bytes, sectors: nat, len: u64)
    requires 68 <= sectors && len as int == sectors * 512 == |d|
    ensures SizeOk(len) && LastLba(len) as int == sectors - 1 && AllReadable(d, len)
    ensures Readable(d, (sectors - 33) * 512, TABLE_SIZE)
  {
  }

  lemma StandsRead(d: Bytes, at: nat, field: Bytes)
    requires Stands(d, at, field)
    ensures Readable(d, at, |field|) && Read(d, at, |field|) == field
  {
  }

  /** Where the reader finds the six parts of a disk. */
  lemma PartsRead(d: Bytes, sectors: nat, m: Bytes, h: Bytes, t: Bytes, rest: Bytes, b: Bytes, len: u64)
    requires 68 <= sectors && len as int == sectors * 512 && |m| == |h| == |b| == 512 && |t| == TABLE_SIZE
    requires |rest| == (sectors - 67) * 512 && d == m + (h + (t + (rest + (t + b))))
    ensures SizeOk(len) && AllReadable(d, len) && LastLba(len) as int == sectors - 1
    ensures Mbr(d) == m && Primary(d) == h && Table(d) == t && BackupTable(d, len) == t && Backup(d, len) == b
  {
    SixStand(d, m, h, t, rest, t, b);
    DiskSize(d, sectors, len);
    StandsRead(d, 0, m);
    StandsRead(d, 512, h);
    StandsRead(d, 1024, t);
    StandsRead(d, (sectors - 33) * 512, t);
    StandsRead(d, (sectors - 1) * 512, b);
  }

  /** The parts of the disk the reader looks at. */
  lemma DiskReads(d: Bytes, p: Plan, len: u64)
    requires PlanOk(p) && d == DiskBytes(p) && len as int == p.sectors * 512
    ensures SizeOk(len) && AllReadable(d, len) && LastLba(len) as int == p.sectors - 1
    ensures Mbr(d) == PlanMbr(p) && Primary(d) == HeadBytes(PrimaryHead(p)) && Table(d) == PlanTable(p)
    ensures BackupTable(d, len) == PlanTable(p) && Backup(d, len) == HeadBytes(BackupHead(p))
  {
    PartsRead(d, p.sectors, PlanMbr(p), HeadBytes(PrimaryHead(p)), PlanTable(p), p.rest, HeadBytes(BackupHead(p)), len);
  }

  lemma GeometryAccepted(h: Bytes, b: Bytes, p: Plan)
    requires PlanOk(p) && h == HeadBytes(PrimaryHead(p)) && b == HeadBytes(BackupHead(p))
    ensures GeometryOk(h, b, (p.sectors - 1) as u64)
  {
    HeadReads(h, PrimaryHead(p));
    HeadReads(b, BackupHead(p));
  }

  lemma HeadersFrom(d: Bytes, len: u64, m: Bytes, h: Bytes, b: Bytes, last: u64)
    requires SizeOk(len) && AllReadable(d, len) && last == LastLba(len)
    requires Mbr(d) == m && Primary(d) == h && Backup(d, len) == b && |m| == |h| == |b| == 512
    requires MbrOk(m, last) && HeaderOk(h, 1, last) && HeaderOk(b, last, 1) && GeometryOk(h, b, last)
    ensures HeadersOk(d, len)
  {
  }

  lemma HeadersAccepted(d: Bytes, p: Plan, len: u64)
    requires PlanOk(p) && d == DiskBytes(p) && len as int == p.sectors * 512
    ensures SizeOk(len) && AllReadable(d, len) && HeadersOk(d, len)
  {
    var m, h, b, last := PlanMbr(p), HeadBytes(PrimaryHead(p)), HeadBytes(BackupHead(p)), (p.sectors - 1) as u64;
    DiskReads(d, p, len);
    MbrAccepted(m, if p.wholeDisk then 0xffff_ffff else p.sectors - 1, last);
    HeadAccepted(h, PrimaryHead(p));
    HeadAccepted(b, BackupHead(p));
    GeometryAccepted(h, b, p);
    HeadersFrom(d, len, m, h, b, last);
  }

  lemma TablesAccepted(d: Bytes, p: Plan, len: u64)
    requires PlanOk(p) && d == DiskBytes(p) && len as int == p.sectors * 512
    ensures SizeOk(len) && AllReadable(d, len) && TablesOk(d, len)
    ensures FirstUsable(d) as int == p.first && LastUsable(d) as int == p.last && DiskId(d) == Guid(p.diskId)
  {
    DiskReads(d, p, len);
    HeadReads(Primary(d), PrimaryHead(p));
    TableAccepted(p.items, p.first as u64, p.last as u64);
  }

  /** The reader accepts every disk that is written. */
  lemma DiskAccepted(d: Bytes, p: Plan, len: u64)
    requires PlanOk(p) && d == DiskBytes(p) && len as int == p.sectors * 512
    ensures ValidDisk(d, len)
  {
    HeadersAccepted(d, p, len);
    TablesAccepted(d, p, len);
  }

  /** Reading a written disk gives back its identity and every item, in order, and nothing else. */
  method ReadBack(d: Bytes, ghost p: Plan, len: u64) returns (r: Result<Layout, Error>)
    requires PlanOk(p) && d == DiskBytes(p) && len as int == p.sectors * 512
    ensures forall i :: 0 <= i < |p.items| ==> ItemOk(p.items[i], p.items[i].first, p.items[i].last)
    ensures r == Ok(Layout(Guid(p.diskId), AllWanted(p.items)))
  {
    DiskAccepted(d, p, len);
    DiskReads(d, p, len);
    TablesAccepted(d, p, len);
    r := EnumerateIn(d, len);
    TableReads(p.items, p.first as u64, p.last as u64, r.value.partitions);
  }

  // ---- and the reader accepts nothing that does not carry those fields ----

  lemma SplitNumber(a: nat, x: nat, n: nat, base: nat)
    requires base in {0x100, 0x1_0000, 0x1_0000_0000} && a < base && n == a + base * x
    ensures n % base == a && n / base == x
  {
  }

  lemma Written16(b: Bytes, at: nat, n: nat)
    requires at + 2 <= |b| && n == Value(b[at]) + 0x100 * Value(b[at + 1])
    ensures n < 0x1_0000 && Stands(b, at, Put16(n))
  {
    var lo, hi := b[at], b[at + 1];
    SplitNumber(Value(lo), Value(hi), n, 0x100);
    ByteIs(lo, n % 0x100);
    ByteIs(hi, n / 0x100);
    assert b[at..at + 2] == [lo, hi];
  }

  lemma ByteIs(b: bv8, n: nat)
    requires n == Value(b)
    ensures Octet(n) == b
  {
    ValueInjective(b, Octet(n));
  }

  /** Reading a number means that its bytes stand there. */
  lemma Written32(b: Bytes, at: nat, n: nat)
    requires at + 4 <= |b| && U32(b, at) == n
    ensures Stands(b, at, Put32(n))
  {
    var lo, hi := Value(b[at]) + 0x100 * Value(b[at + 1]), Value(b[at + 2]) + 0x100 * Value(b[at + 3]);
    SplitNumber(lo, hi, n, 0x1_0000);
    Written16(b, at, lo);
    Written16(b, at + 2, hi);
    StandsJoin(b, at, Put16(lo), Put16(hi));
  }

  lemma Written64(b: Bytes, at: nat, n: nat)
    requires at + 8 <= |b| && U64(b, at) as int == n
    ensures n < 0x1_0000_0000_0000_0000 && Stands(b, at, Put64(n))
  {
    var lo, hi := U32(b, at), U32(b, at + 4);
    SplitNumber(lo, hi, n, 0x1_0000_0000);
    Written32(b, at, lo);
    Written32(b, at + 4, hi);
    StandsJoin(b, at, Put32(lo), Put32(hi));
  }

  /** Signature, revision, size, checksum and the two places: bytes of every accepted header. */
  lemma AcceptedHeader(h: Bytes, lba: u64, alternate: u64)
    requires |h| == 512 && HeaderOk(h, lba, alternate)
    ensures Stands(h, 0, Signature()) && Stands(h, 8, Put32(0x10000)) && Stands(h, 12, Put32(92))
    ensures Stands(h, 16, Put32(Number(Crc32(h[..16] + [0, 0, 0, 0] + h[20..92]))))
    ensures Stands(h, 20, Put32(0)) && Stands(h, 24, Put64(lba as int)) && Stands(h, 32, Put64(alternate as int))
  {
    Written32(h, 8, 0x10000);
    Written32(h, 12, 92);
    Written32(h, 16, Number(Crc32(Checked(h))));
    Written32(h, 20, 0);
    Written64(h, 24, lba as int);
    Written64(h, 32, alternate as int);
  }

  /** The range, the identity, and a table of 128 entries of 128 bytes in its place: bytes of both headers. */
  lemma AcceptedGeometry(h: Bytes, b: Bytes, last: u64)
    requires |h| == |b| == SECTOR && last >= 67 && GeometryOk(h, b, last)
    ensures h[40..72] == b[40..72] && h[80..92] == b[80..92]
    ensures 34 <= U64(h, 40) <= U64(h, 48) <= last - 33 && exists i :: 56 <= i < 72 && h[i] != 0
    ensures Stands(h, 72, Put64(2)) && Stands(b, 72, Put64(last as int - 32))
    ensures Stands(h, 80, Put32(128)) && Stands(h, 84, Put32(128))
  {
    var i :| 0 <= i < 16 && h[56..72][i] != 0;
    assert h[56 + i] != 0;
    Written64(h, 72, 2);
    Written64(b, 72, last as int - 32);
    Written32(h, 80, 128);
    Written32(h, 84, 128);
  }

  /** The one partition of an accepted protective MBR, and nothing in the other three. */
  lemma AcceptedMbr(m: Bytes, last: u64)
    requires |m| == SECTOR && MbrOk(m, last)
    ensures m[446] == 0 && m[450] == 0xee && m[510] == 0x55 && m[511] == 0xaa
    ensures forall i :: 462 <= i < 510 ==> m[i] == 0
    ensures Stands(m, 454, Put32(1))
    ensures Stands(m, 458, Put32(0xffff_ffff)) || (last < 0x1_0000_0000 && Stands(m, 458, Put32(last as int)))
  {
    Written32(m, 454, 1);
    Written32(m, 458, U32(m, 458));
    forall i | 462 <= i < 510 ensures m[i] == 0 {
      assert m[462..510][i - 462] == m[i];
    }
  }

  /** An entry of an accepted table is zero throughout, or has a kind, an identity, a range and a name. */
  lemma AcceptedEntry(e: Bytes, first: u64, last: u64)
    requires |e| == ENTRY_SIZE && EntryOk(e, first, last)
    ensures (forall i :: 0 <= i < 128 ==> e[i] == 0)
            || ((exists i :: 0 <= i < 16 && e[i] != 0) && (exists i :: 16 <= i < 32 && e[i] != 0)
                && first <= U64(e, 32) <= U64(e, 40) <= last && IsUtf16(NameFrom(e, 0)))
  {
    if Used(e) {
      var i :| 0 <= i < 16 && e[..16][i] != 0;
      assert e[i] != 0;
      var j :| 0 <= j < 16 && e[16..32][j] != 0;
      assert e[16 + j] != 0;
    }
  }

  lemma AcceptedParts(d: Bytes, len: u64, last: int, m: Bytes, h: Bytes, b: Bytes, t: Bytes)
    requires SizeOk(len) && AllReadable(d, len) && last * 512 + 512 == len as int
    requires |m| == |h| == |b| == 512 && |t| == 16384
    requires Stands(d, 0, m) && Stands(d, 512, h) && Stands(d, 1024, t) && Stands(d, last * 512, b)
    ensures last == LastLba(len) as int
    ensures m == Mbr(d) && h == Primary(d) && b == Backup(d, len) && t == Table(d)
  {
  }

  lemma AcceptedHeaders(d: Bytes, len: u64, last: u64, m: Bytes, h: Bytes, b: Bytes)
    requires SizeOk(len) && AllReadable(d, len) && HeadersOk(d, len) && last == LastLba(len)
    requires m == Mbr(d) && h == Primary(d) && b == Backup(d, len)
    ensures MbrOk(m, last) && HeaderOk(h, 1, last) && HeaderOk(b, last, 1) && GeometryOk(h, b, last)
  {
  }

  lemma AcceptedTables(d: Bytes, len: u64, h: Bytes, t: Bytes)
    requires SizeOk(len) && AllReadable(d, len) && TablesOk(d, len) && h == Primary(d) && t == Table(d)
    ensures TableOk(t, 128, U64(h, 40), U64(h, 48)) && U32(h, 88) == Number(Crc32(t)) && BackupTable(d, len) == t
  {
  }

  lemma BackupStands(d: Bytes, len: u64, last: u64, t: Bytes)
    requires SizeOk(len) && AllReadable(d, len) && last == LastLba(len) && BackupTable(d, len) == t && |t| == 16384
    ensures Stands(d, (last as int - 32) * 512, t)
  {
  }

  lemma ChecksumStands(h: Bytes, t: Bytes)
    requires |h| == 512 && U32(h, 88) == Number(Crc32(t))
    ensures Stands(h, 88, Put32(Number(Crc32(t))))
  {
    Written32(h, 88, Number(Crc32(t)));
  }

  /** All of it for an accepted disk: what stands in its sectors, and where. */
  lemma AcceptedDisk(d: Bytes, len: u64, last: u64, m: Bytes, h: Bytes, b: Bytes, t: Bytes)
    requires ValidDisk(d, len) && last as int * 512 + 512 == len as int
    requires |m| == |h| == |b| == 512 && |t| == 16384
    requires Stands(d, 0, m) && Stands(d, 512, h) && Stands(d, 1024, t) && Stands(d, last as int * 512, b)
    ensures last >= 67 && MbrOk(m, last) && HeaderOk(h, 1, last) && HeaderOk(b, last, 1)
    ensures GeometryOk(h, b, last) && TableOk(t, 128, U64(h, 40), U64(h, 48))
    ensures Stands(d, (last as int - 32) * 512, t) && Stands(h, 88, Put32(Number(Crc32(t))))
  {
    AcceptedParts(d, len, last as int, m, h, b, t);
    AcceptedHeaders(d, len, last, m, h, b);
    AcceptedTables(d, len, h, t);
    BackupStands(d, len, last, t);
    ChecksumStands(h, t);
  }
}
