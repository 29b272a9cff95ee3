/**
 The GPT reader: section 5.3.2 of UEFI 2.10 for the header, table 5.3 for the protective MBR.
 A disk is its bytes. The reading methods compute in `u64`, so that they verify at all says
 that no operation on a value taken from the disk overflows or underflows.
 */
module Gpt {
  import opened Common
  import opened Crc

  newtype u16 = x: int | 0 <= x < 0x1_0000
  newtype u64 = x: int | 0 <= x < 0x1_0000_0000_0000_0000

  type Bytes = seq<bv8>

  datatype Error =
    | ReadFailed | InvalidLength | NoProtectiveMbr | BadHeader | HeaderCrcMismatch | BadGeometry
    | TableMismatch | StaleEntry | BadBounds | BadName | DuplicateOrOverlap

  // ---- little-endian fields and identifiers ----

  function Value(b: bv8): (r: nat)
    ensures r < 0x100
  {
    b as int
  }

  /** A checksum as the number a field holds. */
  function Number(c: bv32): (r: nat)
    ensures r < 0x1_0000_0000
  {
    c as int
  }

  lemma NumberInjective(c: bv32, d: bv32)
    requires Number(c) == Number(d)
    ensures c == d
  {
    NumberBack(c, Number(c));
    NumberBack(d, Number(c));
  }

  lemma NumberBack(c: bv32, n: nat)
    requires n == Number(c)
    ensures n as bv32 == c
  {
    assert (c as int) as bv32 == c;
  }

  /** Four bytes, the least significant first. */
  function U32(b: Bytes, at: nat): (r: nat)
    requires at + 4 <= |b|
    ensures r < 0x1_0000_0000
  {
    Value(b[at]) + 0x100 * Value(b[at + 1]) + 0x1_0000 * Value(b[at + 2]) + 0x100_0000 * Value(b[at + 3])
  }

  function U64(b: Bytes, at: nat): u64
    requires at + 8 <= |b|
  {
    (U32(b, at) + 0x1_0000_0000 * U32(b, at + 4)) as u64
  }

  predicate AllZero(b: Bytes) {
    forall i :: 0 <= i < |b| ==> b[i] == 0
  }

  function HexDigit(n: bv8): char {
    if n == 0 then '0' else if n == 1 then '1' else if n == 2 then '2' else if n == 3 then '3'
    else if n == 4 then '4' else if n == 5 then '5' else if n == 6 then '6' else if n == 7 then '7'
    else if n == 8 then '8' else if n == 9 then '9' else if n == 10 then 'a' else if n == 11 then 'b'
    else if n == 12 then 'c' else if n == 13 then 'd' else if n == 14 then 'e' else 'f'
  }

  function Hi(b: bv8): char {
    HexDigit(b >> 4)
  }

  function Lo(b: bv8): char {
    HexDigit(b & 0xf)
  }

  /** The column of the text form at which the two digits of byte `i` start. */
  function Column(i: nat): (c: nat)
    requires i < 16
    ensures c < 35
  {
    if i < 4 then 6 - 2 * i          // a little-endian 32-bit field
    else if i < 6 then 19 - 2 * i    // a little-endian 16-bit field
    else if i < 8 then 28 - 2 * i    // another
    else if i < 10 then 3 + 2 * i
    else 4 + 2 * i
  }

  /** What is printed in a column. */
  function Symbol(b: Bytes, c: nat): char
    requires |b| == 16 && c < 36
  {
    if c == 8 || c == 13 || c == 18 || c == 23 then '-'
    else if c < 8 then Digit(b[(7 - c) / 2], c % 2 == 0)
    else if c < 13 then Digit(b[(20 - c) / 2], c % 2 == 1)
    else if c < 18 then Digit(b[(29 - c) / 2], c % 2 == 0)
    else if c < 23 then Digit(b[(c - 3) / 2], c % 2 == 1)
    else Digit(b[(c - 4) / 2], c % 2 == 0)
  }

  function Digit(b: bv8, high: bool): char {
    if high then Hi(b) else Lo(b)
  }

  function Guid(b: Bytes): string
    requires |b| == 16
  {
    seq(36, c requires 0 <= c < 36 => Symbol(b, c))
  }

  lemma HexInjective(x: bv8, y: bv8)
    requires Hi(x) == Hi(y) && Lo(x) == Lo(y)
    ensures x == y
  {
    DigitInjective(x >> 4, y >> 4);
    DigitInjective(x & 0xf, y & 0xf);
  }

  lemma DigitInjective(x: bv8, y: bv8)
    requires x & 0xf0 == 0 && y & 0xf0 == 0 && HexDigit(x) == HexDigit(y)
    ensures x == y
  {
  }

  lemma GuidColumn(b: Bytes, i: nat)
    requires |b| == 16 && i < 16
    ensures |Guid(b)| == 36 && Guid(b)[Column(i)] == Hi(b[i]) && Guid(b)[Column(i) + 1] == Lo(b[i])
  {
  }

  /** Comparing the printed form compares the identifiers. */
  lemma GuidInjective(a: Bytes, b: Bytes)
    requires |a| == |b| == 16
    ensures Guid(a) == Guid(b) <==> a == b
  {
    if Guid(a) == Guid(b) {
      forall i: nat | i < 16 ensures a[i] == b[i] {
        GuidColumn(a, i);
        GuidColumn(b, i);
        HexInjective(a[i], b[i]);
      }
    }
  }

  // ---- the printed form is the five numbers ----

  function DigitValue(c: char): nat {
    if '0' <= c <= '9' then c as int - '0' as int
    else if 'a' <= c <= 'f' then c as int - 'a' as int + 10
    else 16
  }

  function HexValue(s: string): nat {
    if s == "" then 0 else 16 * HexValue(s[..|s|-1]) + DigitValue(s[|s|-1])
  }

  lemma DigitOf(n: bv8)
    requires n & 0xf0 == 0
    ensures DigitValue(HexDigit(n)) == Value(n)
  {
    DigitCases(n);
  }

  lemma DigitCases(n: bv8)
    requires n & 0xf0 == 0
    ensures n == 0 || n == 1 || n == 2 || n == 3 || n == 4 || n == 5 || n == 6 || n == 7
         || n == 8 || n == 9 || n == 10 || n == 11 || n == 12 || n == 13 || n == 14 || n == 15
  {
  }

  lemma Nibbles(b: bv8)
    ensures Value(b) == 16 * Value(b >> 4) + Value(b & 0xf)
  {
  }

  lemma OctetDigits(b: bv8)
    ensures 16 * DigitValue(Hi(b)) + DigitValue(Lo(b)) == Value(b)
  {
    Nibbles(b);
    DigitOf(b >> 4);
    DigitOf(b & 0xf);
  }

  /** The two characters from column `c` on are the hexadecimal digits of `v`. */
  predicate ByteAt(text: string, c: nat, v: nat) {
    c + 2 <= |text| && 16 * DigitValue(text[c]) + DigitValue(text[c + 1]) == v
  }

  lemma GuidByteAt(b: Bytes, i: nat)
    requires |b| == 16 && i < 16
    ensures ByteAt(Guid(b), Column(i), Value(b[i]))
  {
    GuidColumn(b, i);
    OctetDigits(b[i]);
  }

  /** Two more digits are one more byte. */
  lemma OneMoreByte(text: string, at: nat, c: nat, v: nat)
    requires at <= c && ByteAt(text, c, v)
    ensures HexValue(text[at..c + 2]) == 0x100 * HexValue(text[at..c]) + v
  {
    var s, t, n := text[at..c + 2], text[at..c + 1], c - at;
    assert |s| == n + 2 && |t| == n + 1;
    assert s[..n + 1] == t && s[n + 1] == text[c + 1];
    assert t[..n] == text[at..c] && t[n] == text[c];
    assert HexValue(s) == 16 * HexValue(s[..n + 1]) + DigitValue(s[n + 1]);
    assert HexValue(t) == 16 * HexValue(t[..n]) + DigitValue(t[n]);
  }

  lemma TwoBytes(text: string, at: nat, x: nat, y: nat)
    requires ByteAt(text, at, x) && ByteAt(text, at + 2, y)
    ensures HexValue(text[at..at + 4]) == 0x100 * x + y
  {
    assert text[at..at] == "";
    OneMoreByte(text, at, at, x);
    OneMoreByte(text, at, at + 2, y);
  }

  lemma FourBytes(text: string, at: nat, x: nat, y: nat, z: nat, w: nat)
    requires ByteAt(text, at, x) && ByteAt(text, at + 2, y) && ByteAt(text, at + 4, z) && ByteAt(text, at + 6, w)
    ensures HexValue(text[at..at + 8]) == 0x100_0000 * x + 0x1_0000 * y + 0x100 * z + w
  {
    TwoBytes(text, at, x, y);
    OneMoreByte(text, at, at + 4, z);
    OneMoreByte(text, at, at + 6, w);
  }

  lemma GuidDashes(b: Bytes, text: string)
    requires |b| == 16 && text == Guid(b)
    ensures |text| == 36 && text[8] == text[13] == text[18] == text[23] == '-'
  {
  }

  /** Each group of the printed form, read as a hexadecimal number, is its field. */
  lemma GuidFields(b: Bytes, text: string)
    requires |b| == 16 && text == Guid(b)
    ensures |text| == 36 && text[8] == text[13] == text[18] == text[23] == '-'
    ensures GroupsAre(b, text)
  {
    GuidDashes(b, text);
    GuidBytesAt(b, text);
    GroupsRead(b, text);
  }

  /** The first three groups are little-endian numbers, the other two big-endian. */
  predicate GroupsAre(b: Bytes, text: string)
    requires |b| == 16 && |text| == 36
  {
    && HexValue(text[0..8]) == U32(b, 0)
    && HexValue(text[9..13]) == Value(b[4]) + 0x100 * Value(b[5])
    && HexValue(text[14..18]) == Value(b[6]) + 0x100 * Value(b[7])
    && HexValue(text[19..23]) == 0x100 * Value(b[8]) + Value(b[9])
    && HexValue(text[24..32]) ==
         0x100_0000 * Value(b[10]) + 0x1_0000 * Value(b[11]) + 0x100 * Value(b[12]) + Value(b[13])
    && HexValue(text[32..36]) == 0x100 * Value(b[14]) + Value(b[15])
  }

  lemma GroupsRead(b: Bytes, text: string)
    requires |b| == 16 && |text| == 36 && AllBytesAt(text, Values(b))
    ensures GroupsAre(b, text)
  {
    FrontRead(text, Values(b));
    BackRead(text, Values(b));
  }

  function Values(b: Bytes): seq<nat>
    requires |b| == 16
  {
    seq(16, i requires 0 <= i < 16 => Value(b[i]))
  }

  lemma GuidBytesAt(b: Bytes, text: string)
    requires |b| == 16 && text == Guid(b)
    ensures AllBytesAt(text, Values(b)) && |text| == 36
  {
    forall i: nat | i < 16 ensures ByteAt(text, Column(i), Values(b)[i]) { GuidByteAt(b, i); }
  }

  predicate AllBytesAt(text: string, v: seq<nat>) {
    |v| == 16 && forall i: nat :: i < 16 ==> ByteAt(text, Column(i), v[i])
  }

  lemma FrontRead(text: string, v: seq<nat>)
    requires AllBytesAt(text, v) && |text| == 36
    ensures HexValue(text[0..8]) == v[0] + 0x100 * v[1] + 0x1_0000 * v[2] + 0x100_0000 * v[3]
    ensures HexValue(text[9..13]) == v[4] + 0x100 * v[5]
    ensures HexValue(text[14..18]) == v[6] + 0x100 * v[7]
  {
    assert Column(0) == 6 && Column(1) == 4 && Column(2) == 2 && Column(3) == 0;
    assert Column(4) == 11 && Column(5) == 9 && Column(6) == 16 && Column(7) == 14;
    FourBytes(text, 0, v[3], v[2], v[1], v[0]);
    TwoBytes(text, 9, v[5], v[4]);
    TwoBytes(text, 14, v[7], v[6]);
  }

  lemma BackRead(text: string, v: seq<nat>)
    requires AllBytesAt(text, v) && |text| == 36
    ensures HexValue(text[19..23]) == 0x100 * v[8] + v[9]
    ensures HexValue(text[24..32]) == 0x100_0000 * v[10] + 0x1_0000 * v[11] + 0x100 * v[12] + v[13]
    ensures HexValue(text[32..36]) == 0x100 * v[14] + v[15]
  {
    assert Column(8) == 19 && Column(9) == 21 && Column(10) == 24 && Column(11) == 26;
    assert Column(12) == 28 && Column(13) == 30 && Column(14) == 32 && Column(15) == 34;
    TwoBytes(text, 19, v[8], v[9]);
    FourBytes(text, 24, v[10], v[11], v[12], v[13]);
    TwoBytes(text, 32, v[14], v[15]);
  }

  // ---- reading ----

  predicate Readable(disk: Bytes, offset: nat, size: nat) {
    offset + size <= |disk|
  }

  function Read(disk: Bytes, offset: nat, size: nat): (r: Bytes)
    requires Readable(disk, offset, size)
    ensures |r| == size
  {
    disk[offset..offset + size]
  }

  // ---- one header ----

  const SIGNATURE: Bytes := [0x45, 0x46, 0x49, 0x20, 0x50, 0x41, 0x52, 0x54]  // "EFI PART"

  /** The 92 header bytes with the stored checksum blanked. */
  function Checked(h: Bytes): Bytes
    requires |h| == 512
  {
    h[..16] + [0, 0, 0, 0] + h[20..92]
  }

  predicate FieldsOk(h: Bytes, lba: u64, alternate: u64)
    requires |h| == 512
  {
    && h[..8] == SIGNATURE && U32(h, 8) == 0x10000 && U32(h, 12) == 92
    && U32(h, 20) == 0 && U64(h, 24) == lba && U64(h, 32) == alternate
  }

  predicate HeaderOk(h: Bytes, lba: u64, alternate: u64)
    requires |h| == 512
  {
    FieldsOk(h, lba, alternate) && Number(Crc32(Checked(h))) == U32(h, 16)
  }

  method Header(disk: Bytes, lba: u64, alternate: u64) returns (r: Result<Bytes, Error>)
    requires lba as int * 512 < 0x1_0000_0000_0000_0000
    ensures r.Ok? <==>
              Readable(disk, lba as int * 512, 512) && HeaderOk(Read(disk, lba as int * 512, 512), lba, alternate)
    ensures r.Ok? ==> r.value == Read(disk, lba as int * 512, 512)
  {
    var offset := lba * 512;
    if !Readable(disk, offset as int, 512) { return Err(ReadFailed); }
    var h := Read(disk, offset as int, 512);
    if h[..8] != SIGNATURE || U32(h, 8) != 0x10000 || U32(h, 12) != 92
       || U32(h, 20) != 0 || U64(h, 24) != lba || U64(h, 32) != alternate {
      return Err(BadHeader);
    }
    var crc := ComputeCrc32(h[..16] + [0, 0, 0, 0] + h[20..92]);
    if Number(crc) != U32(h, 16) { return Err(HeaderCrcMismatch); }
    return Ok(h);
  }

  lemma ValueInjective(x: bv8, y: bv8)
    requires Value(x) == Value(y)
    ensures x == y
  {
  }

  lemma DigitUnique(a: nat, x: nat, b: nat, y: nat)
    requires a < 0x100 && b < 0x100 && a + 0x100 * x == b + 0x100 * y
    ensures a == b && x == y
  {
  }

  lemma DigitsUnique(a0: nat, a1: nat, a2: nat, a3: nat, b0: nat, b1: nat, b2: nat, b3: nat)
    requires a0 < 0x100 && a1 < 0x100 && a2 < 0x100 && a3 < 0x100
    requires b0 < 0x100 && b1 < 0x100 && b2 < 0x100 && b3 < 0x100
    requires a0 + 0x100 * a1 + 0x1_0000 * a2 + 0x100_0000 * a3 == b0 + 0x100 * b1 + 0x1_0000 * b2 + 0x100_0000 * b3
    ensures a0 == b0 && a1 == b1 && a2 == b2 && a3 == b3
  {
    DigitUnique(a0, a1 + 0x100 * (a2 + 0x100 * a3), b0, b1 + 0x100 * (b2 + 0x100 * b3));
    DigitUnique(a1, a2 + 0x100 * a3, b1, b2 + 0x100 * b3);
    DigitUnique(a2, a3, b2, b3);
  }

  /** Equal fields are equal bytes. */
  lemma FieldInjective(h: Bytes, g: Bytes, at: nat)
    requires at + 4 <= |h| && at + 4 <= |g| && U32(h, at) == U32(g, at)
    ensures h[at] == g[at] && h[at + 1] == g[at + 1] && h[at + 2] == g[at + 2] && h[at + 3] == g[at + 3]
  {
    DigitsUnique(Value(h[at]), Value(h[at + 1]), Value(h[at + 2]), Value(h[at + 3]),
                 Value(g[at]), Value(g[at + 1]), Value(g[at + 2]), Value(g[at + 3]));
    ValueInjective(h[at], g[at]);
    ValueInjective(h[at + 1], g[at + 1]);
    ValueInjective(h[at + 2], g[at + 2]);
    ValueInjective(h[at + 3], g[at + 3]);
  }

  /** A change confined to the stored checksum leaves the checked bytes alone and shows in the field. */
  lemma ChecksumChange(h: Bytes, g: Bytes)
    requires |h| == |g| == 512 && AgreeOutside(h, g, 16, 20) && h != g
    ensures Checked(h) == Checked(g) && U32(h, 16) != U32(g, 16)
  {
    if U32(h, 16) == U32(g, 16) {
      FieldInjective(h, g, 16);
    }
  }

  /** A short change elsewhere leaves the field alone and shows in the checksum. */
  lemma BodyChange(h: Bytes, g: Bytes, k: nat, n: nat)
    requires |h| == |g| == 512 && h != g && n <= 4
    requires AgreeOutside(h, g, k, k + n) && (k + n <= 16 || (20 <= k && k + n <= 92))
    ensures U32(h, 16) == U32(g, 16) && Number(Crc32(Checked(h))) != Number(Crc32(Checked(g)))
  {
    var a, b := Checked(h), Checked(g);
    var i :| 0 <= i < 512 && h[i] != g[i];
    assert a[i] == h[i] && b[i] == g[i];
    BurstDetected(a, b, k);
    if Number(Crc32(a)) == Number(Crc32(b)) { NumberInjective(Crc32(a), Crc32(b)); }
  }

  lemma FieldsAgree(h: Bytes, g: Bytes, lba: u64, alternate: u64)
    requires |h| == |g| == 512 && FieldsOk(h, lba, alternate) && FieldsOk(g, lba, alternate)
    ensures U32(h, 12) == U32(g, 12) && U32(h, 20) == U32(g, 20)
  {
  }

  lemma FieldAgrees(h: Bytes, g: Bytes, at: nat, i: nat)
    requires at + 4 <= |h| && at + 4 <= |g| && U32(h, at) == U32(g, at) && at <= i < at + 4
    ensures h[i] == g[i]
  {
    FieldInjective(h, g, at);
  }

  /** The words on both sides of the stored checksum are fixed, so headers with good fields agree on them. */
  lemma FixedNeighbours(h: Bytes, g: Bytes, lba: u64, alternate: u64)
    requires |h| == |g| == 512 && FieldsOk(h, lba, alternate) && FieldsOk(g, lba, alternate)
    ensures forall i :: 12 <= i < 16 || 20 <= i < 24 ==> h[i] == g[i]
  {
    FieldsAgree(h, g, lba, alternate);
    forall i | 12 <= i < 16 ensures h[i] == g[i] { FieldAgrees(h, g, 12, i); }
    forall i | 20 <= i < 24 ensures h[i] == g[i] { FieldAgrees(h, g, 20, i); }
  }

  /** An accepted header stops being accepted when up to four consecutive bytes of its 92 change. */
  lemma TamperedHeaderRefused(h: Bytes, g: Bytes, lba: u64, alternate: u64, k: nat, n: nat)
    requires |h| == |g| == 512 && HeaderOk(h, lba, alternate)
    requires n <= 4 && k + n <= 92 && AgreeOutside(h, g, k, k + n) && h != g
    ensures !HeaderOk(g, lba, alternate)
  {
    if k + n <= 16 || 20 <= k {
      BodyChange(h, g, k, n);
    } else if FieldsOk(g, lba, alternate) {
      FixedNeighbours(h, g, lba, alternate);
      ChecksumChange(h, g);
    }
  }

  lemma TamperedByteRefused(h: Bytes, k: nat, x: bv8, lba: u64, alternate: u64)
    requires |h| == 512 && HeaderOk(h, lba, alternate) && k < 92 && x != h[k]
    ensures !HeaderOk(h[k := x], lba, alternate)
  {
    TamperedHeaderRefused(h, h[k := x], lba, alternate, k, 1);
  }
}
