/**
 The bit-by-bit CRC-32 of the GPT reader, on a 32-bit register, and the errors it is
 guaranteed to notice.
 */
module Crc {

  const POLYNOMIAL: bv32 := 0xedb88320
  const ONES: bv32 := 0xffff_ffff

  /** One bit of the register shifted out. */
  function Bit(crc: bv32): bv32 {
    (crc >> 1) ^ (POLYNOMIAL & (0 - (crc & 1)))
  }

  function Bits(crc: bv32, k: nat): bv32 {
    if k == 0 then crc else Bit(Bits(crc, k - 1))
  }

  function Octet(crc: bv32): bv32 {
    Bits(crc, 8)
  }

  function Xor(x: bv32, y: bv32): bv32 {
    x ^ y
  }

  function Absorb(crc: bv32, byte: bv8): bv32 {
    Octet(Xor(crc, byte as bv32))
  }

  /** Feed the bytes to a register step, in order. */
  function Fold(step: (bv32, bv8) -> bv32, crc: bv32, b: seq<bv8>): bv32
    decreases b
  {
    if b == [] then crc else Fold(step, step(crc, b[0]), b[1..])
  }

  function Crc32(b: seq<bv8>): bv32 {
    Complement(Fold(Absorb, ONES, b))
  }

  function Complement(x: bv32): bv32 {
    !x
  }

  /** The two nested loops of the source compute it. */
  method ComputeCrc32(b: seq<bv8>) returns (r: bv32)
    ensures r == Crc32(b)
  {
    var crc := ONES;
    for i := 0 to |b|
      invariant Fold(Absorb, crc, b[i..]) == Fold(Absorb, ONES, b)
    {
      crc := AbsorbByte(crc, b[i]);
      assert b[i..][1..] == b[i + 1..];
    }
    assert b[|b|..] == [];
    r := !crc;
  }

  method AbsorbByte(register: bv32, byte: bv8) returns (crc: bv32)
    ensures crc == Absorb(register, byte)
  {
    crc := register ^ (byte as bv32);
    ghost var mixed := crc;
    for k := 0 to 8
      invariant crc == Bits(mixed, k)
    {
      ghost var before := crc;
      crc := (crc >> 1) ^ (POLYNOMIAL & (0 - (crc & 1)));
      assert crc == Bit(before);
    }
  }

  // ---- a step of the register can be undone, difference by difference ----

  predicate Apart(u: bv32, v: bv32, d: bv32) {
    Xor(u, v) == d
  }

  predicate TopClear(d: bv32) {
    d & 0x8000_0000 == 0
  }

  function Twice(d: bv32): bv32 {
    d << 1
  }

  lemma BitDifference(u: bv32, v: bv32)
    requires (Bit(u) ^ Bit(v)) & 0x8000_0000 == 0
    ensures u ^ v == (Bit(u) ^ Bit(v)) << 1
  {
  }

  /** Two registers whose successors differ by `d` themselves differ by `d` shifted up. */
  lemma BitApart(u: bv32, v: bv32, a: bv32, b: bv32, d: bv32)
    requires a == Bit(u) && b == Bit(v) && Apart(a, b, d) && TopClear(d)
    ensures Apart(u, v, Twice(d))
  {
    PlainApart(a, b, d);
    BitDifference(u, v);
  }

  lemma PlainApart(a: bv32, b: bv32, d: bv32)
    requires Apart(a, b, d)
    ensures a ^ b == d
  {
  }

  function Up(d: bv32, k: nat): bv32
    decreases k
  {
    if k == 0 then d else Up(Twice(d), k - 1)
  }

  predicate Clear(d: bv32, k: nat)
    decreases k
  {
    k == 0 || (TopClear(d) && Clear(Twice(d), k - 1))
  }

  lemma {:induction false} BitsApart(u: bv32, v: bv32, a: bv32, b: bv32, k: nat, d: bv32)
    requires a == Bits(u, k) && b == Bits(v, k) && Apart(a, b, d) && Clear(d, k)
    ensures Apart(u, v, Up(d, k))
    decreases k
  {
    if k > 0 {
      var x, y, e := Bits(u, k - 1), Bits(v, k - 1), Twice(d);
      BitApart(x, y, a, b, d);
      BitsApart(u, v, x, y, k - 1, e);
    }
  }

  lemma EightUp(d: bv32)
    requires Fits(d)
    ensures Clear(d, 8) && Up(d, 8) == Raise(d)
  {
    assert Clear(d << 7, 1) && Up(d << 7, 1) == d << 8;
    assert Clear(d << 6, 2) && Up(d << 6, 2) == d << 8;
    assert Clear(d << 5, 3) && Up(d << 5, 3) == d << 8;
    assert Clear(d << 4, 4) && Up(d << 4, 4) == d << 8;
    assert Clear(d << 3, 5) && Up(d << 3, 5) == d << 8;
    assert Clear(d << 2, 6) && Up(d << 2, 6) == d << 8;
    assert Clear(d << 1, 7) && Up(d << 1, 7) == d << 8;
  }

  function Raise(d: bv32): bv32 {
    d << 8
  }

  predicate Fits(d: bv32) {
    d & 0xff00_0000 == 0
  }

  lemma OctetApart(u: bv32, v: bv32, a: bv32, b: bv32, d: bv32)
    requires a == Octet(u) && b == Octet(v) && Apart(a, b, d) && Fits(d)
    ensures Apart(u, v, Raise(d))
  {
    EightUp(d);
    BitsApart(u, v, a, b, 8, d);
  }

  lemma XorShuffle(a: bv32, b: bv32, c: bv32)
    ensures Xor(Xor(a, b), c) == Xor(a, Xor(b, c))
    ensures Xor(a, b) == Xor(b, a)
    ensures Xor(Xor(a, b), b) == a
  {
  }

  lemma Regroup(c: bv32, c': bv32, x: bv32, y: bv32)
    ensures Xor(c, c') == Xor(Xor(Xor(c, x), Xor(c', y)), Xor(x, y))
  {
    var u, v := Xor(c, x), Xor(c', y);
    calc {
      Xor(Xor(u, v), Xor(x, y));
      { XorShuffle(x, y, y); }
      Xor(Xor(u, v), Xor(y, x));
      { XorShuffle(Xor(u, v), y, x); XorShuffle(u, v, y); }
      Xor(Xor(u, Xor(v, y)), x);
      { XorShuffle(c', y, y); }
      Xor(Xor(u, c'), x);
      { XorShuffle(u, c', x); XorShuffle(c', x, x); XorShuffle(u, x, c'); }
      Xor(Xor(u, x), c');
      { XorShuffle(c, x, x); }
      Xor(c, c');
    }
  }

  /** What one byte does to a difference of registers, read backwards. */
  function Before(d: bv32, x: bv8, y: bv8): bv32 {
    Xor(Raise(d), Xor(x as bv32, y as bv32))
  }

  ghost predicate Reversible(step: (bv32, bv8) -> bv32) {
    forall c, c', x, y {:trigger step(c, x), step(c', y)} ::
      Fits(Xor(step(c, x), step(c', y))) ==> Xor(c, c') == Before(Xor(step(c, x), step(c', y)), x, y)
  }

  lemma AbsorbApart(c: bv32, c': bv32, x: bv8, y: bv8, d: bv32)
    requires Apart(Absorb(c, x), Absorb(c', y), d) && Fits(d)
    ensures Apart(c, c', Before(d, x, y))
  {
    var u, v := Xor(c, x as bv32), Xor(c', y as bv32);
    OctetApart(u, v, Absorb(c, x), Absorb(c', y), d);
    Regroup(c, c', x as bv32, y as bv32);
  }

  lemma AbsorbReversible()
    ensures Reversible(Absorb)
  {
    forall c, c', x, y | Fits(Xor(Absorb(c, x), Absorb(c', y)))
      ensures Xor(c, c') == Before(Xor(Absorb(c, x), Absorb(c', y)), x, y)
    {
      AbsorbApart(c, c', x, y, Xor(Absorb(c, x), Absorb(c', y)));
    }
  }

  // ---- so a short burst cannot cancel ----

  /** The difference two equal-length windows must have started from to end in the same register. */
  function Origin(w: seq<bv8>, v: seq<bv8>): bv32
    requires |w| == |v|
  {
    if w == [] then 0 else Before(Origin(w[1..], v[1..]), w[0], v[0])
  }

  lemma {:induction false} OriginFits(w: seq<bv8>, v: seq<bv8>)
    requires |w| == |v| <= 3
    ensures Fits(Origin(w, v))
    ensures |w| <= 2 ==> Origin(w, v) & 0xffff_0000 == 0
    ensures |w| <= 1 ==> Origin(w, v) & 0xffff_ff00 == 0
  {
    if w != [] {
      OriginFits(w[1..], v[1..]);
      assert |w| == 1 ==> Origin(w[1..], v[1..]) == 0;
    }
  }

  lemma {:induction false} OriginZero(w: seq<bv8>, v: seq<bv8>)
    requires |w| == |v| <= 4 && Origin(w, v) == 0
    ensures w == v
  {
    if w != [] {
      OriginFits(w[1..], v[1..]);
      SplitZero(Origin(w[1..], v[1..]), w[0], v[0]);
      OriginZero(w[1..], v[1..]);
      assert w == [w[0]] + w[1..] && v == [v[0]] + v[1..];
    }
  }

  lemma SplitZero(t: bv32, x: bv8, y: bv8)
    requires Fits(t) && Before(t, x, y) == 0
    ensures t == 0 && x == y
  {
  }

  /** Run a window of at most four bytes backwards. */
  lemma {:induction false} WindowOrigin(step: (bv32, bv8) -> bv32, c: bv32, c': bv32, w: seq<bv8>, v: seq<bv8>)
    requires Reversible(step) && |w| == |v| <= 4 && Fold(step, c, w) == Fold(step, c', v)
    ensures Xor(c, c') == Origin(w, v)
    decreases w
  {
    if w != [] {
      WindowOrigin(step, step(c, w[0]), step(c', v[0]), w[1..], v[1..]);
      OriginFits(w[1..], v[1..]);
    }
  }

  /** Equal bytes never bring two different registers together. */
  lemma {:induction false} SuffixInjective(step: (bv32, bv8) -> bv32, c: bv32, c': bv32, b: seq<bv8>)
    requires Reversible(step) && Fold(step, c, b) == Fold(step, c', b)
    ensures c == c'
    decreases b
  {
    if b != [] {
      SuffixInjective(step, step(c, b[0]), step(c', b[0]), b[1..]);
      assert Xor(c, c') == Before(Xor(step(c, b[0]), step(c', b[0])), b[0], b[0]);
      SameByte(c, c', step(c, b[0]), b[0]);
    }
  }

  lemma SameByte(c: bv32, c': bv32, a: bv32, x: bv8)
    requires Xor(c, c') == Before(Xor(a, a), x, x)
    ensures c == c'
  {
  }

  lemma {:induction false} FoldConcat(step: (bv32, bv8) -> bv32, c: bv32, a: seq<bv8>, b: seq<bv8>)
    ensures Fold(step, c, a + b) == Fold(step, Fold(step, c, a), b)
    decreases a
  {
    if a == [] {
      assert a + b == b;
    } else {
      assert (a + b)[1..] == a[1..] + b;
      FoldConcat(step, step(c, a[0]), a[1..], b);
    }
  }

  predicate AgreeOutside(a: seq<bv8>, b: seq<bv8>, lo: nat, hi: nat) {
    |a| == |b| && forall i :: 0 <= i < |a| && !(lo <= i < hi) ==> a[i] == b[i]
  }

  lemma {:induction false} BurstMovesRegister(
    step: (bv32, bv8) -> bv32, c: bv32, pre: seq<bv8>, w: seq<bv8>, v: seq<bv8>, post: seq<bv8>)
    requires Reversible(step) && |w| == |v| <= 4
    requires Fold(step, c, pre + w + post) == Fold(step, c, pre + v + post)
    ensures w == v
  {
    var d := Fold(step, c, pre);
    FoldConcat(step, c, pre + w, post);
    FoldConcat(step, c, pre + v, post);
    FoldConcat(step, c, pre, w);
    FoldConcat(step, c, pre, v);
    SuffixInjective(step, Fold(step, d, w), Fold(step, d, v), post);
    WindowOrigin(step, d, d, w, v);
    assert Xor(d, d) == 0;
    OriginZero(w, v);
  }

  lemma AbsorbBurst(pre: seq<bv8>, w: seq<bv8>, v: seq<bv8>, post: seq<bv8>)
    requires |w| == |v| <= 4 && Crc32(pre + w + post) == Crc32(pre + v + post)
    ensures w == v
  {
    ComplementInjective(Fold(Absorb, ONES, pre + w + post), Fold(Absorb, ONES, pre + v + post));
    AbsorbReversible();
    BurstMovesRegister(Absorb, ONES, pre, w, v, post);
  }

  /**
   Two different messages of any one length that agree outside some four consecutive bytes
   have different checksums.
   */
  lemma BurstDetected(a: seq<bv8>, b: seq<bv8>, lo: nat)
    requires AgreeOutside(a, b, lo, lo + 4) && a != b
    ensures Crc32(a) != Crc32(b)
  {
    var l := if lo <= |a| then lo else |a|;
    var h := if lo + 4 <= |a| then lo + 4 else |a|;
    assert a == a[..l] + a[l..h] + a[h..];
    assert b == a[..l] + b[l..h] + a[h..];
    if Crc32(a) == Crc32(b) {
      AbsorbBurst(a[..l], a[l..h], b[l..h], a[h..]);
    }
  }

  lemma ComplementInjective(x: bv32, y: bv32)
    requires Complement(x) == Complement(y)
    ensures x == y
  {
  }
}
