/**
 Which CRC the register computes: polynomials over the two-element field, as sets of degrees, and
 the checksum of a message as its remainder modulo the generator.
 */
module CrcRemainder {
  import opened Crc

  /** A polynomial over GF(2): the degrees of its terms. */
  type Poly = set<nat>

  function Plus(p: Poly, q: Poly): Poly {
    (p - q) + (q - p)
  }

  /** Times x to the `k`. */
  function Shift(p: Poly, k: nat): Poly {
    set d | d in p :: d + k
  }

  /** The generator. */
  const GENERATOR: Poly := {32, 26, 23, 22, 16, 12, 11, 10, 8, 7, 5, 4, 2, 1, 0}

  /** Every degree below 32. */
  const LOW: Poly := set d: nat | d < 32

  /** The sum of the generator's multiples by the powers of x listed. */
  function Multiple(qs: seq<nat>): Poly {
    if qs == [] then {} else Plus(Multiple(qs[..|qs|-1]), Shift(GENERATOR, qs[|qs|-1]))
  }

  /** Equal up to a multiple of the generator. */
  ghost predicate Congruent(p: Poly, q: Poly) {
    exists qs :: p == Plus(q, Multiple(qs))
  }

  // ---- bits of a register ----

  function Half(c: bv32): bv32 {
    c >> 1
  }

  function Down(c: bv32, i: nat): bv32 {
    if i == 0 then c else Half(Down(c, i - 1))
  }

  predicate Odd(c: bv32) {
    c & 1 != 0
  }

  predicate Has(c: bv32, i: nat) {
    Odd(Down(c, i))
  }

  /** The lowest of `width` bits is the highest degree. */
  predicate Term(c: bv32, width: nat, d: nat) {
    d < width && Has(c, width - 1 - d)
  }

  function Reversed(c: bv32, width: nat): Poly {
    set d: nat | d < width && Term(c, width, d)
  }

  /** A register. */
  function Image(c: bv32): Poly {
    Reversed(c, 32)
  }

  /** A byte. */
  function OctetPoly(y: bv8): Poly {
    Reversed(y as bv32, 8)
  }

  lemma ReversedHas(c: bv32, width: nat, d: nat)
    ensures d in Reversed(c, width) <==> d < width && Has(c, width - 1 - d)
  {
    assert Term(c, width, d) <==> d < width && Has(c, width - 1 - d);
  }

  /** The message: its bytes in order, the first with the highest degrees. */
  function Message(b: seq<bv8>): Poly {
    if b == [] then {} else Plus(Shift(Message(b[..|b|-1]), 8), OctetPoly(b[|b|-1]))
  }

  // ---- laws of addition and shifting ----

  lemma PlusHas(p: Poly, q: Poly, d: nat)
    ensures d in Plus(p, q) <==> (d in p) != (d in q)
  {
  }

  lemma ShiftHas(p: Poly, k: nat, d: nat)
    ensures d in Shift(p, k) <==> d >= k && d - k in p
  {
    if d >= k && d - k in p {
      assert (d - k) + k in Shift(p, k);
    }
  }

  lemma PlusLaws(p: Poly, q: Poly, r: Poly)
    ensures Plus(p, q) == Plus(q, p) && Plus(Plus(p, q), r) == Plus(p, Plus(q, r))
    ensures Plus(p, {}) == p && Plus(p, p) == {} && Plus(Plus(p, q), q) == p
  {
  }

  lemma ShiftPlus(p: Poly, q: Poly, k: nat)
    ensures Shift(Plus(p, q), k) == Plus(Shift(p, k), Shift(q, k))
  {
    forall d: nat ensures d in Shift(Plus(p, q), k) <==> d in Plus(Shift(p, k), Shift(q, k)) {
      ShiftHas(Plus(p, q), k, d);
      ShiftHas(p, k, d);
      ShiftHas(q, k, d);
    }
  }

  lemma ShiftShift(p: Poly, j: nat, k: nat)
    ensures Shift(Shift(p, j), k) == Shift(p, j + k)
  {
    forall d: nat ensures d in Shift(Shift(p, j), k) <==> d in Shift(p, j + k) {
      ShiftHas(Shift(p, j), k, d);
      ShiftHas(p, j + k, d);
      if d >= k { ShiftHas(p, j, d - k); }
    }
  }

  lemma ShiftNone(p: Poly, k: nat)
    ensures Shift(p, 0) == p && Shift({}, k) == {}
  {
    forall d: nat ensures d in Shift(p, 0) <==> d in p {
      ShiftHas(p, 0, d);
    }
  }

  // ---- congruence ----

  lemma {:induction false} MultipleConcat(a: seq<nat>, b: seq<nat>)
    ensures Multiple(a + b) == Plus(Multiple(a), Multiple(b))
    decreases |b|
  {
    if b == [] {
      assert a + b == a;
      PlusLaws(Multiple(a), {}, {});
    } else {
      var init, last := b[..|b|-1], Shift(GENERATOR, b[|b|-1]);
      assert (a + b)[..|a + b|-1] == a + init;
      MultipleConcat(a, init);
      PlusLaws(Multiple(a), Multiple(init), last);
    }
  }

  function Raised(qs: seq<nat>, k: nat): seq<nat> {
    seq(|qs|, i requires 0 <= i < |qs| => qs[i] + k)
  }

  lemma MultipleAppend(qs: seq<nat>, k: nat)
    ensures Multiple(qs + [k]) == Plus(Multiple(qs), Shift(GENERATOR, k))
  {
    assert (qs + [k])[..|qs|] == qs;
  }

  lemma {:induction false} MultipleShift(qs: seq<nat>, k: nat)
    ensures Shift(Multiple(qs), k) == Multiple(Raised(qs, k))
  {
    if qs == [] {
      ShiftNone({}, k);
    } else {
      var init, last := qs[..|qs|-1], qs[|qs|-1];
      MultipleShift(init, k);
      assert qs == init + [last] && Raised(qs, k) == Raised(init, k) + [last + k];
      MultipleAppend(init, last);
      MultipleAppend(Raised(init, k), last + k);
      ShiftPlus(Multiple(init), Shift(GENERATOR, last), k);
      ShiftShift(GENERATOR, last, k);
    }
  }

  lemma CongruentBy(p: Poly, q: Poly, qs: seq<nat>)
    requires p == Plus(q, Multiple(qs))
    ensures Congruent(p, q)
  {
  }

  lemma CongruentSame(p: Poly)
    ensures Congruent(p, p)
  {
    PlusLaws(p, {}, {});
    CongruentBy(p, p, []);
  }

  lemma CongruentTrans(p: Poly, q: Poly, r: Poly)
    requires Congruent(p, q) && Congruent(q, r)
    ensures Congruent(p, r)
  {
    var a :| p == Plus(q, Multiple(a));
    var b :| q == Plus(r, Multiple(b));
    MultipleConcat(b, a);
    PlusLaws(r, Multiple(b), Multiple(a));
    CongruentBy(p, r, b + a);
  }

  lemma CongruentPlus(p: Poly, q: Poly, r: Poly)
    requires Congruent(p, q)
    ensures Congruent(Plus(p, r), Plus(q, r))
  {
    var a :| p == Plus(q, Multiple(a));
    PlusLaws(q, Multiple(a), r);
    PlusLaws(Multiple(a), r, {});
    PlusLaws(q, r, Multiple(a));
    CongruentBy(Plus(p, r), Plus(q, r), a);
  }

  lemma CongruentShift(p: Poly, q: Poly, k: nat)
    requires Congruent(p, q)
    ensures Congruent(Shift(p, k), Shift(q, k))
  {
    var a :| p == Plus(q, Multiple(a));
    ShiftPlus(q, Multiple(a), k);
    MultipleShift(a, k);
    CongruentBy(Shift(p, k), Shift(q, k), Raised(a, k));
  }

  // ---- one bit of the register ----

  lemma PolynomialBits()
    ensures forall i: nat :: i < 32 ==> (Has(POLYNOMIAL, i) <==> 31 - i in GENERATOR)
  {
    assert Down(POLYNOMIAL, 0) == 0xedb88320;
    assert Down(POLYNOMIAL, 1) == 0x76dc4190;
    assert Down(POLYNOMIAL, 2) == 0x3b6e20c8;
    assert Down(POLYNOMIAL, 3) == 0x1db71064;
    assert Down(POLYNOMIAL, 4) == 0xedb8832;
    assert Down(POLYNOMIAL, 5) == 0x76dc419;
    assert Down(POLYNOMIAL, 6) == 0x3b6e20c;
    assert Down(POLYNOMIAL, 7) == 0x1db7106;
    assert Down(POLYNOMIAL, 8) == 0xedb883;
    assert Down(POLYNOMIAL, 9) == 0x76dc41;
    assert Down(POLYNOMIAL, 10) == 0x3b6e20;
    assert Down(POLYNOMIAL, 11) == 0x1db710;
    assert Down(POLYNOMIAL, 12) == 0xedb88;
    assert Down(POLYNOMIAL, 13) == 0x76dc4;
    assert Down(POLYNOMIAL, 14) == 0x3b6e2;
    assert Down(POLYNOMIAL, 15) == 0x1db71;
    assert Down(POLYNOMIAL, 16) == 0xedb8;
    assert Down(POLYNOMIAL, 17) == 0x76dc;
    assert Down(POLYNOMIAL, 18) == 0x3b6e;
    assert Down(POLYNOMIAL, 19) == 0x1db7;
    assert Down(POLYNOMIAL, 20) == 0xedb;
    assert Down(POLYNOMIAL, 21) == 0x76d;
    assert Down(POLYNOMIAL, 22) == 0x3b6;
    assert Down(POLYNOMIAL, 23) == 0x1db;
    assert Down(POLYNOMIAL, 24) == 0xed;
    assert Down(POLYNOMIAL, 25) == 0x76;
    assert Down(POLYNOMIAL, 26) == 0x3b;
    assert Down(POLYNOMIAL, 27) == 0x1d;
    assert Down(POLYNOMIAL, 28) == 0xe;
    assert Down(POLYNOMIAL, 29) == 0x7;
    assert Down(POLYNOMIAL, 30) == 0x3;
    assert Down(POLYNOMIAL, 31) == 0x1;
  }

  lemma OnesBits()
    ensures forall i: nat :: i < 32 ==> Has(ONES, i)
    ensures Down(ONES, 32) == 0
  {
    assert Down(ONES, 0) == 0xffffffff;
    assert Down(ONES, 1) == 0x7fffffff;
    assert Down(ONES, 2) == 0x3fffffff;
    assert Down(ONES, 3) == 0x1fffffff;
    assert Down(ONES, 4) == 0xfffffff;
    assert Down(ONES, 5) == 0x7ffffff;
    assert Down(ONES, 6) == 0x3ffffff;
    assert Down(ONES, 7) == 0x1ffffff;
    assert Down(ONES, 8) == 0xffffff;
    assert Down(ONES, 9) == 0x7fffff;
    assert Down(ONES, 10) == 0x3fffff;
    assert Down(ONES, 11) == 0x1fffff;
    assert Down(ONES, 12) == 0xfffff;
    assert Down(ONES, 13) == 0x7ffff;
    assert Down(ONES, 14) == 0x3ffff;
    assert Down(ONES, 15) == 0x1ffff;
    assert Down(ONES, 16) == 0xffff;
    assert Down(ONES, 17) == 0x7fff;
    assert Down(ONES, 18) == 0x3fff;
    assert Down(ONES, 19) == 0x1fff;
    assert Down(ONES, 20) == 0xfff;
    assert Down(ONES, 21) == 0x7ff;
    assert Down(ONES, 22) == 0x3ff;
    assert Down(ONES, 23) == 0x1ff;
    assert Down(ONES, 24) == 0xff;
    assert Down(ONES, 25) == 0x7f;
    assert Down(ONES, 26) == 0x3f;
    assert Down(ONES, 27) == 0x1f;
    assert Down(ONES, 28) == 0xf;
    assert Down(ONES, 29) == 0x7;
    assert Down(ONES, 30) == 0x3;
    assert Down(ONES, 31) == 0x1;
    assert Down(ONES, 32) == 0x0;
  }

  lemma OctetBits()
    ensures Down(0xff, 8) == 0
  {
    assert Down(0xff, 0) == 0xff;
    assert Down(0xff, 1) == 0x7f;
    assert Down(0xff, 2) == 0x3f;
    assert Down(0xff, 3) == 0x1f;
    assert Down(0xff, 4) == 0xf;
    assert Down(0xff, 5) == 0x7;
    assert Down(0xff, 6) == 0x3;
    assert Down(0xff, 7) == 0x1;
    assert Down(0xff, 8) == 0x0;
  }

  lemma HalfXor(u: bv32, v: bv32)
    ensures Half(Xor(u, v)) == Xor(Half(u), Half(v))
    ensures Odd(Xor(u, v)) <==> Odd(u) != Odd(v)
  {
  }

  lemma {:induction false} DownXor(u: bv32, v: bv32, i: nat)
    ensures Down(Xor(u, v), i) == Xor(Down(u, i), Down(v, i))
    ensures Has(Xor(u, v), i) <==> Has(u, i) != Has(v, i)
  {
    if i > 0 {
      DownXor(u, v, i - 1);
      HalfXor(Down(u, i - 1), Down(v, i - 1));
    }
    HalfXor(Down(u, i), Down(v, i));
  }

  lemma {:induction false} DownHalf(c: bv32, i: nat)
    ensures Down(Half(c), i) == Down(c, i + 1)
  {
    if i > 0 {
      DownHalf(c, i - 1);
    }
  }

  lemma {:induction false} DownZero(i: nat)
    ensures Down(0, i) == 0
  {
    if i > 0 {
      DownZero(i - 1);
    }
  }

  predicate AtMost(u: bv32, v: bv32) {
    u <= v
  }

  lemma HalfMonotone(u: bv32, v: bv32)
    requires AtMost(u, v)
    ensures AtMost(Half(u), Half(v))
  {
  }

  lemma {:induction false} DownMonotone(u: bv32, v: bv32, a: bv32, b: bv32, i: nat)
    requires AtMost(u, v) && a == Down(u, i) && b == Down(v, i)
    ensures AtMost(a, b)
    decreases i
  {
    if i > 0 {
      var x, y := Down(u, i - 1), Down(v, i - 1);
      DownMonotone(u, v, x, y, i - 1);
      HalfMonotone(x, y);
    }
  }

  lemma {:induction false} DownStays(c: bv32, i: nat, j: nat)
    requires i <= j && Down(c, i) == 0
    ensures Down(c, j) == 0
  {
    if i < j {
      DownStays(c, i, j - 1);
    }
  }

  lemma NothingAbove(c: bv32)
    ensures !Has(c, 32)
  {
    OnesBits();
    DownMonotone(c, ONES, Down(c, 32), 0, 32);
  }

  lemma OctetAbove(y: bv8, i: nat)
    requires 8 <= i
    ensures !Has(y as bv32, i)
  {
    OctetBits();
    DownMonotone(y as bv32, 0xff, Down(y as bv32, 8), 0, 8);
    DownStays(y as bv32, 8, i);
  }

  /** What is mixed in when a bit is shifted out. */
  function Feedback(c: bv32): bv32 {
    if Odd(c) then POLYNOMIAL else 0
  }

  lemma BitIs(c: bv32)
    ensures Bit(c) == Xor(Half(c), Feedback(c))
  {
  }

  lemma BitAt(c: bv32, i: nat)
    ensures Has(Bit(c), i) <==> Has(c, i + 1) != (Odd(c) && Has(POLYNOMIAL, i))
  {
    BitIs(c);
    DownXor(Half(c), Feedback(c), i);
    DownHalf(c, i);
    DownZero(i);
  }

  lemma ComplementIs(u: bv32)
    ensures Complement(u) == Xor(u, ONES)
  {
  }

  lemma ImageXor(u: bv32, v: bv32)
    ensures Image(Xor(u, v)) == Plus(Image(u), Image(v))
  {
    forall d: nat ensures d in Image(Xor(u, v)) <==> d in Plus(Image(u), Image(v)) {
      ReversedHas(Xor(u, v), 32, d);
      ReversedHas(u, 32, d);
      ReversedHas(v, 32, d);
      if d < 32 { DownXor(u, v, 31 - d); }
    }
  }

  lemma ImageOnes()
    ensures Image(ONES) == LOW
  {
    OnesBits();
    forall d: nat ensures d in Image(ONES) <==> d in LOW {
      ReversedHas(ONES, 32, d);
    }
  }

  lemma ImageComplement(u: bv32)
    ensures Image(Complement(u)) == Plus(Image(u), LOW)
  {
    ComplementIs(u);
    ImageXor(u, ONES);
    ImageOnes();
  }

  lemma ImageOctet(y: bv8)
    ensures Image(y as bv32) == Shift(OctetPoly(y), 24)
  {
    forall d: nat ensures d in Image(y as bv32) <==> d in Shift(OctetPoly(y), 24) {
      ShiftHas(OctetPoly(y), 24, d);
      ReversedHas(y as bv32, 32, d);
      if d >= 24 { ReversedHas(y as bv32, 8, d - 24); } else { OctetAbove(y, 31 - d); }
    }
  }

  lemma StepAt(c: bv32, d: nat)
    ensures d in Shift(Image(c), 1) <==> (d in Image(Bit(c))) != (Odd(c) && d in GENERATOR)
  {
    ShiftHas(Image(c), 1, d);
    ReversedHas(Bit(c), 32, d);
    if d > 0 { ReversedHas(c, 32, d - 1); }
    if d < 32 {
      PolynomialBits();
      BitAt(c, 31 - d);
      NothingAbove(c);
      assert Has(POLYNOMIAL, 31 - d) <==> 31 - (31 - d) in GENERATOR;
    }
  }

  /** Shifting one bit out multiplies by x, and takes the generator off if degree 32 appears. */
  lemma BitIsStep(c: bv32)
    ensures Shift(Image(c), 1) == Plus(Image(Bit(c)), if Odd(c) then GENERATOR else {})
  {
    forall d: nat
      ensures d in Shift(Image(c), 1) <==> d in Plus(Image(Bit(c)), if Odd(c) then GENERATOR else {})
    {
      StepAt(c, d);
    }
  }

  lemma BitCongruent(c: bv32)
    ensures Congruent(Shift(Image(c), 1), Image(Bit(c)))
  {
    BitIsStep(c);
    ShiftNone(GENERATOR, 0);
    if Odd(c) {
      assert [0][..0] == [];
      PlusLaws(GENERATOR, {}, {});
      assert Multiple([0]) == Plus({}, Shift(GENERATOR, 0));
      CongruentBy(Shift(Image(c), 1), Image(Bit(c)), [0]);
    } else {
      CongruentBy(Shift(Image(c), 1), Image(Bit(c)), []);
    }
  }

  lemma OneMoreShift(p: Poly, k: nat, q: Poly, r: Poly)
    requires Congruent(Shift(p, k), q) && Congruent(Shift(q, 1), r)
    ensures Congruent(Shift(p, k + 1), r)
  {
    CongruentShift(Shift(p, k), q, 1);
    ShiftShift(p, k, 1);
    CongruentTrans(Shift(p, k + 1), Shift(q, 1), r);
  }

  /** The register holds `p` times x to the `k`, reduced. */
  ghost predicate Holds(p: Poly, k: nat, c: bv32) {
    Congruent(Shift(p, k), Image(c))
  }

  lemma NextHolds(p: Poly, k: nat, c: bv32, d: bv32)
    requires Holds(p, k, c) && d == Bit(c)
    ensures Holds(p, k + 1, d)
  {
    BitCongruent(c);
    OneMoreShift(p, k, Image(c), Image(d));
  }

  lemma OctetIs(c: bv32)
    ensures Octet(c) == Bit(Bit(Bit(Bit(Bit(Bit(Bit(Bit(c))))))))
  {
    assert Bits(c, 1) == Bit(c);
    assert Bits(c, 2) == Bit(Bits(c, 1)) && Bits(c, 3) == Bit(Bits(c, 2)) && Bits(c, 4) == Bit(Bits(c, 3));
    assert Bits(c, 5) == Bit(Bits(c, 4)) && Bits(c, 6) == Bit(Bits(c, 5)) && Bits(c, 7) == Bit(Bits(c, 6));
  }

  lemma EightHold(p: Poly, c: bv32, d: bv32)
    requires Holds(p, 0, c) && d == Octet(c)
    ensures Holds(p, 8, d)
  {
    OctetIs(c);
    var c1 := Bit(c);
    NextHolds(p, 0, c, c1);
    var c2 := Bit(c1);
    NextHolds(p, 1, c1, c2);
    var c3 := Bit(c2);
    NextHolds(p, 2, c2, c3);
    var c4 := Bit(c3);
    NextHolds(p, 3, c3, c4);
    var c5 := Bit(c4);
    NextHolds(p, 4, c4, c5);
    var c6 := Bit(c5);
    NextHolds(p, 5, c5, c6);
    var c7 := Bit(c6);
    NextHolds(p, 6, c6, c7);
    NextHolds(p, 7, c7, d);
  }

  lemma OctetCongruent(c: bv32)
    ensures Congruent(Shift(Image(c), 8), Image(Octet(c)))
  {
    ShiftNone(Image(c), 0);
    CongruentSame(Image(c));
    EightHold(Image(c), c, Octet(c));
  }

  /** One byte multiplies the register by x to the 8 and adds the byte times x to the 32. */
  lemma AbsorbCongruent(r: bv32, y: bv8)
    ensures Congruent(Plus(Shift(Image(r), 8), Shift(OctetPoly(y), 32)), Image(Absorb(r, y)))
  {
    var mixed := Xor(r, y as bv32);
    OctetCongruent(mixed);
    ImageXor(r, y as bv32);
    ImageOctet(y);
    ShiftPlus(Image(r), Shift(OctetPoly(y), 24), 8);
    ShiftShift(OctetPoly(y), 24, 8);
  }

  /** The dividend: the message times x to the 32, and the starting register ahead of it. */
  function Dividend(start: Poly, b: seq<bv8>): Poly {
    Plus(Shift(Message(b), 32), Shift(start, 8 * |b|))
  }

  lemma DividendStep(start: Poly, b: seq<bv8>, y: bv8)
    ensures Dividend(start, b + [y]) == Plus(Shift(Dividend(start, b), 8), Shift(OctetPoly(y), 32))
  {
    var m, o, s := Shift(Message(b), 8), OctetPoly(y), Shift(start, 8 * |b|);
    assert (b + [y])[..|b|] == b;
    assert Message(b + [y]) == Plus(m, o);
    ShiftPlus(m, o, 32);
    ShiftShift(Message(b), 8, 32);
    ShiftShift(Message(b), 32, 8);
    ShiftShift(start, 8 * |b|, 8);
    ShiftPlus(Shift(Message(b), 32), s, 8);
    PlusLaws(Shift(m, 32), Shift(o, 32), Shift(s, 8));
    PlusLaws(Shift(o, 32), Shift(s, 8), {});
    PlusLaws(Shift(m, 32), Shift(s, 8), Shift(o, 32));
  }

  lemma FoldLast(c: bv32, b: seq<bv8>, y: bv8)
    ensures Fold(Absorb, c, b + [y]) == Absorb(Fold(Absorb, c, b), y)
  {
    FoldConcat(Absorb, c, b, [y]);
    assert [y][1..] == [];
    assert Fold(Absorb, Fold(Absorb, c, b), [y]) == Fold(Absorb, Absorb(Fold(Absorb, c, b), y), []);
  }

  /** After any message the register is congruent to the dividend. */
  lemma {:induction false} RegisterCongruent(c: bv32, b: seq<bv8>)
    ensures Congruent(Dividend(Image(c), b), Image(Fold(Absorb, c, b)))
  {
    if b == [] {
      ShiftNone(Image(c), 32);
      ShiftNone(Image(c), 0);
      PlusLaws({}, Image(c), {});
      PlusLaws(Image(c), {}, {});
      CongruentSame(Image(c));
    } else {
      var init, y := b[..|b|-1], b[|b|-1];
      var r := Fold(Absorb, c, init);
      assert b == init + [y];
      RegisterCongruent(c, init);
      FoldLast(c, init, y);
      DividendStep(Image(c), init, y);
      CongruentShift(Dividend(Image(c), init), Image(r), 8);
      CongruentPlus(Shift(Dividend(Image(c), init), 8), Shift(Image(r), 8), Shift(OctetPoly(y), 32));
      AbsorbCongruent(r, y);
      CongruentTrans(Dividend(Image(c), b), Plus(Shift(Image(r), 8), Shift(OctetPoly(y), 32)), Image(Absorb(r, y)));
    }
  }

  // ---- the remainder, and that there is only one ----

  /** `r` is what is left of `p` modulo the generator. */
  ghost predicate IsRemainder(p: Poly, r: Poly) {
    (forall d :: d in r ==> d < 32) && Congruent(p, r)
  }

  /**
   The checksum of any message, complemented and read in reverse, is the remainder of the message
   times x to the 32, with 32 ones ahead of it.
   */
  lemma ChecksumIsRemainder(b: seq<bv8>)
    ensures IsRemainder(Plus(Shift(Message(b), 32), Shift(LOW, 8 * |b|)), Plus(Image(Crc32(b)), LOW))
  {
    var r := Fold(Absorb, ONES, b);
    ImageOnes();
    RegisterCongruent(ONES, b);
    ImageComplement(r);
    PlusLaws(Image(r), LOW, {});
  }

  predicate Rising(qs: seq<nat>) {
    forall i, j :: 0 <= i < j < |qs| ==> qs[i] < qs[j]
  }

  /** Add a power to a rising list, or take it away. */
  function Toggle(qs: seq<nat>, k: nat): seq<nat> {
    if qs == [] || qs[|qs|-1] < k then qs + [k]
    else if qs[|qs|-1] == k then qs[..|qs|-1]
    else Toggle(qs[..|qs|-1], k) + [qs[|qs|-1]]
  }

  lemma {:induction false} ToggleRises(qs: seq<nat>, k: nat)
    requires Rising(qs)
    ensures Rising(Toggle(qs, k))
    ensures forall i :: 0 <= i < |Toggle(qs, k)| ==> Toggle(qs, k)[i] == k || Toggle(qs, k)[i] in qs
  {
    if qs != [] && qs[|qs|-1] > k {
      ToggleRises(qs[..|qs|-1], k);
    }
  }

  lemma {:induction false} ToggleAdds(qs: seq<nat>, k: nat)
    ensures Multiple(Toggle(qs, k)) == Plus(Multiple(qs), Shift(GENERATOR, k))
  {
    var g := Shift(GENERATOR, k);
    if qs == [] || qs[|qs|-1] < k {
      MultipleAppend(qs, k);
    } else {
      var init, last := qs[..|qs|-1], qs[|qs|-1];
      if last == k {
        PlusLaws(Multiple(init), g, {});
      } else {
        ToggleAdds(init, k);
        MultipleAppend(Toggle(init, k), last);
        PlusLaws(Multiple(init), g, Shift(GENERATOR, last));
        PlusLaws(g, Shift(GENERATOR, last), {});
        PlusLaws(Multiple(init), Shift(GENERATOR, last), g);
      }
    }
  }

  /** Every multiple is one by different powers. */
  lemma {:induction false} Normalised(qs: seq<nat>) returns (rs: seq<nat>)
    ensures Rising(rs) && Multiple(rs) == Multiple(qs)
  {
    if qs == [] {
      rs := [];
    } else {
      var init := Normalised(qs[..|qs|-1]);
      rs := Toggle(init, qs[|qs|-1]);
      ToggleRises(init, qs[|qs|-1]);
      ToggleAdds(init, qs[|qs|-1]);
    }
  }

  /** A multiple by different powers has the degree the last of them gives it. */
  lemma {:induction false} TopDegree(qs: seq<nat>)
    requires Rising(qs) && qs != []
    ensures qs[|qs|-1] + 32 in Multiple(qs)
    ensures forall d :: d in Multiple(qs) ==> d <= qs[|qs|-1] + 32
  {
    var init, last := qs[..|qs|-1], qs[|qs|-1];
    if init != [] {
      TopDegree(init);
      assert init[|init|-1] < last;
    }
    ShiftHas(GENERATOR, last, last + 32);
    forall d | d in Shift(GENERATOR, last) ensures d <= last + 32 { ShiftHas(GENERATOR, last, d); }
  }

  lemma SmallMultiple(qs: seq<nat>)
    requires Rising(qs) && forall d :: d in Multiple(qs) ==> d < 32
    ensures qs == []
  {
    if qs != [] {
      TopDegree(qs);
    }
  }

  lemma NothingApart(r: Poly, s: Poly)
    requires Plus(r, s) == {}
    ensures r == s
  {
    forall d: nat ensures d in r <==> d in s {
      PlusHas(r, s, d);
    }
  }

  /** A remainder is the only one. */
  lemma RemainderUnique(p: Poly, r: Poly, s: Poly)
    requires IsRemainder(p, r) && IsRemainder(p, s)
    ensures r == s
  {
    var a :| p == Plus(r, Multiple(a));
    var b :| p == Plus(s, Multiple(b));
    MultipleConcat(a, b);
    SumOfRemainders(p, r, s, Multiple(a), Multiple(b));
    var qs := Normalised(a + b);
    assert Multiple(qs) == Plus(r, s);
    SmallMultiple(qs);
    NothingApart(r, s);
  }

  lemma SumOfRemainders(p: Poly, r: Poly, s: Poly, m: Poly, n: Poly)
    requires p == Plus(r, m) && p == Plus(s, n)
    ensures Plus(m, n) == Plus(r, s)
  {
    forall d: nat ensures d in Plus(m, n) <==> d in Plus(r, s) {
      PlusHas(r, m, d);
      PlusHas(s, n, d);
    }
  }

  // ---- the published check value ----

  lemma AbsorbIs(c: bv32, y: bv8)
    ensures Absorb(c, y) == Bit(Bit(Bit(Bit(Bit(Bit(Bit(Bit(c ^ (y as bv32)))))))))
  {
    OctetIs(Xor(c, y as bv32));
  }

  lemma CheckRegisters()
    ensures Absorb(0xffffffff, 0x31) == 0x7c231048
    ensures Absorb(0x7c231048, 0x32) == 0xb0acbb32
    ensures Absorb(0xb0acbb32, 0x33) == 0x77b79c2d
    ensures Absorb(0x77b79c2d, 0x34) == 0x641c1f5c
    ensures Absorb(0x641c1f5c, 0x35) == 0x340ac5e3
    ensures Absorb(0x340ac5e3, 0x36) == 0xf68d2c9e
    ensures Absorb(0xf68d2c9e, 0x37) == 0xaffc9660
    ensures Absorb(0xaffc9660, 0x38) == 0x651f2550
    ensures Absorb(0x651f2550, 0x39) == 0x340bc6d9
  {
    AbsorbIs(0xffffffff, 0x31);
    AbsorbIs(0x7c231048, 0x32);
    AbsorbIs(0xb0acbb32, 0x33);
    AbsorbIs(0x77b79c2d, 0x34);
    AbsorbIs(0x641c1f5c, 0x35);
    AbsorbIs(0x340ac5e3, 0x36);
    AbsorbIs(0xf68d2c9e, 0x37);
    AbsorbIs(0xaffc9660, 0x38);
    AbsorbIs(0x651f2550, 0x39);
  }

  /** The checksum of the nine digits 1 to 9. */
  lemma CheckValue(b: seq<bv8>)
    requires b == [0x31, 0x32, 0x33, 0x34, 0x35, 0x36, 0x37, 0x38, 0x39]
    ensures Crc32(b) == 0xcbf43926
  {
    CheckRegisters();
    FoldLast(ONES, b[..0], b[0]);
    assert b[..0] + [b[0]] == b[..1];
    FoldLast(ONES, b[..1], b[1]);
    assert b[..1] + [b[1]] == b[..2];
    FoldLast(ONES, b[..2], b[2]);
    assert b[..2] + [b[2]] == b[..3];
    FoldLast(ONES, b[..3], b[3]);
    assert b[..3] + [b[3]] == b[..4];
    FoldLast(ONES, b[..4], b[4]);
    assert b[..4] + [b[4]] == b[..5];
    FoldLast(ONES, b[..5], b[5]);
    assert b[..5] + [b[5]] == b[..6];
    FoldLast(ONES, b[..6], b[6]);
    assert b[..6] + [b[6]] == b[..7];
    FoldLast(ONES, b[..7], b[7]);
    assert b[..7] + [b[7]] == b[..8];
    FoldLast(ONES, b[..8], b[8]);
    assert b[..8] + [b[8]] == b[..9];
    assert b[..9] == b;
  }
}
