/**
 The checksum behind the container project name: a 32-bit register fed one byte
 at a time, followed by the octets of the length. The register loop is proved
 against polynomial division over GF(2), which is how POSIX.1-2017 describes the
 utility `cksum` (Shell and Utilities volume, section 4).
 */
module Cksum {

  // ----- Polynomials over GF(2): the set of exponents whose coefficient is 1 -----

  type Poly = set<nat>

  ghost function Add(p: Poly, q: Poly): Poly {
    (p - q) + (q - p)
  }

  ghost function TimesPowerOfX(p: Poly, k: nat): Poly {
    set e | e in p :: e + k
  }

  /** The generator of the standard. */
  ghost const GENERATOR: Poly := {32, 26, 23, 22, 16, 12, 11, 10, 8, 7, 5, 4, 2, 1, 0}

  /** The product of the generator and the quotient whose coefficients, highest first, are `q`. */
  ghost function Multiple(q: seq<bool>): Poly {
    if q == [] then {}
    else Add(TimesPowerOfX(Multiple(q[..|q| - 1]), 1), if q[|q| - 1] then GENERATOR else {})
  }

  /** `r` is the remainder of `p` after division by the generator. */
  ghost predicate IsRemainder(p: Poly, r: Poly) {
    (forall e <- r :: e < 32) && exists q :: p == Add(Multiple(q), r)
  }

  /** The polynomial a list of octets stands for: the first octet is the most significant. */
  ghost function MessagePoly(bytes: seq<bv8>): Poly {
    if bytes == [] then {}
    else Add(TimesPowerOfX(MessagePoly(bytes[..|bytes| - 1]), 8), OctetPoly(bytes[|bytes| - 1]))
  }

  /** The polynomial of one octet: its top bit is the coefficient of x to the power 7. */
  ghost function OctetPoly(b: bv8): Poly {
    ListPoly(ReadBits((b as bv32) << 24, 8))
  }

  // ----- The register as a polynomial -----

  /** Truth values read from the top of a register down. */
  datatype Bits = Nil | Cons(head: bool, tail: Bits)

  predicate Top(c: bv32) {
    c & 0x8000_0000 != 0
  }

  function ReadBits(c: bv32, n: nat): Bits
    decreases n
  {
    if n == 0 then Nil else Cons(Top(c), ReadBits(c << 1, n - 1))
  }

  function Length(w: Bits): nat {
    match w
    case Nil => 0
    case Cons(_, tail) => 1 + Length(tail)
  }

  ghost function ListPoly(w: Bits): Poly {
    match w
    case Nil => {}
    case Cons(head, tail) => (if head then {Length(tail)} else {}) + ListPoly(tail)
  }

  ghost function PolyOf(c: bv32): Poly {
    ListPoly(ReadBits(c, 32))
  }

  // ----- The algorithm -----

  /** One round of the inner loop. */
  function Shift(c: bv32): bv32 {
    if c & 0x8000_0000 != 0 then (c << 1) ^ 0x04c1_1db7 else c << 1
  }

  function Shifts(c: bv32, n: nat): bv32 {
    if n == 0 then c else Shift(Shifts(c, n - 1))
  }

  /** The register after feeding `bytes` to a register holding `c`. */
  function Feed(c: bv32, bytes: seq<bv8>): bv32 {
    if bytes == [] then c
    else Shifts(Load(Feed(c, bytes[..|bytes| - 1]), bytes[|bytes| - 1]), 8)
  }

  /** A byte enters at the top of the register. */
  function Load(c: bv32, b: bv8): bv32 {
    c ^ ((b as bv32) << 24)
  }

  type Octet = k: nat | k < 256

  /** The octets of a length, least significant first; none at all for zero. */
  function LengthOctets(n: nat): seq<Octet> {
    if n == 0 then [] else [n % 256] + LengthOctets(n / 256)
  }

  function AsBytes(octets: seq<Octet>): seq<bv8> {
    if octets == [] then [] else AsBytes(octets[..|octets| - 1]) + [octets[|octets| - 1] as bv8]
  }

  /** What follows the message in the register. */
  function Suffix(n: nat): seq<bv8> {
    AsBytes(LengthOctets(n))
  }

  /** The register after a message and the octets of its length. */
  function Register(bytes: seq<bv8>): bv32 {
    Feed(0, bytes + Suffix(|bytes|))
  }

  function Checksum(bytes: seq<bv8>): bv32 {
    !Register(bytes)
  }

  method LengthSuffix(n: nat) returns (suffix: seq<bv8>)
    ensures suffix == Suffix(n)
  {
    suffix := [];
    if n == 0 {
      return;
    }
    var length := n;
    ghost var octets: seq<Octet> := [length % 256];
    suffix := [(length % 256) as bv8];
    assert AsBytes(octets[..0]) == [];
    while length > 0xff
      invariant length > 0
      invariant octets + LengthOctets(length / 256) == LengthOctets(n)
      invariant suffix == AsBytes(octets)
    {
      length := length / 256;
      suffix := suffix + [(length % 256) as bv8];
      assert (octets + [length % 256])[..|octets|] == octets;
      octets := octets + [length % 256];
    }
    assert LengthOctets(length / 256) == [];
    assert octets == LengthOctets(n);
  }

  method PosixCksum(bytes: seq<bv8>) returns (checksum: bv32)
    ensures checksum == Checksum(bytes)
  {
    checksum := 0;
    var suffix := LengthSuffix(|bytes|);
    var stream := bytes + suffix;
    for i := 0 to |stream|
      invariant checksum == Feed(0, stream[..i])
    {
      ghost var fed := checksum;
      checksum := Load(checksum, stream[i]);
      for round := 0 to 8
        invariant checksum == Shifts(Load(fed, stream[i]), round)
      {
        checksum := Shift(checksum);
      }
      assert stream[..i + 1][..i] == stream[..i];
    }
    assert stream[..|stream|] == stream;
    checksum := !checksum;
  }

  // ----- Algebra of polynomials -----

  lemma InTimesPowerOfX(p: Poly, k: nat, e: nat)
    ensures e in TimesPowerOfX(p, k) <==> e >= k && e - k in p
  {
    if e >= k && e - k in p {
      assert e == (e - k) + k;
    }
  }

  lemma TimesDistributes(p: Poly, q: Poly, k: nat)
    ensures TimesPowerOfX(Add(p, q), k) == Add(TimesPowerOfX(p, k), TimesPowerOfX(q, k))
  {
    forall e: nat
      ensures e in TimesPowerOfX(Add(p, q), k) <==> e in Add(TimesPowerOfX(p, k), TimesPowerOfX(q, k))
    {
      InTimesPowerOfX(Add(p, q), k, e);
      InTimesPowerOfX(p, k, e);
      InTimesPowerOfX(q, k, e);
    }
  }

  lemma TimesTwice(p: Poly, j: nat, k: nat)
    ensures TimesPowerOfX(TimesPowerOfX(p, j), k) == TimesPowerOfX(p, j + k)
  {
    forall e: nat
      ensures e in TimesPowerOfX(TimesPowerOfX(p, j), k) <==> e in TimesPowerOfX(p, j + k)
    {
      InTimesPowerOfX(p, j + k, e);
      InTimesPowerOfX(TimesPowerOfX(p, j), k, e);
      if e >= k {
        InTimesPowerOfX(p, j, e - k);
      }
    }
  }

  lemma TimesPowerZero(p: Poly)
    ensures TimesPowerOfX(p, 0) == p
  {
    forall e: nat
      ensures e in TimesPowerOfX(p, 0) <==> e in p
    {
      InTimesPowerOfX(p, 0, e);
    }
  }

  // ----- Bit lists -----

  function XorBits(w: Bits, v: Bits): Bits {
    match (w, v)
    case (Cons(x, s), Cons(y, t)) => Cons(x != y, XorBits(s, t))
    case _ => Nil
  }

  function AppendZeros(w: Bits, n: nat): Bits {
    match w
    case Nil => if n == 0 then Nil else Cons(false, AppendZeros(Nil, n - 1))
    case Cons(head, tail) => Cons(head, AppendZeros(tail, n))
  }

  lemma {:induction false} ReadBitsLength(c: bv32, n: nat)
    ensures Length(ReadBits(c, n)) == n
    decreases n
  {
    if n > 0 {
      ReadBitsLength(c << 1, n - 1);
    }
  }

  lemma ShiftOfXor(c: bv32, d: bv32)
    ensures (c ^ d) << 1 == (c << 1) ^ (d << 1)
  {
  }

  lemma TopOfXor(c: bv32, d: bv32)
    ensures Top(c ^ d) <==> (Top(c) != Top(d))
  {
  }

  lemma ReadBitsOfXorStep(c: bv32, d: bv32, n: nat)
    ensures ReadBits(c ^ d, n + 1) == Cons(Top(c) != Top(d), ReadBits((c << 1) ^ (d << 1), n))
  {
    ShiftOfXor(c, d);
    TopOfXor(c, d);
  }

  lemma {:induction false} ReadBitsOfXor(c: bv32, d: bv32, n: nat)
    ensures ReadBits(c ^ d, n) == XorBits(ReadBits(c, n), ReadBits(d, n))
    decreases n
  {
    if n > 0 {
      ReadBitsOfXorStep(c, d, n - 1);
      ReadBitsOfXor(c << 1, d << 1, n - 1);
    }
  }

  /** Nothing is left in the register after `n` shifts. */
  predicate EmptyAfter(c: bv32, n: nat)
    decreases n
  {
    if n == 0 then c == 0 else EmptyAfter(c << 1, n - 1)
  }

  lemma {:induction false} ZeroReadsZeros(n: nat)
    ensures ReadBits(0, n) == AppendZeros(Nil, n)
  {
    if n > 0 {
      assert !Top(0);
      ZeroReadsZeros(n - 1);
    }
  }

  /** Reading past the last set bit reads zeros. */
  lemma {:induction false} ReadPastTheEnd(c: bv32, n: nat, k: nat)
    requires EmptyAfter(c, n)
    ensures ReadBits(c, n + k) == AppendZeros(ReadBits(c, n), k)
    decreases n
  {
    if n == 0 {
      ZeroReadsZeros(k);
    } else {
      ReadPastTheEnd(c << 1, n - 1, k);
    }
  }

  lemma EmptyAfterEightMore(c: bv32, n: nat)
    ensures EmptyAfter(c, n + 8) <==> EmptyAfter(c << 8, n)
  {
    var c1, c2, c3, c4 := c << 1, c << 2, c << 3, c << 4;
    var c5, c6, c7, c8 := c << 5, c << 6, c << 7, c << 8;
    assert EmptyAfter(c, n + 8) <==> EmptyAfter(c1, n + 7);
    assert EmptyAfter(c1, n + 7) <==> EmptyAfter(c2, n + 6);
    assert EmptyAfter(c2, n + 6) <==> EmptyAfter(c3, n + 5);
    assert EmptyAfter(c3, n + 5) <==> EmptyAfter(c4, n + 4);
    assert EmptyAfter(c4, n + 4) <==> EmptyAfter(c5, n + 3);
    assert EmptyAfter(c5, n + 3) <==> EmptyAfter(c6, n + 2);
    assert EmptyAfter(c6, n + 2) <==> EmptyAfter(c7, n + 1);
    assert EmptyAfter(c7, n + 1) <==> EmptyAfter(c8, n);
  }

  // ----- Bit lists as polynomials -----

  lemma {:induction false} ListPolyBounded(w: Bits)
    ensures forall e <- ListPoly(w) :: e < Length(w)
  {
    if w.Cons? {
      ListPolyBounded(w.tail);
    }
  }

  lemma {:induction false} ListPolyOfXor(w: Bits, v: Bits)
    requires Length(w) == Length(v)
    ensures ListPoly(XorBits(w, v)) == Add(ListPoly(w), ListPoly(v))
    ensures Length(XorBits(w, v)) == Length(w)
  {
    if w.Cons? {
      ListPolyOfXor(w.tail, v.tail);
      ListPolyBounded(w.tail);
      ListPolyBounded(v.tail);
    }
  }

  lemma {:induction false} ListPolyOfZeros(n: nat)
    ensures ListPoly(AppendZeros(Nil, n)) == {} && Length(AppendZeros(Nil, n)) == n
  {
    if n > 0 {
      ListPolyOfZeros(n - 1);
    }
  }

  lemma {:induction false} ListPolyOfAppendZeros(w: Bits, n: nat)
    ensures ListPoly(AppendZeros(w, n)) == TimesPowerOfX(ListPoly(w), n)
    ensures Length(AppendZeros(w, n)) == Length(w) + n
  {
    match w
    case Nil => ListPolyOfZeros(n);
    case Cons(head, tail) =>
      ListPolyOfAppendZeros(tail, n);
      forall e: nat
        ensures e in ListPoly(AppendZeros(w, n)) <==> e in TimesPowerOfX(ListPoly(w), n)
      {
        InTimesPowerOfX(ListPoly(w), n, e);
        InTimesPowerOfX(ListPoly(tail), n, e);
      }
  }

  lemma PolyOfXor(c: bv32, d: bv32)
    ensures PolyOf(c ^ d) == Add(PolyOf(c), PolyOf(d))
  {
    ReadBitsOfXor(c, d, 32);
    ReadBitsLength(c, 32);
    ReadBitsLength(d, 32);
    ListPolyOfXor(ReadBits(c, 32), ReadBits(d, 32));
  }

  lemma EmptyAfterThirtyTwo(c: bv32)
    ensures EmptyAfter(c, 32)
  {
    EmptyAfterEightMore(c, 24);
    EmptyAfterEightMore(c << 8, 16);
    EmptyAfterEightMore(c << 8 << 8, 8);
    EmptyAfterEightMore(c << 8 << 8 << 8, 0);
  }

  /** Shifting left multiplies by x, except that the top coefficient is lost. */
  lemma PolyOfShiftLeft(c: bv32)
    ensures PolyOf(c << 1) == TimesPowerOfX(PolyOf(c) - {31}, 1)
    ensures 31 in PolyOf(c) <==> Top(c)
  {
    EmptyAfterThirtyTwo(c);
    ReadPastTheEnd(c << 1, 31, 1);
    ListPolyOfAppendZeros(ReadBits(c << 1, 31), 1);
    ReadBitsLength(c << 1, 31);
    ListPolyBounded(ReadBits(c << 1, 31));
    assert PolyOf(c) - {31} == ListPoly(ReadBits(c << 1, 31));
  }

  /** Eight coefficients at a time. */
  function EightBits(b7: bool, b6: bool, b5: bool, b4: bool, b3: bool, b2: bool, b1: bool, b0: bool, rest: Bits): Bits {
    Cons(b7, Cons(b6, Cons(b5, Cons(b4, Cons(b3, Cons(b2, Cons(b1, Cons(b0, rest))))))))
  }

  lemma ReadOctet(c: bv32, n: nat)
    ensures ReadBits(c, n + 8) ==
            EightBits(Top(c), Top(c << 1), Top(c << 2), Top(c << 3), Top(c << 4), Top(c << 5), Top(c << 6), Top(c << 7),
                  ReadBits(c << 8, n))
  {
    var c1, c2, c3, c4 := c << 1, c << 2, c << 3, c << 4;
    var c5, c6, c7, c8 := c << 5, c << 6, c << 7, c << 8;
    assert ReadBits(c, n + 8) == Cons(Top(c), ReadBits(c1, n + 7));
    assert ReadBits(c1, n + 7) == Cons(Top(c1), ReadBits(c2, n + 6));
    assert ReadBits(c2, n + 6) == Cons(Top(c2), ReadBits(c3, n + 5));
    assert ReadBits(c3, n + 5) == Cons(Top(c3), ReadBits(c4, n + 4));
    assert ReadBits(c4, n + 4) == Cons(Top(c4), ReadBits(c5, n + 3));
    assert ReadBits(c5, n + 3) == Cons(Top(c5), ReadBits(c6, n + 2));
    assert ReadBits(c6, n + 2) == Cons(Top(c6), ReadBits(c7, n + 1));
    assert ReadBits(c7, n + 1) == Cons(Top(c7), ReadBits(c8, n));
  }

  predicate Coefficient(w: Bits, e: nat) {
    match w
    case Nil => false
    case Cons(head, tail) => if e == Length(tail) then head else Coefficient(tail, e)
  }

  lemma {:induction false} CoefficientInListPoly(w: Bits, e: nat)
    ensures e in ListPoly(w) <==> Coefficient(w, e)
  {
    if w.Cons? {
      CoefficientInListPoly(w.tail, e);
      ListPolyBounded(w.tail);
    }
  }

  lemma CoefficientOfOctet(b7: bool, b6: bool, b5: bool, b4: bool, b3: bool, b2: bool, b1: bool, b0: bool,
                           rest: Bits, e: nat)
    ensures var w := EightBits(b7, b6, b5, b4, b3, b2, b1, b0, rest); var n := Length(rest);
            && Length(w) == n + 8
            && (Coefficient(w, e) <==>
                if e == n + 7 then b7 else if e == n + 6 then b6 else if e == n + 5 then b5 else if e == n + 4 then b4
                else if e == n + 3 then b3 else if e == n + 2 then b2 else if e == n + 1 then b1 else if e == n then b0
                else Coefficient(rest, e))
  {
    var n := Length(rest);
    var r1 := Cons(b1, Cons(b0, rest));
    var r3 := Cons(b3, Cons(b2, r1));
    var r5 := Cons(b5, Cons(b4, r3));
    assert Length(r1) == n + 2 && Length(r3) == n + 4 && Length(r5) == n + 6;
    assert Coefficient(r1, e) <==> if e == n + 1 then b1 else if e == n then b0 else Coefficient(rest, e);
    assert Coefficient(r3, e) <==> if e == n + 3 then b3 else if e == n + 2 then b2 else Coefficient(r1, e);
    assert Coefficient(r5, e) <==> if e == n + 5 then b5 else if e == n + 4 then b4 else Coefficient(r3, e);
  }

  function FeedbackOctet(k: nat): Bits {
    if k == 0 then Nil
    else if k == 1 then EightBits(true, false, true, true, false, true, true, true, FeedbackOctet(0))
    else if k == 2 then EightBits(false, false, false, true, true, true, false, true, FeedbackOctet(1))
    else if k == 3 then EightBits(true, true, false, false, false, false, false, true, FeedbackOctet(2))
    else EightBits(false, false, false, false, false, true, false, false, FeedbackOctet(3))
  }

  lemma ReadFeedback()
    ensures ReadBits(0x04c1_1db7, 32) == FeedbackOctet(4)
  {
    ReadOctet(0xb700_0000, 0);
    assert ReadBits(0xb700_0000, 8) == FeedbackOctet(1);
    ReadOctet(0x1db7_0000, 8);
    assert ReadBits(0x1db7_0000, 16) == FeedbackOctet(2);
    ReadOctet(0xc11d_b700, 16);
    assert ReadBits(0xc11d_b700, 24) == FeedbackOctet(3);
    ReadOctet(0x04c1_1db7, 24);
  }

  lemma FeedbackLow(e: nat)
    ensures Length(FeedbackOctet(1)) == 8
    ensures Coefficient(FeedbackOctet(1), e) <==> e in {7, 5, 4, 2, 1, 0}
  {
    CoefficientOfOctet(true, false, true, true, false, true, true, true, FeedbackOctet(0), e);
  }

  lemma FeedbackSecond(e: nat)
    ensures Length(FeedbackOctet(2)) == 16
    ensures Coefficient(FeedbackOctet(2), e) <==> e in {12, 11, 10, 8, 7, 5, 4, 2, 1, 0}
  {
    FeedbackLow(e);
    CoefficientOfOctet(false, false, false, true, true, true, false, true, FeedbackOctet(1), e);
  }

  lemma FeedbackThird(e: nat)
    ensures Length(FeedbackOctet(3)) == 24
    ensures Coefficient(FeedbackOctet(3), e) <==> e in {23, 22, 16, 12, 11, 10, 8, 7, 5, 4, 2, 1, 0}
  {
    FeedbackSecond(e);
    CoefficientOfOctet(true, true, false, false, false, false, false, true, FeedbackOctet(2), e);
  }

  lemma FeedbackCoefficient(e: nat)
    ensures Coefficient(FeedbackOctet(4), e) <==> e in {26, 23, 22, 16, 12, 11, 10, 8, 7, 5, 4, 2, 1, 0}
  {
    FeedbackThird(e);
    CoefficientOfOctet(false, false, false, false, false, true, false, false, FeedbackOctet(3), e);
  }

  lemma PolyOfFeedback()
    ensures PolyOf(0x04c1_1db7) == GENERATOR - {32}
  {
    ReadFeedback();
    FeedbackPoly();
  }

  lemma FeedbackPoly()
    ensures ListPoly(FeedbackOctet(4)) == GENERATOR - {32}
  {
    forall e: nat
      ensures e in ListPoly(FeedbackOctet(4)) <==> e in {26, 23, 22, 16, 12, 11, 10, 8, 7, 5, 4, 2, 1, 0}
    {
      FeedbackCoefficient(e);
      CoefficientInListPoly(FeedbackOctet(4), e);
    }
  }

  // ----- The register step is a step of long division -----

  lemma PolyBounded(c: bv32)
    ensures forall e <- PolyOf(c) :: e < 32
  {
    ReadBitsLength(c, 32);
    ListPolyBounded(ReadBits(c, 32));
  }

  lemma DropTop(p: Poly)
    requires forall e <- p :: e < 32
    ensures 31 in p ==>
              Add(TimesPowerOfX(p - {31}, 1), GENERATOR - {32}) == Add(TimesPowerOfX(p, 1), GENERATOR)
    ensures 31 !in p ==> TimesPowerOfX(p - {31}, 1) == Add(TimesPowerOfX(p, 1), {})
  {
    forall e: nat
      ensures e in TimesPowerOfX(p - {31}, 1) <==> e in TimesPowerOfX(p, 1) && e != 32
      ensures e in TimesPowerOfX(p, 1) ==> 1 <= e <= 32
    {
      InTimesPowerOfX(p - {31}, 1, e);
      InTimesPowerOfX(p, 1, e);
    }
    InTimesPowerOfX(p, 1, 32);
  }

  lemma PolyOfShift(c: bv32)
    ensures PolyOf(Shift(c)) == Add(TimesPowerOfX(PolyOf(c), 1), if 31 in PolyOf(c) then GENERATOR else {})
  {
    PolyBounded(c);
    DropTop(PolyOf(c));
    PolyOfShiftLeft(c);
    if Top(c) {
      PolyOfFeedback();
      PolyOfXor(c << 1, 0x04c1_1db7);
    }
  }

  lemma OctetLeavesTheTop(b: bv8)
    ensures EmptyAfter((b as bv32) << 24, 8)
  {
    EmptyAfterEightMore((b as bv32) << 24, 0);
  }

  lemma PolyOfOctetOnTop(b: bv8)
    ensures PolyOf((b as bv32) << 24) == TimesPowerOfX(OctetPoly(b), 24)
  {
    var d := (b as bv32) << 24;
    OctetLeavesTheTop(b);
    ReadPastTheEnd(d, 8, 24);
    ListPolyOfAppendZeros(ReadBits(d, 8), 24);
  }

  lemma PolyOfLoad(c: bv32, b: bv8)
    ensures PolyOf(Load(c, b)) == Add(PolyOf(c), TimesPowerOfX(OctetPoly(b), 24))
  {
    PolyOfOctetOnTop(b);
    PolyOfXor(c, (b as bv32) << 24);
  }

  lemma AddAssociates(p: Poly, q: Poly, r: Poly)
    ensures Add(Add(p, q), r) == Add(p, Add(q, r))
  {
  }

  lemma AddSwaps(p: Poly, q: Poly, r: Poly, t: Poly)
    ensures Add(Add(p, q), Add(r, t)) == Add(Add(p, r), Add(q, t))
  {
  }

  lemma QuotientStep(q: seq<bool>, top: bool)
    ensures Multiple(q + [top]) == Add(TimesPowerOfX(Multiple(q), 1), if top then GENERATOR else {})
  {
    assert (q + [top])[..|q|] == q;
  }

  /** One more round divides x times the dividend. */
  lemma DivideOnce(p: Poly, q: seq<bool>, r: Poly) returns (quotient: seq<bool>)
    requires p == Add(Multiple(q), r)
    ensures TimesPowerOfX(p, 1) ==
            Add(Multiple(quotient), Add(TimesPowerOfX(r, 1), if 31 in r then GENERATOR else {}))
  {
    quotient := q + [31 in r];
    QuotientStep(q, 31 in r);
    TimesDistributes(Multiple(q), r, 1);
    DivisionStep(TimesPowerOfX(Multiple(q), 1), TimesPowerOfX(r, 1), if 31 in r then GENERATOR else {});
  }

  lemma DivideRound(p: Poly, q: seq<bool>, c: bv32) returns (quotient: seq<bool>)
    requires p == Add(Multiple(q), PolyOf(c))
    ensures TimesPowerOfX(p, 1) == Add(Multiple(quotient), PolyOf(Shift(c)))
  {
    quotient := DivideOnce(p, q, PolyOf(c));
    PolyOfShift(c);
  }

  /** After `n` rounds the register holds what the quotient leaves of x to the power `n` times the dividend. */
  ghost predicate RoundsLeave(p: Poly, q: seq<bool>, c: bv32, n: nat) {
    TimesPowerOfX(p, n) == Add(Multiple(q), PolyOf(Shifts(c, n)))
  }

  lemma NoRounds(p: Poly, q: seq<bool>, c: bv32)
    requires p == Add(Multiple(q), PolyOf(c))
    ensures RoundsLeave(p, q, c, 0)
  {
    TimesPowerZero(p);
  }

  lemma OneMoreRound(p: Poly, q: seq<bool>, c: bv32, n: nat) returns (quotient: seq<bool>)
    requires RoundsLeave(p, q, c, n)
    ensures RoundsLeave(p, quotient, c, n + 1)
  {
    TimesTwice(p, n, 1);
    quotient := DivideRound(TimesPowerOfX(p, n), q, Shifts(c, n));
  }

  /** Every number of rounds divides. */
  lemma {:induction false} ShiftsDivide(p: Poly, q: seq<bool>, c: bv32, n: nat) returns (quotient: seq<bool>)
    requires p == Add(Multiple(q), PolyOf(c))
    ensures RoundsLeave(p, quotient, c, n)
  {
    quotient := q;
    NoRounds(p, q, c);
    for i := 0 to n
      invariant RoundsLeave(p, quotient, c, i)
    {
      quotient := OneMoreRound(p, quotient, c, i);
    }
  }

  lemma DivisionStep(m: Poly, r: Poly, g: Poly)
    ensures Add(m, r) == Add(Add(m, g), Add(r, g))
  {
  }

  /** The register after a message, up to a multiple of the generator, is the message times x to the power 32. */
  lemma {:induction false} FeedDivides(bytes: seq<bv8>) returns (quotient: seq<bool>)
    ensures TimesPowerOfX(MessagePoly(bytes), 32) == Add(Multiple(quotient), PolyOf(Feed(0, bytes)))
  {
    if bytes == [] {
      ZeroReadsZeros(32);
      ListPolyOfZeros(32);
      quotient := [];
    } else {
      var front, b := bytes[..|bytes| - 1], bytes[|bytes| - 1];
      var q := FeedDivides(front);
      var c := Feed(0, front);
      var octet := TimesPowerOfX(OctetPoly(b), 24);
      PolyOfLoad(c, b);
      var p := Add(TimesPowerOfX(MessagePoly(front), 32), octet);
      AddAssociates(Multiple(q), PolyOf(c), octet);
      quotient := ShiftsDivide(p, q, Load(c, b), 8);
      TimesDistributes(TimesPowerOfX(MessagePoly(front), 8), OctetPoly(b), 32);
      TimesDistributes(TimesPowerOfX(MessagePoly(front), 32), octet, 8);
      TimesTwice(MessagePoly(front), 8, 32);
      TimesTwice(MessagePoly(front), 32, 8);
      TimesTwice(OctetPoly(b), 24, 8);
    }
  }

  // ----- The remainder is unique -----

  /** A nonzero multiple of the generator has a coefficient at 32 or above. */
  lemma {:induction false} MultipleReaches32(q: seq<bool>)
    ensures Multiple(q) == {} || exists e <- Multiple(q) :: e >= 32
  {
    if q != [] {
      var front, last := q[..|q| - 1], q[|q| - 1];
      MultipleReaches32(front);
      TimesOneAndAdd(Multiple(front), last);
    }
  }

  lemma TimesOneAndAdd(m: Poly, last: bool)
    requires m == {} || exists e <- m :: e >= 32
    ensures var p := Add(TimesPowerOfX(m, 1), if last then GENERATOR else {});
            p == {} || exists e <- p :: e >= 32
  {
    var p := Add(TimesPowerOfX(m, 1), if last then GENERATOR else {});
    if m == {} {
      assert TimesPowerOfX(m, 1) == {};
      assert last ==> 32 in p;
    } else {
      var e :| e in m && e >= 32;
      InTimesPowerOfX(m, 1, e + 1);
      assert e + 1 !in GENERATOR;
      assert e + 1 in p;
    }
  }

  /** Multiples of the generator are closed under addition. */
  lemma {:induction false} MultiplesAdd(q: seq<bool>, t: seq<bool>) returns (sum: seq<bool>)
    ensures Multiple(sum) == Add(Multiple(q), Multiple(t))
    decreases |q| + |t|
  {
    if q == [] {
      sum := t;
    } else if t == [] {
      sum := q;
    } else {
      var qFront, qLast, tFront, tLast := q[..|q| - 1], q[|q| - 1], t[..|t| - 1], t[|t| - 1];
      var front := MultiplesAdd(qFront, tFront);
      sum := front + [qLast != tLast];
      QuotientStep(front, qLast != tLast);
      AddStep(Multiple(qFront), Multiple(tFront), qLast, tLast, GENERATOR);
    }
  }

  lemma AddStep(m: Poly, n: Poly, a: bool, b: bool, g: Poly)
    ensures Add(TimesPowerOfX(Add(m, n), 1), if a != b then g else {}) ==
            Add(Add(TimesPowerOfX(m, 1), if a then g else {}), Add(TimesPowerOfX(n, 1), if b then g else {}))
  {
    TimesDistributes(m, n, 1);
    AddSwaps(TimesPowerOfX(m, 1), if a then g else {}, TimesPowerOfX(n, 1), if b then g else {});
  }

  lemma RemainderIsUnique(p: Poly, r: Poly, s: Poly)
    requires IsRemainder(p, r) && IsRemainder(p, s)
    ensures r == s
  {
    var q :| p == Add(Multiple(q), r);
    var t :| p == Add(Multiple(t), s);
    var sum := MultiplesAdd(q, t);
    assert Add(Multiple(q), Multiple(t)) == Add(r, s);
    MultipleReaches32(sum);
  }

  lemma RegisterIsRemainder(stream: seq<bv8>)
    ensures IsRemainder(TimesPowerOfX(MessagePoly(stream), 32), PolyOf(Feed(0, stream)))
  {
    var quotient := FeedDivides(stream);
    PolyBounded(Feed(0, stream));
    assert TimesPowerOfX(MessagePoly(stream), 32) == Add(Multiple(quotient), PolyOf(Feed(0, stream)));
  }

  /**
   The printed checksum is the complement of the remainder that the standard defines: the one
   polynomial of degree below 32 that differs from the message, followed by its length octets,
   times x to the power 32 by a multiple of the generator.
   */
  lemma ChecksumIsComplementedRemainder(bytes: seq<bv8>)
    ensures var dividend := TimesPowerOfX(MessagePoly(bytes + Suffix(|bytes|)), 32);
            forall r :: IsRemainder(dividend, r) <==> r == PolyOf(!Checksum(bytes))
  {
    var stream := bytes + Suffix(|bytes|);
    var dividend := TimesPowerOfX(MessagePoly(stream), 32);
    RegisterIsRemainder(stream);
    assert !Checksum(bytes) == Feed(0, stream);
    forall r | IsRemainder(dividend, r)
      ensures r == PolyOf(Feed(0, stream))
    {
      RemainderIsUnique(dividend, r, PolyOf(Feed(0, stream)));
    }
  }

  // ----- The length octets -----

  function LittleEndian(octets: seq<Octet>): nat {
    if octets == [] then 0 else octets[0] + 256 * LittleEndian(octets[1..])
  }

  /** No shorter list of octets has the same value: the last one is not zero. */
  predicate Minimal(octets: seq<Octet>) {
    octets == [] || octets[|octets| - 1] != 0
  }

  lemma {:induction false} LengthOctetsEncodeTheLength(n: nat)
    ensures LittleEndian(LengthOctets(n)) == n
    ensures Minimal(LengthOctets(n)) && (LengthOctets(n) == [] <==> n == 0)
  {
    if n > 0 {
      LengthOctetsEncodeTheLength(n / 256);
      var octets, rest := LengthOctets(n), LengthOctets(n / 256);
      assert octets[1..] == rest;
      assert rest != [] ==> octets[|octets| - 1] == rest[|rest| - 1];
    }
  }

  /** The code's octets are the smallest number of octets that can hold the length. */
  lemma {:induction false} MinimalOctetsAreUnique(octets: seq<Octet>)
    requires Minimal(octets)
    ensures octets == LengthOctets(LittleEndian(octets))
  {
    if octets != [] {
      var rest := octets[1..];
      assert rest != [] ==> rest[|rest| - 1] == octets[|octets| - 1];
      MinimalOctetsAreUnique(rest);
      LengthOctetsEncodeTheLength(LittleEndian(rest));
      assert octets == [octets[0]] + rest;
      assert LittleEndian(octets) % 256 == octets[0] && LittleEndian(octets) / 256 == LittleEndian(rest);
    }
  }

  /** An extra zero octet after the empty message would not change the checksum. */
  lemma EmptyMessageNeedsNoOctet()
    ensures Feed(0, [0]) == Feed(0, Suffix(0))
  {
    assert Load(0, 0) == 0 && Shift(0) == 0;
    assert Shifts(0, 2) == 0;
    assert Shifts(0, 4) == 0;
    assert Shifts(0, 6) == 0;
  }

  // ----- Nothing is lost in the register -----

  function Unshift(c: bv32): bv32 {
    if c & 1 != 0 then ((c ^ 0x04c1_1db7) >> 1) | 0x8000_0000 else c >> 1
  }

  lemma ShiftedWithFeedback(c: bv32)
    requires Top(c)
    ensures ((c << 1) ^ 0x04c1_1db7) & 1 != 0
    ensures ((((c << 1) ^ 0x04c1_1db7) ^ 0x04c1_1db7) >> 1) | 0x8000_0000 == c
  {
  }

  lemma ShiftedWithout(c: bv32)
    requires !Top(c)
    ensures (c << 1) & 1 == 0 && (c << 1) >> 1 == c
  {
  }

  lemma UnshiftedWithFeedback(c: bv32)
    requires c & 1 != 0
    ensures ((((c ^ 0x04c1_1db7) >> 1) | 0x8000_0000) << 1) ^ 0x04c1_1db7 == c
    ensures Top(((c ^ 0x04c1_1db7) >> 1) | 0x8000_0000)
  {
  }

  /** One round is a bijection of the register: it can be undone ... */
  lemma UnshiftUndoesShift(c: bv32)
    ensures Unshift(Shift(c)) == c
  {
    if Top(c) {
      ShiftedWithFeedback(c);
    } else {
      ShiftedWithout(c);
    }
  }

  /** ... and every register is reached. */
  lemma ShiftUndoesUnshift(c: bv32)
    ensures Shift(Unshift(c)) == c
  {
    if c & 1 != 0 {
      UnshiftedWithFeedback(c);
    } else {
      UnshiftedWithout(c);
    }
  }

  lemma UnshiftedWithout(c: bv32)
    requires c & 1 == 0
    ensures !Top(c >> 1) && (c >> 1) << 1 == c
  {
  }

  lemma ShiftLeftIsInjective(c: bv32, d: bv32)
    requires Top(c) == Top(d) && c << 1 == d << 1
    ensures c == d
  {
  }

  lemma {:induction false} ReadBitsIsInjective(c: bv32, d: bv32, n: nat)
    requires EmptyAfter(c, n) && EmptyAfter(d, n) && ReadBits(c, n) == ReadBits(d, n)
    ensures c == d
    decreases n
  {
    if n > 0 {
      ReadBitsIsInjective(c << 1, d << 1, n - 1);
      ShiftLeftIsInjective(c, d);
    }
  }

  lemma {:induction false} ListPolyIsInjective(w: Bits, v: Bits)
    requires Length(w) == Length(v) && ListPoly(w) == ListPoly(v)
    ensures w == v
  {
    if w.Cons? {
      ListPolyBounded(w.tail);
      ListPolyBounded(v.tail);
      assert ListPoly(w.tail) == ListPoly(w) - {Length(w.tail)} == ListPoly(v.tail);
      assert w.head <==> Length(w.tail) in ListPoly(w);
      assert v.head <==> Length(w.tail) in ListPoly(v);
      ListPolyIsInjective(w.tail, v.tail);
    }
  }

  lemma PolyOfIsInjective(c: bv32, d: bv32)
    requires PolyOf(c) == PolyOf(d)
    ensures c == d
  {
    ReadBitsLength(c, 32);
    ReadBitsLength(d, 32);
    ListPolyIsInjective(ReadBits(c, 32), ReadBits(d, 32));
    EmptyAfterThirtyTwo(c);
    EmptyAfterThirtyTwo(d);
    ReadBitsIsInjective(c, d, 32);
  }

  // ----- Messages of equal length -----

  function XorBytes(a: seq<bv8>, b: seq<bv8>): (r: seq<bv8>)
    requires |a| == |b|
    ensures |r| == |a|
  {
    seq(|a|, i requires 0 <= i < |a| => a[i] ^ b[i])
  }

  lemma OctetXor(a: bv8, b: bv8)
    ensures ((a ^ b) as bv32) << 24 == ((a as bv32) << 24) ^ ((b as bv32) << 24)
  {
  }

  lemma OctetPolyOfXor(a: bv8, b: bv8)
    ensures OctetPoly(a ^ b) == Add(OctetPoly(a), OctetPoly(b))
  {
    var c, d := (a as bv32) << 24, (b as bv32) << 24;
    OctetXor(a, b);
    ReadBitsOfXor(c, d, 8);
    ReadBitsLength(c, 8);
    ReadBitsLength(d, 8);
    ListPolyOfXor(ReadBits(c, 8), ReadBits(d, 8));
  }

  lemma {:induction false} MessagePolyOfXor(a: seq<bv8>, b: seq<bv8>)
    requires |a| == |b|
    ensures MessagePoly(XorBytes(a, b)) == Add(MessagePoly(a), MessagePoly(b))
  {
    if a != [] {
      var n := |a| - 1;
      assert XorBytes(a, b)[..n] == XorBytes(a[..n], b[..n]);
      MessagePolyOfXor(a[..n], b[..n]);
      TimesDistributes(MessagePoly(a[..n]), MessagePoly(b[..n]), 8);
      OctetPolyOfXor(a[n], b[n]);
      AddSwaps(TimesPowerOfX(MessagePoly(a[..n]), 8), TimesPowerOfX(MessagePoly(b[..n]), 8),
               OctetPoly(a[n]), OctetPoly(b[n]));
    }
  }

  lemma RegisterOfXor(x: seq<bv8>, y: seq<bv8>)
    requires |x| == |y|
    ensures PolyOf(Feed(0, XorBytes(x, y))) == Add(PolyOf(Feed(0, x)), PolyOf(Feed(0, y)))
  {
    RegisterIsRemainder(x);
    RegisterIsRemainder(y);
    RegisterIsRemainder(XorBytes(x, y));
    MessagePolyOfXor(x, y);
    TimesDistributes(MessagePoly(x), MessagePoly(y), 32);
    RemaindersAdd(TimesPowerOfX(MessagePoly(x), 32), TimesPowerOfX(MessagePoly(y), 32),
                  PolyOf(Feed(0, x)), PolyOf(Feed(0, y)));
    RemainderIsUnique(TimesPowerOfX(MessagePoly(XorBytes(x, y)), 32), PolyOf(Feed(0, XorBytes(x, y))),
                      Add(PolyOf(Feed(0, x)), PolyOf(Feed(0, y))));
  }

  lemma RemaindersAdd(p: Poly, q: Poly, r: Poly, s: Poly)
    requires IsRemainder(p, r) && IsRemainder(q, s)
    ensures IsRemainder(Add(p, q), Add(r, s))
  {
    var m :| p == Add(Multiple(m), r);
    var n :| q == Add(Multiple(n), s);
    AddSwaps(Multiple(m), r, Multiple(n), s);
    var sum := MultiplesAdd(m, n);
    assert Add(p, q) == Add(Multiple(sum), Add(r, s));
  }

  /** The register after the exclusive or of two streams is the exclusive or of the two registers. */
  lemma FeedOfXor(x: seq<bv8>, y: seq<bv8>)
    requires |x| == |y|
    ensures Feed(0, XorBytes(x, y)) == Feed(0, x) ^ Feed(0, y)
  {
    RegisterOfXor(x, y);
    XorFromPoly(Feed(0, x), Feed(0, y), Feed(0, XorBytes(x, y)));
  }

  lemma XorFromPoly(c: bv32, d: bv32, e: bv32)
    requires PolyOf(e) == Add(PolyOf(c), PolyOf(d))
    ensures e == c ^ d
  {
    PolyOfXor(c, d);
    PolyOfIsInjective(e, c ^ d);
  }

  lemma XorOfComplements(x: bv32, y: bv32, z: bv32)
    ensures !x ^ !y ^ !z == !((x ^ y) ^ z)
  {
  }

  lemma XorCancels(b: bv8)
    ensures b ^ b ^ b == b
  {
  }

  lemma RegistersAdd(a: seq<bv8>, b: seq<bv8>, c: seq<bv8>)
    requires |a| == |b| == |c|
    ensures Register(XorBytes(XorBytes(a, b), c)) == (Register(a) ^ Register(b)) ^ Register(c)
  {
    var octets := Suffix(|a|);
    var x, y, z := a + octets, b + octets, c + octets;
    SharedSuffixSurvives(a, b, c, octets);
    FeedOfXor(x, y);
    FeedOfXor(XorBytes(x, y), z);
  }

  /** For messages of equal length the checksum is affine. */
  lemma ChecksumIsAffine(a: seq<bv8>, b: seq<bv8>, c: seq<bv8>)
    requires |a| == |b| == |c|
    ensures Checksum(a) ^ Checksum(b) ^ Checksum(c) == Checksum(XorBytes(XorBytes(a, b), c))
  {
    RegistersAdd(a, b, c);
    XorOfComplements(Register(a), Register(b), Register(c));
  }

  lemma SharedSuffixSurvives(a: seq<bv8>, b: seq<bv8>, c: seq<bv8>, suffix: seq<bv8>)
    requires |a| == |b| == |c|
    ensures XorBytes(XorBytes(a + suffix, b + suffix), c + suffix) == XorBytes(XorBytes(a, b), c) + suffix
  {
    forall i | 0 <= i < |suffix|
      ensures suffix[i] ^ suffix[i] ^ suffix[i] == suffix[i]
    {
      XorCancels(suffix[i]);
    }
  }

  // ----- Changes inside a window of four bytes -----

  lemma {:induction false} MessagePolyConcat(a: seq<bv8>, b: seq<bv8>)
    ensures MessagePoly(a + b) == Add(TimesPowerOfX(MessagePoly(a), 8 * |b|), MessagePoly(b))
  {
    if b == [] {
      assert a + b == a;
      TimesPowerZero(MessagePoly(a));
    } else {
      var n := |b| - 1;
      assert (a + b)[..|a + b| - 1] == a + b[..n];
      MessagePolyConcat(a, b[..n]);
      ConcatStep(MessagePoly(a), MessagePoly(b[..n]), OctetPoly(b[n]), n);
    }
  }

  lemma ConcatStep(a: Poly, b: Poly, octet: Poly, n: nat)
    ensures Add(TimesPowerOfX(Add(TimesPowerOfX(a, 8 * n), b), 8), octet) ==
            Add(TimesPowerOfX(a, 8 * (n + 1)), Add(TimesPowerOfX(b, 8), octet))
  {
    TimesDistributes(TimesPowerOfX(a, 8 * n), b, 8);
    TimesTwice(a, 8 * n, 8);
    AddAssociates(TimesPowerOfX(a, 8 * (n + 1)), TimesPowerOfX(b, 8), octet);
  }

  lemma OctetPolyBounded(b: bv8)
    ensures forall e <- OctetPoly(b) :: e < 8
  {
    ReadBitsLength((b as bv32) << 24, 8);
    ListPolyBounded(ReadBits((b as bv32) << 24, 8));
  }

  lemma OctetOnTopIsInjective(a: bv8, b: bv8)
    requires (a as bv32) << 24 == (b as bv32) << 24
    ensures a == b
  {
  }

  lemma OctetPolyIsInjective(a: bv8, b: bv8)
    requires OctetPoly(a) == OctetPoly(b)
    ensures a == b
  {
    PolyOfOctetOnTop(a);
    PolyOfOctetOnTop(b);
    PolyOfIsInjective((a as bv32) << 24, (b as bv32) << 24);
    OctetOnTopIsInjective(a, b);
  }

  lemma {:induction false} MessagePolyBounded(a: seq<bv8>)
    ensures forall e <- MessagePoly(a) :: e < 8 * |a|
  {
    if a != [] {
      var n := |a| - 1;
      MessagePolyBounded(a[..n]);
      OctetPolyBounded(a[n]);
      forall e | e in MessagePoly(a)
        ensures e < 8 * |a|
      {
        InTimesPowerOfX(MessagePoly(a[..n]), 8, e);
      }
    }
  }

  /** Two messages of equal length have the same polynomial only when they are the same. */
  lemma {:induction false} MessagePolyIsInjective(a: seq<bv8>, b: seq<bv8>)
    requires |a| == |b| && MessagePoly(a) == MessagePoly(b)
    ensures a == b
  {
    if a != [] {
      var n := |a| - 1;
      OctetPolyBounded(a[n]);
      OctetPolyBounded(b[n]);
      SplitAtEight(MessagePoly(a[..n]), OctetPoly(a[n]), MessagePoly(b[..n]), OctetPoly(b[n]));
      MessagePolyIsInjective(a[..n], b[..n]);
      OctetPolyIsInjective(a[n], b[n]);
      assert a == a[..n] + [a[n]] && b == b[..n] + [b[n]];
    }
  }

  lemma SplitAtEight(p: Poly, low: Poly, q: Poly, low': Poly)
    requires (forall e <- low :: e < 8) && (forall e <- low' :: e < 8)
    requires Add(TimesPowerOfX(p, 8), low) == Add(TimesPowerOfX(q, 8), low')
    ensures p == q && low == low'
  {
    forall e: nat
      ensures e in low <==> e in low'
      ensures e in p <==> e in q
    {
      InTimesPowerOfX(p, 8, e);
      InTimesPowerOfX(q, 8, e);
      InTimesPowerOfX(p, 8, e + 8);
      InTimesPowerOfX(q, 8, e + 8);
      assert e in low && e < 8 ==> e in Add(TimesPowerOfX(q, 8), low');
      assert e in low' && e < 8 ==> e in Add(TimesPowerOfX(p, 8), low);
      assert e in p ==> e + 8 in Add(TimesPowerOfX(p, 8), low);
      assert e in q ==> e + 8 in Add(TimesPowerOfX(q, 8), low');
    }
  }

  /** The generator has a constant term, so a factor x of a multiple can be divided out. */
  lemma DivideOutX(p: Poly, q: seq<bool>) returns (quotient: seq<bool>)
    requires TimesPowerOfX(p, 1) == Multiple(q)
    ensures p == Multiple(quotient)
  {
    InTimesPowerOfX(p, 1, 0);
    if q == [] {
      assert forall e <- p :: e + 1 in TimesPowerOfX(p, 1);
      quotient := [];
    } else {
      var front := q[..|q| - 1];
      InTimesPowerOfX(Multiple(front), 1, 0);
      assert 0 in GENERATOR;
      assert !q[|q| - 1];
      quotient := front;
      forall e: nat
        ensures e in p <==> e in Multiple(front)
      {
        InTimesPowerOfX(p, 1, e + 1);
        InTimesPowerOfX(Multiple(front), 1, e + 1);
      }
    }
  }

  lemma {:induction false} DivideOutPower(p: Poly, n: nat, q: seq<bool>) returns (quotient: seq<bool>)
    requires TimesPowerOfX(p, n) == Multiple(q)
    ensures p == Multiple(quotient)
  {
    if n == 0 {
      TimesPowerZero(p);
      quotient := q;
    } else {
      TimesTwice(p, n - 1, 1);
      var less := DivideOutX(TimesPowerOfX(p, n - 1), q);
      quotient := DivideOutPower(p, n - 1, less);
    }
  }

  lemma MessagesDifferInTheWindow(prefix: seq<bv8>, w: seq<bv8>, v: seq<bv8>, suffix: seq<bv8>)
    requires |w| == |v|
    ensures Add(MessagePoly(prefix + w + suffix), MessagePoly(prefix + v + suffix)) ==
            TimesPowerOfX(Add(MessagePoly(w), MessagePoly(v)), 8 * |suffix|)
  {
    var n := 8 * |suffix|;
    var high := TimesPowerOfX(MessagePoly(prefix), 8 * |w|);
    MessagePolyConcat(prefix, w);
    MessagePolyConcat(prefix, v);
    MessagePolyConcat(prefix + w, suffix);
    MessagePolyConcat(prefix + v, suffix);
    TimesDistributes(high, MessagePoly(w), n);
    TimesDistributes(high, MessagePoly(v), n);
    TimesDistributes(MessagePoly(w), MessagePoly(v), n);
    EndsCancel(TimesPowerOfX(high, n), TimesPowerOfX(MessagePoly(w), n), TimesPowerOfX(MessagePoly(v), n),
               MessagePoly(suffix));
  }

  lemma EndsCancel(h: Poly, p: Poly, q: Poly, s: Poly)
    ensures Add(Add(Add(h, p), s), Add(Add(h, q), s)) == Add(p, q)
  {
  }

  lemma SameRegisterSameWindow(prefix: seq<bv8>, w: seq<bv8>, v: seq<bv8>, tail: seq<bv8>)
    requires |w| == |v| <= 4
    requires Feed(0, prefix + w + tail) == Feed(0, prefix + v + tail)
    ensures w == v
  {
    var q := DifferenceIsMultiple(prefix + w + tail, prefix + v + tail);
    MessagesDifferInTheWindow(prefix, w, v, tail);
    WindowIsZero(w, v, 8 * |tail|, q);
  }

  lemma WindowIsZero(w: seq<bv8>, v: seq<bv8>, n: nat, q: seq<bool>)
    requires |w| == |v| <= 4
    requires TimesPowerOfX(TimesPowerOfX(Add(MessagePoly(w), MessagePoly(v)), n), 32) == Multiple(q)
    ensures w == v
  {
    var difference := Add(MessagePoly(w), MessagePoly(v));
    TimesTwice(difference, n, 32);
    var quotient := DivideOutPower(difference, n + 32, q);
    NoSmallMultiple(w, v, quotient);
  }

  lemma DifferenceIsMultiple(a: seq<bv8>, b: seq<bv8>) returns (quotient: seq<bool>)
    requires Feed(0, a) == Feed(0, b)
    ensures TimesPowerOfX(Add(MessagePoly(a), MessagePoly(b)), 32) == Multiple(quotient)
  {
    var q := FeedDivides(a);
    var t := FeedDivides(b);
    quotient := MultiplesAdd(q, t);
    TimesDistributes(MessagePoly(a), MessagePoly(b), 32);
    RemaindersCancel(Multiple(q), Multiple(t), PolyOf(Feed(0, a)));
  }

  lemma RemaindersCancel(m: Poly, n: Poly, r: Poly)
    ensures Add(Add(m, r), Add(n, r)) == Add(m, n)
  {
  }

  /** Two paths of equal length that differ only inside four consecutive bytes have different checksums. */
  lemma WindowChangesTheChecksum(prefix: seq<bv8>, w: seq<bv8>, v: seq<bv8>, suffix: seq<bv8>)
    requires |w| == |v| <= 4 && w != v
    ensures Checksum(prefix + w + suffix) != Checksum(prefix + v + suffix)
  {
    var octets := Suffix(|prefix + w + suffix|);
    var tail := suffix + octets;
    assert prefix + w + suffix + octets == prefix + w + tail;
    assert prefix + v + suffix + octets == prefix + v + tail;
    if Feed(0, prefix + w + tail) == Feed(0, prefix + v + tail) {
      SameRegisterSameWindow(prefix, w, v, tail);
    }
    ComplementIsInjective(Feed(0, prefix + w + tail), Feed(0, prefix + v + tail));
  }

  lemma ComplementIsInjective(c: bv32, d: bv32)
    ensures c != d ==> !c != !d
  {
  }

  lemma NoSmallMultiple(w: seq<bv8>, v: seq<bv8>, q: seq<bool>)
    requires |w| == |v| <= 4
    requires Add(MessagePoly(w), MessagePoly(v)) == Multiple(q)
    ensures w == v
  {
    MessagePolyBounded(w);
    MessagePolyBounded(v);
    MultipleReaches32(q);
    assert Multiple(q) == {};
    assert MessagePoly(w) == MessagePoly(v);
    MessagePolyIsInjective(w, v);
  }
}
