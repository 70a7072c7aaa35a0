/** Bit operations on checksum registers. Each fact about them is proved alone on
    bit vectors; the checksum proofs use the operations by name only. */
module Registers {
  import opened Bytes

  const POLY16: bv16 := 0x1021
  const POLY32: bv32 := 0xEDB88320

  function Xor16(a: bv16, b: bv16): bv16 { a ^ b }
  function Left16(c: bv16): bv16 { c << 1 }
  function Top16(c: bv16): bool { c & 0x8000 != 0 }
  function High16(b: byte): bv16 { ((b as bv8) as bv16) << 8 }

  function Xor32(a: bv32, b: bv32): bv32 { a ^ b }
  function Right32(c: bv32): bv32 { c >> 1 }
  function Low32(c: bv32): bool { c & 1 != 0 }
  function Byte32(b: byte): bv32 { (b as bv8) as bv32 }

  lemma XorAssoc16(a: bv16, b: bv16, c: bv16)
    ensures Xor16(Xor16(a, b), c) == Xor16(a, Xor16(b, c))
  {
  }

  lemma XorComm16(a: bv16, b: bv16)
    ensures Xor16(a, b) == Xor16(b, a)
  {
  }

  lemma XorZero16(a: bv16)
    ensures Xor16(a, 0) == a && Xor16(a, a) == 0
  {
  }

  lemma XorEqual16(a: bv16, b: bv16)
    requires Xor16(a, b) == 0
    ensures a == b
  {
  }

  lemma XorShuffle16(a: bv16, b: bv16, c: bv16, d: bv16)
    ensures Xor16(Xor16(a, b), Xor16(c, d)) == Xor16(Xor16(a, c), Xor16(b, d))
  {
    hide Xor16;
    XorAssoc16(Xor16(a, b), c, d);
    XorAssoc16(a, b, c);
    XorComm16(b, c);
    XorAssoc16(a, c, b);
    XorAssoc16(Xor16(a, c), b, d);
  }

  lemma TopXor(c: bv16, w: bv16)
    ensures Top16(Xor16(c, w)) == (Top16(c) != Top16(w))
  {
  }

  lemma LeftXor(c: bv16, w: bv16)
    ensures Left16(Xor16(c, w)) == Xor16(Left16(c), Left16(w))
  {
  }

  lemma XorAssoc32(a: bv32, b: bv32, c: bv32)
    ensures Xor32(Xor32(a, b), c) == Xor32(a, Xor32(b, c))
  {
  }

  lemma XorComm32(a: bv32, b: bv32)
    ensures Xor32(a, b) == Xor32(b, a)
  {
  }

  lemma XorZero32(a: bv32)
    ensures Xor32(a, 0) == a && Xor32(a, a) == 0
  {
  }

  lemma XorEqual32(a: bv32, b: bv32)
    requires Xor32(a, b) == 0
    ensures a == b
  {
  }

  lemma XorShuffle32(a: bv32, b: bv32, c: bv32, d: bv32)
    ensures Xor32(Xor32(a, b), Xor32(c, d)) == Xor32(Xor32(a, c), Xor32(b, d))
  {
    hide Xor32;
    XorAssoc32(Xor32(a, b), c, d);
    XorAssoc32(a, b, c);
    XorComm32(b, c);
    XorAssoc32(a, c, b);
    XorAssoc32(Xor32(a, c), b, d);
  }

  lemma LowXor(c: bv32, w: bv32)
    ensures Low32(Xor32(c, w)) == (Low32(c) != Low32(w))
  {
  }

  lemma RightXor(c: bv32, w: bv32)
    ensures Right32(Xor32(c, w)) == Xor32(Right32(c), Right32(w))
  {
  }

  // ---- The shift register loses nothing ----

  lemma LeftKernel(d: bv16)
    ensures Xor16(Left16(d), POLY16) != 0
    ensures Left16(d) == 0 && !Top16(d) ==> d == 0
  {
  }

  lemma RightKernel(d: bv32)
    ensures Xor32(Right32(d), POLY32) != 0
    ensures Right32(d) == 0 && !Low32(d) ==> d == 0
  {
  }

  // ---- A register with only its last m bytes in use ----

  function Down8(w: bv16): bv16 { w >> 8 }

  /** All but the leading m bytes are clear. */
  ghost predicate Leading16(w: bv16, m: nat)
    requires m <= 2
  {
    if m == 0 then w == 0 else if m == 1 then w & 0x00FF == 0 else true
  }

  lemma LeadingDown(w: bv16, m: nat)
    requires m <= 1 && Leading16(w, m)
    ensures Leading16(Down8(w), m + 1)
  {
  }

  lemma LeadingByte(w: bv16, b: bv16, m: nat)
    requires m == 1 || m == 2
    requires Leading16(b, 1) && Leading16(Xor16(w, b), m)
    ensures Leading16(w, m)
  {
  }

  lemma LeadingOnly(b: bv16, w: bv16)
    requires Leading16(b, 1) && b == Down8(w)
    ensures b == 0
  {
  }

  lemma HighLeads(a: byte, b: byte)
    ensures Leading16(Xor16(High16(a), High16(b)), 1)
  {
  }

  lemma RisesEight(v: bv16)
    requires Leading16(v, 1)
    ensures var w := Down8(v); var w1 := Left16(w); var w2 := Left16(w1); var w3 := Left16(w2);
            var w4 := Left16(w3); var w5 := Left16(w4); var w6 := Left16(w5); var w7 := Left16(w6);
            !Top16(w) && !Top16(w1) && !Top16(w2) && !Top16(w3) && !Top16(w4) && !Top16(w5) &&
            !Top16(w6) && !Top16(w7) && Left16(w7) == v
  {
  }

  function Up8(w: bv32): bv32 { w << 8 }

  function Drop8(w: bv32): bv32 { w >> 8 }

  /** All but the low m bytes are clear. */
  ghost predicate Below32(w: bv32, m: nat)
    decreases m
  {
    if m == 0 then w == 0 else Below32(Drop8(w), m - 1)
  }

  lemma DropXor(w: bv32, b: bv32)
    ensures Drop8(Xor32(w, b)) == Xor32(Drop8(w), Drop8(b))
  {
  }

  lemma DropZero()
    ensures Drop8(0) == 0
  {
  }

  lemma {:induction false} BelowZero(m: nat)
    ensures Below32(0, m)
  {
    hide Drop8;
    DropZero();
    if m > 0 {
      BelowZero(m - 1);
    }
  }

  lemma {:induction false} BelowWider(w: bv32, m: nat)
    requires m <= 3 && Below32(w, m)
    ensures Below32(w, 3)
    ensures Drop8(Drop8(Drop8(w))) == 0
  {
    hide Drop8;
    DropZero();
    assert Below32(w, 3) <==> Below32(Drop8(Drop8(w)), 1);
  }

  lemma BelowUp(w: bv32, m: nat)
    requires m <= 3 && Below32(w, m)
    ensures Below32(Up8(w), m + 1)
  {
    hide Drop8, Up8;
    BelowWider(w, m);
    DropUp(w);
  }

  lemma DropUp(w: bv32)
    requires Drop8(Drop8(Drop8(w))) == 0
    ensures Drop8(Up8(w)) == w
  {
  }

  lemma {:induction false} BelowSum(w: bv32, b: bv32, m: nat)
    requires Below32(b, m) && Below32(Xor32(w, b), m)
    ensures Below32(w, m)
    decreases m
  {
    hide Drop8, Xor32;
    if m == 0 {
      XorZero32(w);
    } else {
      DropXor(w, b);
      BelowSum(Drop8(w), Drop8(b), m - 1);
    }
  }

  lemma BelowByte(w: bv32, b: bv32, m: nat)
    requires m >= 1
    requires Below32(b, 1) && Below32(Xor32(w, b), m)
    ensures Below32(w, m)
  {
    hide Drop8, Xor32;
    assert Drop8(b) == 0 by { assert Below32(Drop8(b), 0); }
    BelowZero(m - 1);
    BelowSum(w, b, m);
  }

  lemma BelowOnly(b: bv32, w: bv32)
    requires Below32(b, 1) && b == Up8(w)
    ensures b == 0
  {
    assert Below32(Drop8(b), 0);
  }

  lemma ByteBelow(a: byte, b: byte)
    ensures Below32(Xor32(Byte32(a), Byte32(b)), 1)
  {
    var x := Xor32(Byte32(a), Byte32(b));
    assert Drop8(x) == 0;
    assert Below32(Drop8(x), 0);
  }

  lemma FallsEight(w: bv32)
    requires Drop8(Drop8(Drop8(w))) == 0
    ensures var w0 := Up8(w); var w1 := Right32(w0); var w2 := Right32(w1); var w3 := Right32(w2);
            var w4 := Right32(w3); var w5 := Right32(w4); var w6 := Right32(w5); var w7 := Right32(w6);
            !Low32(w0) && !Low32(w1) && !Low32(w2) && !Low32(w3) && !Low32(w4) && !Low32(w5) &&
            !Low32(w6) && !Low32(w7) && Right32(w7) == w
  {
  }

  // ---- Bytes and numbers ----

  lemma Widen16(a: bv8, b: bv8)
    requires (a as bv16) << 8 == (b as bv16) << 8
    ensures a == b
  {
  }

  lemma Widen32(a: bv8, b: bv8)
    requires a as bv32 == b as bv32
    ensures a == b
  {
  }

  lemma HighInjective(a: byte, b: byte)
    requires High16(a) == High16(b)
    ensures a == b
  {
    Octet(a);
    Octet(b);
    Widen16(a as bv8, b as bv8);
  }

  lemma ByteInjective(a: byte, b: byte)
    requires Byte32(a) == Byte32(b)
    ensures a == b
  {
    Octet(a);
    Octet(b);
    Widen32(a as bv8, b as bv8);
  }

  lemma NatInjective16(a: bv16, b: bv16)
    requires a as nat == b as nat
    ensures a == b
  {
    assert (a as nat) as bv16 == a;
    assert (b as nat) as bv16 == b;
  }

  lemma NatInjective32(a: bv32, b: bv32)
    requires a as nat == b as nat
    ensures a == b
  {
    assert (a as nat) as bv32 == a;
    assert (b as nat) as bv32 == b;
  }
}
