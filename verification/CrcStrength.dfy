/** What the two checksums always detect: any change confined to as many
    adjacent bytes as the checksum is wide. */
module CrcStrength {
  import opened Bytes
  import opened Registers
  import opened Crc

  // ---- CRC-16: shifting is linear and loses nothing ----

  lemma ShiftLinear16(a: bv16, b: bv16)
    ensures Shift16(Xor16(a, b)) == Xor16(Shift16(a), Shift16(b))
  {
    hide Xor16, Left16, Top16;
    TopXor(a, b);
    LeftXor(a, b);
    var la, lb := Left16(a), Left16(b);
    XorShuffle16(la, POLY16, lb, POLY16);
    XorZero16(POLY16);
    XorZero16(Xor16(la, lb));
    XorAssoc16(la, lb, POLY16);
    XorAssoc16(la, POLY16, lb);
    XorComm16(lb, POLY16);
  }

  lemma {:induction false} ShiftsLinear16(a: bv16, b: bv16, n: nat)
    ensures Shifts16(Xor16(a, b), n) == Xor16(Shifts16(a, n), Shifts16(b, n))
  {
    hide Shift16, Xor16;
    if n > 0 {
      ShiftsLinear16(a, b, n - 1);
      ShiftLinear16(Shifts16(a, n - 1), Shifts16(b, n - 1));
    }
  }

  lemma {:induction false} ShiftsInjective16(a: bv16, b: bv16, n: nat)
    requires Shifts16(a, n) == Shifts16(b, n)
    ensures a == b
    decreases n
  {
    if n > 0 {
      var x, y := Shifts16(a, n - 1), Shifts16(b, n - 1);
      hide Xor16, Left16, Top16;
      ShiftLinear16(x, y);
      XorZero16(Shift16(x));
      LeftKernel(Xor16(x, y));
      XorEqual16(x, y);
      ShiftsInjective16(a, b, n - 1);
    }
  }

  lemma {:induction false} FeedInjective16(a: bv16, b: bv16, s: seq<byte>)
    requires Feed16(a, s) == Feed16(b, s)
    ensures a == b
  {
    hide Xor16, High16, Shift16;
    if s != [] {
      var n := |s| - 1;
      var x, y, h := Feed16(a, s[..n]), Feed16(b, s[..n]), High16(s[n]);
      ShiftsInjective16(Xor16(x, h), Xor16(y, h), 8);
      XorShuffle16(x, h, y, h);
      XorZero16(h);
      XorZero16(Xor16(x, h));
      XorZero16(Xor16(x, y));
      XorEqual16(x, y);
      FeedInjective16(a, b, s[..n]);
    }
  }

  /** Eight shifts that leave only the leading byte in use only moved it there. */
  lemma Undo16(z: bv16)
    requires Leading16(Shifts16(z, 8), 1)
    ensures z == Down8(Shifts16(z, 8))
  {
    var v := Shifts16(z, 8);
    var w := Down8(v);
    RisesEight(v);
    hide Left16, Top16, Down8, Xor16, Leading16;
    var w2 := Left16(Left16(w));
    var w4 := Left16(Left16(w2));
    var w6 := Left16(Left16(w4));
    Two16(w);
    ShiftsCompose16(w, 2, 2);
    Two16(w2);
    ShiftsCompose16(w, 4, 2);
    Two16(w4);
    ShiftsCompose16(w, 6, 2);
    Two16(w6);
    ShiftsInjective16(z, w, 8);
  }

  lemma Two16(w: bv16)
    requires !Top16(w) && !Top16(Left16(w))
    ensures Shifts16(w, 2) == Left16(Left16(w))
  {
    hide Xor16, Left16, Top16;
    assert Shifts16(w, 0) == w;
    assert Shifts16(w, 1) == Left16(w);
  }

  lemma {:induction false} ShiftsCompose16(c: bv16, m: nat, n: nat)
    ensures Shifts16(Shifts16(c, m), n) == Shifts16(c, m + n)
  {
    hide Shift16;
    if n > 0 {
      ShiftsCompose16(c, m, n - 1);
    }
  }

  /** One byte back, the registers agree on one byte less; equal registers took equal bytes. */
  lemma CollideStep16(s: bv16, t: bv16, p: byte, q: byte, m: nat)
    requires m <= 1
    requires Leading16(Xor16(Step16(s, p), Step16(t, q)), m)
    ensures Leading16(Xor16(s, t), m + 1)
    ensures s == t ==> p == q
  {
    hide Xor16, High16, Shift16, Down8, Leading16;
    var a, b := High16(p), High16(q);
    var z := Xor16(Xor16(s, a), Xor16(t, b));
    ShiftsLinear16(Xor16(s, a), Xor16(t, b), 8);
    LeadingWider(Shifts16(z, 8), m);
    Undo16(z);
    LeadingDown(Shifts16(z, 8), m);
    XorShuffle16(s, a, t, b);
    HighLeads(p, q);
    LeadingByte(Xor16(s, t), Xor16(a, b), m + 1);
    if s == t {
      XorZero16(s);
      XorComm16(0, Xor16(a, b));
      XorZero16(Xor16(a, b));
      LeadingOnly(Xor16(a, b), Shifts16(z, 8));
      XorEqual16(a, b);
      HighInjective(p, q);
    }
  }

  /** Runs of at most two bytes that bring registers this close together are equal. */
  lemma {:induction false} Collide16(c: bv16, x: seq<byte>, y: seq<byte>, m: nat)
    requires |x| == |y| && |x| + m <= 2
    requires Leading16(Xor16(Feed16(c, x), Feed16(c, y)), m)
    ensures x == y
    decreases |x|
  {
    hide Xor16, Step16, Leading16, Leading16;
    if |x| > 0 {
      var n := |x| - 1;
      CollideStep16(Feed16(c, x[..n]), Feed16(c, y[..n]), x[n], y[n], m);
      Collide16(c, x[..n], y[..n], m + 1);
      assert x == x[..n] + [x[n]];
      assert y == y[..n] + [y[n]];
    }
  }

  lemma LeadingWider(w: bv16, m: nat)
    requires m <= 1 && Leading16(w, m)
    ensures Leading16(w, 1)
  {
  }

  /** Two messages that differ only within two adjacent bytes never share a CRC-16. */
  lemma BurstDetected16(pre: seq<byte>, x: seq<byte>, y: seq<byte>, post: seq<byte>)
    requires |x| == |y| <= 2 && x != y
    ensures Crc16(pre + x + post) != Crc16(pre + y + post)
  {
    hide Step16, Xor16;
    var c := Feed16(0xFFFF, pre);
    Feed16Append(0xFFFF, pre + x, post);
    Feed16Append(0xFFFF, pre, x);
    Feed16Append(0xFFFF, pre + y, post);
    Feed16Append(0xFFFF, pre, y);
    if Crc16(pre + x + post) == Crc16(pre + y + post) {
      NatInjective16(Feed16(0xFFFF, pre + x + post), Feed16(0xFFFF, pre + y + post));
      FeedInjective16(Feed16(c, x), Feed16(c, y), post);
      XorZero16(Feed16(c, x));
      Collide16(c, x, y, 0);
      assert false;
    }
  }

  // ---- CRC-32: the same, reflected ----

  lemma ShiftLinear32(a: bv32, b: bv32)
    ensures Shift32(Xor32(a, b)) == Xor32(Shift32(a), Shift32(b))
  {
    hide Xor32, Right32, Low32;
    LowXor(a, b);
    RightXor(a, b);
    var la, lb := Right32(a), Right32(b);
    XorShuffle32(la, POLY32, lb, POLY32);
    XorZero32(POLY32);
    XorZero32(Xor32(la, lb));
    XorAssoc32(la, lb, POLY32);
    XorAssoc32(la, POLY32, lb);
    XorComm32(lb, POLY32);
  }

  lemma {:induction false} ShiftsLinear32(a: bv32, b: bv32, n: nat)
    ensures Shifts32(Xor32(a, b), n) == Xor32(Shifts32(a, n), Shifts32(b, n))
  {
    hide Shift32, Xor32;
    if n > 0 {
      ShiftsLinear32(a, b, n - 1);
      ShiftLinear32(Shifts32(a, n - 1), Shifts32(b, n - 1));
    }
  }

  lemma {:induction false} ShiftsInjective32(a: bv32, b: bv32, n: nat)
    requires Shifts32(a, n) == Shifts32(b, n)
    ensures a == b
    decreases n
  {
    if n > 0 {
      var x, y := Shifts32(a, n - 1), Shifts32(b, n - 1);
      hide Xor32, Right32, Low32;
      ShiftLinear32(x, y);
      XorZero32(Shift32(x));
      RightKernel(Xor32(x, y));
      XorEqual32(x, y);
      ShiftsInjective32(a, b, n - 1);
    }
  }

  lemma {:induction false} FeedInjective32(a: bv32, b: bv32, s: seq<byte>)
    requires Feed32(a, s) == Feed32(b, s)
    ensures a == b
  {
    hide Xor32, Byte32, Shift32;
    if s != [] {
      var n := |s| - 1;
      var x, y, h := Feed32(a, s[..n]), Feed32(b, s[..n]), Byte32(s[n]);
      ShiftsInjective32(Xor32(x, h), Xor32(y, h), 8);
      XorShuffle32(x, h, y, h);
      XorZero32(h);
      XorZero32(Xor32(x, h));
      XorZero32(Xor32(x, y));
      XorEqual32(x, y);
      FeedInjective32(a, b, s[..n]);
    }
  }

  /** Eight shifts that leave the top byte clear only moved the register down a byte. */
  lemma Undo32(z: bv32)
    requires Below32(Shifts32(z, 8), 3)
    ensures z == Up8(Shifts32(z, 8))
  {
    var v := Shifts32(z, 8);
    var w := Up8(v);
    hide Right32, Low32, Up8, Xor32, Below32, Drop8;
    BelowWider(v, 3);
    FallsEight(v);
    var w2 := Right32(Right32(w));
    var w4 := Right32(Right32(w2));
    var w6 := Right32(Right32(w4));
    Two32(w);
    ShiftsCompose32(w, 2, 2);
    Two32(w2);
    ShiftsCompose32(w, 4, 2);
    Two32(w4);
    ShiftsCompose32(w, 6, 2);
    Two32(w6);
    ShiftsInjective32(z, w, 8);
  }

  lemma Two32(w: bv32)
    requires !Low32(w) && !Low32(Right32(w))
    ensures Shifts32(w, 2) == Right32(Right32(w))
  {
    hide Xor32, Right32, Low32;
    assert Shifts32(w, 0) == w;
    assert Shifts32(w, 1) == Right32(w);
  }

  lemma {:induction false} ShiftsCompose32(c: bv32, m: nat, n: nat)
    ensures Shifts32(Shifts32(c, m), n) == Shifts32(c, m + n)
  {
    hide Shift32;
    if n > 0 {
      ShiftsCompose32(c, m, n - 1);
    }
  }

  /** One byte back, the registers agree on one byte less; equal registers took equal bytes. */
  lemma CollideStep32(s: bv32, t: bv32, p: byte, q: byte, m: nat)
    requires m <= 3
    requires Below32(Xor32(Step32(s, p), Step32(t, q)), m)
    ensures Below32(Xor32(s, t), m + 1)
    ensures s == t ==> p == q
  {
    hide Xor32, Byte32, Shift32, Up8, Drop8;
    var a, b := Byte32(p), Byte32(q);
    var z := Xor32(Xor32(s, a), Xor32(t, b));
    ShiftsLinear32(Xor32(s, a), Xor32(t, b), 8);
    BelowWider(Shifts32(z, 8), m);
    Undo32(z);
    BelowUp(Shifts32(z, 8), m);
    XorShuffle32(s, a, t, b);
    ByteBelow(p, q);
    BelowByte(Xor32(s, t), Xor32(a, b), m + 1);
    if s == t {
      XorZero32(s);
      XorComm32(0, Xor32(a, b));
      XorZero32(Xor32(a, b));
      BelowOnly(Xor32(a, b), Shifts32(z, 8));
      XorEqual32(a, b);
      ByteInjective(p, q);
    }
  }

  /** Runs of at most four bytes that bring registers this close together are equal. */
  lemma {:induction false} Collide32(c: bv32, x: seq<byte>, y: seq<byte>, m: nat)
    requires |x| == |y| && |x| + m <= 4
    requires Below32(Xor32(Feed32(c, x), Feed32(c, y)), m)
    ensures x == y
    decreases |x|
  {
    hide Xor32, Step32, Drop8, Below32;
    if |x| > 0 {
      var n := |x| - 1;
      CollideStep32(Feed32(c, x[..n]), Feed32(c, y[..n]), x[n], y[n], m);
      Collide32(c, x[..n], y[..n], m + 1);
      assert x == x[..n] + [x[n]];
      assert y == y[..n] + [y[n]];
    }
  }

  /** Two messages that differ only within four adjacent bytes never share a CRC-32. */
  lemma BurstDetected32(pre: seq<byte>, x: seq<byte>, y: seq<byte>, post: seq<byte>)
    requires |x| == |y| <= 4 && x != y
    ensures Crc32(pre + x + post) != Crc32(pre + y + post)
  {
    hide Step32, Xor32, Final32;
    var c := Feed32(0xFFFF_FFFF, pre);
    Feed32Append(0xFFFF_FFFF, pre + x, post);
    Feed32Append(0xFFFF_FFFF, pre, x);
    Feed32Append(0xFFFF_FFFF, pre + y, post);
    Feed32Append(0xFFFF_FFFF, pre, y);
    if Crc32(pre + x + post) == Crc32(pre + y + post) {
      FinalInjective(Feed32(0xFFFF_FFFF, pre + x + post), Feed32(0xFFFF_FFFF, pre + y + post));
      FeedInjective32(Feed32(c, x), Feed32(c, y), post);
      XorZero32(Feed32(c, x));
      BelowZero(0);
      Collide32(c, x, y, 0);
      assert false;
    }
  }

  lemma FinalInjective(a: bv32, b: bv32)
    requires Final32(a) == Final32(b)
    ensures a == b
  {
    NatInjective32(a ^ 0xFFFF_FFFF, b ^ 0xFFFF_FFFF);
    assert (a ^ 0xFFFF_FFFF) ^ 0xFFFF_FFFF == a;
    assert (b ^ 0xFFFF_FFFF) ^ 0xFFFF_FFFF == b;
  }
}
