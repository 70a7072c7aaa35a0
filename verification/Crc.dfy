/** The checksums of the serial link, the BLE link and the identity record. */
module Crc {
  import opened Bytes
  import opened Registers

  // ---- CRC-16/CCITT-FALSE: one shift of the register, and one message byte ----

  function Shift16(c: bv16): bv16 {
    if Top16(c) then Xor16(Left16(c), POLY16) else Left16(c)
  }

  function Shifts16(c: bv16, n: nat): bv16 {
    if n == 0 then c else Shift16(Shifts16(c, n - 1))
  }

  function Step16(c: bv16, b: byte): bv16 {
    Shifts16(Xor16(c, High16(b)), 8)
  }

  /** The register after feeding a whole byte string. */
  function Feed16(c: bv16, s: seq<byte>): bv16 {
    if s == [] then c else Step16(Feed16(c, s[..|s| - 1]), s[|s| - 1])
  }

  /** The checksum as the 16-bit number put on the wire. */
  function Crc16(s: seq<byte>): (r: nat)
    ensures r < 0x1_0000
  {
    Feed16(0xFFFF, s) as nat
  }

  // ---- CRC-32 (section 8 of RFC 1952), reflected ----

  function Shift32(c: bv32): bv32 {
    if Low32(c) then Xor32(Right32(c), POLY32) else Right32(c)
  }

  function Shifts32(c: bv32, n: nat): bv32 {
    if n == 0 then c else Shift32(Shifts32(c, n - 1))
  }

  function Step32(c: bv32, b: byte): bv32 {
    Shifts32(Xor32(c, Byte32(b)), 8)
  }

  function Feed32(c: bv32, s: seq<byte>): bv32 {
    if s == [] then c else Step32(Feed32(c, s[..|s| - 1]), s[|s| - 1])
  }

  function Final32(c: bv32): (r: nat)
    ensures r < 0x1_0000_0000
  {
    (c ^ 0xFFFF_FFFF) as nat
  }

  /** The final checksum: zlib's crc32. */
  function Crc32(s: seq<byte>): (r: nat)
    ensures r < 0x1_0000_0000
  {
    Final32(Feed32(0xFFFF_FFFF, s))
  }

  /** The checksums of nothing: the start value of the one, the inverted start value of the
      other. */
  lemma EmptyChecksums()
    ensures Crc16([]) == 0xFFFF && Crc32([]) == 0
  {
  }

  // ---- Piecewise accumulation equals one pass ----

  lemma {:induction false} Feed16Append(c: bv16, a: seq<byte>, b: seq<byte>)
    ensures Feed16(c, a + b) == Feed16(Feed16(c, a), b)
  {
    hide Step16;
    if b == [] {
      assert a + b == a;
    } else {
      var n := |b| - 1;
      Feed16Append(c, a, b[..n]);
      assert (a + b)[..|a + b| - 1] == a + b[..n];
    }
  }

  lemma {:induction false} Feed32Append(c: bv32, a: seq<byte>, b: seq<byte>)
    ensures Feed32(c, a + b) == Feed32(Feed32(c, a), b)
  {
    hide Step32;
    if b == [] {
      assert a + b == a;
    } else {
      var n := |b| - 1;
      Feed32Append(c, a, b[..n]);
      assert (a + b)[..|a + b| - 1] == a + b[..n];
    }
  }

  // ---- Every implementation in the tree computes that function ----

  /** jpp_serial_mgr.c crc16_step: cast to 16 bits before the polynomial is added. */
  method SerialCrc16Step(crc: bv16, b: byte) returns (r: bv16)
    ensures r == Step16(crc, b)
  {
    hide Shift16, Xor16, High16;
    r := Xor16(crc, High16(b));
    ghost var start := r;
    for i := 0 to 8
      invariant r == Shifts16(start, i)
    {
      Shift16Is(r);
      r := if r & 0x8000 != 0 then (r << 1) ^ 0x1021 else r << 1;
    }
  }

  lemma Shift16Is(c: bv16)
    ensures Shift16(c) == if c & 0x8000 != 0 then (c << 1) ^ 0x1021 else c << 1
  {
  }

  /** jpp_serial_mgr.c crc16_buf. */
  method SerialCrc16Buf(crc: bv16, data: seq<byte>) returns (r: bv16)
    ensures r == Feed16(crc, data)
  {
    hide Step16;
    r := crc;
    assert data[..0] == [];
    for i := 0 to |data|
      invariant r == Feed16(crc, data[..i])
    {
      r := SerialCrc16Step(r, data[i]);
      assert data[..i + 1][..i] == data[..i];
    }
    assert data[..|data|] == data;
  }

  /** jpp_lrv.c crc16_ccitt: the sum is formed in a wider register and cast afterwards. */
  method LrvCrc16(data: seq<byte>) returns (r: bv16)
    ensures r as nat == Crc16(data)
  {
    hide Step16;
    r := 0xFFFF;
    assert data[..0] == [];
    for i := 0 to |data|
      invariant r == Feed16(0xFFFF, data[..i])
    {
      assert data[..i + 1][..i] == data[..i];
      r := LrvCrc16Byte(r, data[i]);
    }
    assert data[..|data|] == data;
  }

  method LrvCrc16Byte(crc: bv16, b: byte) returns (r: bv16)
    ensures r == Step16(crc, b)
  {
    hide Shift16, Xor16, High16;
    r := Xor16(crc, High16(b));
    ghost var start := r;
    for k := 0 to 8
      invariant r == Shifts16(start, k)
    {
      WideShift(r);
      r := if (r as bv32) & 0x8000 != 0 then ((((r as bv32) << 1) ^ 0x1021) & 0xFFFF) as bv16
           else (((r as bv32) << 1) & 0xFFFF) as bv16;
    }
  }

  /** A shift done in 32 bits and cut back to 16 is the 16-bit shift. */
  lemma WideShift(c: bv16)
    ensures if (c as bv32) & 0x8000 != 0
            then ((((c as bv32) << 1) ^ 0x1021) & 0xFFFF) as bv16 == Shift16(c)
            else (((c as bv32) << 1) & 0xFFFF) as bv16 == Shift16(c)
  {
  }

  /** The 16-bit register c held in an unbounded integer r. */
  ghost predicate Holds(r: bv32, c: bv16) {
    r == c as bv32
  }

  /** jppd_upload.py: an unbounded register, masked back to 16 bits after each shift. */
  method HostCrc16(data: seq<byte>) returns (r: bv32)
    ensures r as nat == Crc16(data)
  {
    r := 0xFFFF;
    ghost var reg: bv16 := 0xFFFF;
    assert data[..0] == [] && Holds(r, reg);
    hide Step16, Holds;
    for i := 0 to |data|
      invariant reg == Feed16(0xFFFF, data[..i]) && Holds(r, reg)
    {
      assert data[..i + 1][..i] == data[..i];
      r := HostCrc16Byte(r, reg, data[i]);
      reg := Step16(reg, data[i]);
    }
    assert data[..|data|] == data;
    HoldsNat(r, reg);
  }

  method HostCrc16Byte(crc: bv32, ghost low: bv16, b: byte) returns (r: bv32)
    requires Holds(crc, low)
    ensures Holds(r, Step16(low, b))
  {
    hide Shift16, Holds, Xor16, High16;
    HoldsByte(crc, low, b);
    r := crc ^ (((b as bv8) as bv32) << 8);
    ghost var start := Xor16(low, High16(b));
    for k := 0 to 8
      invariant Holds(r, Shifts16(start, k))
    {
      HoldsShift(r, Shifts16(start, k));
      r := if r & 0x8000 != 0 then ((r << 1) ^ 0x1021) & 0xFFFF else (r << 1) & 0xFFFF;
    }
  }

  lemma HoldsShift(r: bv32, c: bv16)
    requires Holds(r, c)
    ensures r & 0x8000 != 0 ==> Holds(((r << 1) ^ 0x1021) & 0xFFFF, Shift16(c))
    ensures r & 0x8000 == 0 ==> Holds((r << 1) & 0xFFFF, Shift16(c))
  {
    HoldsTop(r, c);
    HoldsLeft(r, c);
    hide Holds, Xor16, Left16, Top16;
  }

  lemma HoldsTop(r: bv32, c: bv16)
    requires Holds(r, c)
    ensures (r & 0x8000 != 0) == Top16(c)
  {
  }

  lemma HoldsLeft(r: bv32, c: bv16)
    requires Holds(r, c)
    ensures Holds((r << 1) & 0xFFFF, Left16(c))
    ensures Holds(((r << 1) ^ 0x1021) & 0xFFFF, Xor16(Left16(c), POLY16))
  {
  }

  lemma HoldsByte(r: bv32, c: bv16, b: byte)
    requires Holds(r, c)
    ensures Holds(r ^ (((b as bv8) as bv32) << 8), Xor16(c, High16(b)))
  {
  }

  lemma HoldsNat(r: bv32, c: bv16)
    requires Holds(r, c)
    ensures r as nat == c as nat
  {
  }

  /** jpp_serial_mgr.c crc32_buf: running accumulator, one branch per bit. */
  method SerialCrc32Buf(crc: bv32, data: seq<byte>) returns (r: bv32)
    ensures r == Feed32(crc, data)
  {
    hide Step32;
    r := crc;
    assert data[..0] == [];
    for i := 0 to |data|
      invariant r == Feed32(crc, data[..i])
    {
      assert data[..i + 1][..i] == data[..i];
      r := SerialCrc32Byte(r, data[i]);
    }
    assert data[..|data|] == data;
  }

  method SerialCrc32Byte(crc: bv32, d: byte) returns (r: bv32)
    ensures r == Step32(crc, d)
  {
    hide Shift32, Xor32, Byte32;
    r := Xor32(crc, Byte32(d));
    ghost var start := r;
    for b := 0 to 8
      invariant r == Shifts32(start, b)
    {
      Shift32Is(r);
      r := if r & 1 != 0 then (r >> 1) ^ 0xEDB88320 else r >> 1;
    }
  }

  lemma Shift32Is(c: bv32)
    ensures Shift32(c) == if c & 1 != 0 then (c >> 1) ^ 0xEDB88320 else c >> 1
  {
  }

  /** jpp_ble_msg.c crc32_buf: one pass, the polynomial masked by the negated low bit. */
  method BleCrc32Buf(data: seq<byte>) returns (r: bv32)
    ensures r as nat == Crc32(data)
  {
    hide Step32;
    var crc: bv32 := 0xFFFF_FFFF;
    assert data[..0] == [];
    for i := 0 to |data|
      invariant crc == Feed32(0xFFFF_FFFF, data[..i])
    {
      assert data[..i + 1][..i] == data[..i];
      crc := BleCrc32Byte(crc, data[i]);
    }
    assert data[..|data|] == data;
    r := crc ^ 0xFFFF_FFFF;
  }

  method BleCrc32Byte(crc: bv32, d: byte) returns (r: bv32)
    ensures r == Step32(crc, d)
  {
    hide Shift32, Xor32, Byte32;
    r := Xor32(crc, Byte32(d));
    ghost var start := r;
    for k := 0 to 8
      invariant r == Shifts32(start, k)
    {
      Shift32Masked(r);
      r := (r >> 1) ^ (0xEDB88320 & (0 - (r & 1)));
    }
  }

  lemma Shift32Masked(c: bv32)
    ensures Shift32(c) == (c >> 1) ^ (0xEDB88320 & (0 - (c & 1)))
  {
    LowMask(c);
    hide Low32;
    NoMask(c >> 1);
  }

  /** The negated low bit is the mask of all bits or of none. */
  lemma LowMask(c: bv32)
    ensures 0 - (c & 1) == if Low32(c) then 0xFFFF_FFFF else 0
  {
  }

  lemma NoMask(x: bv32)
    ensures x ^ (0xEDB88320 & 0) == x && 0xEDB88320 & 0xFFFF_FFFF == (0xEDB88320 as bv32)
  {
  }

  // ---- The byte-wise register is the bit-serial divider ----

  /** Textbook divider: shift in one message bit, subtract the polynomial on a carry out. */
  function Serial16(c: bv16, bit: bool): bv16 {
    if Top16(c) != bit then Xor16(Left16(c), POLY16) else Left16(c)
  }

  /** Shift in the n leading bits of w, most significant first. */
  function SerialBits16(c: bv16, w: bv16, n: nat): bv16
    decreases n
  {
    if n == 0 then c else SerialBits16(Serial16(c, Top16(w)), Left16(w), n - 1)
  }

  function Lefts16(w: bv16, n: nat): bv16
    decreases n
  {
    if n == 0 then w else Lefts16(Left16(w), n - 1)
  }

  lemma SerialCarry(c: bv16, w: bv16)
    ensures Shift16(Xor16(c, w)) == Xor16(Serial16(c, Top16(w)), Left16(w))
  {
    hide Xor16, Left16, Top16;
    TopXor(c, w);
    LeftXor(c, w);
    XorAssoc16(Left16(c), Left16(w), POLY16);
    XorComm16(Left16(w), POLY16);
    XorAssoc16(Left16(c), POLY16, Left16(w));
  }

  lemma {:induction false} SerialRun(c: bv16, w: bv16, n: nat)
    ensures Shifts16(Xor16(c, w), n) == Xor16(SerialBits16(c, w, n), Lefts16(w, n))
    decreases n
  {
    hide Shift16, Serial16, Xor16, Left16, Top16;
    if n > 0 {
      SerialCarry(c, w);
      SerialRun(Serial16(c, Top16(w)), Left16(w), n - 1);
      ShiftsFirst16(Xor16(c, w), n);
    }
  }

  lemma {:induction false} ShiftsFirst16(c: bv16, n: nat)
    requires n > 0
    ensures Shifts16(c, n) == Shifts16(Shift16(c), n - 1)
    decreases n
  {
    hide Shift16;
    if n > 1 {
      ShiftsFirst16(c, n - 1);
    }
  }

  /** Feeding a byte is feeding its eight bits, most significant first, to the divider. */
  lemma StepIsBitSerial(c: bv16, b: byte)
    ensures Step16(c, b) == SerialBits16(c, High16(b), 8)
  {
    hide Shift16, Serial16, Xor16, Left16, Top16, High16;
    SerialRun(c, High16(b), 8);
    AllOut(b);
    XorZero16(SerialBits16(c, High16(b), 8));
  }

  lemma AllOut(b: byte)
    ensures Lefts16(High16(b), 8) == 0
  {
    var w := High16(b);
    var w2 := Left16(Left16(w));
    var w4 := Left16(Left16(w2));
    var w6 := Left16(Left16(w4));
    EightLefts(w);
    hide Left16, High16;
    assert Lefts16(w, 8) == Lefts16(w2, 6) == Lefts16(w4, 4) == Lefts16(w6, 2);
  }

  lemma EightLefts(w: bv16)
    requires w & 0xFF == 0
    ensures Left16(Left16(Left16(Left16(Left16(Left16(Left16(Left16(w)))))))) == 0
  {
  }
}
