/** The shared app pool: one holder at a time, a bump offset inside. */
module Pool {
  import opened Bytes

  const POOL_BYTES: nat := 80 * 1024
  const U32: nat := 0x1_0000_0000

  /** The lowest bit of both. */
  function Both(a: nat, b: nat): nat {
    if a % 2 == 1 && b % 2 == 1 then 1 else 0
  }

  /** Bitwise and of two unsigned numbers. */
  function And(a: nat, b: nat): (r: nat)
    ensures r <= a && r <= b
  {
    if a == 0 || b == 0 then 0 else Both(a, b) + 2 * And(a / 2, b / 2)
  }

  function Not(a: nat): (r: nat)
    requires a < U32
  {
    U32 - 1 - a
  }

  /** (used + (align - 1)) & ~(align - 1) in 32-bit size_t. */
  function Start(used: nat, align: nat): nat
    requires 1 <= align < U32
  {
    And((used + (align - 1)) % U32, Not(align - 1))
  }

  function Pow2(k: nat): (p: nat)
    ensures p > 0
  {
    if k == 0 then 1 else 2 * Pow2(k - 1)
  }

  /** And with the complement of m clears what m picks out. */
  lemma {:induction false} AndSplits(w: nat, x: nat, m: nat)
    requires x < Pow2(w) && m < Pow2(w)
    ensures And(x, m) + And(x, Pow2(w) - 1 - m) == x
  {
    if w > 0 {
      var n := Pow2(w) - 1 - m;
      AndSplits(w - 1, x / 2, m / 2);
      AndUnfold(x, m);
      AndUnfold(x, n);
      hide And, Pow2;
      assert n / 2 == Pow2(w - 1) - 1 - m / 2 && n % 2 == 1 - m % 2;
    }
  }

  lemma AndUnfold(a: nat, b: nat)
    ensures And(a, b) == Both(a, b) + 2 * And(a / 2, b / 2)
  {
  }

  function Remainder(x: nat, p: nat): nat
    requires p > 0
  {
    x % p
  }

  /** The low bits of a power of two are a remainder. */
  lemma {:induction false} AndLow(x: nat, k: nat)
    ensures And(x, Pow2(k) - 1) == Remainder(x, Pow2(k))
  {
    hide And, Remainder;
    if k > 0 {
      AndLow(x / 2, k - 1);
      LowStep(x, Pow2(k - 1));
    } else {
      NoLowBits(x);
    }
  }

  lemma NoLowBits(x: nat)
    ensures And(x, 0) == 0 == Remainder(x, 1)
  {
  }

  lemma LowStep(x: nat, p: nat)
    requires p > 0 && And(x / 2, p - 1) == Remainder(x / 2, p)
    ensures And(x, 2 * p - 1) == Remainder(x, 2 * p)
  {
    AndUnfold(x, 2 * p - 1);
    HalfRemainder(x, p);
    hide And, Remainder;
    assert (2 * p - 1) / 2 == p - 1 && (2 * p - 1) % 2 == 1;
  }

  lemma HalfRemainder(x: nat, p: nat)
    requires p > 0
    ensures Remainder(x, 2 * p) == x % 2 + 2 * Remainder(x / 2, p)
  {
    var h := x / 2;
    var q, m := h / p, h % p;
    QuotientOf(h, p);
    assert x == 2 * h + x % 2;
    RemainderIs(x, 2 * p, q, 2 * m + x % 2);
  }

  lemma QuotientOf(h: nat, p: nat)
    requires p > 0
    ensures 0 <= h % p < p && 2 * h == 2 * p * (h / p) + 2 * (h % p)
  {
    assert h == p * (h / p) + h % p;
  }

  lemma RemainderIs(x: int, d: int, q: int, r: int)
    requires 0 <= r < d && x == d * q + r
    ensures x % d == r
  {
    var p := x / d;
    assert d * (p - q) == r - x % d;
    Between(d, p - q);
  }

  lemma Between(d: int, k: int)
    requires d > 0 && -d < d * k < d
    ensures k == 0
  {
  }

  lemma Word()
    ensures Pow2(32) == U32
  {
    assert Pow2(8) == 256;
    assert Pow2(16) == 0x1_0000;
    assert Pow2(24) == 0x100_0000;
  }

  /** The block starts at or after the bump offset, less than one alignment further on, so
      that blocks never overlap, exactly as long as the sum with the alignment fits 32 bits. */
  lemma StartAfterIff(used: nat, align: nat)
    requires used < U32 && 1 <= align < U32
    ensures used <= Start(used, align) <==> used + align <= U32
    ensures used + align <= U32 ==>
              Start(used, align) < used + align &&
              Start(used, align) == used + (align - 1) - And(used + (align - 1), align - 1)
  {
    hide And, Pow2;
    var x := used + (align - 1);
    if used + align <= U32 {
      assert x % U32 == x;
      Word();
      AndSplits(32, x, align - 1);
    } else {
      assert x % U32 == x - U32;
    }
  }

  /** The failing case: an alignment close to 2^32 brings the start back below the offset,
      into the blocks handed out before. */
  lemma WrappedStart()
    ensures Start(100, 0xFFFF_FFFF) == 0
  {
    assert Not(0xFFFF_FFFE) == 1 && (100 + 0xFFFF_FFFE) % U32 == 98;
    AndUnfold(98, 1);
  }

  /** s is the least multiple of a that is not below used. */
  ghost predicate LeastMultiple(s: int, used: nat, a: nat)
    requires a > 0
  {
    s % a == 0 && used <= s && forall m: nat :: used <= m && m % a == 0 ==> s <= m
  }

  /** For a power of two the mask rounds up: the start is the least multiple of the
      alignment that is not below the bump offset. */
  lemma StartIsRoundedUp(used: nat, k: nat)
    requires Pow2(k) < U32 && used + Pow2(k) <= U32
    ensures LeastMultiple(Start(used, Pow2(k)), used, Pow2(k))
  {
    hide Start, And, Pow2, LeastMultiple, Remainder;
    var a := Pow2(k);
    StartAfterIff(used, a);
    AndLow(used + (a - 1), k);
    RoundedDown(used, a);
  }

  lemma RoundedDown(used: nat, a: nat)
    requires a > 0
    ensures var x := used + (a - 1); LeastMultiple(x - Remainder(x, a), used, a)
  {
    var x := used + (a - 1);
    hide Remainder;
    Divided(x, a);
    var q := x / a;
    Multiple(a, q);
    forall m: nat | used <= m && m % a == 0
      ensures a * q <= m
    {
      Divided(m, a);
      NextMultiple(a, q, m / a);
    }
  }

  lemma Divided(x: nat, a: nat)
    requires a > 0
    ensures x == a * (x / a) + Remainder(x, a) && 0 <= Remainder(x, a) < a && Remainder(x, a) == x % a
  {
  }

  lemma Multiple(a: nat, q: nat)
    requires a > 0
    ensures a * q % a == 0
  {
    RemainderIs(a * q, a, q, 0);
  }

  lemma NextMultiple(a: int, p: int, q: int)
    requires a > 0
    ensures p > q ==> a * p >= a * q + a
  {
    if p > q {
      assert a * p - a * q == a * (p - q);
      AtLeast(a, p - q);
    }
  }

  lemma AtLeast(a: int, k: int)
    requires a > 0 && k >= 1
    ensures a * k >= a
  {
  }

  datatype Block = Block(start: nat, size: nat, align: nat)

  /** Blocks in the order they were handed out, each after the one before. */
  predicate Disjoint(blocks: seq<Block>, used: nat) {
    && (forall i, j :: 0 <= i < j < |blocks| ==> blocks[i].start + blocks[i].size <= blocks[j].start)
    && (forall i :: 0 <= i < |blocks| ==> blocks[i].start + blocks[i].size <= used)
  }

  /** The bump offset is the end of the block handed out last. */
  function End(blocks: seq<Block>): nat {
    if blocks == [] then 0 else blocks[|blocks| - 1].start + blocks[|blocks| - 1].size
  }

  lemma OneMoreBlock(blocks: seq<Block>, used: nat, b: Block)
    requires used == End(blocks) && Disjoint(blocks, used)
    ensures Disjoint(blocks + [b], End(blocks + [b])) <==> used <= b.start
  {
    if blocks != [] && b.start < used {
      var all := blocks + [b];
      assert all[|blocks| - 1].start + all[|blocks| - 1].size > all[|blocks|].start;
    }
  }

  /** In 32 bits a power of two is at most 2^31. */
  lemma {:induction false} PowerBelow(k: nat)
    ensures Pow2(k) < U32 ==> Pow2(k) <= 0x8000_0000
    ensures k >= 32 ==> Pow2(k) >= U32
  {
    Word();
    if k > 32 {
      PowerBelow(k - 1);
    } else if k < 32 {
      PowerFits(k);
    }
  }

  lemma {:induction false} PowerFits(k: nat)
    requires k < 32
    ensures Pow2(k) <= 0x8000_0000
    decreases 32 - k
  {
    if k == 31 {
      Word();
    } else {
      PowerFits(k + 1);
    }
  }

  /** A block asked for with a power of two lies on it, and on 4 in any case it was smaller. */
  ghost predicate Aligned(blocks: seq<Block>) {
    forall i, k: nat :: 0 <= i < |blocks| && blocks[i].align == Pow2(k) ==> blocks[i].start % Pow2(k) == 0
  }

  lemma StaysAligned(blocks: seq<Block>, used: nat, bytes: nat, align: nat)
    requires Aligned(blocks) && used <= POOL_BYTES && 1 <= align < U32
    ensures Aligned(blocks + [Block(Start(used, align), bytes, align)])
  {
    hide Start, Pow2;
    forall k: nat | align == Pow2(k)
      ensures Start(used, align) % Pow2(k) == 0
    {
      PowerBelow(k);
      StartIsRoundedUp(used, k);
    }
  }

  class AppPool {
    var inUse: bool
    var used: nat
    var owner: Option<string>
    ghost var blocks: seq<Block>

    ghost predicate Valid()
      reads this
    {
      && used <= POOL_BYTES && used == End(blocks) && (!inUse ==> owner.None? && blocks == [])
      && Aligned(blocks) && forall i :: 0 <= i < |blocks| ==> blocks[i].start + blocks[i].size <= POOL_BYTES
    }

    constructor ()
      ensures Valid() && !inUse
    {
      inUse, used, owner, blocks := false, 0, None, [];
    }

    /** jpp_app_pool_acquire_as: the size handed out, None when refused. */
    method Acquire(who: Option<string>, need: nat) returns (size: Option<nat>)
      requires Valid()
      modifies this
      ensures Valid() && (size.Some? <==> !old(inUse) && need <= POOL_BYTES)
      ensures size.Some? ==> size.value == POOL_BYTES && inUse && used == 0 && blocks == []
                             && owner == Some(if who.Some? then who.value else "app")
      ensures size.None? ==> unchanged(this)
    {
      if inUse || need > POOL_BYTES {
        return None;
      }
      inUse, used, owner, blocks := true, 0, Some(if who.Some? then who.value else "app"), [];
      size := Some(POOL_BYTES);
    }

    /** jpp_app_pool_alloc: the offset of the block, for any size and any 32-bit alignment. */
    method Alloc(bytes: nat, align0: nat) returns (at: Option<nat>)
      requires Valid() && align0 < U32
      modifies this
      ensures Valid()
      ensures var align := if align0 < 4 then 4 else align0; var start := Start(old(used), align);
              && (at.Some? <==> old(inUse) && start + bytes <= POOL_BYTES)
              && (at.Some? ==> at.value == start && used == start + bytes && inUse && owner == old(owner)
                               && blocks == old(blocks) + [Block(start, bytes, align)])
      ensures at.Some? && old(Disjoint(blocks, used)) ==>
                (Disjoint(blocks, used) <==> old(used) + (if align0 < 4 then 4 else align0) <= U32)
      ensures at.None? ==> unchanged(this)
    {
      hide Disjoint, Aligned, Pow2, And, Not, Start;
      if !inUse {
        return None;
      }
      var align := if align0 < 4 then 4 else align0;
      var start := Start(used, align);
      StartAfterIff(used, align);
      if start > POOL_BYTES || bytes > POOL_BYTES - start {
        return None;
      }
      if Disjoint(blocks, used) {
        OneMoreBlock(blocks, used, Block(start, bytes, align));
      }
      StaysAligned(blocks, used, bytes, align);
      used := start + bytes;
      blocks := blocks + [Block(start, bytes, align)];
      at := Some(start);
    }

    function Avail(): (n: nat)
      requires Valid()
      reads this
    {
      if inUse then POOL_BYTES - used else POOL_BYTES
    }

    method Release()
      modifies this
      ensures Valid() && !inUse && Avail() == POOL_BYTES
    {
      inUse, used, owner, blocks := false, 0, None, [];
    }
  }
}
