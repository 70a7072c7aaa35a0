/** A one-bit 128 by 64 picture packed eight pixels to a byte, leftmost pixel in the top
    bit: the framebuffer layout shared by the demo scene, the games and the SDK canvas. */
module Bitmap {
  const WIDTH: nat := 128
  const HEIGHT: nat := 64
  const ROW_BYTES: nat := 16

  /** 0x80 >> i */
  function Mask(i: nat): bv8
    requires i < 8
  {
    if i == 0 then 0x80 else if i == 1 then 0x40 else if i == 2 then 0x20 else if i == 3 then 0x10
    else if i == 4 then 0x08 else if i == 5 then 0x04 else if i == 6 then 0x02 else 0x01
  }

  /** The leftmost of eight pixels is the top bit. */
  lemma MaskIs(i: nat)
    requires i < 8
    ensures Mask(i) == [0x80, 0x40, 0x20, 0x10, 0x08, 0x04, 0x02, 0x01][i]
  {
  }

  function Test(b: bv8, i: nat): bool
    requires i < 8
  {
    b & Mask(i) != 0
  }

  function Store(b: bv8, i: nat, on: bool): bv8
    requires i < 8
  {
    if on then b | Mask(i) else b & !Mask(i)
  }

  lemma SetOne(b: bv8, m: bv8, k: bv8)
    requires m & k == 0
    ensures (b | m) & k == b & k && (b & !m) & k == b & k
  {
  }

  lemma SetSame(b: bv8, m: bv8)
    requires m != 0
    ensures (b | m) & m != 0 && (b & !m) & m == 0
  {
    assert (b | m) & m == m;
  }

  lemma MasksApart(i: nat, j: nat)
    requires i < 8 && j < 8
    ensures Mask(i) != 0 && (i != j ==> Mask(i) & Mask(j) == 0)
  {
  }

  /** A stored bit reads back, and no other bit of the byte moves. */
  lemma StoreThenTest(b: bv8, i: nat, on: bool, j: nat)
    requires i < 8 && j < 8
    ensures Test(Store(b, i, on), j) == if i == j then on else Test(b, j)
  {
    MasksApart(i, j);
    var m, k := Mask(i), Mask(j);
    hide Mask;
    if i == j {
      SetSame(b, m);
    } else {
      SetOne(b, m, k);
    }
  }

  predicate OnScreen(x: int, y: int) {
    0 <= x < WIDTH && 0 <= y < HEIGHT
  }

  /** The pixel (x, y), if it is on the screen. */
  function Visible(x: int, y: int): set<(int, int)> {
    if OnScreen(x, y) then {(x, y)} else {}
  }

  class Picture {
    const cells: array2<bv8>

    ghost predicate Valid() {
      cells.Length0 == HEIGHT && cells.Length1 == ROW_BYTES
    }

    constructor ()
      ensures Valid() && fresh(cells)
      ensures Image() == {}
    {
      cells := new bv8[HEIGHT, ROW_BYTES]((_, _) => 0);
    }

    function Lit(x: int, y: int): bool
      requires Valid() && OnScreen(x, y)
      reads cells
    {
      Test(cells[y, x / 8], x % 8)
    }

    /** The lit pixels, as (column, row). */
    ghost function Image(): (s: set<(int, int)>)
      requires Valid()
      reads cells
    {
      set x, y | 0 <= x < WIDTH && 0 <= y < HEIGHT && Lit(x, y) :: (x, y)
    }

    lemma DarkWhenZero()
      requires Valid() && forall r, b :: 0 <= r < HEIGHT && 0 <= b < ROW_BYTES ==> cells[r, b] == 0
      ensures Image() == {}
    {
    }

    /** px: one pixel, clipped to the screen. */
    method Plot(x: int, y: int, on: bool)
      requires Valid()
      modifies cells
      ensures Image() == if on then old(Image()) + Visible(x, y) else old(Image()) - Visible(x, y)
      ensures forall r, b :: 0 <= r < HEIGHT && 0 <= b < ROW_BYTES ==>
                cells[r, b] == if OnScreen(x, y) && r == y && b == x / 8 then Store(old(cells[r, b]), x % 8, on)
                               else old(cells[r, b])
    {
      if !OnScreen(x, y) {
        return;
      }
      var was := cells[y, x / 8];
      cells[y, x / 8] := Store(was, x % 8, on);
      forall c, r | OnScreen(c, r)
        ensures Lit(c, r) == if c == x && r == y then on else old(Lit(c, r))
      {
        hide Test, Store;
        if r == y && c / 8 == x / 8 {
          StoreThenTest(was, x % 8, on, c % 8);
        }
      }
      hide Lit;
      assert forall p :: p in Image() <==> p in if on then old(Image()) + Visible(x, y) else old(Image()) - Visible(x, y);
    }
  }
}
