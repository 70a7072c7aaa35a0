/** The games' shadow framebuffer over the SDK canvas: drawing with a quarter turn, dirty
    rows, and flushes. */
module Gfx {
  import opened Bitmap
  import opened GfxRuns

  predicate Sized(a: array2<bv8>) {
    a.Length0 == HEIGHT && a.Length1 == ROW_BYTES
  }

  ghost function Rows(a: array2<bv8>): (g: Grid)
    requires Sized(a)
    reads a
    ensures forall r, b :: 0 <= r < HEIGHT && 0 <= b < ROW_BYTES ==> g[r][b] == a[r, b]
  {
    seq(HEIGHT, r requires 0 <= r < HEIGHT reads a => RowOf(a, r))
  }

  ghost function RowOf(a: array2<bv8>, r: nat): (s: Row)
    requires Sized(a) && r < HEIGHT
    reads a
    ensures forall b :: 0 <= b < ROW_BYTES ==> s[b] == a[r, b]
  {
    seq(ROW_BYTES, b requires 0 <= b < ROW_BYTES reads a => a[r, b])
  }

  /** The SDK's side: the canvas and its mode. */
  class Canvas {
    const cells: array2<bv8>
    var fullscreen: bool

    constructor ()
      ensures Sized(cells) && fresh(cells) && !fullscreen
    {
      cells := new bv8[HEIGHT, ROW_BYTES]((_, _) => 0);
      fullscreen := false;
    }

    method Wipe()
      requires Sized(cells)
      modifies cells
      ensures forall r :: 0 <= r < HEIGHT ==> Rows(cells)[r] == BLANK
    {
      forall r, b | 0 <= r < HEIGHT && 0 <= b < ROW_BYTES {
        cells[r, b] := 0;
      }
    }

    /** jpp_sdk_canvas_fullscreen: a change of mode starts from a clean canvas. */
    method Fullscreen(on: bool)
      requires Sized(cells)
      modifies this`fullscreen, cells
      ensures fullscreen == on
      ensures old(fullscreen) == on ==> Rows(cells) == old(Rows(cells))
      ensures old(fullscreen) != on ==> forall r :: 0 <= r < HEIGHT ==> Rows(cells)[r] == BLANK
    {
      if fullscreen == on {
        return;
      }
      fullscreen := on;
      Wipe();
    }

    /** What jpp_sdk_set_frame does to the canvas. */
    method SetFrame()
      requires Sized(cells)
      modifies this`fullscreen, cells
      ensures !fullscreen && forall r :: 0 <= r < HEIGHT ==> Rows(cells)[r] == BLANK
    {
      fullscreen := false;
      Wipe();
    }

    /** A whole modal helper: its own frame, then jpp_sdk_modal_done. */
    method Modal()
      requires Sized(cells)
      modifies this`fullscreen, cells
      ensures fullscreen == old(fullscreen) && forall r :: 0 <= r < HEIGHT ==> Rows(cells)[r] == BLANK
    {
      var before := fullscreen;
      SetFrame();
      if before && !fullscreen {
        Fullscreen(true);
      }
    }

    /** jpp_sdk_canvas_write of one row of `from`; refused below the visible part. */
    method Write(row: nat, from: array2<bv8>)
      requires Sized(cells) && Sized(from) && row < HEIGHT && from != cells
      modifies cells
      ensures Rows(cells) == if row < (if fullscreen then HEIGHT else 48) then old(Rows(cells))[row := RowOf(from, row)]
                             else old(Rows(cells))
    {
      if row >= if fullscreen then HEIGHT else 48 {
        return;
      }
      forall b | 0 <= b < ROW_BYTES {
        cells[row, b] := from[row, b];
      }
      assert Rows(cells)[row] == RowOf(from, row);
      assert forall r :: 0 <= r < HEIGHT && r != row ==> Rows(cells)[r] == old(Rows(cells))[r];
    }
  }

  /** Where a logical pixel lies on the panel. */
  function Place(x: int, y: int, rotated: bool): (int, int) {
    if rotated then (y, HEIGHT - 1 - x) else (x, y)
  }

  /** Held sideways, the picture is turned a quarter and not mirrored: one to the right is
      one up on the panel and one down is one to the right, from the lower left corner on,
      and every panel pixel has its place. */
  lemma QuarterTurn(x: int, y: int)
    ensures var (px, py) := Place(x, y, true);
            && Place(0, 0, true) == (0, 63) && Place(63, 0, true) == (0, 0) && Place(0, 127, true) == (127, 63)
            && Place(x + 1, y, true) == (px, py - 1) && Place(x, y + 1, true) == (px + 1, py)
            && (OnScreen(px, py) <==> 0 <= x < 64 && 0 <= y < 128)
            && Place(63 - y, x, true) == (x, y)
    ensures Place(x, y, false) == (x, y)
  {
  }

  function Width(rotated: bool): nat { if rotated then HEIGHT else WIDTH }

  function Height(rotated: bool): nat { if rotated then WIDTH else HEIGHT }

  /** The logical pixels of a rectangle that are on the picture. */
  ghost function Clip(x: int, y: int, w: int, h: int, rotated: bool): set<(int, int)> {
    set c, r | 0 <= c < Width(rotated) && 0 <= r < Height(rotated) && x <= c < x + w && y <= r < y + h :: (c, r)
  }

  /** The picture as the game sees it. */
  ghost function Logical(image: set<(int, int)>, rotated: bool): set<(int, int)> {
    set c, r | 0 <= c < Width(rotated) && 0 <= r < Height(rotated) && Place(c, r, rotated) in image :: (c, r)
  }

  function Draw(image: set<(int, int)>, pixels: set<(int, int)>, on: bool): set<(int, int)> {
    if on then image + pixels else image - pixels
  }

  lemma PlaceOnce(image: set<(int, int)>, x: int, y: int, on: bool, rotated: bool)
    ensures var (px, py) := Place(x, y, rotated);
            Logical(Draw(image, Visible(px, py), on), rotated) == Draw(Logical(image, rotated), Clip(x, y, 1, 1, rotated), on)
  {
  }

  lemma DrawTwice(image: set<(int, int)>, a: set<(int, int)>, b: set<(int, int)>, on: bool)
    ensures Draw(Draw(image, a, on), b, on) == Draw(image, a + b, on)
    ensures Draw(image, {}, on) == image
  {
  }

  lemma ClipWider(x: int, y: int, w: nat, h: int, rotated: bool)
    ensures Clip(x, y, w + 1, h, rotated) == Clip(x, y, w, h, rotated) + Clip(x + w, y, 1, h, rotated)
  {
  }

  lemma ClipTaller(x: int, y: int, w: int, h: nat, rotated: bool)
    ensures Clip(x, y, w, h + 1, rotated) == Clip(x, y, w, h, rotated) + Clip(x, y + h, w, 1, rotated)
  {
  }

  lemma ClipNothing(x: int, y: int, w: int, h: int, rotated: bool)
    requires w <= 0 || h <= 0
    ensures Clip(x, y, w, h, rotated) == {}
  {
  }

  class Screen {
    const fb: Picture
    const canvas: Canvas
    var dirty: set<nat>
    var rotated: bool

    ghost predicate Valid()
      reads this
    {
      fb.Valid() && Sized(canvas.cells) && fb.cells != canvas.cells
    }

    /** Canvas, framebuffer and dirty rows as the runs see them. */
    ghost function Now(): Shown
      requires Valid()
      reads this, canvas, canvas.cells, fb.cells
    {
      Shown(Rows(canvas.cells), Rows(fb.cells), canvas.fullscreen, dirty)
    }

    /** The picture as drawn, in the current orientation. */
    ghost function Seen(): set<(int, int)>
      requires fb.Valid()
      reads this`rotated, fb.cells
    {
      Logical(fb.Image(), rotated)
    }

    /** games_gfx_init */
    constructor (sdk: Canvas)
      requires Sized(sdk.cells)
      ensures Valid() && canvas == sdk && fresh(fb) && fresh(fb.cells) && fb.Image() == {} && !rotated && dirty == AllRows()
      ensures InStep(Now())
    {
      canvas := sdk;
      fb := new Picture();
      dirty := AllRows();
      rotated := false;
      new;
      assert forall r: nat :: r < HEIGHT ==> IsRow(r);
    }

    /** games_gfx_set_rotation: nothing drawn moves. */
    method SetRotation(turned: bool)
      requires Valid()
      modifies this`rotated
      ensures Valid() && rotated == turned && Now() == old(Now())
    {
      rotated := turned;
    }

    /** games_gfx_clear */
    method Clear()
      requires Valid()
      modifies this`dirty, fb.cells
      ensures Valid() && fb.Image() == {} && Now() == Apply(old(Now()), Op.Clear)
    {
      forall r, b | 0 <= r < HEIGHT && 0 <= b < ROW_BYTES {
        fb.cells[r, b] := 0;
      }
      dirty := AllRows();
      fb.DarkWhenZero();
      assert forall r :: 0 <= r < HEIGHT ==> Rows(fb.cells)[r] == BLANK;
    }

    method Px(x: int, y: int, on: bool) returns (ghost ops: seq<Op>)
      requires Valid()
      modifies this`dirty, fb.cells
      ensures Valid() && Seen() == Draw(old(Seen()), Clip(x, y, 1, 1, rotated), on)
      ensures Drew(old(Now()), ops, Now())
    {
      var (px, py) := Place(x, y, rotated);
      ghost var was := Rows(fb.cells);
      PlaceOnce(fb.Image(), x, y, on, rotated);
      ops := [];
      if px < 0 || px >= WIDTH || py < 0 || py >= HEIGHT {
        DrawTwice(fb.Image(), {}, {}, on);
        return;
      }
      fb.Plot(px, py, on);
      dirty := dirty + {py};
      assert forall r :: 0 <= r < HEIGHT && r != py ==> Rows(fb.cells)[r] == was[r];
      ops := [Paint(py, Rows(fb.cells)[py])];
      assert Rows(fb.cells) == was[py := Rows(fb.cells)[py]];
      OnePaint(old(Now()), py, Rows(fb.cells)[py]);
    }

    method HLine(x: int, y: int, w: int, on: bool) returns (ghost ops: seq<Op>)
      requires Valid()
      modifies this`dirty, fb.cells
      ensures Valid() && Seen() == Draw(old(Seen()), Clip(x, y, w, 1, rotated), on)
      ensures Drew(old(Now()), ops, Now())
    {
      hide Logical, Clip, Draw, Drew, Rows, Picture.Valid, Sized;
      var i := 0;
      ClipNothing(x, y, 0, 1, rotated);
      DrawTwice(Seen(), {}, {}, on);
      if w <= 0 {
        ClipNothing(x, y, w, 1, rotated);
      }
      ops := [];
      NoPaint(Now());
      while i < w
        invariant Valid() && 0 <= i && (i <= w || i == 0)
        invariant Seen() == Draw(old(Seen()), Clip(x, y, i, 1, rotated), on)
        invariant Drew(old(Now()), ops, Now())
      {
        ghost var before := Now();
        ghost var more := Px(x + i, y, on);
        DrewMore(old(Now()), ops, before, more, Now());
        ops := ops + more;
        ClipWider(x, y, i, 1, rotated);
        DrawTwice(old(Seen()), Clip(x, y, i, 1, rotated), Clip(x + i, y, 1, 1, rotated), on);
        i := i + 1;
      }
    }

    method VLine(x: int, y: int, h: int, on: bool) returns (ghost ops: seq<Op>)
      requires Valid()
      modifies this`dirty, fb.cells
      ensures Valid() && Seen() == Draw(old(Seen()), Clip(x, y, 1, h, rotated), on)
      ensures Drew(old(Now()), ops, Now())
    {
      hide Logical, Clip, Draw, Drew, Rows, Picture.Valid, Sized;
      var i := 0;
      ClipNothing(x, y, 1, 0, rotated);
      DrawTwice(Seen(), {}, {}, on);
      if h <= 0 {
        ClipNothing(x, y, 1, h, rotated);
      }
      ops := [];
      NoPaint(Now());
      while i < h
        invariant Valid() && 0 <= i && (i <= h || i == 0)
        invariant Seen() == Draw(old(Seen()), Clip(x, y, 1, i, rotated), on)
        invariant Drew(old(Now()), ops, Now())
      {
        ghost var before := Now();
        ghost var more := Px(x, y + i, on);
        DrewMore(old(Now()), ops, before, more, Now());
        ops := ops + more;
        ClipTaller(x, y, 1, i, rotated);
        DrawTwice(old(Seen()), Clip(x, y, 1, i, rotated), Clip(x, y + i, 1, 1, rotated), on);
        i := i + 1;
      }
    }

    /** games_gfx_rect: exactly the pixels of the rectangle that are on the picture, in
        either orientation. */
    method Rect(x: int, y: int, w: int, h: int, on: bool) returns (ghost ops: seq<Op>)
      requires Valid()
      modifies this`dirty, fb.cells
      ensures Valid() && Seen() == Draw(old(Seen()), Clip(x, y, w, h, rotated), on)
      ensures Drew(old(Now()), ops, Now())
    {
      hide Logical, Clip, Draw, Drew, Rows, Picture.Valid, Sized;
      var j := 0;
      ClipNothing(x, y, w, 0, rotated);
      DrawTwice(Seen(), {}, {}, on);
      if h <= 0 {
        ClipNothing(x, y, w, h, rotated);
      }
      ops := [];
      NoPaint(Now());
      while j < h
        invariant Valid() && 0 <= j && (j <= h || j == 0)
        invariant Seen() == Draw(old(Seen()), Clip(x, y, w, j, rotated), on)
        invariant Drew(old(Now()), ops, Now())
      {
        ghost var before := Now();
        ghost var more := HLine(x, y + j, w, on);
        DrewMore(old(Now()), ops, before, more, Now());
        ops := ops + more;
        ClipTaller(x, y, w, j, rotated);
        DrawTwice(old(Seen()), Clip(x, y, w, j, rotated), Clip(x, y + j, w, 1, rotated), on);
        j := j + 1;
      }
    }

    /** The upper and lower edge of a frame. */
    method HEdges(x: int, y: int, w: int, h: int) returns (ghost ops: seq<Op>)
      requires Valid()
      modifies this`dirty, fb.cells
      ensures Valid()
      ensures Seen() == old(Seen()) + (Clip(x, y, w, 1, rotated) + Clip(x, y + h - 1, w, 1, rotated))
      ensures Drew(old(Now()), ops, Now())
    {
      hide Clip, Seen, Drew, Now, Picture.Valid, Sized;
      ghost var a := HLine(x, y, w, true);
      ghost var between := Now();
      ghost var b := HLine(x, y + h - 1, w, true);
      ops := a + b;
      DrewMore(old(Now()), a, between, b, Now());
    }

    method VEdges(x: int, y: int, w: int, h: int) returns (ghost ops: seq<Op>)
      requires Valid()
      modifies this`dirty, fb.cells
      ensures Valid()
      ensures Seen() == old(Seen()) + (Clip(x, y + 1, 1, h - 2, rotated) + Clip(x + w - 1, y + 1, 1, h - 2, rotated))
      ensures Drew(old(Now()), ops, Now())
    {
      hide Clip, Seen, Drew, Now, Picture.Valid, Sized;
      ghost var a := VLine(x, y + 1, h - 2, true);
      ghost var between := Now();
      ghost var b := VLine(x + w - 1, y + 1, h - 2, true);
      ops := a + b;
      DrewMore(old(Now()), a, between, b, Now());
    }

    /** games_gfx_frame */
    method Frame(x: int, y: int, w: int, h: int) returns (ghost ops: seq<Op>)
      requires Valid()
      modifies this`dirty, fb.cells
      ensures Valid() && Seen() == old(Seen()) + FramePixels(x, y, w, h, rotated)
      ensures Drew(old(Now()), ops, Now())
    {
      hide Clip, Seen, Drew, Now, Picture.Valid, Sized;
      ghost var a := HEdges(x, y, w, h);
      ghost var between := Now();
      ghost var b := VEdges(x, y, w, h);
      ops := a + b;
      DrewMore(old(Now()), a, between, b, Now());
    }

    /** The SDK calls of an app while its screen is up: a frame of text, a whole dialog. */
    method ShowFrame()
      requires Valid()
      modifies canvas`fullscreen, canvas.cells
      ensures Valid() && Now() == Apply(old(Now()), Leave)
    {
      canvas.SetFrame();
    }

    method ShowDialog()
      requires Valid()
      modifies canvas`fullscreen, canvas.cells
      ensures Valid() && Now() == Apply(old(Now()), Op.Modal)
    {
      canvas.Modal();
    }

    /** games_gfx_flush */
    method Flush()
      requires Valid()
      modifies this`dirty, canvas`fullscreen, canvas.cells
      ensures Valid() && Now() == Apply(old(Now()), Op.Flush)
      ensures Rows(canvas.cells) == Rows(fb.cells) <==> old(InStep(Now()))
    {
      ghost var was := Now();
      if !canvas.fullscreen {
        canvas.Fullscreen(true);
        dirty := AllRows();
      }
      ghost var start := Rows(canvas.cells);
      WriteDirty();
      Shows(was, start, dirty, Rows(canvas.cells));
      dirty := {};
      FlushShowsAllIff(was);
      hide Rows, InStep, Flushed;
    }

    /** The row loop of the flush. */
    method WriteDirty()
      requires Valid() && canvas.fullscreen
      modifies canvas.cells
      ensures forall r :: 0 <= r < HEIGHT ==>
                Rows(canvas.cells)[r] == if r in dirty then Rows(fb.cells)[r] else old(Rows(canvas.cells)[r])
    {
      for row := 0 to HEIGHT
        invariant forall r :: 0 <= r < HEIGHT ==>
                    Rows(canvas.cells)[r] == if r < row && r in dirty then Rows(fb.cells)[r] else old(Rows(canvas.cells)[r])
      {
        if row in dirty {
          canvas.Write(row, fb.cells);
        }
      }
    }
  }

  /** The rows written are those of the specification. */
  lemma Shows(was: Shown, start: Grid, dirty: set<nat>, now: Grid)
    requires if was.fullscreen then start == was.canvas && dirty == was.dirty else dirty == AllRows()
    requires forall r :: 0 <= r < HEIGHT ==> now[r] == if r in dirty then was.fb[r] else start[r]
    ensures now == Flushed(was.canvas, was.fb, was.fullscreen, was.dirty)
  {
    assert forall r :: 0 <= r < HEIGHT ==> IsRow(r);
  }

  /** Drawing is a run of painted rows. */
  ghost predicate Drew(was: Shown, ops: seq<Op>, now: Shown) {
    (forall i :: 0 <= i < |ops| ==> ops[i].Paint?) && now == After(was, ops)
  }

  lemma NoPaint(g: Shown)
    ensures Drew(g, [], g)
  {
  }

  lemma OnePaint(g: Shown, row: nat, content: Row)
    requires row < HEIGHT
    ensures Drew(g, [Paint(row, content)], g.(fb := g.fb[row := content], dirty := g.dirty + {row}))
  {
    assert [Paint(row, content)][..0] == [];
  }

  lemma DrewMore(was: Shown, a: seq<Op>, between: Shown, b: seq<Op>, now: Shown)
    requires Drew(was, a, between) && Drew(between, b, now)
    ensures Drew(was, a + b, now)
  {
    AfterAppend(was, a, b);
  }

  /** Drawing leaves the canvas and the rows it does not mark, and keeps clean rows in step. */
  lemma {:induction false} DrewKeepsStep(was: Shown, ops: seq<Op>, now: Shown)
    requires Drew(was, ops, now)
    ensures now.canvas == was.canvas && now.fullscreen == was.fullscreen && was.dirty <= now.dirty
    ensures forall r: nat :: r < HEIGHT && r !in now.dirty ==> now.fb[r] == was.fb[r]
    ensures InStep(was) ==> InStep(now)
    decreases |ops|
  {
    if ops != [] {
      DrewKeepsStep(was, ops[..|ops| - 1], After(was, ops[..|ops| - 1]));
    }
  }

  /** A flush shows the whole picture exactly when the clean rows agree. */
  lemma FlushShowsAllIff(g: Shown)
    ensures Apply(g, Op.Flush).canvas == g.fb <==> InStep(g)
  {
    var f := Apply(g, Op.Flush).canvas;
    assert f == g.fb <==> forall r: nat :: r < HEIGHT ==> f[r] == g.fb[r];
  }

  ghost function FramePixels(x: int, y: int, w: int, h: int, rotated: bool): set<(int, int)> {
    Clip(x, y, w, 1, rotated) + Clip(x, y + h - 1, w, 1, rotated)
    + Clip(x, y + 1, 1, h - 2, rotated) + Clip(x + w - 1, y + 1, 1, h - 2, rotated)
  }

  /** A frame is its rectangle without the inside. */
  lemma FrameIsBorder(x: int, y: int, w: int, h: int, rotated: bool)
    requires w >= 1 && h >= 1
    ensures FramePixels(x, y, w, h, rotated) == Clip(x, y, w, h, rotated) - Clip(x + 1, y + 1, w - 2, h - 2, rotated)
  {
  }
}
