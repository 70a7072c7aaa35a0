/** The shadow framebuffer and the SDK canvas row by row, over whole runs of drawing,
    clears, modals and flushes: what a flush shows. */
module GfxRuns {
  import opened Bitmap

  const BLANK: seq<bv8> := [0, 0, 0, 0, 0, 0, 0, 0, 0, 0, 0, 0, 0, 0, 0, 0]

  type Row = s: seq<bv8> | |s| == ROW_BYTES witness BLANK
  type Grid = g: seq<Row> | |g| == HEIGHT witness seq(HEIGHT, _ => BLANK)

  predicate IsRow(r: int) {
    0 <= r < HEIGHT
  }

  function AllRows(): set<nat> {
    set r | 0 <= r < HEIGHT && IsRow(r)
  }

  function Blanks(): Grid {
    seq(HEIGHT, _ => BLANK)
  }

  datatype Shown = Shown(canvas: Grid, fb: Grid, fullscreen: bool, dirty: set<nat>)

  /** A row drawn on and marked, a clear, set_frame on its own, a whole modal, a flush. */
  datatype Op = Paint(row: nat, content: Row) | Clear | Leave | Modal | Flush

  /** The canvas after a flush. */
  function Flushed(canvas: Grid, fb: Grid, fullscreen: bool, dirty: set<nat>): Grid {
    if !fullscreen then fb
    else seq(HEIGHT, r requires 0 <= r < HEIGHT => if r in dirty then fb[r] else canvas[r])
  }

  function Apply(g: Shown, op: Op): Shown {
    if op.Paint? then
      if op.row < HEIGHT then g.(fb := g.fb[op.row := op.content], dirty := g.dirty + {op.row}) else g
    else if op.Clear? then g.(fb := Blanks(), dirty := AllRows())
    else if op.Leave? then g.(canvas := Blanks(), fullscreen := false)
    else if op.Modal? then g.(canvas := Blanks())
    else Shown(Flushed(g.canvas, g.fb, g.fullscreen, g.dirty), g.fb, true, {})
  }

  function After(g: Shown, ops: seq<Op>): Shown {
    if ops == [] then g else Apply(After(g, ops[..|ops| - 1]), ops[|ops| - 1])
  }

  lemma {:induction false} AfterAppend(g: Shown, a: seq<Op>, b: seq<Op>)
    ensures After(g, a + b) == After(After(g, a), b)
    decreases |b|
  {
    hide Apply;
    if b == [] {
      assert a + b == a;
    } else {
      AfterAppend(g, a, b[..|b| - 1]);
      assert (a + b)[..|a + b| - 1] == a + b[..|b| - 1];
    }
  }

  /** Every row not marked dirty is on the canvas already, as long as it is fullscreen. */
  predicate InStep(g: Shown) {
    g.fullscreen ==> forall r: nat :: r < HEIGHT && r !in g.dirty ==> g.canvas[r] == g.fb[r]
  }

  /** The row was wiped off the canvas by a modal while it counted as clean, and was
      neither drawn on, cleared, nor repainted after a loss of fullscreen since. */
  function Stale(g: Shown, ops: seq<Op>, r: nat): bool {
    if ops == [] then false
    else
      var front, op := ops[..|ops| - 1], ops[|ops| - 1];
      var before := After(g, front);
      if op.Clear? || op.Leave? then false
      else if op.Paint? then op.row != r && Stale(g, front, r)
      else if op.Modal? then (before.fullscreen && r !in before.dirty) || Stale(g, front, r)
      else before.fullscreen && Stale(g, front, r)
  }

  /** What is on the canvas at any time of any run. */
  ghost predicate RowIs(g: Shown, u: Shown, r: nat, stale: bool) {
    && r < HEIGHT && (stale ==> u.fullscreen && r !in u.dirty)
    && (u.fullscreen && r !in u.dirty ==> u.canvas[r] == if stale then BLANK else u.fb[r])
  }

  lemma {:induction false} RowAfter(g: Shown, ops: seq<Op>, r: nat)
    requires InStep(g) && r < HEIGHT
    ensures RowIs(g, After(g, ops), r, Stale(g, ops, r))
  {
    if ops != [] {
      RowAfter(g, ops[..|ops| - 1], r);
      assert IsRow(r);
    }
  }

  /** Whatever happened, a flush leaves no row on the canvas but the framebuffer's own or,
      where it is stale, a blank one. */
  lemma RunShowsRow(g: Shown, ops: seq<Op>, r: nat)
    requires InStep(g) && r < HEIGHT
    ensures Apply(After(g, ops), Flush).canvas[r] == if Stale(g, ops, r) then BLANK else After(g, ops).fb[r]
  {
    RowAfter(g, ops, r);
    hide After, Stale;
  }

  /** Over every run a flush shows the whole framebuffer exactly when each stale row is
      blank anyway. */
  lemma RunShowsAllIff(g: Shown, ops: seq<Op>)
    requires InStep(g)
    ensures Apply(After(g, ops), Flush).canvas == After(g, ops).fb <==>
            forall r: nat :: r < HEIGHT && Stale(g, ops, r) ==> After(g, ops).fb[r] == BLANK
  {
    var f, fb := Apply(After(g, ops), Flush).canvas, After(g, ops).fb;
    forall r: nat | r < HEIGHT
      ensures f[r] == if Stale(g, ops, r) then BLANK else fb[r]
    {
      RunShowsRow(g, ops, r);
    }
    hide After, Stale, Apply;
    assert f == fb <==> forall r: nat :: r < HEIGHT ==> f[r] == fb[r];
  }

  /** Without a modal nothing gets stale. */
  lemma {:induction false} NoModalNoStale(g: Shown, ops: seq<Op>, r: nat)
    requires forall i :: 0 <= i < |ops| ==> !ops[i].Modal?
    ensures !Stale(g, ops, r)
  {
    if ops != [] {
      NoModalNoStale(g, ops[..|ops| - 1], r);
    }
  }

  /** The shortest failing run: draw a row, flush, show a dialog, flush. The row is blank
      on the canvas, and stays blank until it is drawn on again. */
  lemma DialogLosesRow(g: Shown, row: nat, content: Row)
    requires InStep(g) && row < HEIGHT && content != BLANK
    ensures var ops := [Paint(row, content), Flush, Modal, Flush];
            && After(g, ops).fb[row] == content && After(g, ops).canvas[row] == BLANK
            && Stale(g, ops[..3], row)
  {
    var ops := [Paint(row, content), Flush, Modal, Flush];
    assert ops[..3][..2] == [Paint(row, content), Flush] && ops[..3][2] == Modal;
    assert [Paint(row, content), Flush][..1] == [Paint(row, content)];
    assert [Paint(row, content)][..0] == [];
    assert After(g, [Paint(row, content)]) == Apply(g, Paint(row, content));
    assert After(g, [Paint(row, content), Flush]) == Apply(Apply(g, Paint(row, content)), Flush);
    assert After(g, ops[..3]) == Apply(Apply(Apply(g, Paint(row, content)), Flush), Modal);
    assert After(g, ops) == Apply(After(g, ops[..3]), Flush);
  }
}
