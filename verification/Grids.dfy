/** Square grids of modules and the writes that draw on them. A grid is a sequence of rows, as
    the arrays `modules` and `isFunction` of frontend/js/qrcodegen.js are. */
module Grids {

  type Grid = seq<seq<bool>>

  datatype Cell = Cell(x: nat, y: nat)

  // The side of a symbol. It is boxed for the sake of the lists of modules defined by recursion:
  // a solver that tries literal sides unrolls those lists if they depend on bare numbers alone.
  datatype Side = Side(length: nat)

  predicate Square(g: Grid, n: nat) {
    |g| == n && forall y :: 0 <= y < n ==> |g[y]| == n
  }

  predicate Inside(c: Cell, n: nat) {
    c.x < n && c.y < n
  }

  function At(g: Grid, c: Cell): bool
    requires Square(g, |g|) && Inside(c, |g|)
  {
    g[c.y][c.x]
  }

  function Set(g: Grid, c: Cell, dark: bool): (h: Grid)
    requires Square(g, |g|) && Inside(c, |g|)
    ensures Square(h, |g|)
    ensures forall d :: Inside(d, |g|) ==> At(h, d) == if d == c then dark else At(g, d)
  {
    g[c.y := g[c.y][c.x := dark]]
  }

  function Blank(n: nat): (g: Grid)
    ensures Square(g, n)
    ensures forall c :: Inside(c, n) ==> !At(g, c)
  {
    seq(n, y => seq(n, x => false))
  }

  // Grids are equal when all their cells are.
  lemma {:induction false} SameCells(g: Grid, h: Grid)
    requires Square(g, |g|) && Square(h, |g|)
    requires forall c :: Inside(c, |g|) ==> At(g, c) == At(h, c)
    ensures g == h
  {
    forall y | 0 <= y < |g| ensures g[y] == h[y] {
      forall x | 0 <= x < |g| ensures g[y][x] == h[y][x] {
        assert At(g, Cell(x, y)) == At(h, Cell(x, y));
      }
    }
  }

  // ---- writes ----

  datatype Write = Write(cell: Cell, dark: bool)

  predicate AllInside(ws: seq<Write>, n: nat) {
    forall i :: 0 <= i < |ws| ==> Inside(ws[i].cell, n)
  }

  predicate Covers(ws: seq<Write>, c: Cell) {
    exists i :: 0 <= i < |ws| && ws[i].cell == c
  }

  // The grid after the writes, in order.
  function Apply(g: Grid, ws: seq<Write>): (h: Grid)
    requires Square(g, |g|) && AllInside(ws, |g|)
    ensures Square(h, |g|)
  {
    if ws == [] then g
    else Set(Apply(g, ws[..|ws| - 1]), ws[|ws| - 1].cell, ws[|ws| - 1].dark)
  }

  // The same writes as marks: every written cell becomes true.
  function Marks(ws: seq<Write>): (m: seq<Write>)
    ensures |m| == |ws|
    ensures forall i :: 0 <= i < |ws| ==> m[i] == Write(ws[i].cell, true)
  {
    seq(|ws|, i requires 0 <= i < |ws| => Write(ws[i].cell, true))
  }

  lemma {:induction false} ApplyOne(g: Grid, ws: seq<Write>, w: Write)
    requires Square(g, |g|) && AllInside(ws, |g|) && Inside(w.cell, |g|)
    ensures AllInside(ws + [w], |g|)
    ensures Apply(g, ws + [w]) == Set(Apply(g, ws), w.cell, w.dark)
  {
    assert (ws + [w])[..|ws|] == ws;
  }

  lemma {:induction false} InsideParts(a: seq<Write>, b: seq<Write>, n: nat)
    ensures AllInside(a + b, n) <==> AllInside(a, n) && AllInside(b, n)
  {
    if AllInside(a + b, n) {
      forall i | 0 <= i < |a| ensures Inside(a[i].cell, n) {
        assert a[i] == (a + b)[i];
      }
      forall i | 0 <= i < |b| ensures Inside(b[i].cell, n) {
        assert b[i] == (a + b)[|a| + i];
      }
    }
  }

  lemma {:induction false} ApplyAppendStep(g: Grid, a: seq<Write>, b: seq<Write>, w: Write)
    requires Square(g, |g|) && AllInside(a, |g|) && AllInside(b, |g|) && Inside(w.cell, |g|)
    requires AllInside(a + b, |g|) && Apply(g, a + b) == Apply(Apply(g, a), b)
    ensures AllInside(a + (b + [w]), |g|) && AllInside(b + [w], |g|)
    ensures Apply(g, a + (b + [w])) == Apply(Apply(g, a), b + [w])
  {
    assert a + (b + [w]) == (a + b) + [w];
    ApplyOne(g, a + b, w);
    ApplyOne(Apply(g, a), b, w);
  }

  lemma {:induction false} ApplyAppend(g: Grid, a: seq<Write>, b: seq<Write>)
    requires Square(g, |g|) && AllInside(a, |g|) && AllInside(b, |g|)
    ensures AllInside(a + b, |g|)
    ensures Apply(g, a + b) == Apply(Apply(g, a), b)
  {
    InsideParts(a, b, |g|);
    if b == [] {
      assert a + b == a;
    } else {
      var c, w := b[..|b| - 1], b[|b| - 1];
      assert b == c + [w];
      InsideParts(c, [w], |g|);
      ApplyAppend(g, a, c);
      ApplyAppendStep(g, a, c, w);
    }
  }

  lemma {:induction false} ApplyElsewhere(g: Grid, ws: seq<Write>, c: Cell)
    requires Square(g, |g|) && AllInside(ws, |g|) && Inside(c, |g|)
    requires !Covers(ws, c)
    ensures At(Apply(g, ws), c) == At(g, c)
  {
    if ws != [] {
      var n := |ws| - 1;
      assert ws[n].cell != c;
      forall i | 0 <= i < n ensures ws[..n][i].cell != c {
        assert ws[i].cell != c;
      }
      ApplyElsewhere(g, ws[..n], c);
    }
  }

  // On a covered cell the result does not depend on what was there before.
  lemma {:induction false} ApplyCovered(g: Grid, h: Grid, ws: seq<Write>, c: Cell)
    requires Square(g, |g|) && Square(h, |g|) && AllInside(ws, |g|) && Inside(c, |g|)
    requires Covers(ws, c)
    ensures At(Apply(g, ws), c) == At(Apply(h, ws), c)
  {
    var n := |ws| - 1;
    if ws[n].cell != c {
      var i :| 0 <= i < |ws| && ws[i].cell == c;
      assert ws[..n][i].cell == c;
      ApplyCovered(g, h, ws[..n], c);
    }
  }

  // A cell written once has the value of that write.
  lemma {:induction false} ApplyOnce(g: Grid, ws: seq<Write>, i: nat)
    requires Square(g, |g|) && AllInside(ws, |g|) && i < |ws|
    requires forall j :: i < j < |ws| ==> ws[j].cell != ws[i].cell
    ensures At(Apply(g, ws), ws[i].cell) == ws[i].dark
    decreases |ws|
  {
    var n := |ws| - 1;
    if i < n {
      assert ws[n].cell != ws[i].cell;
      ApplyOnce(g, ws[..n], i);
    }
  }

  // Marks only turn cells on, and turn every written cell on.
  lemma {:induction false} ApplyMarks(g: Grid, ws: seq<Write>, c: Cell)
    requires Square(g, |g|) && AllInside(ws, |g|) && Inside(c, |g|)
    ensures At(Apply(g, Marks(ws)), c) == (At(g, c) || Covers(ws, c))
  {
    if ws != [] {
      var n := |ws| - 1;
      ApplyMarks(g, ws[..n], c);
      assert Marks(ws)[..n] == Marks(ws[..n]);
      if Covers(ws[..n], c) {
        var i :| 0 <= i < n && ws[..n][i].cell == c;
        assert ws[i].cell == c;
      }
      if Covers(ws, c) && ws[n].cell != c {
        var i :| 0 <= i < |ws| && ws[i].cell == c;
        assert ws[..n][i].cell == c;
      }
    }
  }

  // ---- a pair of grids with the log of what was set ----

  // g and f are g0 and f0 with the writes drawn and marked (spelled out by SetsMeans).
  ghost predicate Sets(g0: Grid, f0: Grid, ws: seq<Write>, g: Grid, f: Grid) {
    SetsAt(g0, f0, ws, g, f, |g0|)
  }

  // The depth plays no part: it keeps proofs that only pass the fact on from looking inside.
  ghost predicate SetsAt(g0: Grid, f0: Grid, ws: seq<Write>, g: Grid, f: Grid, depth: nat) {
    if depth > 0 then SetsAt(g0, f0, ws, g, f, depth - 1)
    else
      && Square(g0, |g0|) && Square(f0, |g0|) && AllInside(ws, |g0|)
      && g == Apply(g0, ws) && f == Apply(f0, Marks(ws))
  }

  lemma {:induction false} SetsAtMeans(g0: Grid, f0: Grid, ws: seq<Write>, g: Grid, f: Grid, depth: nat)
    ensures SetsAt(g0, f0, ws, g, f, depth) <==> SetsAt(g0, f0, ws, g, f, 0)
  {
    if depth > 0 {
      SetsAtMeans(g0, f0, ws, g, f, depth - 1);
    }
  }

  lemma {:induction false} SetsMeans(g0: Grid, f0: Grid, ws: seq<Write>, g: Grid, f: Grid)
    ensures Sets(g0, f0, ws, g, f) <==>
            && Square(g0, |g0|) && Square(f0, |g0|) && AllInside(ws, |g0|)
            && g == Apply(g0, ws) && f == Apply(f0, Marks(ws))
  {
    SetsAtMeans(g0, f0, ws, g, f, |g0|);
  }

  lemma {:induction false} SetsOne(g0: Grid, f0: Grid, ws: seq<Write>, g: Grid, f: Grid, w: Write)
    requires Sets(g0, f0, ws, g, f) && Inside(w.cell, |g0|)
    ensures Square(g, |g0|) && |g| == |g0| && Square(f, |f|) && |f| == |g0|
    ensures Sets(g0, f0, ws + [w], Set(g, w.cell, w.dark), Set(f, w.cell, true))
  {
    SetsMeans(g0, f0, ws, g, f);
    ApplyOne(g0, ws, w);
    ApplyOne(f0, Marks(ws), Write(w.cell, true));
    assert Marks(ws + [w]) == Marks(ws) + [Write(w.cell, true)];
    SetsMeans(g0, f0, ws + [w], Set(g, w.cell, w.dark), Set(f, w.cell, true));
  }
}
