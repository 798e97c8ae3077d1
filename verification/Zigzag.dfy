/** The zigzag order in which codeword bits are laid out on the grid, and drawing and reading
    bits along it (frontend/js/qrcodegen.js, drawCodewords). */
module Zigzag {
  import opened Bits
  import opened Grids

  // The sides of QR symbols: 4 * version + 17.
  predicate SymbolSize(s: nat) {
    s >= 21 && s % 4 == 1
  }

  // ---- the order ----

  // The right column of column pair p, counted from the right edge; column 6 is skipped.
  function RightOf(s: nat, p: nat): (right: nat)
    requires SymbolSize(s) && p < s / 2
    ensures 1 <= right < s
  {
    if s - 1 - 2 * p <= 6 then s - 2 - 2 * p else s - 1 - 2 * p
  }

  function RowAt(s: nat, right: nat, vert: nat): (y: nat)
    requires vert < s
    ensures y < s
  {
    var upward := (right + 1) / 2 % 2 == 0;
    if upward then s - 1 - vert else vert
  }

  // The first n rows of a column pair.
  function ColumnPair(d: Side, right: nat, n: nat): (path: seq<Cell>)
    requires 1 <= right < d.length && n <= d.length
  {
    if n == 0 then []
    else
      var y := RowAt(d.length, right, n - 1);
      ColumnPair(d, right, n - 1) + [Cell(right, y), Cell(right - 1, y)]
  }

  // All rows of a column pair (spelled out by WholePairIs).
  function WholePair(d: Side, right: nat): (path: seq<Cell>)
    requires 1 <= right < d.length
  {
    WholePairAt(d, right, d.length)
  }

  // The depth plays no part: it keeps proofs that only pass the list on from looking inside.
  function WholePairAt(d: Side, right: nat, depth: nat): (path: seq<Cell>)
    requires 1 <= right < d.length
    decreases depth
  {
    if depth > 0 then WholePairAt(d, right, depth - 1) else ColumnPair(d, right, d.length)
  }

  lemma {:induction false} WholePairAtIs(d: Side, right: nat, depth: nat)
    requires 1 <= right < d.length
    ensures WholePairAt(d, right, depth) == ColumnPair(d, right, d.length)
    decreases depth
  {
    if depth > 0 {
      WholePairAtIs(d, right, depth - 1);
    }
  }

  lemma {:induction false} WholePairIs(d: Side, right: nat)
    requires 1 <= right < d.length
    ensures WholePair(d, right) == ColumnPair(d, right, d.length)
  {
    WholePairAtIs(d, right, d.length);
  }

  // The first p column pairs.
  function Pairs(d: Side, p: nat): (path: seq<Cell>)
    requires SymbolSize(d.length) && p <= d.length / 2
  {
    if p == 0 then [] else Pairs(d, p - 1) + WholePair(d, RightOf(d.length, p - 1))
  }

  // The whole scan: all column pairs (spelled out by PathIs).
  function Path(d: Side): (path: seq<Cell>)
    requires SymbolSize(d.length)
    ensures AllIn(path, d.length)
  {
    PathAt(d, d.length)
  }

  // The depth plays no part: it keeps proofs that only pass the path on from looking inside.
  function PathAt(d: Side, depth: nat): (path: seq<Cell>)
    requires SymbolSize(d.length)
    ensures AllIn(path, d.length)
  {
    if depth > 0 then PathAt(d, depth - 1) else PairsInside(d.length); Pairs(d, d.length / 2)
  }

  lemma {:induction false} PairsInside(s: nat)
    requires SymbolSize(s)
    ensures AllIn(Pairs(Side(s), s / 2), s)
  {
    PairsCells(s, s / 2);
    var path := Pairs(Side(s), s / 2);
    forall i | 0 <= i < |path| ensures Inside(path[i], s) {
      assert path[i] in path;
    }
  }

  lemma {:induction false} PathAtIs(s: nat, depth: nat)
    requires SymbolSize(s)
    ensures PathAt(Side(s), depth) == Pairs(Side(s), s / 2)
  {
    if depth > 0 {
      PathAtIs(s, depth - 1);
    }
  }

  lemma {:induction false} PathIs(s: nat)
    requires SymbolSize(s)
    ensures Path(Side(s)) == Pairs(Side(s), s / 2)
  {
    PathAtIs(s, s);
  }

  predicate AllIn(path: seq<Cell>, s: nat) {
    forall i :: 0 <= i < |path| ==> Inside(path[i], s)
  }

  // The column pair of a column.
  function PairOf(s: nat, x: nat): int {
    if x > 6 then (s - 1 - x) / 2 else (s - 2 - x) / 2
  }

  predicate Distinct(path: seq<Cell>) {
    forall i, j :: 0 <= i < j < |path| ==> path[i] != path[j]
  }

  lemma {:induction false} DistinctAppend(a: seq<Cell>, b: seq<Cell>)
    requires Distinct(a) && Distinct(b)
    requires forall c :: c in a ==> c !in b
    ensures Distinct(a + b)
  {
    forall i, j | 0 <= i < j < |a + b| ensures (a + b)[i] != (a + b)[j] {
      if i < |a| <= j {
        assert a[i] in a && b[j - |a|] in b;
      }
    }
  }

  lemma {:induction false} ColumnPairCells(s: nat, right: nat, n: nat)
    requires 1 <= right < s && n <= s
    ensures Distinct(ColumnPair(Side(s), right, n))
    ensures forall c: Cell :: c in ColumnPair(Side(s), right, n)
              <==> (c.x == right || c.x == right - 1) && c.y < s && exists v: nat :: v < n && RowAt(s, right, v) == c.y
  {
    if n > 0 {
      ColumnPairCells(s, right, n - 1);
      var before, y := ColumnPair(Side(s), right, n - 1), RowAt(s, right, n - 1);
      var pair := [Cell(right, y), Cell(right - 1, y)];
      forall c | c in before ensures c !in pair {
        var v: nat :| v < n - 1 && RowAt(s, right, v) == c.y;
      }
      DistinctAppend(before, pair);
      forall c: Cell
        ensures c in ColumnPair(Side(s), right, n)
           <==> (c.x == right || c.x == right - 1) && c.y < s && exists v: nat :: v < n && RowAt(s, right, v) == c.y
      {
        if c.y == y {
          assert RowAt(s, right, n - 1) == c.y;
        }
      }
    }
  }

  lemma {:induction false} WholePairCells(s: nat, right: nat)
    requires 1 <= right < s
    ensures Distinct(WholePair(Side(s), right))
    ensures forall c: Cell :: c in WholePair(Side(s), right) <==> (c.x == right || c.x == right - 1) && c.y < s
  {
    WholePairIs(Side(s), right);
    ColumnPairCells(s, right, s);
    forall c: Cell | c.y < s ensures exists v: nat :: v < s && RowAt(s, right, v) == c.y {
      assert RowAt(s, right, RowAt(s, right, c.y)) == c.y;
    }
  }

  lemma {:induction false} PairColumns(s: nat, p: nat, x: nat)
    requires SymbolSize(s) && p < s / 2 && x < s
    ensures x != 6 && PairOf(s, x) == p <==> x == RightOf(s, p) || x == RightOf(s, p) - 1
  {
  }

  // Whether c lies in one of the first p column pairs.
  predicate InPairs(s: nat, p: nat, c: Cell) {
    Inside(c, s) && c.x != 6 && PairOf(s, c.x) < p
  }

  lemma {:induction false} PairsCells(s: nat, p: nat)
    requires SymbolSize(s) && p <= s / 2
    ensures Distinct(Pairs(Side(s), p))
    ensures forall c: Cell :: c in Pairs(Side(s), p) <==> InPairs(s, p, c)
  {
    if p > 0 {
      PairsCells(s, p - 1);
      var right := RightOf(s, p - 1);
      WholePairCells(s, right);
      forall c: Cell ensures c in WholePair(Side(s), right) <==> InPairs(s, p, c) && !InPairs(s, p - 1, c) {
        if Inside(c, s) {
          PairColumns(s, p - 1, c.x);
        }
      }
      DistinctAppend(Pairs(Side(s), p - 1), WholePair(Side(s), right));
    }
  }

  /** The scan visits every module off column 6, each once, and no other. */
  lemma {:induction false} PathVisitsOnce(s: nat)
    requires SymbolSize(s)
    ensures Distinct(Path(Side(s)))
    ensures forall c: Cell :: c in Path(Side(s)) <==> Inside(c, s) && c.x != 6
  {
    PathIs(s);
    PairsCells(s, s / 2);
  }

  lemma {:induction false} PathDistinct(s: nat)
    requires SymbolSize(s)
    ensures Distinct(Path(Side(s)))
  {
    PathVisitsOnce(s);
  }

  lemma {:induction false} PathReaches(s: nat, c: Cell)
    requires SymbolSize(s) && Inside(c, s) && c.x != 6
    ensures c in Path(Side(s))
  {
    PathVisitsOnce(s);
  }

  // ---- drawing and reading along a path ----

  // Modules of the path that are not function modules.
  function Free(f: Grid, path: seq<Cell>): nat
    requires Square(f, |f|) && AllIn(path, |f|)
  {
    if path == [] then 0
    else Free(f, path[..|path| - 1]) + (if At(f, path[|path| - 1]) then 0 else 1)
  }

  // The bits are put on the free modules in order, until either runs out.
  function Draw(g: Grid, f: Grid, path: seq<Cell>, bits: seq<bool>): (h: Grid)
    requires Square(g, |g|) && Square(f, |g|) && AllIn(path, |g|)
    ensures Square(h, |g|)
  {
    if path == [] then g
    else
      var n := |path| - 1;
      var h, i := Draw(g, f, path[..n], bits), Free(f, path[..n]);
      if !At(f, path[n]) && i < |bits| then Set(h, path[n], bits[i]) else h
  }

  // The modules of the free cells, in order, at most n of them.
  function Read(g: Grid, f: Grid, path: seq<Cell>, n: nat): (bits: seq<bool>)
    requires Square(g, |g|) && Square(f, |g|) && AllIn(path, |g|)
  {
    if path == [] then []
    else
      var k := |path| - 1;
      var before := Read(g, f, path[..k], n);
      if !At(f, path[k]) && |before| < n then before + [At(g, path[k])] else before
  }

  lemma {:induction false} PathStep(path: seq<Cell>, c: Cell)
    ensures (path + [c])[..|path|] == path && (path + [c])[|path|] == c
  {
  }

  lemma {:induction false} DrawElsewhere(g: Grid, f: Grid, path: seq<Cell>, bits: seq<bool>, c: Cell)
    requires Square(g, |g|) && Square(f, |g|) && AllIn(path, |g|) && Inside(c, |g|)
    requires c !in path || At(f, c)
    ensures At(Draw(g, f, path, bits), c) == At(g, c)
  {
    if path != [] {
      DrawElsewhere(g, f, path[..|path| - 1], bits, c);
    }
  }

  lemma {:induction false} DrawnLast(g: Grid, f: Grid, path: seq<Cell>, bits: seq<bool>, n: nat)
    requires Square(g, |g|) && Square(f, |g|) && AllIn(path, |g|) && Distinct(path) && |path| == n + 1 && !At(f, path[n])
    ensures var i := Free(f, path[..n]);
      At(Draw(g, f, path, bits), path[n]) == if i < |bits| then bits[i] else At(g, path[n])
  {
    forall j | 0 <= j < n ensures path[..n][j] != path[n] {
      assert path[j] != path[n];
    }
    DrawElsewhere(g, f, path[..n], bits, path[n]);
  }

  lemma {:induction false} DrawnBefore(g: Grid, f: Grid, path: seq<Cell>, bits: seq<bool>, k: nat, n: nat)
    requires Square(g, |g|) && Square(f, |g|) && AllIn(path, |g|) && Distinct(path) && |path| == n + 1 && k < n
    ensures At(Draw(g, f, path, bits), path[k]) == At(Draw(g, f, path[..n], bits), path[k])
  {
  }

  /** Where the bits go: a free module of the path takes the bit whose number is the count of free
      modules before it, if there is one, and stays as it is if not. */
  lemma {:induction false} DrawnModule(g: Grid, f: Grid, path: seq<Cell>, bits: seq<bool>, k: nat)
    requires Square(g, |g|) && Square(f, |g|) && AllIn(path, |g|) && Distinct(path)
    requires k < |path| && !At(f, path[k])
    ensures var i := Free(f, path[..k]);
      At(Draw(g, f, path, bits), path[k]) == if i < |bits| then bits[i] else At(g, path[k])
    decreases |path|
  {
    var n := |path| - 1;
    if k == n {
      DrawnLast(g, f, path, bits, n);
    } else {
      DrawnBefore(g, f, path, bits, k, n);
      assert path[..n][..k] == path[..k];
      DrawnModule(g, f, path[..n], bits, k);
    }
  }

  // Reading depends only on the free modules of the path.
  lemma {:induction false} ReadAgrees(g: Grid, h: Grid, f: Grid, path: seq<Cell>, n: nat)
    requires Square(g, |g|) && Square(h, |g|) && Square(f, |g|) && AllIn(path, |g|)
    requires forall c :: c in path && !At(f, c) ==> At(g, c) == At(h, c)
    ensures Read(g, f, path, n) == Read(h, f, path, n)
  {
    if path != [] {
      ReadAgrees(g, h, f, path[..|path| - 1], n);
    }
  }

  /** What is drawn can be read back: along a path without repetitions the first bits return,
      as many as there is room for. */
  lemma {:induction false} ReadOfDraw(g: Grid, f: Grid, path: seq<Cell>, bits: seq<bool>)
    requires Square(g, |g|) && Square(f, |g|) && AllIn(path, |g|) && Distinct(path)
    ensures var n := if Free(f, path) < |bits| then Free(f, path) else |bits|;
            Read(Draw(g, f, path, bits), f, path, |bits|) == bits[..n]
  {
    if path != [] {
      var k := |path| - 1;
      var before, c := path[..k], path[k];
      var h, h' := Draw(g, f, before, bits), Draw(g, f, path, bits);
      ReadOfDraw(g, f, before, bits);
      forall d | d in before && !At(f, d) ensures At(h, d) == At(h', d) {
        assert d != c;
      }
      ReadAgrees(h, h', f, before, |bits|);
      var i := Free(f, before);
      if i < |bits| && !At(f, c) {
        assert bits[..i + 1] == bits[..i] + [bits[i]];
      }
    }
  }

  /** Drawn bits survive any change outside the free modules of the path. */
  lemma {:induction false} ReadAfterChanges(g: Grid, f: Grid, path: seq<Cell>, bits: seq<bool>, h: Grid)
    requires Square(g, |g|) && Square(f, |g|) && Square(h, |g|) && AllIn(path, |g|) && Distinct(path)
    requires Free(f, path) >= |bits|
    requires forall c :: c in path && !At(f, c) ==> At(h, c) == At(Draw(g, f, path, bits), c)
    ensures Read(h, f, path, |bits|) == bits
  {
    ReadAgrees(h, Draw(g, f, path, bits), f, path, |bits|);
    ReadOfDraw(g, f, path, bits);
    assert bits[..|bits|] == bits;
  }

  // ---- the bits of a codeword sequence ----

  // Bit i of the data, the highest bit of each byte first.
  function BitsOf(data: seq<Byte>): (bits: seq<bool>)
    ensures |bits| == 8 * |data|
  {
    seq(8 * |data|, i requires 0 <= i < 8 * |data| => GetBit(data[i / 8], 7 - i % 8))
  }

  /** The codewords are determined by their bits. */
  lemma {:induction false} BitsOfInjective(a: seq<Byte>, b: seq<Byte>)
    requires BitsOf(a) == BitsOf(b)
    ensures a == b
  {
    assert |a| == |b|;
    Powers();
    forall k | 0 <= k < |a| ensures a[k] == b[k] {
      forall i: nat | i < 8 ensures GetBit(a[k], i) == GetBit(b[k], i) {
        assert BitsOf(a)[8 * k + (7 - i)] == BitsOf(b)[8 * k + (7 - i)];
      }
      BitsDetermine(a[k], b[k], 8);
    }
  }
}
