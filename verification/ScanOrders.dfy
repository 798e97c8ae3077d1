/** The zigzag order as a reader of the standard would put it (section 7.7.3 of ISO/IEC 18004:2015;
    frontend/js/qrcodegen.js, drawCodewords): from the bottom right corner in pairs of columns,
    alternately upwards and downwards. Only one sequence of all modules off column 6 goes this way,
    and it is the one the loops take. */
module ScanOrders {
  import opened Grids
  import opened Symbols
  import opened Tables
  import opened Zigzag

  // From the right module of one pair of modules to that of the next: one row up or down, or in
  // the same row to the next pair of columns, which is 3 columns away across column 6.
  predicate IsScanStep(a: Cell, b: Cell) {
    || (b.x == a.x && (b.y == a.y + 1 || b.y + 1 == a.y))
    || (b.y == a.y && b.x + (if a.x == 8 then 3 else 2) == a.x)
  }

  // Module i of the path is followed by its left neighbour.
  predicate IsPair(path: seq<Cell>, i: nat) {
    i + 1 < |path| && path[i + 1].x + 1 == path[i].x && path[i + 1].y == path[i].y
  }

  predicate StepAt(path: seq<Cell>, i: nat) {
    i + 2 < |path| && IsScanStep(path[i], path[i + 2])
  }

  // The path consists of pairs that follow one another by such steps.
  predicate Steps(path: seq<Cell>) {
    && |path| % 2 == 0
    && (forall i :: 0 <= i < |path| - 1 && i % 2 == 0 ==> IsPair(path, i))
    && (forall i :: 0 <= i < |path| - 2 && i % 2 == 0 ==> StepAt(path, i))
  }

  /** A scan of a symbol of side s: it begins at the bottom right corner, goes by those steps, and
      visits each module off column 6 once. */
  ghost predicate IsScan(path: seq<Cell>, s: nat) {
    && s > 0 && path != [] && path[0] == Cell(s - 1, s - 1)
    && Steps(path) && Distinct(path) && AllIn(path, s)
    && forall c: Cell :: c in path <==> Inside(c, s) && c.x != 6
  }

  // ---- the order of the loops is one ----

  // A path of such steps whose first pair begins at one module and whose last at another.
  predicate Goes(path: seq<Cell>, from: Cell, to: Cell) {
    Steps(path) && path != [] && path[0] == from && path[|path| - 2] == to
  }

  lemma {:induction false} GoesAppend(a: seq<Cell>, from: Cell, end: Cell, b: seq<Cell>, begin: Cell, to: Cell)
    requires Goes(a, from, end) && Goes(b, begin, to) && IsScanStep(end, begin)
    ensures Goes(a + b, from, to)
  {
    var c, n := a + b, |a|;
    forall i | 0 <= i < |c| - 1 && i % 2 == 0 ensures IsPair(c, i) {
      assert if i < n then IsPair(a, i) else IsPair(b, i - n);
    }
    forall i | 0 <= i < |c| - 2 && i % 2 == 0 ensures StepAt(c, i) {
      assert if i < n - 2 then StepAt(a, i) else i == n - 2 || StepAt(b, i - n);
    }
  }

  lemma {:induction false} OnePairGoes(c: Cell, path: seq<Cell>)
    requires c.x > 0 && path == [c, Cell(c.x - 1, c.y)]
    ensures Goes(path, c, c)
  {
    assert IsPair(path, 0);
  }

  lemma {:induction false} ColumnGoes(d: Side, right: nat, n: nat)
    requires 1 <= right < d.length && 0 < n <= d.length
    ensures Goes(ColumnPair(d, right, n), Cell(right, RowAt(d.length, right, 0)), Cell(right, RowAt(d.length, right, n - 1)))
  {
    var y := RowAt(d.length, right, n - 1);
    var pair := [Cell(right, y), Cell(right - 1, y)];
    OnePairGoes(Cell(right, y), pair);
    if n == 1 {
      assert ColumnPair(d, right, 0) == [];
      assert ColumnPair(d, right, 1) == pair;
    } else {
      var z := RowAt(d.length, right, n - 2);
      ColumnGoes(d, right, n - 1);
      GoesAppend(ColumnPair(d, right, n - 1), Cell(right, RowAt(d.length, right, 0)), Cell(right, z), pair, Cell(right, y), Cell(right, y));
    }
  }

  // Where pair p of columns begins and ends.
  function FirstOf(s: nat, p: nat): Cell
    requires SymbolSize(s) && p < s / 2
  {
    Cell(RightOf(s, p), RowAt(s, RightOf(s, p), 0))
  }

  function LastOf(s: nat, p: nat): Cell
    requires SymbolSize(s) && p < s / 2
  {
    Cell(RightOf(s, p), RowAt(s, RightOf(s, p), s - 1))
  }

  lemma {:induction false} WholeGoes(d: Side, p: nat)
    requires SymbolSize(d.length) && p < d.length / 2
    ensures Goes(WholePair(d, RightOf(d.length, p)), FirstOf(d.length, p), LastOf(d.length, p))
  {
    WholePairIs(d, RightOf(d.length, p));
    ColumnGoes(d, RightOf(d.length, p), d.length);
  }

  lemma {:induction false} Halved(right: nat, m: nat, p: nat)
    requires right == 2 * (2 * m - p) || right + 1 == 2 * (2 * m - p)
    ensures (right + 1) / 2 % 2 == p % 2
  {
    assert (right + 1) / 2 == 2 * m - p;
  }

  lemma {:induction false} RightHalf(m: nat, p: nat)
    requires m >= 5 && p < 2 * m
    ensures var right := RightOf(4 * m + 1, p);
      right == 2 * (2 * m - p) || right + 1 == 2 * (2 * m - p)
  {
  }

  // Pairs of columns are scanned upwards and downwards in turn.
  lemma {:induction false} Direction(s: nat, p: nat)
    requires SymbolSize(s) && p < s / 2
    ensures (RightOf(s, p) + 1) / 2 % 2 == p % 2
  {
    var m := s / 4;
    assert s == 4 * m + 1;
    RightHalf(m, p);
    Halved(RightOf(s, p), m, p);
  }

  lemma {:induction false} EndsOf(s: nat, p: nat)
    requires SymbolSize(s) && p < s / 2
    ensures FirstOf(s, p) == Cell(RightOf(s, p), if p % 2 == 0 then s - 1 else 0)
    ensures LastOf(s, p) == Cell(RightOf(s, p), if p % 2 == 0 then 0 else s - 1)
  {
    Direction(s, p);
  }

  lemma {:induction false} ColumnsMeet(s: nat, p: nat)
    requires SymbolSize(s) && p + 1 < s / 2
    ensures RightOf(s, p + 1) + (if RightOf(s, p) == 8 then 3 else 2) == RightOf(s, p)
  {
  }

  // A pair of columns ends in the row in which the next one begins.
  lemma {:induction false} PairsMeet(s: nat, p: nat)
    requires SymbolSize(s) && p + 1 < s / 2
    ensures IsScanStep(LastOf(s, p), FirstOf(s, p + 1))
  {
    EndsOf(s, p);
    EndsOf(s, p + 1);
    ColumnsMeet(s, p);
  }

  lemma {:induction false} StartsAtCorner(s: nat)
    requires SymbolSize(s)
    ensures FirstOf(s, 0) == Cell(s - 1, s - 1)
  {
  }

  lemma {:induction false} PairsGo(d: Side, p: nat)
    requires SymbolSize(d.length) && p < d.length / 2
    ensures Goes(Pairs(d, p + 1), FirstOf(d.length, 0), LastOf(d.length, p))
  {
    var last := WholePair(d, RightOf(d.length, p));
    assert Pairs(d, p + 1) == Pairs(d, p) + last;
    WholeGoes(d, p);
    if p == 0 {
      assert Pairs(d, 0) == [];
      assert [] + last == last;
    } else {
      var q := p - 1;
      PairsGo(d, q);
      PairsMeet(d.length, q);
      GoesAppend(Pairs(d, q + 1), FirstOf(d.length, 0), LastOf(d.length, q), last, FirstOf(d.length, p), LastOf(d.length, p));
    }
  }

  /** The order in which the loops visit the modules is a scan. */
  lemma {:induction false} PathIsScan(s: nat)
    requires SymbolSize(s)
    ensures IsScan(Path(Side(s)), s)
  {
    PathIs(s);
    PairsGo(Side(s), s / 2 - 1);
    StartsAtCorner(s);
    PathVisitsOnce(s);
  }

  // ---- and the only one ----

  // After a step away from it, a scan never comes to c, which is above or below the module it left:
  // further on it is in other columns, or on the other side of that module.
  predicate Beyond(a: Cell, c: Cell, d: Cell) {
    d.x < a.x || (d.x == a.x && (if c.y < a.y then d.y > a.y else d.y < a.y))
  }

  lemma {:induction false} StaysBeyond(path: seq<Cell>, i: nat, c: Cell, j: nat)
    requires Steps(path) && Distinct(path) && i % 2 == 0 && j % 2 == 0 && i + 2 <= j < |path|
    requires c.x == path[i].x && IsScanStep(path[i], c) && path[i + 2] != c
    ensures Beyond(path[i], c, path[j])
    decreases j
  {
    assert StepAt(path, i);
    if j > i + 2 {
      StaysBeyond(path, i, c, j - 2);
      assert StepAt(path, j - 2);
      assert path[i] != path[j];
    }
  }

  lemma {:induction false} NeverAfter(path: seq<Cell>, i: nat, c: Cell)
    requires Steps(path) && Distinct(path) && i % 2 == 0 && i + 2 < |path|
    requires c.x == path[i].x && IsScanStep(path[i], c) && path[i + 2] != c
    ensures forall j :: i + 2 <= j < |path| ==> path[j] != c
  {
    forall j | i + 2 <= j < |path| ensures path[j] != c {
      if j % 2 == 0 {
        StaysBeyond(path, i, c, j);
      } else {
        StaysBeyond(path, i, c, j - 1);
        assert IsPair(path, j - 1);
      }
    }
  }

  predicate Agree(p: seq<Cell>, q: seq<Cell>, n: nat) {
    n <= |p| && n <= |q| && forall j :: 0 <= j < n ==> p[j] == q[j]
  }

  lemma {:induction false} NotYet(p: seq<Cell>, q: seq<Cell>, n: nat)
    requires Distinct(q) && n < |q| && Agree(p, q, n)
    ensures forall j :: 0 <= j < n ==> p[j] != q[n]
  {
    forall j | 0 <= j < n ensures p[j] != q[n] {
      assert q[j] != q[n];
    }
  }

  // Two scans that agree so far agree on the next pair.
  lemma {:induction false} NotElsewhere(p: seq<Cell>, q: seq<Cell>, s: nat, i: nat)
    requires IsScan(p, s) && IsScan(q, s) && i % 2 == 0 && i + 2 < |p| && i + 2 < |q|
    requires Agree(p, q, i + 2)
    requires q[i + 2].x == p[i].x
    ensures p[i + 2] == q[i + 2]
  {
    assert StepAt(q, i);
    var c := q[i + 2];
    assert c in q;
    assert c in p;
    NotYet(p, q, i + 2);
    var j :| 0 <= j < |p| && p[j] == c;
    if p[i + 2] != c {
      NeverAfter(p, i, c);
    }
  }

  lemma {:induction false} NextSame(p: seq<Cell>, q: seq<Cell>, s: nat, i: nat)
    requires IsScan(p, s) && IsScan(q, s) && i % 2 == 0 && i + 2 < |p| && i + 2 < |q|
    requires Agree(p, q, i + 2)
    ensures p[i + 2] == q[i + 2]
  {
    if q[i + 2].x == p[i].x {
      NotElsewhere(p, q, s, i);
    } else if p[i + 2].x == q[i].x {
      NotElsewhere(q, p, s, i);
    } else {
      assert StepAt(p, i) && StepAt(q, i);
    }
  }

  lemma {:induction false} NeighbourSame(p: seq<Cell>, q: seq<Cell>, i: nat)
    requires Steps(p) && Steps(q) && i % 2 == 0 && i + 1 < |p| && i + 1 < |q| && p[i] == q[i]
    ensures p[i + 1] == q[i + 1]
  {
    assert IsPair(p, i) && IsPair(q, i);
  }

  lemma {:induction false} PairSame(p: seq<Cell>, q: seq<Cell>, s: nat, i: nat)
    requires IsScan(p, s) && IsScan(q, s) && i % 2 == 0 && i + 2 <= |p| && i + 2 <= |q|
    requires Agree(p, q, i)
    ensures p[i] == q[i] && p[i + 1] == q[i + 1]
  {
    if i > 0 {
      NextSame(p, q, s, i - 2);
    }
    NeighbourSame(p, q, i);
  }

  lemma {:induction false} AgreeMore(p: seq<Cell>, q: seq<Cell>, i: nat)
    requires Agree(p, q, i) && i + 2 <= |p| && i + 2 <= |q| && p[i] == q[i] && p[i + 1] == q[i + 1]
    ensures Agree(p, q, i + 2)
  {
  }

  lemma {:induction false} SamePrefix(p: seq<Cell>, q: seq<Cell>, s: nat, n: nat)
    requires IsScan(p, s) && IsScan(q, s) && n % 2 == 0 && n <= |p| && n <= |q|
    ensures Agree(p, q, n)
  {
    var i := 0;
    assert Agree(p, q, 0);
    while i < n
      invariant i % 2 == 0 && i <= n && Agree(p, q, i)
    {
      PairSame(p, q, s, i);
      AgreeMore(p, q, i);
      i := i + 2;
    }
  }

  lemma {:induction false} MoreInLonger(p: seq<Cell>, q: seq<Cell>)
    requires Distinct(q) && p <= q
    ensures p == q || exists c :: c in q && c !in p
  {
    if |p| < |q| {
      NotYet(p, q, |p|);
      assert q[|p|] in q && q[|p|] !in p;
    }
  }

  lemma {:induction false} PrefixIsAll(p: seq<Cell>, q: seq<Cell>, s: nat)
    requires IsScan(p, s) && IsScan(q, s) && p <= q
    ensures p == q
  {
    MoreInLonger(p, q);
  }

  /** There is only one scan of a symbol. */
  lemma {:induction false} ScanUnique(p: seq<Cell>, q: seq<Cell>, s: nat)
    requires IsScan(p, s) && IsScan(q, s)
    ensures p == q
  {
    SamePrefix(p, q, s, if |p| <= |q| then |p| else |q|);
    if p <= q {
      PrefixIsAll(p, q, s);
    }
    if q <= p {
      PrefixIsAll(q, p, s);
    }
  }

  /** The codewords of a symbol of every version are laid out and read along its scan. */
  lemma {:induction false} LayoutScan(version: nat)
    requires IsVersion(version)
    ensures IsScan(LayoutOf(version).path, SizeOf(version))
  {
    LayoutPath(version);
    PathIsScan(SizeOf(version));
  }
}
