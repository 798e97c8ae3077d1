/** Splitting data codewords into blocks, appending error correction to each block and
    interleaving the blocks (frontend/js/qrcodegen.js, addEccAndInterleave).

    The block structure is a parameter: any number of blocks, any number of error correction
    codewords per block and any total, not only the rows of the tables. */
module Interleaving {
  import opened Bits
  import opened Outcomes
  import opened ReedSolomon

  // How a sequence of codewords divides into blocks. The first numShort blocks have dataLen
  // data codewords, the others one more.
  datatype Shape = Shape(numBlocks: nat, dataLen: nat, eccLen: nat, numShort: nat)
  {
    predicate Valid() {
      1 <= numShort <= numBlocks
    }

    // Length of every block, counting the padding byte of the short ones.
    function BlockLen(): nat {
      dataLen + 1 + eccLen
    }

    function DataLen(j: nat): nat {
      if j < numShort then dataLen else dataLen + 1
    }

    function DataTotal(): int {
      (dataLen + 1) * numBlocks - numShort
    }

    function Total(): int {
      BlockLen() * numBlocks - numShort
    }

    // Where block j begins in the data.
    function Start(j: nat): nat {
      if j == 0 then 0 else Start(j - 1) + DataLen(j - 1)
    }

    // The padding byte of a short block is not part of the output.
    predicate IsPadding(i: nat, j: nat) {
      i == dataLen && j < numShort
    }

    // Where codeword i of block j goes in the interleaved sequence.
    function Slot(i: nat, j: nat): int {
      i * numBlocks + j - (if i < dataLen then 0 else numShort)
    }

    predicate IsSlot(i: nat, j: nat) {
      i < BlockLen() && j < numBlocks && !IsPadding(i, j)
    }
  }

  /** The shape computed from a number of blocks and a total, as the source does. */
  function ShapeOf(numBlocks: nat, eccLen: nat, rawCodewords: nat): (p: Shape)
    requires numBlocks >= 1 && eccLen * numBlocks <= rawCodewords
    ensures p.Valid() && p.numBlocks == numBlocks && p.eccLen == eccLen
    ensures p.Total() == rawCodewords
    ensures p.DataTotal() == rawCodewords - eccLen * numBlocks
  {
    BlockHoldsEcc(eccLen, numBlocks, rawCodewords);
    var shortBlockLen := rawCodewords / numBlocks;
    TotalFromQuotient(numBlocks, eccLen, rawCodewords, shortBlockLen, rawCodewords % numBlocks);
    Shape(numBlocks, shortBlockLen - eccLen, eccLen, numBlocks - rawCodewords % numBlocks)
  }

  lemma {:induction false} BlockHoldsEcc(eccLen: nat, numBlocks: nat, raw: nat)
    requires numBlocks >= 1 && eccLen * numBlocks <= raw
    ensures eccLen <= raw / numBlocks
  {
    QuotientAtLeast(raw, numBlocks, eccLen);
  }

  lemma {:induction false} TotalFromQuotient(n: nat, e: nat, raw: nat, q: nat, m: nat)
    requires n >= 1 && raw == q * n + m && e <= q
    ensures (q + 1) * n - (n - m) == raw
    ensures (q - e + 1) * n - (n - m) == raw - e * n
  {
    assert (q + 1) * n == q * n + n;
    assert (q - e + 1) * n == q * n - e * n + n;
  }

  lemma {:induction false} TimesMonotone(a: nat, b: nat, c: nat)
    requires a <= b
    ensures a * c <= b * c
  {
  }

  lemma {:induction false} QuotientAtLeast(k: nat, n: nat, l: nat)
    requires n > 0 && l * n <= k
    ensures k / n >= l
  {
    var q := k / n;
    assert k == q * n + k % n;
    assert (q + 1) * n == q * n + n;
    if q < l {
      TimesMonotone(q + 1, l, n);
    }
  }

  lemma {:induction false} QuotientBelow(k: nat, n: nat, l: nat)
    requires n > 0 && k < l * n
    ensures k / n < l
  {
    var q := k / n;
    assert k == q * n + k % n;
    if q >= l {
      TimesMonotone(l, q, n);
    }
  }

  // ---- the blocks ----

  lemma {:induction false} StartClosed(p: Shape, j: nat)
    ensures p.Start(j) == j * p.dataLen + (if j <= p.numShort then 0 else j - p.numShort)
  {
    if j > 0 {
      StartClosed(p, j - 1);
      assert j * p.dataLen == (j - 1) * p.dataLen + p.dataLen;
    }
  }

  // All blocks together hold exactly the data codewords.
  lemma {:induction false} StartTotal(p: Shape)
    requires p.Valid()
    ensures p.Start(p.numBlocks) == p.DataTotal()
  {
    StartClosed(p, p.numBlocks);
    assert (p.dataLen + 1) * p.numBlocks == p.numBlocks * p.dataLen + p.numBlocks;
  }

  lemma {:induction false} StartMonotone(p: Shape, j: nat, k: nat)
    requires j <= k
    ensures p.Start(j) <= p.Start(k)
    decreases k
  {
    if j < k {
      StartMonotone(p, j, k - 1);
    }
  }

  ghost predicate Fits(p: Shape, data: seq<Byte>) {
    p.Valid() && p.eccLen >= 1 && |data| == p.DataTotal()
  }

  function BlockData(p: Shape, data: seq<Byte>, j: nat): (d: seq<Byte>)
    requires Fits(p, data) && j < p.numBlocks
    ensures |d| == p.DataLen(j)
  {
    StartTotal(p);
    StartMonotone(p, j + 1, p.numBlocks);
    data[p.Start(j)..p.Start(j + 1)]
  }

  // A block as the source builds it: data, a padding byte in short blocks, then ecc.
  function Padded(p: Shape, j: nat, d: seq<Byte>, ecc: seq<Byte>): (b: seq<Byte>)
    requires |d| == p.DataLen(j) && |ecc| == p.eccLen
    ensures |b| == p.BlockLen()
  {
    d + (if j < p.numShort then [0] else []) + ecc
  }

  function Blocks(p: Shape, data: seq<Byte>): (b: seq<seq<Byte>>)
    requires Fits(p, data)
    ensures |b| == p.numBlocks && Uniform(p, b)
  {
    seq(p.numBlocks, j requires 0 <= j < p.numBlocks =>
      var d := BlockData(p, data, j); Padded(p, j, d, Ecc(d, p.eccLen)))
  }

  predicate Uniform(p: Shape, blocks: seq<seq<Byte>>) {
    forall j :: 0 <= j < |blocks| ==> |blocks[j]| == p.BlockLen()
  }

  // ---- the interleaved sequence ----

  // Codeword i of each of the first n blocks, without padding bytes.
  function Row(p: Shape, blocks: seq<seq<Byte>>, i: nat, n: nat): seq<Byte>
    requires Uniform(p, blocks) && i < p.BlockLen() && n <= |blocks|
  {
    if n == 0 then []
    else Row(p, blocks, i, n - 1) + (if p.IsPadding(i, n - 1) then [] else [blocks[n - 1][i]])
  }

  function Rows(p: Shape, blocks: seq<seq<Byte>>, i: nat): seq<Byte>
    requires Uniform(p, blocks) && i <= p.BlockLen()
  {
    if i == 0 then [] else Rows(p, blocks, i - 1) + Row(p, blocks, i - 1, |blocks|)
  }

  function Interleaved(p: Shape, data: seq<Byte>): seq<Byte>
    requires Fits(p, data)
  {
    Rows(p, Blocks(p, data), p.BlockLen())
  }

  /** addEccAndInterleave. The shape is what the source computes in its first lines. */
  method AddEccAndInterleave(numBlocks: nat, eccLen: nat, rawCodewords: nat, data: seq<Byte>)
    returns (result: Outcome<seq<Byte>>)
    requires numBlocks >= 1
    ensures result == EccAndInterleaved(numBlocks, eccLen, rawCodewords, data)
  {
    if |data| != rawCodewords - eccLen * numBlocks {
      return RangeError;
    }
    var rsDiv := ComputeDivisor(eccLen);
    if rsDiv.RangeError? {
      return RangeError;
    }
    var p := ShapeOf(numBlocks, eccLen, rawCodewords);
    var blocks := SplitIntoBlocks(p, data, rsDiv.value);
    var codewords := InterleaveBlocks(p, blocks);
    if |codewords| != rawCodewords {
      return AssertionError;
    }
    return Done(codewords);
  }

  // What addEccAndInterleave returns: its last assertion never fails.
  function EccAndInterleaved(numBlocks: nat, eccLen: nat, rawCodewords: nat, data: seq<Byte>): Outcome<seq<Byte>>
    requires numBlocks >= 1
  {
    if |data| == rawCodewords - eccLen * numBlocks && 1 <= eccLen <= MAX_DEGREE
    then Done(Interleaved(ShapeOf(numBlocks, eccLen, rawCodewords), data))
    else RangeError
  }

  // The nested loops that take one codeword from each block in turn.
  method InterleaveBlocks(p: Shape, blocks: seq<seq<Byte>>) returns (codewords: seq<Byte>)
    requires p.Valid() && |blocks| == p.numBlocks && Uniform(p, blocks)
    ensures codewords == Rows(p, blocks, p.BlockLen())
    ensures |codewords| == p.Total()
  {
    codewords := [];
    for i := 0 to |blocks[0]|
      invariant codewords == Rows(p, blocks, i)
    {
      for j := 0 to |blocks|
        invariant codewords == Rows(p, blocks, i) + Row(p, blocks, i, j)
      {
        // Short blocks have no byte of their own here.
        if i != p.dataLen || j >= p.numShort {
          codewords := codewords + [blocks[j][i]];
        }
      }
    }
    RowsLength(p, blocks, p.BlockLen());
  }

  // The loop that cuts the data into blocks and appends ecc to each.
  method SplitIntoBlocks(p: Shape, data: seq<Byte>, rsDiv: seq<Byte>) returns (blocks: seq<seq<Byte>>)
    requires Fits(p, data) && rsDiv == Divisor(p.eccLen)
    ensures blocks == Blocks(p, data)
  {
    blocks := [];
    var k := 0;
    StartTotal(p);
    for i := 0 to p.numBlocks
      invariant k == p.Start(i)
      invariant blocks == Blocks(p, data)[..i]
    {
      StartMonotone(p, i + 1, p.numBlocks);
      var dat := data[k..k + p.dataLen + (if i < p.numShort then 0 else 1)];
      assert dat == BlockData(p, data, i);
      k := k + |dat|;
      var block := MakeBlock(p, i, dat, rsDiv);
      blocks := blocks + [block];
    }
  }

  // The body of that loop.
  method MakeBlock(p: Shape, i: nat, dat: seq<Byte>, rsDiv: seq<Byte>) returns (block: seq<Byte>)
    requires p.eccLen >= 1 && |dat| == p.DataLen(i) && rsDiv == Divisor(p.eccLen)
    ensures block == Padded(p, i, dat, Ecc(dat, p.eccLen))
  {
    var ecc := ComputeRemainder(dat, rsDiv);
    block := dat;
    if i < p.numShort {
      block := block + [0];
    }
    block := block + ecc;
  }

  lemma {:induction false} RowLength(p: Shape, blocks: seq<seq<Byte>>, i: nat, n: nat)
    requires p.Valid() && Uniform(p, blocks) && i < p.BlockLen() && n <= |blocks|
    ensures |Row(p, blocks, i, n)| == if i != p.dataLen then n else if n <= p.numShort then 0 else n - p.numShort
  {
    if n > 0 {
      RowLength(p, blocks, i, n - 1);
    }
  }

  lemma {:induction false} RowsLength(p: Shape, blocks: seq<seq<Byte>>, i: nat)
    requires p.Valid() && |blocks| == p.numBlocks && Uniform(p, blocks) && i <= p.BlockLen()
    ensures |Rows(p, blocks, i)| == i * p.numBlocks - (if i <= p.dataLen then 0 else p.numShort)
  {
    if i > 0 {
      RowsLength(p, blocks, i - 1);
      RowLength(p, blocks, i - 1, p.numBlocks);
      assert i * p.numBlocks == (i - 1) * p.numBlocks + p.numBlocks;
    }
  }

  lemma {:induction false} RowAt(p: Shape, blocks: seq<seq<Byte>>, i: nat, n: nat, j: nat)
    requires p.Valid() && Uniform(p, blocks) && i < p.BlockLen() && j < n <= |blocks| && !p.IsPadding(i, j)
    ensures var k := if i != p.dataLen then j else j - p.numShort;
            k < |Row(p, blocks, i, n)| && Row(p, blocks, i, n)[k] == blocks[j][i]
  {
    RowLength(p, blocks, i, n - 1);
    if j < n - 1 {
      RowAt(p, blocks, i, n - 1, j);
    }
  }

  lemma {:induction false} RowsAt(p: Shape, blocks: seq<seq<Byte>>, m: nat, i: nat, j: nat)
    requires p.Valid() && |blocks| == p.numBlocks && Uniform(p, blocks)
    requires i < m <= p.BlockLen() && p.IsSlot(i, j)
    ensures 0 <= p.Slot(i, j) < |Rows(p, blocks, m)|
    ensures Rows(p, blocks, m)[p.Slot(i, j)] == blocks[j][i]
  {
    var before, row := Rows(p, blocks, m - 1), Row(p, blocks, m - 1, |blocks|);
    assert Rows(p, blocks, m) == before + row;
    if i == m - 1 {
      RowsLength(p, blocks, i);
      RowAt(p, blocks, i, |blocks|, j);
      var k := if i != p.dataLen then j else j - p.numShort;
      assert (before + row)[|before| + k] == row[k];
    } else {
      RowsAt(p, blocks, m - 1, i, j);
      assert (before + row)[p.Slot(i, j)] == before[p.Slot(i, j)];
    }
  }

  // ---- reading it back ----

  lemma {:induction false} SlotInRange(p: Shape, i: nat, j: nat)
    requires p.Valid() && p.IsSlot(i, j)
    ensures 0 <= p.Slot(i, j) < p.Total()
  {
    var n := p.numBlocks;
    TimesMonotone(i + 1, p.BlockLen(), n);
    assert (i + 1) * n == i * n + n;
    if i < p.dataLen {
      TimesMonotone(i + 2, p.BlockLen(), n);
      assert (i + 2) * n == i * n + n + n;
    } else if i > p.dataLen {
      TimesMonotone(1, i, n);
    }
  }

  // The inverse: codeword i of block j is fetched from its slot.
  function ReadBlock(p: Shape, codewords: seq<Byte>, j: nat, from: nat, count: nat): (d: seq<Byte>)
    requires p.Valid() && |codewords| == p.Total() && j < p.numBlocks
    requires forall i: nat :: from <= i < from + count ==> p.IsSlot(i, j)
    ensures |d| == count
  {
    seq(count, i requires 0 <= i < count => SlotInRange(p, from + i, j); codewords[p.Slot(from + i, j)])
  }

  function ReadData(p: Shape, codewords: seq<Byte>, j: nat): seq<Byte>
    requires p.Valid() && |codewords| == p.Total() && j < p.numBlocks
  {
    ReadBlock(p, codewords, j, 0, p.DataLen(j))
  }

  function ReadEcc(p: Shape, codewords: seq<Byte>, j: nat): seq<Byte>
    requires p.Valid() && |codewords| == p.Total() && j < p.numBlocks
  {
    ReadBlock(p, codewords, j, p.dataLen + 1, p.eccLen)
  }

  // The data of the first n blocks, in order.
  function ReadAll(p: Shape, codewords: seq<Byte>, n: nat): seq<Byte>
    requires p.Valid() && |codewords| == p.Total() && n <= p.numBlocks
  {
    if n == 0 then [] else ReadAll(p, codewords, n - 1) + ReadData(p, codewords, n - 1)
  }

  lemma {:induction false} ReadBlockOfRows(p: Shape, blocks: seq<seq<Byte>>, j: nat, from: nat, count: nat)
    requires p.Valid() && |blocks| == p.numBlocks && Uniform(p, blocks) && j < p.numBlocks
    requires from + count <= p.BlockLen()
    requires forall i: nat :: from <= i < from + count ==> p.IsSlot(i, j)
    ensures |Rows(p, blocks, p.BlockLen())| == p.Total()
    ensures ReadBlock(p, Rows(p, blocks, p.BlockLen()), j, from, count) == blocks[j][from..from + count]
  {
    var m := p.BlockLen();
    var all := Rows(p, blocks, m);
    RowsLength(p, blocks, m);
    forall i | 0 <= i < count ensures ReadBlock(p, all, j, from, count)[i] == blocks[j][from..from + count][i] {
      RowsAt(p, blocks, m, from + i, j);
    }
  }

  /** De-interleaving recovers every block's data and its error correction codewords. */
  lemma {:induction false} BlocksRecovered(p: Shape, data: seq<Byte>, j: nat)
    requires Fits(p, data) && j < p.numBlocks
    ensures |Interleaved(p, data)| == p.Total()
    ensures ReadData(p, Interleaved(p, data), j) == BlockData(p, data, j)
    ensures ReadEcc(p, Interleaved(p, data), j) == Ecc(BlockData(p, data, j), p.eccLen)
  {
    var d := BlockData(p, data, j);
    PaddedRecovered(p, Blocks(p, data), j, d, Ecc(d, p.eccLen));
  }

  lemma {:induction false} PaddedRecovered(p: Shape, blocks: seq<seq<Byte>>, j: nat, d: seq<Byte>, ecc: seq<Byte>)
    requires p.Valid() && |blocks| == p.numBlocks && Uniform(p, blocks) && j < p.numBlocks
    requires |d| == p.DataLen(j) && |ecc| == p.eccLen && blocks[j] == Padded(p, j, d, ecc)
    ensures |Rows(p, blocks, p.BlockLen())| == p.Total()
    ensures ReadData(p, Rows(p, blocks, p.BlockLen()), j) == d
    ensures ReadEcc(p, Rows(p, blocks, p.BlockLen()), j) == ecc
  {
    ReadBlockOfRows(p, blocks, j, 0, p.DataLen(j));
    ReadBlockOfRows(p, blocks, j, p.dataLen + 1, p.eccLen);
    PaddedParts(p, j, d, ecc);
  }

  lemma {:induction false} PaddedParts(p: Shape, j: nat, d: seq<Byte>, ecc: seq<Byte>)
    requires |d| == p.DataLen(j) && |ecc| == p.eccLen
    ensures Padded(p, j, d, ecc)[0..p.DataLen(j)] == d
    ensures Padded(p, j, d, ecc)[p.dataLen + 1..p.dataLen + 1 + p.eccLen] == ecc
  {
  }

  // If every block reads back from codewords, so do the first n blocks together.
  lemma {:induction false} PrefixRecovered(p: Shape, data: seq<Byte>, codewords: seq<Byte>, n: nat)
    requires Fits(p, data) && n <= p.numBlocks && |codewords| == p.Total()
    requires forall j: nat :: j < p.numBlocks ==> ReadData(p, codewords, j) == BlockData(p, data, j)
    ensures p.Start(n) <= |data|
    ensures ReadAll(p, codewords, n) == data[..p.Start(n)]
  {
    StartTotal(p);
    StartMonotone(p, n, p.numBlocks);
    if n > 0 {
      PrefixRecovered(p, data, codewords, n - 1);
      assert ReadData(p, codewords, n - 1) == BlockData(p, data, n - 1);
      assert data[..p.Start(n)] == data[..p.Start(n - 1)] + BlockData(p, data, n - 1);
    }
  }

  /** Interleaving loses nothing: reading all blocks back gives the data. */
  lemma {:induction false} DataRecovered(p: Shape, data: seq<Byte>)
    requires Fits(p, data)
    ensures |Interleaved(p, data)| == p.Total()
    ensures ReadAll(p, Interleaved(p, data), p.numBlocks) == data
  {
    BlocksRecovered(p, data, 0);
    forall j: nat | j < p.numBlocks ensures ReadData(p, Interleaved(p, data), j) == BlockData(p, data, j) {
      BlocksRecovered(p, data, j);
    }
    PrefixRecovered(p, data, Interleaved(p, data), p.numBlocks);
    StartTotal(p);
  }

  // Which codeword of which block sits at position k.
  function OwnerOf(p: Shape, k: nat): (nat, nat)
    requires p.Valid()
  {
    var k' := if k < p.dataLen * p.numBlocks then k else k + p.numShort;
    (k' / p.numBlocks, k' % p.numBlocks)
  }

  lemma {:induction false} SlotOfOwner(p: Shape, k: nat)
    requires p.Valid() && k < p.Total()
    ensures p.IsSlot(OwnerOf(p, k).0, OwnerOf(p, k).1)
    ensures p.Slot(OwnerOf(p, k).0, OwnerOf(p, k).1) == k
  {
    var n, l := p.numBlocks, p.dataLen;
    if k < l * n {
      QuotientBelow(k, n, l);
    } else {
      var k' := k + p.numShort;
      QuotientAtLeast(k', n, l);
      QuotientBelow(k', n, p.BlockLen());
      assert k' == (k' / n) * n + k' % n;
    }
  }

  lemma {:induction false} OwnerOfSlot(p: Shape, i: nat, j: nat)
    requires p.Valid() && p.IsSlot(i, j)
    ensures p.Slot(i, j) >= 0 && OwnerOf(p, p.Slot(i, j)) == (i, j)
  {
    var n, l := p.numBlocks, p.dataLen;
    SlotInRange(p, i, j);
    if i < l {
      TimesMonotone(i + 1, l, n);
      assert (i + 1) * n == i * n + n;
    } else if i > l {
      TimesMonotone(l + 1, i, n);
      assert (l + 1) * n == l * n + n;
    }
    DivUnique(i * n + j, n, i, j);
  }

  /** ... and adds nothing: the slots of the unpadded codewords are exactly the positions of the
      output, one each. */
  lemma {:induction false} SlotsAreBijective(p: Shape, k: nat)
    requires p.Valid() && k < p.Total()
    ensures p.IsSlot(OwnerOf(p, k).0, OwnerOf(p, k).1)
    ensures p.Slot(OwnerOf(p, k).0, OwnerOf(p, k).1) == k
    ensures forall i: nat, j: nat :: p.IsSlot(i, j) && p.Slot(i, j) == k ==> OwnerOf(p, k) == (i, j)
  {
    SlotOfOwner(p, k);
    forall i: nat, j: nat | p.IsSlot(i, j) && p.Slot(i, j) == k ensures OwnerOf(p, k) == (i, j) {
      OwnerOfSlot(p, i, j);
    }
  }

  // ---- the places of all codewords, in numbers ----

  // Where block j begins in the data: the blocks with one codeword more come last.
  function BlockStart(numShort: nat, dataLen: nat, j: nat): nat {
    j * dataLen + (if j > numShort then j - numShort else 0)
  }

  lemma {:induction false} PlaceOf(p: Shape, data: seq<Byte>, i: nat, j: nat)
    requires Fits(p, data) && p.IsSlot(i, j)
    ensures 0 <= p.Slot(i, j) < |Interleaved(p, data)|
    ensures Interleaved(p, data)[p.Slot(i, j)] == Padded(p, j, BlockData(p, data, j), Ecc(BlockData(p, data, j), p.eccLen))[i]
  {
    RowsAt(p, Blocks(p, data), p.BlockLen(), i, j);
  }

  lemma {:induction false} StartsAt(p: Shape, data: seq<Byte>, j: nat)
    requires Fits(p, data) && j < p.numBlocks
    ensures BlockStart(p.numShort, p.dataLen, j) == p.Start(j) <= BlockStart(p.numShort, p.dataLen, j + 1) <= |data|
    ensures BlockData(p, data, j) == data[BlockStart(p.numShort, p.dataLen, j)..BlockStart(p.numShort, p.dataLen, j + 1)]
  {
    StartClosed(p, j);
    StartClosed(p, j + 1);
    StartTotal(p);
    StartMonotone(p, j, j + 1);
    StartMonotone(p, j + 1, p.numBlocks);
  }

  lemma {:induction false} PaddedData(p: Shape, j: nat, d: seq<Byte>, ecc: seq<Byte>, i: nat)
    requires |d| == p.DataLen(j) && |ecc| == p.eccLen
    ensures i < |d| ==> Padded(p, j, d, ecc)[i] == d[i]
    ensures i < p.eccLen ==> Padded(p, j, d, ecc)[p.dataLen + 1 + i] == ecc[i]
  {
  }

  // Element k of s is element l of t.
  predicate SameAt(s: seq<Byte>, k: int, t: seq<Byte>, l: int) {
    0 <= k < |s| && 0 <= l < |t| && s[k] == t[l]
  }

  /** First come the data: codeword 0 of each block in turn, then codeword 1, and so on ... */
  lemma {:induction false} DataPlaces(p: Shape, data: seq<Byte>, i: nat, j: nat)
    requires Fits(p, data) && i < p.dataLen && j < p.numBlocks
    ensures SameAt(Interleaved(p, data), i * p.numBlocks + j, data, BlockStart(p.numShort, p.dataLen, j) + i)
  {
    var d := BlockData(p, data, j);
    StartsAt(p, data, j);
    PlaceOf(p, data, i, j);
    PaddedData(p, j, d, Ecc(d, p.eccLen), i);
  }

  /** ... then the last codeword of each longer block ... */
  lemma {:induction false} LongPlaces(p: Shape, data: seq<Byte>, j: nat)
    requires Fits(p, data) && p.numShort <= j < p.numBlocks
    ensures SameAt(Interleaved(p, data), p.dataLen * p.numBlocks + (j - p.numShort), data, BlockStart(p.numShort, p.dataLen, j) + p.dataLen)
  {
    StartsAt(p, data, j);
    PlaceOf(p, data, p.dataLen, j);
  }

  /** ... and after all data the error correction codewords of the blocks in the same manner. */
  lemma {:induction false} EccPlaces(p: Shape, data: seq<Byte>, i: nat, j: nat)
    requires Fits(p, data) && i < p.eccLen && j < p.numBlocks
    ensures BlockStart(p.numShort, p.dataLen, j) <= BlockStart(p.numShort, p.dataLen, j + 1) <= |data|
    ensures var block := data[BlockStart(p.numShort, p.dataLen, j)..BlockStart(p.numShort, p.dataLen, j + 1)];
      SameAt(Interleaved(p, data), |data| + i * p.numBlocks + j, Ecc(block, p.eccLen), i)
  {
    StartsAt(p, data, j);
    PlaceOf(p, data, p.dataLen + 1 + i, j);
    EccSlot(p, i, j);
  }

  lemma {:induction false} EccSlot(p: Shape, i: nat, j: nat)
    requires p.Valid()
    ensures p.Slot(p.dataLen + 1 + i, j) == p.DataTotal() + i * p.numBlocks + j
  {
    assert (p.dataLen + 1 + i) * p.numBlocks == (p.dataLen + 1) * p.numBlocks + i * p.numBlocks;
  }
}
