// Splitting the data codewords into blocks, appending each block's error-correction codewords, and
// interleaving the blocks byte by byte (addEccAndInterleave; ISO/IEC 18004:2015, section 7.6).
module Blocks {
  import opened Galois
  import opened Options
  import opened ReedSolomon

  /** The parameter numbers: short and long blocks, data bytes of a short block, ECC bytes of any. */
  datatype Layout = Layout(numShort: nat, numLong: nat, shortData: nat, eccLen: nat) {
    predicate Valid() {
      numShort > 0 && 1 <= eccLen <= 255
    }

    function NumBlocks(): nat { numShort + numLong }

    /** Data codewords in block j; a long block has one more. */
    function DataLen(j: nat): nat {
      if j < numShort then shortData else shortData + 1
    }

    /** Where block j starts in the data. */
    function Offset(j: nat): nat {
      if j == 0 then 0 else Offset(j - 1) + DataLen(j - 1)
    }

    function TotalData(): nat { Offset(NumBlocks()) }

    /** The index, within every padded block, of the row that short blocks do not contribute to. */
    function TotalRows(): nat { shortData + 1 + eccLen }
  }

  /** The layout of `numBlocks` blocks with `eccLen` ECC bytes each over `raw` codewords in all. */
  function LayoutOf(numBlocks: nat, eccLen: nat, raw: nat): (l: Layout)
    requires numBlocks > 0 && 1 <= eccLen <= 255 && eccLen <= raw / numBlocks
    ensures l.Valid() && l.NumBlocks() == numBlocks
  {
    Layout(numBlocks - raw % numBlocks, raw % numBlocks, raw / numBlocks - eccLen, eccLen)
  }

  lemma {:induction false} OffsetClosedForm(l: Layout, j: nat)
    ensures l.Offset(j) == j * l.shortData + (if j < l.numShort then 0 else j - l.numShort)
  {
    if j > 0 {
      OffsetClosedForm(l, j - 1);
      assert j * l.shortData == (j - 1) * l.shortData + l.shortData;
    }
  }

  /** Total = blocks * ecc + data: the blocks cover the data capacity exactly. */
  lemma LayoutCovers(numBlocks: nat, eccLen: nat, raw: nat)
    requires numBlocks > 0 && 1 <= eccLen <= 255 && eccLen <= raw / numBlocks
    ensures LayoutOf(numBlocks, eccLen, raw).TotalData() == raw - numBlocks * eccLen
    ensures RawLen(LayoutOf(numBlocks, eccLen, raw)) == raw
  {
    var l := LayoutOf(numBlocks, eccLen, raw);
    OffsetClosedForm(l, numBlocks);
    Distribute(numBlocks, raw / numBlocks, eccLen);
    assert raw == numBlocks * (raw / numBlocks) + raw % numBlocks;
  }

  lemma Distribute(a: nat, b: nat, c: nat)
    requires c <= b
    ensures a * (b - c) == a * b - a * c == (b - c) * a && a * c == c * a
  {
  }

  function RawLen(l: Layout): nat {
    l.shortData * l.NumBlocks() + l.numLong + l.eccLen * l.NumBlocks()
  }

  lemma {:induction false} OffsetsAscend(l: Layout, j: nat, k: nat)
    requires j <= k
    ensures l.Offset(j) <= l.Offset(k)
    decreases k
  {
    if j < k { OffsetsAscend(l, j, k - 1); }
  }

  lemma BlockInData(l: Layout, j: nat)
    requires j < l.NumBlocks()
    ensures l.Offset(j) + l.DataLen(j) == l.Offset(j + 1) <= l.TotalData()
  {
    OffsetsAscend(l, j + 1, l.NumBlocks());
  }

  // ---- the specification ----

  function DataBlock(l: Layout, data: Poly, j: nat): (b: Poly)
    requires l.Valid() && |data| == l.TotalData() && j < l.NumBlocks()
    ensures |b| == l.DataLen(j)
  {
    BlockInData(l, j);
    data[l.Offset(j)..l.Offset(j) + l.DataLen(j)]
  }

  /** The generator's coefficients below its leading one. */
  function Divisor(l: Layout): (d: Poly)
    requires l.Valid()
    ensures |d| == l.eccLen && [ONE] + d == Generator(l.eccLen)
  {
    Generator(l.eccLen)[1..]
  }

  function EccBlock(l: Layout, data: Poly, j: nat): (e: Poly)
    requires l.Valid() && |data| == l.TotalData() && j < l.NumBlocks()
    ensures |e| == l.eccLen
  {
    Remainder(DataBlock(l, data, j), Divisor(l))
  }

  /** Block j as stored: data, a padding byte in short blocks, then error correction. */
  function PaddedBlock(l: Layout, data: Poly, j: nat): (b: Poly)
    requires l.Valid() && |data| == l.TotalData() && j < l.NumBlocks()
    ensures |b| == l.TotalRows()
  {
    (if j < l.numShort then DataBlock(l, data, j) + [ZERO] else DataBlock(l, data, j)) + EccBlock(l, data, j)
  }

  function PaddedBlocks(l: Layout, data: Poly): (blocks: seq<Poly>)
    requires l.Valid() && |data| == l.TotalData()
    ensures WellPadded(l, blocks)
  {
    seq(l.NumBlocks(), j requires 0 <= j < l.NumBlocks() => PaddedBlock(l, data, j))
  }

  ghost predicate WellPadded(l: Layout, blocks: seq<Poly>) {
    |blocks| == l.NumBlocks() && forall j :: 0 <= j < |blocks| ==> |blocks[j]| == l.TotalRows()
  }

  /** The bytes row i contributes: one from each block, but none of the padding. */
  ghost function Row(l: Layout, blocks: seq<Poly>, i: nat): (r: Poly)
    requires WellPadded(l, blocks) && i < l.TotalRows()
    ensures |r| == if i == l.shortData then l.numLong else l.NumBlocks()
  {
    var skipped := if i == l.shortData then l.numShort else 0;
    seq(|blocks| - skipped, t requires 0 <= t < |blocks| - skipped => blocks[skipped + t][i])
  }

  ghost function Rows(l: Layout, blocks: seq<Poly>, n: nat): Poly
    requires WellPadded(l, blocks) && n <= l.TotalRows()
  {
    if n == 0 then [] else Rows(l, blocks, n - 1) + Row(l, blocks, n - 1)
  }

  ghost function Interleaved(l: Layout, data: Poly): Poly
    requires l.Valid() && |data| == l.TotalData()
  {
    Rows(l, PaddedBlocks(l, data), l.TotalRows())
  }

  // ---- the algorithm ----

  /** The body of the splitting loop: cut block i off the data and append its error correction. */
  method MakeBlock(l: Layout, data: Poly, rsDiv: Poly, i: nat, k: nat) returns (dat: Poly, next: nat)
    requires l.Valid() && |data| == l.TotalData() && i < l.NumBlocks()
    requires rsDiv == Divisor(l) && k == l.Offset(i)
    ensures dat == PaddedBlock(l, data, i)
    ensures next == l.Offset(i + 1)
  {
    BlockInData(l, i);
    dat := data[k..k + l.shortData + (if i < l.numShort then 0 else 1)];
    assert dat == DataBlock(l, data, i);
    next := k + |dat|;
    var ecc := ComputeRemainder(dat, rsDiv);
    if i < l.numShort {
      dat := dat + [ZERO];
    }
    dat := dat + ecc;
  }

  method SplitIntoBlocks(l: Layout, data: Poly) returns (blocks: seq<Poly>)
    requires l.Valid() && |data| == l.TotalData()
    ensures blocks == PaddedBlocks(l, data)
  {
    blocks := [];
    var rsDiv := ComputeDivisor(l.eccLen);
    assert rsDiv.value == ([ONE] + rsDiv.value)[1..];
    var k := 0;
    for i := 0 to l.NumBlocks()
      invariant k == l.Offset(i)
      invariant |blocks| == i
      invariant forall j :: 0 <= j < i ==> blocks[j] == PaddedBlock(l, data, j)
    {
      var dat, next := MakeBlock(l, data, rsDiv.value, i, k);
      k := next;
      blocks := blocks + [dat];
    }
  }

  method Interleave(l: Layout, blocks: seq<Poly>) returns (result: Poly)
    requires l.Valid() && WellPadded(l, blocks)
    ensures result == Rows(l, blocks, l.TotalRows())
  {
    result := [];
    for i := 0 to |blocks[0]|
      invariant result == Rows(l, blocks, i)
    {
      ghost var before, row := result, Row(l, blocks, i);
      ghost var emitted := 0;
      for j := 0 to |blocks|
        invariant emitted == if i != l.shortData then j else if j < l.numShort then 0 else j - l.numShort
        invariant result == before + row[..emitted]
      {
        if i != l.shortData || j >= l.numShort {
          result := result + [blocks[j][i]];
          emitted := emitted + 1;
        }
      }
      assert row[..emitted] == row;
    }
  }

  /** Fails exactly where the source rejects the data length. */
  method AddEccAndInterleave(l: Layout, data: Poly) returns (result: Option<Poly>)
    requires l.Valid()
    ensures result.None? <==> |data| != l.TotalData()
    ensures result.Some? ==> result.value == Interleaved(l, data)
  {
    if |data| != l.TotalData() {
      return None;
    }
    var blocks := SplitIntoBlocks(l, data);
    var interleaved := Interleave(l, blocks);
    result := Some(interleaved);
  }

  // ---- the reader's side ----

  /** Where a reader finds byte i of data block j. */
  function DataPosition(l: Layout, j: nat, i: nat): nat
    requires j < l.NumBlocks() && i < l.DataLen(j)
  {
    if i < l.shortData then i * l.NumBlocks() + j else l.shortData * l.NumBlocks() + (j - l.numShort)
  }

  /** Where a reader finds error-correction byte i of block j: after all the data. */
  function EccPosition(l: Layout, j: nat, i: nat): nat
  {
    l.shortData * l.NumBlocks() + l.numLong + i * l.NumBlocks() + j
  }

  lemma {:induction false} RowsLength(l: Layout, blocks: seq<Poly>, n: nat)
    requires WellPadded(l, blocks) && n <= l.TotalRows()
    ensures |Rows(l, blocks, n)| == if n <= l.shortData then n * l.NumBlocks()
                                    else l.shortData * l.NumBlocks() + l.numLong + (n - l.shortData - 1) * l.NumBlocks()
  {
    if n > 0 {
      RowsLength(l, blocks, n - 1);
      assert n * l.NumBlocks() == (n - 1) * l.NumBlocks() + l.NumBlocks();
      var m := n - l.shortData - 1;
      assert m * l.NumBlocks() == (m - 1) * l.NumBlocks() + l.NumBlocks();
    }
  }

  lemma {:induction false} RowInRows(l: Layout, blocks: seq<Poly>, i: nat, n: nat, t: nat)
    requires WellPadded(l, blocks) && i < n <= l.TotalRows()
    requires t < |Row(l, blocks, i)|
    ensures |Rows(l, blocks, i)| + t < |Rows(l, blocks, n)|
    ensures Rows(l, blocks, n)[|Rows(l, blocks, i)| + t] == Row(l, blocks, i)[t]
  {
    if i < n - 1 { RowInRows(l, blocks, i, n - 1, t); }
  }

  /** Every raw codeword is emitted and nothing else. */
  lemma InterleavedLength(l: Layout, data: Poly)
    requires l.Valid() && |data| == l.TotalData()
    ensures |Interleaved(l, data)| == RawLen(l)
  {
    RowsLength(l, PaddedBlocks(l, data), l.TotalRows());
  }

  /** Each data byte sits at the position the reader computes for it. */
  lemma DataRecovered(l: Layout, data: Poly, j: nat, i: nat)
    requires l.Valid() && |data| == l.TotalData() && j < l.NumBlocks() && i < l.DataLen(j)
    ensures DataPosition(l, j, i) < |Interleaved(l, data)|
    ensures Interleaved(l, data)[DataPosition(l, j, i)] == DataBlock(l, data, j)[i]
  {
    hide Rows, Remainder;
    var blocks := PaddedBlocks(l, data);
    var t := if i < l.shortData then j else j - l.numShort;
    RowsLength(l, blocks, i);
    RowInRows(l, blocks, i, l.TotalRows(), t);
    assert Row(l, blocks, i)[t] == blocks[j][i];
  }

  /** Each error-correction byte sits at the position the reader computes for it. */
  lemma EccRecovered(l: Layout, data: Poly, j: nat, i: nat)
    requires l.Valid() && |data| == l.TotalData() && j < l.NumBlocks() && i < l.eccLen
    ensures EccPosition(l, j, i) < |Interleaved(l, data)|
    ensures Interleaved(l, data)[EccPosition(l, j, i)] == EccBlock(l, data, j)[i]
  {
    hide Rows, Remainder, DataBlock;
    var blocks := PaddedBlocks(l, data);
    var row := l.shortData + 1 + i;
    RowsLength(l, blocks, row);
    RowInRows(l, blocks, row, l.TotalRows(), j);
    assert Row(l, blocks, row)[j] == blocks[j][row];
  }

  /** Data block j as a reader takes it out of the interleaved codewords. */
  function ReadBlock(l: Layout, codewords: Poly, j: nat): (b: Poly)
    requires |codewords| == RawLen(l) && j < l.NumBlocks()
    ensures |b| == l.DataLen(j)
  {
    seq(l.DataLen(j), i requires 0 <= i < l.DataLen(j) =>
      DataPositionInRange(l, j, i);
      codewords[DataPosition(l, j, i)])
  }

  function ReadBlocks(l: Layout, codewords: Poly, j: nat): Poly
    requires |codewords| == RawLen(l) && j <= l.NumBlocks()
  {
    if j == 0 then [] else ReadBlocks(l, codewords, j - 1) + ReadBlock(l, codewords, j - 1)
  }

  lemma DataPositionInRange(l: Layout, j: nat, i: nat)
    requires j < l.NumBlocks() && i < l.DataLen(j)
    ensures DataPosition(l, j, i) < RawLen(l)
  {
    if i < l.shortData {
      assert (i + 1) * l.NumBlocks() == i * l.NumBlocks() + l.NumBlocks();
      assert (i + 1) * l.NumBlocks() <= l.shortData * l.NumBlocks();
    }
  }

  lemma BlockReadsBack(l: Layout, data: Poly, j: nat)
    requires l.Valid() && |data| == l.TotalData() && j < l.NumBlocks()
    requires |Interleaved(l, data)| == RawLen(l)
    ensures ReadBlock(l, Interleaved(l, data), j) == DataBlock(l, data, j)
  {
    var b, d := ReadBlock(l, Interleaved(l, data), j), DataBlock(l, data, j);
    forall i | 0 <= i < l.DataLen(j)
      ensures b[i] == d[i]
    {
      DataRecovered(l, data, j, i);
    }
  }

  lemma {:induction false} BlocksReadBack(l: Layout, data: Poly, j: nat)
    requires l.Valid() && |data| == l.TotalData() && j <= l.NumBlocks()
    requires |Interleaved(l, data)| == RawLen(l)
    ensures l.Offset(j) <= |data|
    ensures ReadBlocks(l, Interleaved(l, data), j) == data[..l.Offset(j)]
  {
    OffsetsAscend(l, j, l.NumBlocks());
    if j > 0 {
      BlocksReadBack(l, data, j - 1);
      BlockReadsBack(l, data, j - 1);
      assert data[..l.Offset(j)] == data[..l.Offset(j - 1)] + DataBlock(l, data, j - 1);
    }
  }

  /** De-interleaving returns exactly the data, every byte once and in order. */
  lemma Deinterleaves(l: Layout, data: Poly)
    requires l.Valid() && |data| == l.TotalData()
    ensures |Interleaved(l, data)| == RawLen(l)
    ensures ReadBlocks(l, Interleaved(l, data), l.NumBlocks()) == data
  {
    InterleavedLength(l, data);
    BlocksReadBack(l, data, l.NumBlocks());
  }
}
