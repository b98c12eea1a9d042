/**
 The loops that `pack` and `spread` emit to lay out tiles for the matrix unit
 (language/smt_rvisa/codegen.py), run on real buffers.
 */
module Packing {
  import Arith

  // ------------------------------------------------------------------
  // pack
  // ------------------------------------------------------------------

  /** Every row of the source that is packed lies inside the source. */
  lemma RowInSource(row0: nat, rows: nat, r: nat, stride: nat, length: nat)
    requires r < rows && (row0 + rows) * stride <= length
    ensures (row0 + r) * stride + stride <= length
  {
    assert (row0 + rows) * stride == (row0 + r) * stride + (rows - r) * stride;
    assert (rows - r) * stride >= stride by {
      if stride > 0 { Arith.MulAtLeast(rows - r, stride); }
    }
  }

  /** Block kb of source row row0 + r: `vl` elements of the row, padding behind its end. */
  function PackedRow<E>(src: seq<E>, zero: E, row0: nat, stride: nat, vl: nat, rows: nat, kb: nat,
                        r: nat): (packed: seq<E>)
    requires r < rows && (row0 + rows) * stride <= |src|
    ensures |packed| == vl
  {
    RowInSource(row0, rows, r, stride, |src|);
    seq(vl, j requires 0 <= j < vl => if kb * vl + j < stride then src[(row0 + r) * stride + (kb * vl + j)] else zero)
  }

  /**
   The destination memref has the shape 1 x blocks x rows x VL. Its last dimension is one vector, which is
   stored as a whole, so it is an array of vectors here.
   */
  predicate IsRow<E>(dst: array3<seq<E>>, a: int, kb: int, r: int) {
    0 <= a < dst.Length0 && 0 <= kb < dst.Length1 && 0 <= r < dst.Length2
  }

  /** Only rows first .. last - 1 of blocks lo .. hi - 1 may have changed. */
  twostate predicate SameOutside<E>(dst: array3<seq<E>>, lo: nat, hi: nat, first: nat, last: nat)
    reads dst
  {
    forall a, b, c ::
      IsRow(dst, a, b, c) && !(a == 0 && lo <= b < hi && first <= c < last) ==> dst[a, b, c] == old(dst[a, b, c])
  }

  /** One row of one block: `valid` elements of the source, then padding, then one vector store. */
  method PackRow<E>(src: seq<E>, zero: E, row0: nat, stride: nat, vl: nat, rows: nat, loopV: nat, kb: nat, r: nat,
                    dst: array3<seq<E>>)
    requires vl > 0 && loopV == kb * vl && loopV < stride
    requires r < rows && (row0 + rows) * stride <= |src| && IsRow(dst, 0, kb, r)
    modifies dst
    ensures dst[0, kb, r] == PackedRow(src, zero, row0, stride, vl, rows, kb, r)
    ensures SameOutside(dst, kb, kb + 1, r, r + 1)
  {
    RowInSource(row0, rows, r, stride, |src|);
    var off := (row0 + r) * stride + loopV;
    var rem := stride - loopV;
    var valid := if vl <= rem then vl else rem;
    var filled := src[off..off + valid] + seq(vl - valid, j => zero);
    assert filled == PackedRow(src, zero, row0, stride, vl, rows, kb, r);
    dst[0, kb, r] := filled;
  }

  /** The rows of one block. */
  method PackBlock<E>(src: seq<E>, zero: E, row0: nat, stride: nat, vl: nat, rows: nat, loopV: nat, kb: nat,
                      dst: array3<seq<E>>)
    requires vl > 0 && loopV == kb * vl && loopV < stride && (row0 + rows) * stride <= |src|
    requires dst.Length0 > 0 && dst.Length2 >= rows && kb < dst.Length1
    modifies dst
    ensures forall r :: 0 <= r < rows ==> dst[0, kb, r] == PackedRow(src, zero, row0, stride, vl, rows, kb, r)
    ensures SameOutside(dst, kb, kb + 1, 0, rows)
  {
    for r := 0 to rows
      invariant forall c :: 0 <= c < r ==> dst[0, kb, c] == PackedRow(src, zero, row0, stride, vl, rows, kb, c)
      invariant SameOutside(dst, kb, kb + 1, 0, r)
    {
      PackRow(src, zero, row0, stride, vl, rows, loopV, kb, r, dst);
    }
  }

  /**
   pack fills block kb, row r with elements kb*VL .. kb*VL + VL - 1 of source row row0 + r, zero behind the
   end of the row, for every row start, stride and VL. Nothing else of the destination changes.
   */
  method Pack<E>(src: seq<E>, zero: E, row0: nat, stride: nat, vl: nat, rows: nat, dst: array3<seq<E>>)
    requires vl > 0 && (row0 + rows) * stride <= |src|
    requires dst.Length0 > 0 && dst.Length2 >= rows && Blocks(stride, vl) <= dst.Length1
    modifies dst
    ensures forall kb, r :: 0 <= kb < Blocks(stride, vl) && 0 <= r < rows ==>
              dst[0, kb, r] == PackedRow(src, zero, row0, stride, vl, rows, kb, r)
    ensures SameOutside(dst, 0, Blocks(stride, vl), 0, rows)
  {
    var loopV, n := 0, 0;
    BlocksOfNothing(stride, vl);
    while loopV < stride
      invariant loopV == n * vl && n <= Blocks(stride, vl)
      invariant loopV >= stride ==> n == Blocks(stride, vl)
      invariant forall kb, r :: 0 <= kb < n && 0 <= r < rows ==>
                  dst[0, kb, r] == PackedRow(src, zero, row0, stride, vl, rows, kb, r)
      invariant SameOutside(dst, 0, n, 0, rows)
      decreases stride - loopV
    {
      var kb := loopV / vl;
      Arith.UniqueDivMod(loopV, vl, n, 0);
      BlockCount(stride, vl, n);
      PackBlock(src, zero, row0, stride, vl, rows, loopV, kb, dst);
      loopV := loopV + vl;
      n := n + 1;
    }
  }

  /** How many blocks a row takes. */
  function Blocks(stride: nat, vl: nat): nat
    requires vl > 0
  {
    (stride + vl - 1) / vl
  }

  lemma BlockCount(stride: nat, vl: nat, n: nat)
    requires vl > 0 && n * vl < stride
    ensures n < Blocks(stride, vl)
    ensures (n + 1) * vl >= stride ==> Blocks(stride, vl) == n + 1
  {
    var q := Blocks(stride, vl);
    Arith.DivModEquation(stride + vl - 1, vl);
    if q <= n { MulMonotone(q, n, vl); }
    if q >= n + 2 { MulMonotone(n + 2, q, vl); }
  }

  lemma MulMonotone(a: nat, b: nat, f: nat)
    requires a <= b
    ensures a * f <= b * f
  {
    assert (b - a) * f >= 0;
  }

  lemma BlocksOfNothing(stride: nat, vl: nat)
    requires vl > 0
    ensures stride == 0 ==> Blocks(stride, vl) == 0
  {
    if stride == 0 { Arith.UniqueDivMod(vl - 1, vl, 0, vl - 1); }
  }

  // ------------------------------------------------------------------
  // spread
  // ------------------------------------------------------------------

  /** The index that is loaded when the tile is padded. */
  function ClampedIndex(idx: int, kReal: int): int {
    if idx <= kReal - 1 then idx else kReal - 1
  }

  /** Clamping keeps every load inside the source exactly when the source has an element at all. */
  lemma ClampInBounds(kReal: int)
    ensures (forall idx :: 0 <= idx ==> 0 <= ClampedIndex(idx, kReal) < kReal) <==> kReal >= 1
  {
    if kReal < 1 { assert !(0 <= ClampedIndex(0, kReal)); }
  }

  function SpreadElement<E>(src: seq<E>, zero: E, kReal: nat, idx: nat): E
    requires kReal <= |src|
  {
    if idx < kReal then src[idx] else zero
  }

  lemma SpreadIndex(kc: nat, k: nat, li: nat, lki: nat)
    requires li < kc && lki < k
    ensures li * k + lki < kc * k
  {
    assert (kc - li) * k >= k by { Arith.MulAtLeast(kc - li, k); }
    assert kc * k == li * k + (kc - li) * k;
  }

  /** spread repeats slice i of the source n times, zero behind the kReal elements there are. */
  method Spread<E(0)>(src: array<E>, zero: E, kc: nat, n: nat, k: nat, kReal: nat) returns (scr: array3<E>)
    requires kReal <= kc * k && kReal <= src.Length && (kReal >= 1 || kc * k == 0)
    ensures fresh(scr) && scr.Length0 == kc && scr.Length1 == n && scr.Length2 == k
    ensures forall i, b, j :: 0 <= i < kc && 0 <= b < n && 0 <= j < k ==>
              scr[i, b, j] == SpreadElement(src[..], zero, kReal, i * k + j)
  {
    var rsrc := src[..kReal];
    var padK := kReal < kc * k;
    scr := new E[kc, n, k];
    for li := 0 to kc
      invariant forall i, b, j :: 0 <= i < li && 0 <= b < n && 0 <= j < k ==>
        scr[i, b, j] == SpreadElement(src[..], zero, kReal, i * k + j)
    {
      for lni := 0 to n
        invariant forall i, b, j :: 0 <= i < li && 0 <= b < n && 0 <= j < k ==>
          scr[i, b, j] == SpreadElement(src[..], zero, kReal, i * k + j)
        invariant forall b, j :: 0 <= b < lni && 0 <= j < k ==>
          scr[li, b, j] == SpreadElement(src[..], zero, kReal, li * k + j)
      {
        for lki := 0 to k
          invariant forall i, b, j :: 0 <= i < li && 0 <= b < n && 0 <= j < k ==>
            scr[i, b, j] == SpreadElement(src[..], zero, kReal, i * k + j)
          invariant forall b, j :: 0 <= b < lni && 0 <= j < k ==>
            scr[li, b, j] == SpreadElement(src[..], zero, kReal, li * k + j)
          invariant forall j :: 0 <= j < lki ==> scr[li, lni, j] == SpreadElement(src[..], zero, kReal, li * k + j)
        {
          var idx := li * k + lki;
          SpreadIndex(kc, k, li, lki);
          if padK {
            var ld := rsrc[ClampedIndex(idx, kReal)];
            scr[li, lni, lki] := if idx < kReal then ld else zero;
          } else {
            scr[li, lni, lki] := rsrc[idx];
          }
        }
      }
    }
  }

  /** collapse_shape joins the last two dimensions: column b*k + j of row i is element (i, b, j). */
  function Collapsed<E>(scr: array3<E>, i: nat, c: nat): E
    requires i < scr.Length0 && c < scr.Length1 * scr.Length2
    reads scr
  {
    CollapseIndex(scr.Length1, scr.Length2, c);
    scr[i, c / scr.Length2, c % scr.Length2]
  }

  lemma CollapseIndex(n: nat, k: nat, c: nat)
    requires c < n * k
    ensures k > 0 && c / k < n && c % k < k
  {
    assert k > 0;
    Arith.DivModEquation(c, k);
    if c / k >= n { MulMonotone(n, c / k, k); }
  }

  lemma CollapsedColumn<E>(scr: array3<E>, i: nat, b: nat, j: nat)
    requires i < scr.Length0 && b < scr.Length1 && j < scr.Length2
    ensures b * scr.Length2 + j < scr.Length1 * scr.Length2
    ensures Collapsed(scr, i, b * scr.Length2 + j) == scr[i, b, j]
  {
    SpreadIndex(scr.Length1, scr.Length2, b, j);
    Arith.UniqueDivMod(b * scr.Length2 + j, scr.Length2, b, j);
  }
}
