/**
 * The two coefficient-domain edits of ajpegtran.c, `toMonochrome` and
 * `brightnessControl`.  Each component's DCT coefficients are a virtual block
 * array: rows of blocks, `width_in_blocks` blocks wide, 64 coefficients per
 * block.  The model gives each component its own `array3<Coef>` indexed
 * [block row, block, coefficient]; the buffers that access_virt_barray hands
 * out are windows onto those rows.
 */
module Coefficients {
  import opened Switches

  /** DCTSIZE2: coefficients per block. */
  const BlockSize: nat := 64

  /** JCOEF, a 16-bit signed integer. */
  newtype Coef = x: int | -32768 <= x < 32768

  /** Conversion of an int sum back to JCOEF: the value modulo 2^16 in the signed range. */
  function Wrap16(x: int): (r: Coef)
    ensures -32768 <= x < 32768 ==> r as int == x
    ensures (x - r as int) % 65536 == 0
  {
    ((x + 32768) % 65536 - 32768) as Coef
  }

  /** The fields of jpeg_component_info the edits and the probe read. */
  datatype ComponentInfo = ComponentInfo(
    hSampFactor: int, vSampFactor: int,
    widthInBlocks: nat, heightInBlocks: nat,
    quantTblNo: int)

  /**
   * The value of blk_y when the loop `for (blk_y = from; blk_y < h; blk_y += v)`
   * ends; every row below it has been visited.
   */
  function RowsFrom(from: nat, h: nat, v: nat): (r: nat)
    requires v >= 1
    ensures from >= h ==> r == from
    ensures from < h ==> h <= r < h + v && from + v <= r
    decreases h - from
  {
    if from >= h then from else RowsFrom(from + v, h, v)
  }

  /** Block rows the loops over one component touch: `v_samp_factor` rows per pass until `height_in_blocks` is reached. */
  function Rows(comp: ComponentInfo): (r: nat)
    requires comp.vSampFactor >= 1
    ensures comp.heightInBlocks <= r < comp.heightInBlocks + comp.vSampFactor
  {
    RowsFrom(0, comp.heightInBlocks, comp.vSampFactor)
  }

  /** A whole number of v-row passes. */
  function Passes(p: nat, v: nat): nat
  {
    p * v
  }

  lemma {:induction false} RowsFromMultiple(from: nat, h: nat, v: nat, q: nat)
    requires v >= 1 && from == Passes(q, v)
    ensures exists p: nat :: RowsFrom(from, h, v) == Passes(p, v)
    decreases h - from
  {
    if from < h {
      assert from + v == Passes(q + 1, v);
      RowsFromMultiple(from + v, h, v, q + 1);
    } else {
      assert RowsFrom(from, h, v) == Passes(q, v);
    }
  }

  /** The touched rows are height_in_blocks rounded up to a multiple of v_samp_factor (jround_up). */
  lemma RowsRoundUp(comp: ComponentInfo)
    requires comp.vSampFactor >= 1
    ensures comp.heightInBlocks <= Rows(comp) < comp.heightInBlocks + comp.vSampFactor
    ensures exists p: nat :: Rows(comp) == Passes(p, comp.vSampFactor)
  {
    assert 0 == Passes(0, comp.vSampFactor);
    RowsFromMultiple(0, comp.heightInBlocks, comp.vSampFactor, 0);
  }

  /** The virtual array of `comp` covers every block the loops touch. */
  predicate Covers(a: array3<Coef>, comp: ComponentInfo)
  {
    comp.vSampFactor >= 1 && a.Length0 >= Rows(comp) && a.Length1 >= comp.widthInBlocks && a.Length2 == BlockSize
  }

  /** The memset of one row: every coefficient of its first `w` blocks becomes 0. */
  method ZeroRow(a: array3<Coef>, y: nat, w: nat)
    requires y < a.Length0 && w <= a.Length1
    modifies a
    ensures forall r, b, k :: 0 <= r < a.Length0 && 0 <= b < a.Length1 && 0 <= k < a.Length2 ==>
              a[r, b, k] == if r == y && b < w then 0 else old(a[r, b, k])
  {
    forall b, k | 0 <= b < w && 0 <= k < a.Length2 {
      a[y, b, k] := 0;
    }
  }

  /** The body of toMonochrome for one component. */
  method ZeroComponent(a: array3<Coef>, comp: ComponentInfo)
    requires Covers(a, comp)
    modifies a
    ensures forall y, b, k :: 0 <= y < a.Length0 && 0 <= b < a.Length1 && 0 <= k < a.Length2 ==>
              a[y, b, k] == if y < Rows(comp) && b < comp.widthInBlocks then 0 else old(a[y, b, k])
  {
    var v := comp.vSampFactor;
    var blkY := 0;
    while blkY < comp.heightInBlocks
      invariant RowsFrom(blkY, comp.heightInBlocks, v) == Rows(comp)
      invariant forall y, b, k :: 0 <= y < a.Length0 && 0 <= b < a.Length1 && 0 <= k < a.Length2 ==>
                  a[y, b, k] == if y < blkY && b < comp.widthInBlocks then 0 else old(a[y, b, k])
      decreases comp.heightInBlocks - blkY
    {
      var offY := 0;
      while offY < v
        invariant 0 <= offY <= v
        invariant forall y, b, k :: 0 <= y < a.Length0 && 0 <= b < a.Length1 && 0 <= k < a.Length2 ==>
                    a[y, b, k] == if y < blkY + offY && b < comp.widthInBlocks then 0 else old(a[y, b, k])
      {
        ZeroRow(a, blkY + offY, comp.widthInBlocks);
        offY := offY + 1;
      }
      blkY := blkY + v;
    }
  }

  /** The coefficient arrays of distinct components are distinct objects. */
  predicate Distinct(coefs: seq<array3<Coef>>)
  {
    forall i, j :: 0 <= i < j < |coefs| ==> coefs[i] != coefs[j]
  }

  /** One virtual array per component, each covering its component's blocks. */
  predicate Layout(comps: seq<ComponentInfo>, coefs: seq<array3<Coef>>)
  {
    |coefs| == |comps| && Distinct(coefs) && forall ci :: 0 <= ci < |comps| ==> Covers(coefs[ci], comps[ci])
  }

  /** The arrays of components 1 and up, which toMonochrome writes. */
  function Chroma(coefs: seq<array3<Coef>>): set<array3<Coef>>
  {
    set ci | 1 <= ci < |coefs| :: coefs[ci]
  }

  /**
   * toMonochrome: for every component after the first, all 64 coefficients of
   * every block in the touched rows become 0; component 0 keeps its values.
   */
  method ToMonochrome(comps: seq<ComponentInfo>, coefs: seq<array3<Coef>>)
    requires Layout(comps, coefs)
    modifies Chroma(coefs)
    ensures forall ci, y, b, k ::
              0 <= ci < |coefs| && 0 <= y < coefs[ci].Length0 && 0 <= b < coefs[ci].Length1 && 0 <= k < coefs[ci].Length2 ==>
              coefs[ci][y, b, k] ==
                if 1 <= ci && y < Rows(comps[ci]) && b < comps[ci].widthInBlocks then 0
                else old(coefs[ci][y, b, k])
  {
    var ci := 1;
    while ci < |comps|
      invariant 1 <= ci <= |comps| + 1
      invariant forall j, y, b, k ::
                  0 <= j < |coefs| && 0 <= y < coefs[j].Length0 && 0 <= b < coefs[j].Length1 && 0 <= k < coefs[j].Length2 ==>
                  coefs[j][y, b, k] ==
                    if 1 <= j < ci && y < Rows(comps[j]) && b < comps[j].widthInBlocks then 0
                    else old(coefs[j][y, b, k])
    {
      ZeroComponent(coefs[ci], comps[ci]);
      ci := ci + 1;
    }
  }

  /** The innermost loop of brightnessControl on one row: coefficient 0 of each of the first `w` blocks gains `off`. */
  method OffsetRow(a: array3<Coef>, y: nat, w: nat, off: int)
    requires y < a.Length0 && w <= a.Length1 && a.Length2 == BlockSize
    modifies a
    ensures forall r, b, k :: 0 <= r < a.Length0 && 0 <= b < a.Length1 && 0 <= k < a.Length2 ==>
              a[r, b, k] == if r == y && b < w && k == 0 then Wrap16(old(a[r, b, k]) as int + off) else old(a[r, b, k])
  {
    forall b | 0 <= b < w {
      a[y, b, 0] := Wrap16(a[y, b, 0] as int + off);
    }
  }

  /** brightnessControl for one component whose offset is not 0. */
  method OffsetComponent(a: array3<Coef>, comp: ComponentInfo, off: int)
    requires Covers(a, comp)
    modifies a
    ensures forall y, b, k :: 0 <= y < a.Length0 && 0 <= b < a.Length1 && 0 <= k < a.Length2 ==>
              a[y, b, k] ==
                if y < Rows(comp) && b < comp.widthInBlocks && k == 0 then Wrap16(old(a[y, b, k]) as int + off)
                else old(a[y, b, k])
  {
    var v := comp.vSampFactor;
    var blkY := 0;
    while blkY < comp.heightInBlocks
      invariant RowsFrom(blkY, comp.heightInBlocks, v) == Rows(comp)
      invariant forall y, b, k :: 0 <= y < a.Length0 && 0 <= b < a.Length1 && 0 <= k < a.Length2 ==>
                  a[y, b, k] ==
                    if y < blkY && b < comp.widthInBlocks && k == 0 then Wrap16(old(a[y, b, k]) as int + off)
                    else old(a[y, b, k])
      decreases comp.heightInBlocks - blkY
    {
      var offY := 0;
      while offY < v
        invariant 0 <= offY <= v
        invariant forall y, b, k :: 0 <= y < a.Length0 && 0 <= b < a.Length1 && 0 <= k < a.Length2 ==>
                    a[y, b, k] ==
                      if y < blkY + offY && b < comp.widthInBlocks && k == 0 then Wrap16(old(a[y, b, k]) as int + off)
                      else old(a[y, b, k])
      {
        OffsetRow(a, blkY + offY, comp.widthInBlocks, off);
        offY := offY + 1;
      }
      blkY := blkY + v;
    }
  }

  /** The last index of coeff_offset. */
  const LastSlot: nat := OffsetSlots - 1

  /**
   * The indices of coeff_offset the component loop of brightnessControl reads,
   * from component `ci` on, over `n` components, when the loop breaks as soon
   * as ci > last.
   */
  function OffsetReads(ci: nat, n: nat, last: nat): seq<nat>
    decreases n - ci
  {
    if ci >= n || ci > last then [] else [ci] + OffsetReads(ci + 1, n, last)
  }

  /** The loop reads exactly the components below both `n` and the break limit, in order, each once. */
  lemma {:induction false} OffsetReadsExactly(ci: nat, n: nat, last: nat)
    ensures forall j :: j in OffsetReads(ci, n, last) <==> ci <= j < n && j <= last
    ensures forall i :: 0 <= i < |OffsetReads(ci, n, last)| ==> OffsetReads(ci, n, last)[i] == ci + i
    decreases n - ci
  {
    if !(ci >= n || ci > last) {
      OffsetReadsExactly(ci + 1, n, last);
    }
  }

  /** As written (`if (ci>4) break;`), a fifth component makes the loop read coeff_offset[4], one past the end. */
  lemma AsWrittenReadsPastOffsets(n: nat)
    requires n >= 5
    ensures OffsetSlots in OffsetReads(0, n, 4)
  {
    OffsetReadsExactly(0, n, 4);
  }

  /** With the break at ci > 3 every read is inside coeff_offset and every component it has a slot for is reached. */
  lemma CorrectedReadsInsideOffsets(n: nat)
    ensures forall j: nat :: j in OffsetReads(0, n, LastSlot) <==> j < n && j < OffsetSlots
  {
    OffsetReadsExactly(0, n, LastSlot);
  }

  /**
   * brightnessControl with the loop breaking once ci > 3: for each of the first
   * four components whose offset is not 0, coefficient 0 of every touched block
   * gains the offset (wrapped to 16 bits); every other coefficient is unchanged.
   * `visited` lists the indices of coeff_offset the loop looks at, in order.
   */
  method BrightnessControl(comps: seq<ComponentInfo>, coefs: seq<array3<Coef>>, offsets: seq<int>)
    returns (ghost visited: seq<nat>)
    requires Layout(comps, coefs) && |offsets| == OffsetSlots
    modifies set ci | 0 <= ci < |coefs| :: coefs[ci]
    ensures visited == OffsetReads(0, |comps|, LastSlot)
    ensures forall ci, y, b, k ::
              0 <= ci < |coefs| && 0 <= y < coefs[ci].Length0 && 0 <= b < coefs[ci].Length1 && 0 <= k < coefs[ci].Length2 ==>
              coefs[ci][y, b, k] ==
                if ci < OffsetSlots && offsets[ci] != 0 && y < Rows(comps[ci]) && b < comps[ci].widthInBlocks && k == 0
                then Wrap16(old(coefs[ci][y, b, k]) as int + offsets[ci])
                else old(coefs[ci][y, b, k])
  {
    var ci := 0;
    visited := [];
    while ci < |comps|
      invariant ci <= |comps| && ci <= OffsetSlots
      invariant visited + OffsetReads(ci, |comps|, LastSlot) == OffsetReads(0, |comps|, LastSlot)
      invariant forall j, y, b, k ::
                  0 <= j < |coefs| && 0 <= y < coefs[j].Length0 && 0 <= b < coefs[j].Length1 && 0 <= k < coefs[j].Length2 ==>
                  coefs[j][y, b, k] ==
                    if j < ci && offsets[j] != 0 && y < Rows(comps[j]) && b < comps[j].widthInBlocks && k == 0
                    then Wrap16(old(coefs[j][y, b, k]) as int + offsets[j])
                    else old(coefs[j][y, b, k])
    {
      if ci > LastSlot {
        break;
      }
      assert OffsetReads(ci, |comps|, LastSlot) == [ci] + OffsetReads(ci + 1, |comps|, LastSlot);
      if offsets[ci] != 0 {
        OffsetComponent(coefs[ci], comps[ci], offsets[ci]);
      }
      visited := visited + [ci];
      ci := ci + 1;
    }
  }

  /**
   * A coefficient after the edits that are on, toMonochrome first: coefficient
   * (y, b, k) of component ci, which held `v`.
   */
  function Edited(v: Coef, comps: seq<ComponentInfo>, ci: nat, y: nat, b: nat, k: nat,
                  monochrome: bool, coeffAdj: bool, offsets: seq<int>): Coef
    requires ci < |comps| && comps[ci].vSampFactor >= 1 && |offsets| == OffsetSlots
  {
    var touched := y < Rows(comps[ci]) && b < comps[ci].widthInBlocks;
    var m := if monochrome && 1 <= ci && touched then 0 else v;
    if coeffAdj && ci < OffsetSlots && offsets[ci] != 0 && touched && k == 0 then Wrap16(m as int + offsets[ci]) else m
  }

  /** An offset followed by its negation gives back every coefficient: the wrap-around loses nothing. */
  lemma OffsetUndone(c: Coef, off: int)
    ensures Wrap16(Wrap16(c as int + off) as int - off) == c
  {
    var once := Wrap16(c as int + off);
    assert (c as int + off - once as int) % 65536 == 0;
    var k := (c as int + off - once as int) / 65536;
    assert once as int - off == c as int - 65536 * k;
  }
}
