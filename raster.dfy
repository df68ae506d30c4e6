/**
 * The column-major layout that `update` in ComplexLogistic/LogisticView.swift
 * uses for its sample array and its result buffer: the pixel in column `i`
 * and row `j` of a `width` by `height` raster lives at index `i * height + j`.
 * The sample points and the result of the escape-time kernel are opaque here.
 */
module Raster {

  /** The two colours a pixel can take. */
  datatype Colour = Black | TektronixGreen

  /** The colour drawn for one result-buffer entry: green for true, black for false. */
  function PixelColour(entry: bool): (c: Colour)
    ensures c == TektronixGreen <==> entry
    ensures c == Black <==> !entry
  {
    if entry then TektronixGreen else Black
  }

  /**
   * Where column `i`, row `j` of a `width` by `height` raster lives in a
   * buffer of `width * height` slots; the index is always inside it.
   */
  function CellIndex(width: nat, height: nat, i: nat, j: nat): (k: nat)
    requires i < width && j < height
    ensures k < width * height
  {
    MulMonotone(i + 1, width, height);
    i * height + j
  }

  lemma MulMonotone(a: nat, b: nat, c: nat)
    requires a <= b
    ensures a * c <= b * c
  {
  }

  /** Euclidean division has a unique quotient and remainder. */
  lemma DivModUnique(k: int, d: nat, q: int, r: int)
    requires 0 <= r < d
    requires k == q * d + r
    ensures k / d == q && k % d == r
  {
    var q', r' := k / d, k % d;
    assert k == q' * d + r' && 0 <= r' < d;
    assert (q - q') * d == r' - r;
    if q > q' {
      MulMonotone(1, q - q', d);
      assert false;
    } else if q < q' {
      MulMonotone(1, q' - q, d);
      assert false;
    }
  }

  /** Division by `height` recovers the column, and the remainder the row. */
  lemma CellIndexDecode(width: nat, height: nat, i: nat, j: nat)
    requires i < width && j < height
    ensures CellIndex(width, height, i, j) / height == i
    ensures CellIndex(width, height, i, j) % height == j
  {
    DivModUnique(CellIndex(width, height, i, j), height, i, j);
  }

  /** Distinct cells have distinct indices, so no buffer slot is shared. */
  lemma CellIndexInjective(width: nat, height: nat, i1: nat, j1: nat, i2: nat, j2: nat)
    requires i1 < width && j1 < height && i2 < width && j2 < height
    requires CellIndex(width, height, i1, j1) == CellIndex(width, height, i2, j2)
    ensures i1 == i2 && j1 == j2
  {
    CellIndexDecode(width, height, i1, j1);
    CellIndexDecode(width, height, i2, j2);
  }

  /** Every buffer slot is the index of the cell its quotient and remainder name. */
  lemma CellIndexCovers(width: nat, height: nat, k: nat)
    requires k < width * height
    ensures height > 0 && k / height < width && k % height < height
    ensures CellIndex(width, height, k / height, k % height) == k
  {
  }

  /**
   * The fill loop of `update`: for each column `i` and, inside it, each row
   * `j`, store `sample(i, j)` at index `i * height + j` of an array of
   * `width * height` slots that starts out holding `zero`. `writes` records
   * the index of every store in order: it is 0, 1, ..., width * height - 1,
   * so every slot is written exactly once and none keeps `zero`.
   */
  method FillSamples<P>(width: nat, height: nat, zero: P, sample: (nat, nat) -> P)
    returns (aV: array<P>, ghost writes: seq<int>)
    ensures aV.Length == width * height
    ensures forall i: nat, j: nat :: i < width && j < height ==> aV[CellIndex(width, height, i, j)] == sample(i, j)
    ensures forall k :: 0 <= k < aV.Length ==> height > 0 && aV[k] == sample(k / height, k % height)
    ensures writes == seq(width * height, k => k)
  {
    aV := new P[width * height](_ => zero);
    writes := [];
    for i := 0 to width
      invariant |writes| == i * height <= width * height
      invariant forall k :: 0 <= k < |writes| ==> writes[k] == k
      invariant |writes| > 0 ==> height > 0
      invariant forall k :: 0 <= k < |writes| ==> aV[k] == sample(k / height, k % height)
    {
      MulMonotone(i + 1, width, height);
      for j := 0 to height
        invariant |writes| == i * height + j
        invariant forall k :: 0 <= k < |writes| ==> writes[k] == k
        invariant |writes| > 0 ==> height > 0
        invariant forall k :: 0 <= k < |writes| ==> aV[k] == sample(k / height, k % height)
      {
        CellIndexDecode(width, height, i, j);
        aV[CellIndex(width, height, i, j)] := sample(i, j);
        writes := writes + [CellIndex(width, height, i, j)];
      }
    }
    forall i: nat, j: nat | i < width && j < height
      ensures aV[CellIndex(width, height, i, j)] == sample(i, j)
    {
      CellIndexDecode(width, height, i, j);
    }
  }

  /**
   * The render loop of `update`: pixel `(i, j)` is green when the buffer
   * entry at `i * height + j` is true and black otherwise.
   */
  method Render(buffer: array<bool>, width: nat, height: nat) returns (bitmap: array2<Colour>)
    requires buffer.Length == width * height
    ensures bitmap.Length0 == width && bitmap.Length1 == height
    ensures forall i: nat, j: nat :: i < width && j < height ==> bitmap[i, j] == PixelColour(buffer[CellIndex(width, height, i, j)])
  {
    bitmap := new Colour[width, height]((_, _) => Black);
    for i := 0 to width
      invariant forall i': nat, j: nat :: i' < i && j < height ==> bitmap[i', j] == PixelColour(buffer[CellIndex(width, height, i', j)])
    {
      for j := 0 to height
        invariant forall i': nat, j': nat :: i' < i && j' < height ==> bitmap[i', j'] == PixelColour(buffer[CellIndex(width, height, i', j')])
        invariant forall j': nat :: j' < j ==> bitmap[i, j'] == PixelColour(buffer[CellIndex(width, height, i, j')])
      {
        bitmap[i, j] := if buffer[CellIndex(width, height, i, j)] then TektronixGreen else Black;
      }
    }
  }
}
