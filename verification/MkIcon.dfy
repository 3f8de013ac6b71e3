/** The icon writer: pixels as Amiga bitplanes, and a decoder that undoes it. */
module MkIcon {
  import opened Machine

  // ---- Bits ----

  /** The mask of the k-th pixel of a byte, counted from the most significant bit. */
  function Mask(k: nat): bv8
    requires k < 8
  {
    match k
    case 0 => 0x80
    case 1 => 0x40
    case 2 => 0x20
    case 3 => 0x10
    case 4 => 0x08
    case 5 => 0x04
    case 6 => 0x02
    case _ => 0x01
  }

  predicate PixelBit(b: bv8, k: nat)
    requires k < 8
  {
    b & Mask(k) != 0
  }

  /** color & (1 << plane), for any integer color. */
  predicate ColorBit(color: int, plane: nat) {
    (color / Pow2(plane)) % 2 == 1
  }

  lemma OrSetsOneBit(b: bv8, k: nat, j: nat)
    requires k < 8 && j < 8
    ensures PixelBit(b | Mask(k), j) <==> j == k || PixelBit(b, j)
  {
    MaskBits(b, Mask(k), Mask(j));
    MasksDiffer(k, j);
  }

  lemma MaskBits(b: bv8, m: bv8, n: bv8)
    ensures (b | m) & n == (b & n) | (m & n)
  {}

  lemma MasksDiffer(k: nat, j: nat)
    requires k < 8 && j < 8
    ensures Mask(k) & Mask(j) == if j == k then Mask(k) else 0
    ensures Mask(k) != 0
  {}

  // ---- One row of one plane ----

  /** Bytes per row, padded to whole 16-bit words. */
  function Stride(width: nat): nat {
    (width + 15) / 16 * 2
  }

  /**
    The first `limit` pixels of a row stand in the bytes, most significant bit first, and every other bit is zero.
   */
  ghost predicate Holds(bytes: seq<bv8>, row: seq<int>, limit: nat, plane: nat)
    requires limit <= |row|
  {
    forall j, k :: 0 <= j < |bytes| && 0 <= k < 8 ==>
      (PixelBit(bytes[j], k) <==> 8 * j + k < limit && ColorBit(row[8 * j + k], plane))
  }

  method PackRow(row: seq<int>, width: nat, plane: nat) returns (bytes: seq<bv8>)
    requires width <= |row|
    ensures |bytes| == Stride(width) && Holds(bytes, row, width, plane)
  {
    hide ColorBit;
    var rowBytes := new bv8[Stride(width)](_ => 0);
    for x := 0 to width
      invariant Holds(rowBytes[..], row, x, plane)
    {
      ghost var before := rowBytes[..];
      assert x / 8 < rowBytes.Length;
      if ColorBit(row[x], plane) {
        rowBytes[x / 8] := rowBytes[x / 8] | Mask(x % 8);
        assert rowBytes[..] == before[x / 8 := before[x / 8] | Mask(x % 8)];
      }
      NextPixel(before, rowBytes[..], row, x, plane);
    }
    bytes := rowBytes[..];
  }

  lemma NextPixel(before: seq<bv8>, after: seq<bv8>, row: seq<int>, x: nat, plane: nat)
    requires x < |row| && x / 8 < |before| && Holds(before, row, x, plane)
    requires after == if ColorBit(row[x], plane) then before[x / 8 := before[x / 8] | Mask(x % 8)] else before
    ensures Holds(after, row, x + 1, plane)
  {
    hide ColorBit, PixelBit;
    forall j, k | 0 <= j < |after| && 0 <= k < 8
      ensures PixelBit(after[j], k) <==> 8 * j + k < x + 1 && ColorBit(row[8 * j + k], plane)
    {
      OrSetsOneBit(before[j], x % 8, k);
      assert 8 * j + k == x <==> j == x / 8 && k == x % 8;
    }
  }

  // ---- The planes ----

  function Flat(rows: seq<seq<bv8>>): seq<bv8> {
    if rows == [] then [] else Flat(rows[..|rows| - 1]) + rows[|rows| - 1]
  }

  /** The image has all the pixels asked for. */
  ghost predicate Rectangular(img: seq<seq<int>>, width: nat, height: nat) {
    height <= |img| && forall y :: 0 <= y < height ==> width <= |img[y]|
  }

  /** The rows of plane 0 in full, then those of plane 1, and so on. */
  ghost predicate Planar(rows: seq<seq<bv8>>, img: seq<seq<int>>, width: nat, height: nat)
    requires Rectangular(img, width, height) && height > 0
  {
    forall q :: 0 <= q < |rows| ==>
      |rows[q]| == Stride(width) && Holds(rows[q], img[q % height], width, q / height)
  }

  lemma NoRows(img: seq<seq<int>>, width: nat, height: nat)
    requires Rectangular(img, width, height)
    ensures Flat([]) == [] && (height > 0 ==> Planar([], img, width, height))
  {}

  lemma OneRowMore(
      rows: seq<seq<bv8>>, bytes: seq<bv8>, img: seq<seq<int>>, width: nat, height: nat, plane: nat, y: nat)
    requires Rectangular(img, width, height) && y < height && |rows| == plane * height + y
    requires Planar(rows, img, width, height)
    requires |bytes| == Stride(width) && Holds(bytes, img[y], width, plane)
    ensures Planar(rows + [bytes], img, width, height) && Flat(rows + [bytes]) == Flat(rows) + bytes
  {
    hide Holds, Stride;
    var q := |rows|;
    assert q % height == y && q / height == plane by { ModUnique(q, height, plane, y); }
    PlanarMore(rows, bytes, img, width, height);
    assert (rows + [bytes])[..q] == rows;
  }

  lemma PlanarMore(rows: seq<seq<bv8>>, bytes: seq<bv8>, img: seq<seq<int>>, width: nat, height: nat)
    requires Rectangular(img, width, height) && height > 0 && Planar(rows, img, width, height)
    requires |bytes| == Stride(width) && Holds(bytes, img[|rows| % height], width, |rows| / height)
    ensures Planar(rows + [bytes], img, width, height)
  {
    hide Holds, Stride;
    var more := rows + [bytes];
    forall q | 0 <= q < |more|
      ensures |more[q]| == Stride(width) && Holds(more[q], img[q % height], width, q / height)
    {
      assert q < |rows| ==> more[q] == rows[q];
    }
  }

  // ---- The decoder ----

  lemma MulSucc(n: int, c: int)
    ensures (n + 1) * c == n * c + c
  {}

  /** Where row y of a plane starts, and that it lies within the planes up to that one. */
  lemma RowFits(plane: nat, height: nat, y: nat, stride: nat)
    requires y < height
    ensures 0 <= (plane * height + y) * stride
    ensures (plane * height + y) * stride + stride <= (plane * height + height) * stride
    ensures (plane + 1) * height == plane * height + height
  {
    var q := plane * height;
    MulSucc(plane, height);
    MulSucc(q + y, stride);
    MulMonotone(q + y + 1, q + height, stride);
    MulMonotone(0, q + y, stride);
  }

  /** The byte holding pixel (x, y) of a plane. */
  function ByteAt(data: seq<bv8>, width: nat, height: nat, plane: nat, x: nat, y: nat): bv8
    requires x < 8 * Stride(width) && y < height && ((plane + 1) * height) * Stride(width) <= |data|
  {
    RowFits(plane, height, y, Stride(width));
    data[(plane * height + y) * Stride(width) + x / 8]
  }

  /** The value whose bits, from plane 0 up, are the given pixel of the planes. */
  function DecodePixel(data: seq<bv8>, width: nat, height: nat, planes: nat, x: nat, y: nat): nat
    requires x < width && y < height && (planes * height) * Stride(width) <= |data|
  {
    if planes == 0 then 0
    else
      FewerPlanes(planes - 1, height, Stride(width));
      DecodePixel(data, width, height, planes - 1, x, y)
      + if PixelBit(ByteAt(data, width, height, planes - 1, x, y), x % 8) then Pow2(planes - 1) else 0
  }

  lemma FewerPlanes(planes: nat, height: nat, stride: nat)
    ensures (planes * height) * stride <= ((planes + 1) * height) * stride
  {
    MulMonotone(planes, planes + 1, height);
    MulMonotone(planes * height, (planes + 1) * height, stride);
  }

  lemma {:induction false} FlatLength(rows: seq<seq<bv8>>, stride: nat)
    requires forall r <- rows :: |r| == stride
    ensures |Flat(rows)| == |rows| * stride
  {
    if rows == [] {
    } else {
      var front := rows[..|rows| - 1];
      assert rows[|rows| - 1] in rows && forall r <- front :: r in rows;
      FlatLength(front, stride);
      MulSucc(|front|, stride);
    }
  }

  /** Byte j of row q in the flattened planes. */
  lemma {:induction false} FlatAt(rows: seq<seq<bv8>>, stride: nat, q: nat, j: nat)
    requires q < |rows| && j < stride && forall r <- rows :: |r| == stride
    ensures 0 <= q * stride + j < |Flat(rows)| && Flat(rows)[q * stride + j] == rows[q][j]
  {
    var front, last := rows[..|rows| - 1], rows[|rows| - 1];
    assert last in rows && rows[q] in rows && forall r <- front :: r in rows;
    FlatLength(front, stride);
    if q < |front| {
      FlatAt(front, stride, q, j);
    }
  }

  /** The bits of an integer add up to it, modulo a power of two. */
  lemma BitAdds(color: int, d: nat)
    ensures color % Pow2(d + 1) == color % Pow2(d) + if ColorBit(color, d) then Pow2(d) else 0
  {
    var p := Pow2(d);
    var q, r := color / p, color % p;
    DivMod(color, p);
    DivMod(q, 2);
    assert color == (q / 2) * (2 * p) + (q % 2) * p + r by {
      assert q * p == ((q / 2) * 2 + q % 2) * p;
      SplitProduct(q / 2, q % 2, p);
    }
    ModUnique(color, 2 * p, q / 2, (q % 2) * p + r);
  }

  lemma SplitProduct(h: int, b: int, p: int)
    ensures (h * 2 + b) * p == h * (2 * p) + b * p
  {}

  /** One bit of the encoded planes. */
  lemma BitOfPlanes(rows: seq<seq<bv8>>, img: seq<seq<int>>, width: nat, height: nat, depth: nat,
                    plane: nat, x: nat, y: nat)
    requires Rectangular(img, width, height) && |rows| == depth * height
    requires y < height && plane < depth && x < 8 * Stride(width) && Planar(rows, img, width, height)
    ensures ((plane + 1) * height) * Stride(width) <= |Flat(rows)| == (depth * height) * Stride(width)
    ensures PixelBit(ByteAt(Flat(rows), width, height, plane, x, y), x % 8)
       <==> x < width && ColorBit(img[y][x], plane)
  {
    hide ColorBit, PixelBit, Flat, Stride;
    var stride := Stride(width);
    var q := plane * height + y;
    RowFits(plane, height, y, stride);
    MulMonotone(plane + 1, depth, height);
    MulMonotone((plane + 1) * height, depth * height, stride);
    ModUnique(q, height, plane, y);
    FlatLength(rows, stride);
    FlatAt(rows, stride, q, x / 8);
    assert Holds(rows[q], img[y], width, plane);
    assert PixelBit(rows[q][x / 8], x % 8)
      <==> 8 * (x / 8) + x % 8 < width && ColorBit(img[y][8 * (x / 8) + x % 8], plane);
  }

  /**
    Word-aligned rows, plane after plane, in which every bit is the pixel's bit of that plane, or zero in the
    padding.
   */
  ghost predicate Encodes(data: seq<bv8>, img: seq<seq<int>>, width: nat, height: nat, depth: nat)
    requires Rectangular(img, width, height)
  {
    && |data| == (depth * height) * Stride(width)
    && forall plane: nat, x: nat, y: nat :: plane < depth && x < 8 * Stride(width) && y < height ==>
         BitIs(data, img, width, height, plane, x, y)
  }

  ghost predicate BitIs(data: seq<bv8>, img: seq<seq<int>>, width: nat, height: nat, plane: nat, x: nat, y: nat)
    requires Rectangular(img, width, height) && x < 8 * Stride(width) && y < height
  {
    && ((plane + 1) * height) * Stride(width) <= |data|
    && (PixelBit(ByteAt(data, width, height, plane, x, y), x % 8) <==> x < width && ColorBit(img[y][x], plane))
  }

  lemma RowsEncode(rows: seq<seq<bv8>>, img: seq<seq<int>>, width: nat, height: nat, depth: nat)
    requires Rectangular(img, width, height) && |rows| == depth * height
    requires height > 0 ==> Planar(rows, img, width, height)
    ensures Encodes(Flat(rows), img, width, height, depth)
  {
    hide Flat, Stride, Planar, ByteAt, PixelBit, ColorBit;
    if height > 0 {
      AllRows(rows, img, width, height);
      forall plane: nat, x: nat, y: nat | plane < depth && x < 8 * Stride(width) && y < height
        ensures BitIs(Flat(rows), img, width, height, plane, x, y)
      {
        BitOfPlanes(rows, img, width, height, depth, plane, x, y);
      }
    } else {
      assert Flat(rows) == [] by { FlatNothing(rows); }
    }
  }

  lemma FlatNothing(rows: seq<seq<bv8>>)
    requires rows == []
    ensures Flat(rows) == []
  {}

  /** pixels_to_planes: every bit of the result is a pixel's bit or padding. */
  method PixelsToPlanes(img: seq<seq<int>>, width: nat, height: nat, depth: nat) returns (result: seq<bv8>)
    requires Rectangular(img, width, height)
    ensures Encodes(result, img, width, height, depth)
  {
    hide Holds, Planar, Flat, Encodes;
    result := [];
    ghost var rows: seq<seq<bv8>> := [];
    NoRows(img, width, height);
    for plane := 0 to depth
      invariant |rows| == plane * height && result == Flat(rows)
      invariant height > 0 ==> Planar(rows, img, width, height)
    {
      for y := 0 to height
        invariant |rows| == plane * height + y && result == Flat(rows)
        invariant height > 0 ==> Planar(rows, img, width, height)
      {
        var bytes := PackRow(img[y], width, plane);
        OneRowMore(rows, bytes, img, width, height, plane, y);
        rows := rows + [bytes];
        result := result + bytes;
      }
      MulDistrib(height, plane, 1);
    }
    RowsEncode(rows, img, width, height, depth);
  }

  /**
    Decoding undoes the conversion: for every width, height and depth each pixel comes back modulo 2^planes from the
    first so many planes, and modulo 2^depth from all of them.
   */
  lemma {:induction false} PlanesDecode(data: seq<bv8>, img: seq<seq<int>>, width: nat, height: nat, depth: nat,
                                        planes: nat, x: nat, y: nat)
    requires Rectangular(img, width, height) && Encodes(data, img, width, height, depth)
    requires planes <= depth && x < width && y < height
    ensures (planes * height) * Stride(width) <= |data|
    ensures DecodePixel(data, width, height, planes, x, y) == img[y][x] % Pow2(planes)
  {
    hide ColorBit, PixelBit, Stride, ByteAt;
    StrideCovers(width);
    if planes == 0 {
      assert img[y][x] % Pow2(0) == 0;
    } else {
      PlanesDecode(data, img, width, height, depth, planes - 1, x, y);
      assert BitIs(data, img, width, height, planes - 1, x, y);
      BitAdds(img[y][x], planes - 1);
    }
  }

  lemma StrideCovers(width: nat)
    ensures width <= 8 * Stride(width) < width + 16 && Stride(width) % 2 == 0
  {}

  lemma AllRows(rows: seq<seq<bv8>>, img: seq<seq<int>>, width: nat, height: nat)
    requires Rectangular(img, width, height) && height > 0 && Planar(rows, img, width, height)
    ensures |Flat(rows)| == |rows| * Stride(width)
  {
    hide Holds, Flat, Stride;
    FlatLength(rows, Stride(width));
  }

  // ---- The layout in numbers ----

  lemma ShiftedBits(b: bv8)
    ensures b & 0x80 != 0 <==> (b >> 7) & 1 == 1
    ensures b & 0x40 != 0 <==> (b >> 6) & 1 == 1
    ensures b & 0x20 != 0 <==> (b >> 5) & 1 == 1
    ensures b & 0x10 != 0 <==> (b >> 4) & 1 == 1
    ensures b & 0x08 != 0 <==> (b >> 3) & 1 == 1
    ensures b & 0x04 != 0 <==> (b >> 2) & 1 == 1
    ensures b & 0x02 != 0 <==> (b >> 1) & 1 == 1
    ensures b & 0x01 != 0 <==> b & 1 == 1
  {}

  /** The byte moved so that pixel k stands in the least significant bit. */
  function Shifted(b: bv8, k: nat): bv8
    requires k < 8
  {
    match k
    case 0 => b >> 7
    case 1 => b >> 6
    case 2 => b >> 5
    case 3 => b >> 4
    case 4 => b >> 3
    case 5 => b >> 2
    case 6 => b >> 1
    case _ => b
  }

  /** Pixel bits count from the most significant. */
  lemma PixelBitIs(b: bv8, k: nat)
    requires k < 8
    ensures PixelBit(b, k) <==> Shifted(b, k) & 1 == 1
  {
    ShiftedBits(b);
  }

  /**
    Where a pixel's bit is: the planes follow one another, each has height rows of whole 16-bit words, and a byte has
    eight pixels, the first in its most significant bit.
   */
  lemma LayoutOf(data: seq<bv8>, img: seq<seq<int>>, width: nat, height: nat, depth: nat, plane: nat, x: nat, y: nat)
    requires Rectangular(img, width, height) && Encodes(data, img, width, height, depth)
    requires plane < depth && x < width && y < height
    ensures var at := (plane * height + y) * ((width + 15) / 16 * 2) + x / 8;
            && 0 <= at < |data|
            && (Shifted(data[at], x % 8) & 1 == 1 <==> img[y][x] / Pow2(plane) % 2 == 1)
  {
    hide PixelBit, Encodes;
    StrideCovers(width);
    EncodedBit(data, img, width, height, depth, plane, x, y);
    RowFits(plane, height, y, Stride(width));
    PixelBitIs(ByteAt(data, width, height, plane, x, y), x % 8);
  }

  lemma EncodedBit(data: seq<bv8>, img: seq<seq<int>>, width: nat, height: nat, depth: nat, plane: nat, x: nat, y: nat)
    requires Rectangular(img, width, height) && Encodes(data, img, width, height, depth)
    requires plane < depth && x < 8 * Stride(width) && y < height
    ensures BitIs(data, img, width, height, plane, x, y)
  {
    hide BitIs, Stride;
  }
}
