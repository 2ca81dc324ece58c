/** Copying a damaged area between two strided images of four-byte pixels, clipped to the
    destination. */
module Blit {
  import opened Bytes

  const SIZE_LIMIT := 0x1_0000_0000_0000_0000

  type Size = x: int | 0 <= x < SIZE_LIMIT

  datatype Rectangle = Rectangle(left: uint16, top: uint16, right: uint16, bottom: uint16)

  datatype Image = Image(stride: Size, width: Size, height: Size)

  /** Where a copy goes: the area and the two images. */
  datatype Job = Job(area: Rectangle, src: Image, dst: Image)

  // ----- how much is copied -----

  /** Unsigned subtraction wraps. */
  function Wrapped(x: int): Size
  {
    x % SIZE_LIMIT
  }

  /** What the clipped copy covers of a row, in pixels, and of a column. */
  function ClippedWidth(j: Job): Size
  {
    Min(Wrapped(j.area.right as int - j.area.left), Wrapped(j.dst.width as int - j.area.left))
  }

  function ClippedHeight(j: Job): Size
  {
    Min(Wrapped(j.area.bottom as int - j.area.top), Wrapped(j.dst.height as int - j.area.top))
  }

  /** An area inside the source whose top left corner is in the destination. */
  ghost predicate Placed(j: Job)
  {
    && j.area.left <= j.area.right <= j.src.width && j.area.top <= j.area.bottom <= j.src.height
    && j.area.left <= j.dst.width && j.area.top <= j.dst.height
  }

  lemma PlacedClips(j: Job)
    requires Placed(j)
    ensures ClippedWidth(j) == Min(j.area.right as int - j.area.left, j.dst.width as int - j.area.left)
    ensures ClippedHeight(j) == Min(j.area.bottom as int - j.area.top, j.dst.height as int - j.area.top)
  {
  }

  /** A corner beyond the right edge is not clipped at all, and an inverted area is clipped at
      the edge only. */
  lemma WrapsAtTheEdge(j: Job)
    ensures j.dst.width < j.area.left <= j.area.right ==> ClippedWidth(j) == j.area.right as int - j.area.left
    ensures j.area.right < j.area.left <= j.dst.width && j.dst.width < SIZE_LIMIT - 0x1_0000 ==>
              ClippedWidth(j) == j.dst.width as int - j.area.left
  {
  }

  // ----- where the rows are -----

  function At(stride: nat, row: nat, col: nat): nat
  {
    row * stride + col
  }

  lemma AtMonotonic(stride: nat, row: nat, later: nat, col: nat)
    requires row <= later
    ensures At(stride, row, col) <= At(stride, later, col)
  {
    assert row * stride <= later * stride;
  }

  lemma AtPlus(stride: nat, row: nat, col: nat, k: nat)
    ensures At(stride, row, col + k) == At(stride, row, col) + k
  {
  }

  /** Row `i` of the copy lies inside a buffer of this length. */
  ghost predicate RowInside(j: Job, image: Image, length: nat, i: nat)
  {
    At(image.stride, j.area.top + i, 4 * j.area.left) + 4 * ClippedWidth(j) <= length
  }

  ghost predicate RowsInside(j: Job, from: nat, to: nat)
  {
    forall i | 0 <= i < ClippedHeight(j) :: RowInside(j, j.src, from, i) && RowInside(j, j.dst, to, i)
  }

  /** The condition a caller can check: there is no row, or the last one fits. */
  ghost predicate Safe(j: Job, from: nat, to: nat)
  {
    var rows := ClippedHeight(j);
    rows == 0 || (RowInside(j, j.src, from, rows - 1) && RowInside(j, j.dst, to, rows - 1))
  }

  /** Every copy stays inside both buffers exactly when the last one does. */
  lemma SafeIff(j: Job, from: nat, to: nat)
    ensures RowsInside(j, from, to) <==> Safe(j, from, to)
  {
    var last := ClippedHeight(j) as int - 1;
    if Safe(j, from, to) {
      forall i | 0 <= i < ClippedHeight(j)
        ensures RowInside(j, j.src, from, i) && RowInside(j, j.dst, to, i)
      {
        AtMonotonic(j.src.stride, j.area.top + i, j.area.top + last, 4 * j.area.left);
        AtMonotonic(j.dst.stride, j.area.top + i, j.area.top + last, 4 * j.area.left);
      }
    }
  }

  /** A buffer with rows wide enough and enough of them. */
  ghost predicate Fits(image: Image, length: nat)
  {
    4 * image.width <= image.stride && image.stride * image.height <= length
  }

  lemma AtFits(image: Image, length: nat, row: nat, col: nat)
    requires Fits(image, length) && row < image.height && col <= 4 * image.width
    ensures At(image.stride, row, col) <= length && (col < 4 * image.width ==> At(image.stride, row, col) < length)
  {
    assert (row + 1) * image.stride <= image.height * image.stride;
  }

  lemma StretchFits(image: Image, length: nat, row: nat, left: nat, width: nat)
    requires Fits(image, length) && row < image.height && left + width <= image.width
    ensures At(image.stride, row, 4 * left) + 4 * width <= length
  {
    AtFits(image, length, row, 4 * left + 4 * width);
    AtPlus(image.stride, row, 4 * left, 4 * width);
  }

  lemma LastRowPlaced(j: Job)
    requires Placed(j) && ClippedHeight(j) > 0
    ensures var row, right := j.area.top as int + (ClippedHeight(j) - 1), j.area.left as int + ClippedWidth(j);
            row < j.src.height && row < j.dst.height && right <= j.src.width && right <= j.dst.width
  {
    PlacedClips(j);
  }

  /** A well placed area is safe in buffers that hold their images. */
  lemma PlacedIsSafe(j: Job, from: nat, to: nat)
    requires Placed(j) && Fits(j.src, from) && Fits(j.dst, to)
    ensures Safe(j, from, to)
  {
    if ClippedHeight(j) > 0 {
      LastRowPlaced(j);
      StretchFits(j.src, from, j.area.top + (ClippedHeight(j) - 1), j.area.left, ClippedWidth(j));
      StretchFits(j.dst, to, j.area.top + (ClippedHeight(j) - 1), j.area.left, ClippedWidth(j));
    }
  }

  lemma LastRowEnd(stride: nat, height: nat, col: nat)
    requires height > 0
    ensures At(stride, height - 1, col) == stride * height - stride + col
  {
  }

  /** An area with its corner beyond the right edge that reaches the bottom overruns a
      destination without slack. */
  lemma BeyondTheEdgeOverruns(j: Job, from: nat)
    requires j.dst.width < j.area.left < j.area.right && j.area.top < j.dst.height <= j.area.bottom
    requires j.dst.stride == 4 * j.dst.width
    ensures !Safe(j, from, j.dst.stride * j.dst.height)
  {
    WrapsAtTheEdge(j);
    assert ClippedHeight(j) == j.dst.height as int - j.area.top;
    LastRowEnd(j.dst.stride, j.dst.height, 4 * j.area.left);
  }

  // ----- what is copied, row by row -----

  /** `before` with `n` bytes of `s` from `from` copied to `at`: memcpy. */
  ghost function Moved(s: seq<byte>, from: nat, before: seq<byte>, at: nat, n: nat): (now: seq<byte>)
    requires from + n <= |s| && at + n <= |before|
    ensures |now| == |before|
  {
    seq(|before|, k requires 0 <= k < |before| => if at <= k < at + n then s[from + (k - at)] else before[k])
  }

  ghost function AfterRows(j: Job, s: seq<byte>, was: seq<byte>, rows: nat): (now: seq<byte>)
    requires RowsInside(j, |s|, |was|) && rows <= ClippedHeight(j)
    ensures |now| == |was|
  {
    if rows == 0 then was else
    var i := rows - 1;
    assert RowInside(j, j.src, |s|, i) && RowInside(j, j.dst, |was|, i);
    Moved(s, At(j.src.stride, j.area.top + i, 4 * j.area.left), AfterRows(j, s, was, i),
          At(j.dst.stride, j.area.top + i, 4 * j.area.left), 4 * ClippedWidth(j))
  }

  lemma NextRow(j: Job, s: seq<byte>, was: seq<byte>, i: nat)
    requires RowsInside(j, |s|, |was|) && i < ClippedHeight(j)
    ensures RowInside(j, j.src, |s|, i) && RowInside(j, j.dst, |was|, i)
    ensures AfterRows(j, s, was, i + 1)
         == Moved(s, At(j.src.stride, j.area.top + i, 4 * j.area.left), AfterRows(j, s, was, i),
                  At(j.dst.stride, j.area.top + i, 4 * j.area.left), 4 * ClippedWidth(j))
  {
  }

  // ----- the same byte by byte -----

  /** The row and the column of byte `k` of an image. */
  ghost function RowOf(stride: nat, k: nat): nat
    requires stride > 0
    decreases k
  {
    if k < stride then 0 else 1 + RowOf(stride, k - stride)
  }

  ghost function ColumnOf(stride: nat, k: nat): (col: nat)
    requires stride > 0
    ensures col < stride
    decreases k
  {
    if k < stride then k else ColumnOf(stride, k - stride)
  }

  lemma {:induction false} RowAndColumn(stride: nat, row: nat, col: nat)
    requires col < stride
    ensures RowOf(stride, At(stride, row, col)) == row && ColumnOf(stride, At(stride, row, col)) == col
    decreases row
  {
    if row > 0 {
      assert At(stride, row, col) - stride == At(stride, row - 1, col);
      RowAndColumn(stride, row - 1, col);
    }
  }

  lemma {:induction false} AtRowAndColumn(stride: nat, k: nat)
    requires stride > 0
    ensures At(stride, RowOf(stride, k), ColumnOf(stride, k)) == k
    decreases k
  {
    if k >= stride {
      AtRowAndColumn(stride, k - stride);
      assert At(stride, RowOf(stride, k), ColumnOf(stride, k))
          == At(stride, RowOf(stride, k - stride), ColumnOf(stride, k)) + stride;
    }
  }

  /** A run of bytes within a row. */
  lemma RunOfRow(stride: nat, row: nat, col: nat, n: nat, k: nat)
    requires 0 < stride && col + n <= stride
    ensures At(stride, row, col) <= k < At(stride, row, col) + n
       <==> RowOf(stride, k) == row && col <= ColumnOf(stride, k) < col + n
    ensures RowOf(stride, k) == row ==> ColumnOf(stride, k) - col == k - At(stride, row, col)
  {
    var at := At(stride, row, col);
    AtRowAndColumn(stride, k);
    AtPlus(stride, row, 0, ColumnOf(stride, k));
    AtPlus(stride, row, 0, col);
    if at <= k < at + n {
      AtPlus(stride, row, col, k - at);
      RowAndColumn(stride, row, col + (k - at));
    }
  }

  /** Byte `k` of the destination belongs to the first `rows` rows of the copied area. */
  ghost predicate Copied(j: Job, rows: nat, k: nat)
  {
    && j.dst.stride > 0
    && j.area.top <= RowOf(j.dst.stride, k) < j.area.top + rows
    && 4 * j.area.left <= ColumnOf(j.dst.stride, k) < 4 * j.area.left + 4 * ClippedWidth(j)
  }

  /** The source offset of the byte at the same pixel. */
  ghost function SourceOf(j: Job, k: nat): nat
    requires j.dst.stride > 0
  {
    At(j.src.stride, RowOf(j.dst.stride, k), ColumnOf(j.dst.stride, k))
  }

  /** The source byte at the same pixel inside the area, the old byte everywhere else. */
  ghost predicate ByteCopied(j: Job, s: seq<byte>, was: seq<byte>, now: seq<byte>, rows: nat, k: nat)
    requires k < |now| == |was|
  {
    if Copied(j, rows, k) then SourceOf(j, k) < |s| && now[k] == s[SourceOf(j, k)] else now[k] == was[k]
  }

  lemma NextByte(j: Job, s: seq<byte>, was: seq<byte>, before: seq<byte>, i: nat, from: nat, at: nat, n: nat, k: nat)
    requires Placed(j) && 4 * j.dst.width <= j.dst.stride && k < |before| == |was|
    requires n == 4 * ClippedWidth(j) && from + n <= |s| && at + n <= |before|
    requires from == At(j.src.stride, j.area.top + i, 4 * j.area.left)
    requires at == At(j.dst.stride, j.area.top + i, 4 * j.area.left)
    requires ByteCopied(j, s, was, before, i, k)
    ensures ByteCopied(j, s, was, Moved(s, from, before, at, n), i + 1, k)
  {
    PlacedClips(j);
    if n > 0 {
      RunOfRow(j.dst.stride, j.area.top + i, 4 * j.area.left, n, k);
      if at <= k < at + n {
        AtPlus(j.src.stride, j.area.top + i, 4 * j.area.left, k - at);
      }
    }
  }

  /** The rows of a well placed area do not disturb one another: every byte of the destination
      is either the source's at the same pixel or what it was. */
  lemma {:induction false} RowsAreBytes(j: Job, s: seq<byte>, was: seq<byte>, rows: nat, k: nat)
    requires Placed(j) && 4 * j.dst.width <= j.dst.stride && k < |was|
    requires RowsInside(j, |s|, |was|) && rows <= ClippedHeight(j)
    ensures ByteCopied(j, s, was, AfterRows(j, s, was, rows), rows, k)
    decreases rows
  {
    if rows > 0 {
      var i := rows - 1;
      RowsAreBytes(j, s, was, i, k);
      assert RowInside(j, j.src, |s|, i) && RowInside(j, j.dst, |was|, i);
      NextByte(j, s, was, AfterRows(j, s, was, i), i, At(j.src.stride, j.area.top + i, 4 * j.area.left),
               At(j.dst.stride, j.area.top + i, 4 * j.area.left), 4 * ClippedWidth(j), k);
    }
  }

  /** In pixels: byte `c` of the pixel in column `x` and row `y` comes from the same pixel of
      the source inside the clipped area, and is untouched outside it. */
  lemma PixelsCopied(j: Job, s: seq<byte>, was: seq<byte>, x: nat, y: nat, c: nat)
    requires Placed(j) && Fits(j.src, |s|) && Fits(j.dst, |was|) && RowsInside(j, |s|, |was|)
    requires x < j.dst.width && y < j.dst.height && c < 4
    ensures var inside := j.area.left <= x < j.area.right && j.area.top <= y < j.area.bottom;
            var now, k := AfterRows(j, s, was, ClippedHeight(j)), At(j.dst.stride, y, 4 * x + c);
            && k < |now|
            && (inside ==> At(j.src.stride, y, 4 * x + c) < |s| && now[k] == s[At(j.src.stride, y, 4 * x + c)])
            && (!inside ==> now[k] == was[k])
  {
    var k := At(j.dst.stride, y, 4 * x + c);
    AtFits(j.dst, |was|, y, 4 * x + c);
    RowAndColumn(j.dst.stride, y, 4 * x + c);
    RowsAreBytes(j, s, was, ClippedHeight(j), k);
    PlacedClips(j);
  }

  // ----- the loop -----

  method CopyBytes(src: array<byte>, from: nat, dst: array<byte>, at: nat, n: nat)
    requires src != dst && from + n <= src.Length && at + n <= dst.Length
    modifies dst
    ensures dst[..] == Moved(src[..], from, old(dst[..]), at, n)
  {
    forall k | at <= k < at + n {
      dst[k] := src[from + (k - at)];
    }
  }

  /** The offset the code computes for row `i` of the copy. */
  lemma RowOffset(stride: nat, top: nat, left: nat, i: nat)
    ensures i * stride + At(stride, top, 4 * left) == At(stride, top + i, 4 * left)
  {
  }

  /** One turn of the loop. */
  method CopyRow(j: Job, src: array<byte>, dst: array<byte>, baseSrc: nat, baseDst: nat, i: nat)
    requires src != dst && RowInside(j, j.src, src.Length, i) && RowInside(j, j.dst, dst.Length, i)
    requires baseSrc == At(j.src.stride, j.area.top, 4 * j.area.left)
    requires baseDst == At(j.dst.stride, j.area.top, 4 * j.area.left)
    modifies dst
    ensures dst[..] == Moved(src[..], At(j.src.stride, j.area.top + i, 4 * j.area.left), old(dst[..]),
                             At(j.dst.stride, j.area.top + i, 4 * j.area.left), 4 * ClippedWidth(j))
  {
    var srcOffset, dstOffset := i * j.src.stride + baseSrc, i * j.dst.stride + baseDst;
    RowOffset(j.src.stride, j.area.top, j.area.left, i);
    RowOffset(j.dst.stride, j.area.top, j.area.left, i);
    CopyBytes(src, srcOffset, dst, dstOffset, 4 * ClippedWidth(j));
  }

  method CopyRows(j: Job, src: array<byte>, dst: array<byte>)
    requires src != dst && Safe(j, src.Length, dst.Length)
    modifies dst
    ensures RowsInside(j, src.Length, dst.Length)
    ensures dst[..] == AfterRows(j, src[..], old(dst[..]), ClippedHeight(j))
  {
    SafeIff(j, src.Length, dst.Length);
    var baseSrc := At(j.src.stride, j.area.top, 4 * j.area.left);
    var baseDst := At(j.dst.stride, j.area.top, 4 * j.area.left);
    ghost var s, was := src[..], dst[..];
    for i := 0 to ClippedHeight(j)
      invariant src[..] == s && dst[..] == AfterRows(j, s, was, i)
    {
      NextRow(j, s, was, i);
      CopyRow(j, src, dst, baseSrc, baseDst, i);
    }
  }

  /** wlf_copy_image without scaling */
  method CopyImage(src: array?<byte>, srcImage: Image, dst: array?<byte>, dstImage: Image, area: Option<Rectangle>)
    returns (ok: bool)
    requires src != null && dst != null && area.Some? ==>
               src != dst && Safe(Job(area.value, srcImage, dstImage), src.Length, dst.Length)
    modifies dst
    ensures ok <==> src != null && dst != null && area.Some?
    ensures ok ==> var j := Job(area.value, srcImage, dstImage);
                   && RowsInside(j, src.Length, dst.Length)
                   && dst[..] == AfterRows(j, src[..], old(dst[..]), ClippedHeight(j))
    ensures !ok && dst != null ==> dst[..] == old(dst[..])
  {
    if src == null || dst == null || area.None? {
      return false;
    }
    CopyRows(Job(area.value, srcImage, dstImage), src, dst);
    return true;
  }
}
