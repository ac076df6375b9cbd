/**
  Decoding an uncompressed true-colour TGA image into RGBA bytes: the header
  checks, where the pixel data starts, the length check, and the reorder of
  each stored B,G,R(,A) pixel into R,G,B,A at its place in a top-to-bottom,
  left-to-right image. The fields and bits follow the Truevision TGA File
  Format Specification version 2.0 (header fields 3, 4 and 5.6), except
  where the decoder reads the colour-map fields, which is modelled as it
  reads them.
*/
module TgaDecoder {
  import opened Wrappers

  newtype Byte = b: int | 0 <= b < 256

  /** `getUint8(i)`. */
  function U8(buf: seq<Byte>, i: nat): nat
    requires i < |buf|
  {
    buf[i] as nat
  }

  /** `getUint16(i, true)`: little-endian. */
  function U16(buf: seq<Byte>, i: nat): nat
    requires i + 1 < |buf|
  {
    buf[i] as nat + 256 * buf[i + 1] as nat
  }

  /** The header fields the decoder uses. */
  datatype Header = Header(
    idLength: nat,
    colorMapType: nat,
    imageType: nat,
    colorMapLength: nat,
    colorMapEntrySize: nat,
    width: nat,
    height: nat,
    pixelDepth: nat,
    descriptor: Byte)

  /** The 18-byte header is read in full before anything is checked; a shorter buffer makes a read throw. */
  const HeaderSize: nat := 18

  /**
    The header as the decoder reads it: `None` when the buffer is too short.
    The colour-map length is read as a 16-bit value at byte 7 and the entry
    size at byte 8, so the two overlap, and byte 8 is also the low byte of
    the x origin.
  */
  function ReadHeaderAsWritten(buf: seq<Byte>): (h: Option<Header>)
    ensures h.Some? <==> |buf| >= HeaderSize
    ensures h.Some? ==> h.value.colorMapLength == buf[7] as nat + 256 * buf[8] as nat && h.value.colorMapEntrySize == buf[8] as nat
  {
    if |buf| < HeaderSize then None
    else Some(Header(U8(buf, 0), U8(buf, 1), U8(buf, 2), U16(buf, 7), U8(buf, 8),
                     U16(buf, 12), U16(buf, 14), U8(buf, 16), buf[17]))
  }

  /**
    The header with the colour-map specification where field 4 of the TGA
    format puts it: the first entry index at bytes 3-4, the length at bytes
    5-6 and the entry size in bits at byte 7. All other fields are read as
    the decoder reads them.
  */
  function ReadHeader(buf: seq<Byte>): (h: Option<Header>)
    ensures h.Some? <==> |buf| >= HeaderSize
    ensures h.Some? ==> h.value.idLength == buf[0] as nat && h.value.colorMapType == buf[1] as nat
                        && h.value.imageType == buf[2] as nat && h.value.pixelDepth == buf[16] as nat
                        && h.value.colorMapLength == buf[5] as nat + 256 * buf[6] as nat
                        && h.value.colorMapEntrySize == buf[7] as nat
                        && h.value.width == buf[12] as nat + 256 * buf[13] as nat
                        && h.value.height == buf[14] as nat + 256 * buf[15] as nat
                        && h.value.descriptor == buf[17]
    ensures h.Some? ==> ReadHeaderAsWritten(buf) == Some(h.value.(colorMapLength := U16(buf, 7), colorMapEntrySize := U8(buf, 8)))
  {
    if |buf| < HeaderSize then None
    else Some(Header(U8(buf, 0), U8(buf, 1), U8(buf, 2), U16(buf, 5), U8(buf, 7),
                     U16(buf, 12), U16(buf, 14), U8(buf, 16), buf[17]))
  }

  /** `(descriptor & 0x20) === 0`: the image origin is at the bottom, so storage row 0 is the last output row. */
  predicate FlipRows(h: Header)
    ensures FlipRows(h) <==> (h.descriptor as int / 32) % 2 == 0
  {
    (h.descriptor as bv8) & 0x20 == 0
  }

  /** `(descriptor & 0x10) !== 0`: the image origin is at the right, so storage column 0 is the last output column. */
  predicate FlipCols(h: Header)
    ensures FlipCols(h) <==> (h.descriptor as int / 16) % 2 == 1
  {
    (h.descriptor as bv8) & 0x10 != 0
  }

  /**
    Where the decoder starts reading pixels: after the header and the image
    id, and after the colour map when there is one. The colour-map size is
    `length * (entrySize / 8)` with JavaScript's floating division, so the
    offset may have a fraction.
  */
  function PixelOffsetAsWritten(h: Header): (r: real)
    ensures r >= HeaderSize as real + h.idLength as real
    ensures h.colorMapType != 1 || h.colorMapLength == 0 ==> r == (HeaderSize + h.idLength) as real
  {
    (HeaderSize + h.idLength) as real
    + (if h.colorMapType == 1 && h.colorMapLength > 0 then h.colorMapLength as real * (h.colorMapEntrySize as real / 8.0) else 0.0)
  }

  /** Bytes per colour-map entry: the entry size in bits, rounded up to whole bytes (15-bit entries take two). */
  function EntryBytes(bits: nat): (n: nat)
    ensures n * 8 >= bits && (n == 0 || (n - 1) * 8 < bits)
  {
    (bits + 7) / 8
  }

  /** Where the pixel data starts: after the header, the image id and the whole colour map when there is one. */
  function PixelOffset(h: Header): (r: nat)
    ensures r >= HeaderSize + h.idLength
    ensures h.colorMapType != 1 ==> r == HeaderSize + h.idLength
    ensures h.colorMapType == 1 ==> r == HeaderSize + h.idLength + h.colorMapLength * EntryBytes(h.colorMapEntrySize)
  {
    HeaderSize + h.idLength + (if h.colorMapType == 1 then h.colorMapLength * EntryBytes(h.colorMapEntrySize) else 0)
  }

  /** A decoded image: its size and its RGBA bytes, row by row from the top. */
  datatype Image = Image(width: nat, height: nat, rgba: seq<Byte>)

  /** The byte of source pixel `s` that becomes channel `k` (R, G, B, A) of the output; 24-bit data is opaque. */
  function Channel(data: seq<Byte>, bpp: nat, s: nat, k: nat): Byte
    requires bpp == 3 || bpp == 4
    requires (s + 1) * bpp <= |data| && k < 4
  {
    if k == 0 then data[s * bpp + 2]
    else if k == 1 then data[s * bpp + 1]
    else if k == 2 then data[s * bpp]
    else if bpp == 4 then data[s * bpp + 3]
    else 255
  }

  /** Cell `y * w + x`: row `y`, column `x` of a `w`-wide grid. */
  function At(y: nat, x: nat, w: nat): nat {
    y * w + x
  }

  /** Index `i` of `n`, counted from the other end when `flip` is set. */
  function Flip(flip: bool, i: nat, n: nat): nat
    requires i < n
  {
    if flip then n - 1 - i else i
  }

  /** The output pixel that source pixel `s` (row `s / w`, column `s % w` in storage order) lands on. */
  function DestOf(s: nat, w: nat, h: nat, flipRows: bool, flipCols: bool): nat
    requires s < w * h
  {
    LessThanRows(s, w, h);
    At(Flip(flipRows, s / w, h), Flip(flipCols, s % w, w), w)
  }

  /** The source pixel that output pixel `d` comes from: the same flips, which undo themselves. */
  function SourceOf(d: nat, w: nat, h: nat, flipRows: bool, flipCols: bool): nat
    requires d < w * h
  {
    DestOf(d, w, h, flipRows, flipCols)
  }

  /** A positive multiple of `w` is at least `w`. */
  lemma MulAtLeast(a: int, w: int)
    requires a >= 1 && w >= 0
    ensures a * w >= w
  {
  }

  /** Dividing `q * w + r` by `w` gives back the quotient `q` and the remainder `r`. */
  lemma DivMod(q: int, r: int, w: int)
    requires w > 0 && 0 <= r < w && q >= 0
    ensures (q * w + r) / w == q && (q * w + r) % w == r
  {
    var n := q * w + r;
    var q', r' := n / w, n % w;
    assert n == q' * w + r';
    if q' < q {
      MulAtLeast(q - q', w);
      assert false;
    } else if q' > q {
      MulAtLeast(q' - q, w);
      assert false;
    }
  }

  lemma LessThanRows(s: nat, w: nat, h: nat)
    requires s < w * h
    ensures w > 0 && s / w < h
  {
    assert w != 0;
    var y := s / w;
    assert s == y * w + s % w;
    if y >= h {
      MulAtLeast(y - h + 1, w);
      assert false;
    }
  }

  /** Row `y`, column `x` of a `w`-wide grid is a cell of the grid, and it gives its row and column back. */
  lemma Cell(y: nat, x: nat, w: nat, h: nat)
    requires x < w && y < h
    ensures At(y, x, w) < w * h && At(y, x, w) / w == y && At(y, x, w) % w == x
  {
    MulAtLeast(h - y, w);
    assert (h - y) * w == h * w - y * w;
    DivMod(y, x, w);
  }

  /** Every cell is at its row and column. */
  lemma CellOf(s: nat, w: nat, h: nat)
    requires s < w * h
    ensures w > 0 && s / w < h && s % w < w && At(s / w, s % w, w) == s
  {
    LessThanRows(s, w, h);
  }

  /** Placing pixels is one-to-one and onto: the output pixel a source pixel lands on comes back from it. */
  lemma PlacementInverts(s: nat, w: nat, h: nat, flipRows: bool, flipCols: bool)
    requires s < w * h
    ensures DestOf(s, w, h, flipRows, flipCols) < w * h
    ensures SourceOf(DestOf(s, w, h, flipRows, flipCols), w, h, flipRows, flipCols) == s
  {
    CellOf(s, w, h);
    var y, x := s / w, s % w;
    var row, col := Flip(flipRows, y, h), Flip(flipCols, x, w);
    Cell(row, col, w, h);
    var d := At(row, col, w);
    assert DestOf(s, w, h, flipRows, flipCols) == d;
    assert d / w == row && d % w == col;
    assert Flip(flipRows, row, h) == y && Flip(flipCols, col, w) == x;
    assert DestOf(d, w, h, flipRows, flipCols) == At(y, x, w);
  }

  /** So two source pixels never land on the same output pixel. */
  lemma PlacementOneToOne(s: nat, t: nat, w: nat, h: nat, flipRows: bool, flipCols: bool)
    requires s < w * h && t < w * h && s != t
    ensures DestOf(s, w, h, flipRows, flipCols) != DestOf(t, w, h, flipRows, flipCols)
  {
    PlacementInverts(s, w, h, flipRows, flipCols);
    PlacementInverts(t, w, h, flipRows, flipCols);
  }

  /** And every output pixel is the landing place of the source pixel it is read from. */
  lemma PlacementOnto(d: nat, w: nat, h: nat, flipRows: bool, flipCols: bool)
    requires d < w * h
    ensures SourceOf(d, w, h, flipRows, flipCols) < w * h
    ensures DestOf(SourceOf(d, w, h, flipRows, flipCols), w, h, flipRows, flipCols) == d
  {
    PlacementInverts(d, w, h, flipRows, flipCols);
  }

  lemma PixelFits(s: nat, n: nat, bpp: nat)
    requires s < n
    ensures (s + 1) * bpp <= n * bpp
  {
    if bpp > 0 {
      MulAtLeast(n - s, bpp);
      assert (n - s) * bpp == n * bpp - s * bpp;
    }
  }

  /** The output: for every output pixel, the four channels of the source pixel it is read from. */
  function Rgba(data: seq<Byte>, w: nat, h: nat, bpp: nat, flipRows: bool, flipCols: bool): (out: seq<Byte>)
    requires bpp == 3 || bpp == 4
    requires |data| == w * h * bpp
    ensures |out| == w * h * 4
  {
    seq(w * h * 4, i requires 0 <= i < w * h * 4 => OutByte(data, w, h, bpp, flipRows, flipCols, i))
  }

  /** Byte `i` of the output: channel `i % 4` of the source pixel that output pixel `i / 4` is read from. */
  function OutByte(data: seq<Byte>, w: nat, h: nat, bpp: nat, flipRows: bool, flipCols: bool, i: nat): Byte
    requires bpp == 3 || bpp == 4
    requires |data| == w * h * bpp && i < w * h * 4
  {
    var d := i / 4;
    PlacementOnto(d, w, h, flipRows, flipCols);
    var s := SourceOf(d, w, h, flipRows, flipCols);
    PixelFits(s, w * h, bpp);
    Channel(data, bpp, s, i % 4)
  }

  const TypeMessage := "只支持未压缩的 true color TGA"
  const DepthMessage := "只支持 24/32 位 TGA"
  const LengthMessage := "TGA 数据长度不正确"
  const ShortHeaderMessage := "RangeError: Offset is outside the bounds of the DataView"

  /** Bytes per pixel of a depth the decoder accepts. */
  function PixelBytes(h: Header): nat {
    h.pixelDepth / 8
  }

  /** The header passes the decoder's format checks and the buffer holds all pixels from `offset` on. */
  predicate Decodable(buf: seq<Byte>, h: Header, offset: real) {
    h.imageType == 2 && (h.pixelDepth == 24 || h.pixelDepth == 32)
    && offset + (h.width * h.height * PixelBytes(h)) as real <= |buf| as real
  }

  /**
    The checks and the pixel reorder once the header is read and the start
    of the pixel data is known: an image type other than uncompressed true
    colour (2), a depth other than 24 or 32 bits, and a buffer that ends
    before the pixel data does are errors, in that order; otherwise the
    image with its `w * h * 4` RGBA bytes.
  */
  function DecodeFrom(buf: seq<Byte>, h: Header, offset: real): (r: Result<Image>)
    requires offset >= 0.0
    ensures r.Ok? <==> Decodable(buf, h, offset)
    ensures h.imageType != 2 ==> r == Err(TypeMessage)
    ensures h.imageType == 2 && h.pixelDepth != 24 && h.pixelDepth != 32 ==> r == Err(DepthMessage)
    ensures r.Err? && h.imageType == 2 && (h.pixelDepth == 24 || h.pixelDepth == 32) ==> r == Err(LengthMessage)
    ensures r.Ok? ==> r.value.width == h.width && r.value.height == h.height
                      && |r.value.rgba| == h.width * h.height * 4
  {
    if h.imageType != 2 then Err(TypeMessage)
    else if h.pixelDepth != 24 && h.pixelDepth != 32 then Err(DepthMessage)
    else
      var bpp := PixelBytes(h);
      var size := h.width * h.height * bpp;
      if offset + size as real > |buf| as real then Err(LengthMessage)
      else
        var start := offset.Floor;
        Ok(Image(h.width, h.height, Rgba(buf[start..start + size], h.width, h.height, bpp, FlipRows(h), FlipCols(h))))
  }

  /** `decodeTgaToDataUrl` up to the pixel bytes, reading the header as the decoder does. */
  function DecodeAsWritten(buf: seq<Byte>): (r: Result<Image>)
    ensures |buf| < HeaderSize ==> r == Err(ShortHeaderMessage)
    ensures r.Ok? <==> |buf| >= HeaderSize && Decodable(buf, ReadHeaderAsWritten(buf).value, PixelOffsetAsWritten(ReadHeaderAsWritten(buf).value))
  {
    match ReadHeaderAsWritten(buf)
    case None => Err(ShortHeaderMessage)
    case Some(h) => DecodeFrom(buf, h, PixelOffsetAsWritten(h))
  }

  /** The decoder with the colour map read and skipped as the TGA format lays it out. */
  function Decode(buf: seq<Byte>): (r: Result<Image>)
    ensures |buf| < HeaderSize ==> r == Err(ShortHeaderMessage)
    ensures r.Ok? <==> |buf| >= HeaderSize && Decodable(buf, ReadHeader(buf).value, PixelOffset(ReadHeader(buf).value) as real)
    ensures r.Ok? ==> |r.value.rgba| == r.value.width * r.value.height * 4
  {
    match ReadHeader(buf)
    case None => Err(ShortHeaderMessage)
    case Some(h) => DecodeFrom(buf, h, PixelOffset(h) as real)
  }

  /** Without a colour map both readings of the header decode alike. */
  lemma NoColorMapAgrees(buf: seq<Byte>)
    requires |buf| >= HeaderSize && buf[1] != 1
    ensures DecodeAsWritten(buf) == Decode(buf)
  {
    var h := ReadHeader(buf).value;
    assert ReadHeaderAsWritten(buf).value.(colorMapLength := h.colorMapLength, colorMapEntrySize := h.colorMapEntrySize) == h;
    assert PixelOffsetAsWritten(ReadHeaderAsWritten(buf).value) == PixelOffset(h) as real;
    FlagsAgree(ReadHeaderAsWritten(buf).value, h);
  }

  lemma FlagsAgree(a: Header, b: Header)
    requires a.descriptor == b.descriptor
    ensures FlipRows(a) == FlipRows(b) && FlipCols(a) == FlipCols(b)
  {
  }

  /**
    The pixel loop: source pixels in storage order, each written as R, G, B,
    A at the output pixel it lands on.
  */
  method Reorder(data: seq<Byte>, w: nat, h: nat, bpp: nat, flipRows: bool, flipCols: bool) returns (out: seq<Byte>)
    requires bpp == 3 || bpp == 4
    requires |data| == w * h * bpp
    ensures out == Rgba(data, w, h, bpp, flipRows, flipCols)
  {
    out := seq(w * h * 4, _ => 0);
    var src := 0;
    var y := 0;
    while y < h
      invariant 0 <= y <= h
      invariant |out| == w * h * 4
      invariant src == At(y, 0, w) * bpp
      invariant forall s :: 0 <= s < At(y, 0, w) ==> Placed(out, data, w, h, bpp, flipRows, flipCols, s)
    {
      out, src := ReorderRow(out, src, data, w, h, bpp, flipRows, flipCols, y);
      y := y + 1;
    }
    AllPlaced(out, data, w, h, bpp, flipRows, flipCols);
  }

  /** One pass of the inner loop: the source pixels of storage row `y`, left to right. */
  method ReorderRow(out0: seq<Byte>, src0: nat, data: seq<Byte>, w: nat, h: nat, bpp: nat, flipRows: bool, flipCols: bool, y: nat)
    returns (out: seq<Byte>, src: nat)
    requires bpp == 3 || bpp == 4
    requires y < h
    requires |data| == w * h * bpp && |out0| == w * h * 4
    requires src0 == At(y, 0, w) * bpp
    requires forall s :: 0 <= s < At(y, 0, w) ==> Placed(out0, data, w, h, bpp, flipRows, flipCols, s)
    ensures |out| == w * h * 4
    ensures src == At(y + 1, 0, w) * bpp
    ensures forall s :: 0 <= s < At(y + 1, 0, w) ==> Placed(out, data, w, h, bpp, flipRows, flipCols, s)
  {
    out, src := out0, src0;
    var x := 0;
    while x < w
      invariant 0 <= x <= w
      invariant |out| == w * h * 4
      invariant src == At(y, x, w) * bpp
      invariant forall s :: 0 <= s < At(y, x, w) ==> Placed(out, data, w, h, bpp, flipRows, flipCols, s)
    {
      RowStep(y, x, w, h, bpp, flipRows, flipCols);
      var dst := At(Flip(flipRows, y, h), Flip(flipCols, x, w), w) * 4;
      var prev := out;
      out := out[dst := data[src + 2]][dst + 1 := data[src + 1]][dst + 2 := data[src]];
      out := out[dst + 3 := if bpp == 4 then data[src + 3] else 255];
      PlaceNext(prev, out, data, w, h, bpp, flipRows, flipCols, At(y, x, w), src, dst);
      src := src + bpp;
      x := x + 1;
    }
    RowEnd(y, w);
  }

  /** The end of storage row `y` is the start of row `y + 1`. */
  lemma RowEnd(y: nat, w: nat)
    ensures At(y, w, w) == At(y + 1, 0, w)
  {
    assert (y + 1) * w == y * w + w;
  }

  /** The arithmetic of one pass of the inner loop: where pixel `(y, x)` is read and written, and where the next is read. */
  lemma RowStep(y: nat, x: nat, w: nat, h: nat, bpp: nat, flipRows: bool, flipCols: bool)
    requires x < w && y < h
    ensures At(y, x, w) < w * h && (At(y, x, w) + 1) * bpp <= w * h * bpp
    ensures DestOf(At(y, x, w), w, h, flipRows, flipCols) == At(Flip(flipRows, y, h), Flip(flipCols, x, w), w)
    ensures At(Flip(flipRows, y, h), Flip(flipCols, x, w), w) * 4 + 4 <= w * h * 4
    ensures At(y, x + 1, w) == At(y, x, w) + 1 && At(y, x + 1, w) * bpp == At(y, x, w) * bpp + bpp
  {
    Cell(y, x, w, h);
    var row := Flip(flipRows, y, h);
    var col := Flip(flipCols, x, w);
    Cell(row, col, w, h);
    PixelFits(At(y, x, w), w * h, bpp);
    PixelFits(At(row, col, w), w * h, 4);
    Placement(y, x, w, h, flipRows, flipCols);
    assert At(y, x + 1, w) * bpp == (At(y, x, w) + 1) * bpp;
  }

  /** `prev` with source pixel `src` written at `dst` as R, G, B, A. */
  function Written(prev: seq<Byte>, dst: nat, data: seq<Byte>, src: nat, bpp: nat): seq<Byte>
    requires bpp == 3 || bpp == 4
    requires dst + 4 <= |prev| && src + bpp <= |data|
  {
    prev[dst := data[src + 2]][dst + 1 := data[src + 1]][dst + 2 := data[src]][dst + 3 := if bpp == 4 then data[src + 3] else 255]
  }

  /** Writing source pixel `s` where it lands puts it in place and keeps the earlier ones there. */
  lemma PlaceNext(prev: seq<Byte>, out: seq<Byte>, data: seq<Byte>, w: nat, h: nat, bpp: nat, flipRows: bool, flipCols: bool, s: nat, src: nat, dst: nat)
    requires bpp == 3 || bpp == 4
    requires |data| == w * h * bpp && |prev| == w * h * 4
    requires s < w * h && src == s * bpp && (s + 1) * bpp <= |data|
    requires forall t :: 0 <= t < s ==> Placed(prev, data, w, h, bpp, flipRows, flipCols, t)
    requires dst == DestOf(s, w, h, flipRows, flipCols) * 4 && dst + 4 <= |prev|
    requires out == Written(prev, dst, data, src, bpp)
    ensures forall t :: 0 <= t < s + 1 ==> Placed(out, data, w, h, bpp, flipRows, flipCols, t)
  {
    PlacementInverts(s, w, h, flipRows, flipCols);
    var d := DestOf(s, w, h, flipRows, flipCols);
    forall t | 0 <= t < s + 1
      ensures Placed(out, data, w, h, bpp, flipRows, flipCols, t)
    {
      if t < s {
        PlacementOneToOne(t, s, w, h, flipRows, flipCols);
        KeepPlaced(prev, out, data, w, h, bpp, flipRows, flipCols, t, dst);
      } else {
        assert OutPixel(out, d) == Pixel(data, bpp, s);
      }
    }
  }

  /** Once every source pixel is in place, the output is the specified image. */
  lemma AllPlaced(out: seq<Byte>, data: seq<Byte>, w: nat, h: nat, bpp: nat, flipRows: bool, flipCols: bool)
    requires bpp == 3 || bpp == 4
    requires |data| == w * h * bpp && |out| == w * h * 4
    requires forall s :: 0 <= s < At(h, 0, w) ==> Placed(out, data, w, h, bpp, flipRows, flipCols, s)
    ensures out == Rgba(data, w, h, bpp, flipRows, flipCols)
  {
    forall i | 0 <= i < w * h * 4
      ensures out[i] == Rgba(data, w, h, bpp, flipRows, flipCols)[i]
    {
      var d := i / 4;
      PlacementOnto(d, w, h, flipRows, flipCols);
      var s := SourceOf(d, w, h, flipRows, flipCols);
      assert Placed(out, data, w, h, bpp, flipRows, flipCols, s);
      assert out[i] == OutPixel(out, d)[i % 4];
    }
  }

  /** The four output bytes of source pixel `s`: R, G, B, A. */
  function Pixel(data: seq<Byte>, bpp: nat, s: nat): seq<Byte>
    requires bpp == 3 || bpp == 4
    requires (s + 1) * bpp <= |data|
  {
    [Channel(data, bpp, s, 0), Channel(data, bpp, s, 1), Channel(data, bpp, s, 2), Channel(data, bpp, s, 3)]
  }

  /** The four bytes of output pixel `d`. */
  function OutPixel(out: seq<Byte>, d: nat): seq<Byte>
    requires d * 4 + 4 <= |out|
  {
    out[d * 4..d * 4 + 4]
  }

  /** Source pixel `s` is in place: its channels sit at the output pixel it lands on. */
  predicate Placed(out: seq<Byte>, data: seq<Byte>, w: nat, h: nat, bpp: nat, flipRows: bool, flipCols: bool, s: nat)
    requires bpp == 3 || bpp == 4
    requires |data| == w * h * bpp && |out| == w * h * 4
  {
    s < w * h &&
    (PlacementInverts(s, w, h, flipRows, flipCols);
     PixelFits(s, w * h, bpp);
     OutPixel(out, DestOf(s, w, h, flipRows, flipCols)) == Pixel(data, bpp, s))
  }

  /** Writing another output pixel keeps a placed pixel in place. */
  lemma KeepPlaced(prev: seq<Byte>, out: seq<Byte>, data: seq<Byte>, w: nat, h: nat, bpp: nat, flipRows: bool, flipCols: bool, t: nat, dst: nat)
    requires bpp == 3 || bpp == 4
    requires |data| == w * h * bpp && |prev| == w * h * 4 && |out| == |prev|
    requires t < w * h && Placed(prev, data, w, h, bpp, flipRows, flipCols, t)
    requires dst % 4 == 0 && dst / 4 != DestOf(t, w, h, flipRows, flipCols)
    requires forall i :: 0 <= i < |out| && !(dst <= i < dst + 4) ==> out[i] == prev[i]
    ensures Placed(out, data, w, h, bpp, flipRows, flipCols, t)
  {
    PlacementInverts(t, w, h, flipRows, flipCols);
    var d := DestOf(t, w, h, flipRows, flipCols);
    SameOutPixel(prev, out, d, dst);
  }

  lemma SameOutPixel(prev: seq<Byte>, out: seq<Byte>, d: nat, dst: nat)
    requires d * 4 + 4 <= |prev| == |out|
    requires dst % 4 == 0 && dst / 4 != d
    requires forall i :: 0 <= i < |out| && !(dst <= i < dst + 4) ==> out[i] == prev[i]
    ensures OutPixel(out, d) == OutPixel(prev, d)
  {
    forall i | d * 4 <= i < d * 4 + 4
      ensures out[i] == prev[i]
    {
    }
  }

  /**
    Output pixel `DestOf(s)` holds source pixel `s` with its channels
    reordered: blue, green, red (and alpha) are stored, red, green, blue,
    alpha are written, and 24-bit pixels are opaque.
  */
  lemma RgbaPixel(data: seq<Byte>, w: nat, h: nat, bpp: nat, flipRows: bool, flipCols: bool, s: nat)
    requires bpp == 3 || bpp == 4
    requires |data| == w * h * bpp && s < w * h
    ensures (PlacementInverts(s, w, h, flipRows, flipCols);
             PixelFits(s, w * h, bpp);
             var d := DestOf(s, w, h, flipRows, flipCols);
             var out := Rgba(data, w, h, bpp, flipRows, flipCols);
             out[d * 4] == data[s * bpp + 2] && out[d * 4 + 1] == data[s * bpp + 1] && out[d * 4 + 2] == data[s * bpp]
             && out[d * 4 + 3] == (if bpp == 4 then data[s * bpp + 3] else 255))
  {
    PlacementInverts(s, w, h, flipRows, flipCols);
    PixelFits(s, w * h, bpp);
    var d := DestOf(s, w, h, flipRows, flipCols);
    var out := Rgba(data, w, h, bpp, flipRows, flipCols);
    assert (d * 4) / 4 == d && (d * 4 + 1) / 4 == d && (d * 4 + 2) / 4 == d && (d * 4 + 3) / 4 == d;
  }

  /**
    Where a stored pixel goes: row `y` of the storage order becomes output
    row `h - 1 - y` when rows are flipped, column `x` becomes `w - 1 - x`
    when columns are flipped, and otherwise they stay.
  */
  lemma Placement(y: nat, x: nat, w: nat, h: nat, flipRows: bool, flipCols: bool)
    requires y < h && x < w
    ensures (Cell(y, x, w, h);
             DestOf(At(y, x, w), w, h, flipRows, flipCols)
             == At(if flipRows then h - 1 - y else y, if flipCols then w - 1 - x else x, w))
  {
    Cell(y, x, w, h);
  }

  /** A top-left image (descriptor bit 5 set, bit 4 clear) is copied in storage order. */
  lemma TopLeftInOrder(s: nat, w: nat, h: nat)
    requires s < w * h
    ensures DestOf(s, w, h, false, false) == s
  {
    CellOf(s, w, h);
  }

  /** The colour-map example: one colour-mapped true-colour pixel behind a two-entry, 24-bit colour map. */
  function MappedExample(): seq<Byte> {
    [0, 1, 2, 0, 0, 2, 0, 24, 0, 0, 0, 0, 1, 0, 1, 0, 24, 32]  // header: 1x1, 24 bits, top-left
    + [1, 2, 3, 4, 5, 6]                                        // colour map
    + [10, 20, 30]                                              // the pixel, stored B, G, R
  }

  /**
    Reading the colour-map length from bytes 7-8 and the entry size from
    byte 8 skips no colour map here (24 entries of 0 bits), so the decoder
    shows the colour map's first entry as the pixel (red 3 instead of 30);
    skipping the map as laid out decodes the stored pixel.
  */
  lemma ColorMapMisread()
    ensures var r := DecodeAsWritten(MappedExample());
            r.Ok? && |r.value.rgba| == 4 && r.value.rgba[0] == 3 && r.value.rgba[1] == 2 && r.value.rgba[2] == 1
    ensures var r := Decode(MappedExample());
            r.Ok? && |r.value.rgba| == 4 && r.value.rgba[0] == 30 && r.value.rgba[1] == 20 && r.value.rgba[2] == 10
  {
    var buf := MappedExample();
    var mapEntry, pixel := buf[18..21], buf[24..27];
    assert mapEntry == [1, 2, 3] && pixel == [10, 20, 30];
    MappedOffsets();
    FirstPixel(mapEntry, 1, 1, 3);
    FirstPixel(pixel, 1, 1, 3);
  }

  /** In the example the decoder reads its pixel from byte 18, right after the header; the colour map ends at byte 24. */
  lemma MappedOffsets()
    ensures DecodeAsWritten(MappedExample()) == Ok(Image(1, 1, Rgba(MappedExample()[18..21], 1, 1, 3, false, false)))
    ensures Decode(MappedExample()) == Ok(Image(1, 1, Rgba(MappedExample()[24..27], 1, 1, 3, false, false)))
  {
    var buf := MappedExample();
    var a := ReadHeaderAsWritten(buf).value;
    var h := ReadHeader(buf).value;
    assert a.colorMapLength == 24 && a.colorMapEntrySize == 0;
    assert PixelOffsetAsWritten(a) == 18.0;
    assert h.colorMapLength == 2 && h.colorMapEntrySize == 24;
    assert PixelOffset(h) == 24;
    assert !FlipRows(a) && !FlipCols(a) && !FlipRows(h) && !FlipCols(h);
  }

  /** The first output pixel of a top-left image is the first stored pixel, its red, green and blue reordered. */
  lemma FirstPixel(data: seq<Byte>, w: nat, h: nat, bpp: nat)
    requires bpp == 3 || bpp == 4
    requires 0 < w * h && |data| == w * h * bpp
    ensures var out := Rgba(data, w, h, bpp, false, false);
            out[0] == data[2] && out[1] == data[1] && out[2] == data[0]
  {
    TopLeftInOrder(0, w, h);
    PixelFits(0, w * h, bpp);
  }

  /** With the colour map skipped as laid out, the pixels are read from right after it. */
  lemma DecodeSkipsColorMap(buf: seq<Byte>)
    requires Decode(buf).Ok?
    ensures var h := ReadHeader(buf).value;
            var start := PixelOffset(h);
            var size := h.width * h.height * PixelBytes(h);
            start + size <= |buf|
            && Decode(buf).value.rgba == Rgba(buf[start..start + size], h.width, h.height, PixelBytes(h), FlipRows(h), FlipCols(h))
  {
  }
}
