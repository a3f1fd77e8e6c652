/** Same-scale source copy from RGB565 to 32 bits: the row copy by lanes of eight beside the copy pixel by pixel. */
module Blit {
  import opened Basics
  import opened Pixels

  // Where a copy of `width` by `height` pixels comes from and goes to.
  datatype Copy = Copy(outLeft: int, outTop: int, srcX: int, srcY: int, width: int, height: int)

  /** The colour of each source point, if it has one. */
  type Reader = Point -> Option<uint32>

  function ReaderOf(s: Bitmap, src: seq<byte>): Reader {
    (p: Point) => if Fits(s, |src|) then Read(s, src, p) else None
  }

  // ---- The copy pixel by pixel ----

  function DestBytes(pixel: uint32): (bytes: seq<byte>)
    ensures |bytes| == 4
  {
    [pixel % 256, pixel / 0x100 % 256, pixel / 0x1_0000 % 256, 0xff]
  }

  /** The writer of the copy itself, for 32 bits. */
  function WriteDest(d: Bitmap, dst: seq<byte>, q: Point, pixel: uint32): (r: seq<byte>)
    requires Fits(d, |dst|) && d.bpp == 32
    ensures |r| == |dst|
  {
    if !Inside(d, q) then dst
    else
      AtInside(d, |dst|, q);
      Put(dst, At(d, q), DestBytes(pixel))
  }

  lemma SplitColour(p: uint32)
    ensures Split(OPAQUE + p % COLOURS, 4) == DestBytes(p)
  {
    var v := OPAQUE + p % COLOURS;
    assert Split(v / 0x100_0000, 1) == [v / 0x100_0000 % 256] + Split(v / 0x100_0000 / 256, 0);
    assert Split(v / 0x1_0000, 2) == [v / 0x1_0000 % 256] + Split(v / 0x1_0000 / 256, 1);
    assert Split(v / 0x100, 3) == [v / 0x100 % 256] + Split(v / 0x100 / 256, 2);
    assert v / 0x100 / 256 == v / 0x1_0000 && v / 0x1_0000 / 256 == v / 0x100_0000;
    ColourBytes(p);
  }

  lemma ColourBytes(p: uint32)
    ensures var v := OPAQUE + p % COLOURS;
            && v % 256 == p % 256 && v / 0x100 % 256 == p / 0x100 % 256 && v / 0x1_0000 % 256 == p / 0x1_0000 % 256
            && v / 0x100_0000 == 0xff
  {
    var low, high := p % COLOURS, p / COLOURS;
    assert p == high * COLOURS + low;
    assert (OPAQUE + low) / 0x100 == 0xff_0000 + low / 0x100;
    assert (OPAQUE + low) / 0x1_0000 == 0xff00 + low / 0x1_0000;
    assert p / 0x100 == high * 0x1_0000 + low / 0x100;
    assert p / 0x1_0000 == high * 0x100 + low / 0x1_0000;
  }

  /** It stores what the general writer stores. */
  lemma WriteDestIsWrite(d: Bitmap, dst: seq<byte>, q: Point, pixel: uint32)
    requires Fits(d, |dst|) && d.bpp == 32
    ensures WriteDest(d, dst, q, pixel) == Write(d, dst, q, pixel)
  {
    SplitColour(pixel);
  }

  method StoreBlock(dst: array<byte>, at: nat, bytes: seq<byte>)
    requires at + |bytes| <= dst.Length
    modifies dst
    ensures dst[..] == Put(old(dst[..]), at, bytes)
  {
    forall i | 0 <= i < |bytes| {
      dst[at + i] := bytes[i];
    }
    PutIs(old(dst[..]), at, bytes);
  }

  method WriteDestPixel(d: Bitmap, dst: array<byte>, x: int, y: int, pixel: uint32)
    requires Fits(d, dst.Length) && d.bpp == 32
    modifies dst
    ensures dst[..] == WriteDest(d, old(dst[..]), Point(x, y), pixel)
  {
    if x < 0 || x >= d.width || y < 0 || y >= Height(d) || d.stride == 0 {
      return;
    }
    AtInside(d, dst.Length, Point(x, y));
    var row := RowOffset(d, y);
    StoreBlock(dst, row + x * 4, DestBytes(pixel));
  }

  method RowOffset(b: Bitmap, y: int) returns (at: nat)
    requires 0 <= y < Height(b)
    ensures at == RowStart(RowOf(b, y), b.stride)
  {
    var rowIndex := if b.heightRaw < 0 then y else Height(b) - 1 - y;
    RowStartIs(rowIndex, b.stride);
    at := rowIndex * b.stride;
  }

  /** One pixel, when it lies on both bitmaps. */
  function CopyPixel(d: Bitmap, dst: seq<byte>, read: Reader, c: Copy, x: int, y: int): (r: seq<byte>)
    requires Fits(d, |dst|) && d.bpp == 32
    ensures |r| == |dst|
  {
    var pixel := read(Point(c.srcX + x, c.srcY + y));
    if pixel.None? then dst else WriteDest(d, dst, Point(c.outLeft + x, c.outTop + y), pixel.value)
  }

  function CopySpan(d: Bitmap, dst: seq<byte>, read: Reader, c: Copy, y: int, from: int, end: int): (r: seq<byte>)
    requires Fits(d, |dst|) && d.bpp == 32
    ensures |r| == |dst|
    decreases end - from
  {
    if end <= from then dst else CopyPixel(d, CopySpan(d, dst, read, c, y, from, end - 1), read, c, end - 1, y)
  }

  function CopyRows(d: Bitmap, dst: seq<byte>, read: Reader, c: Copy, left: int, right: int, top: int, bottom: int): (r: seq<byte>)
    requires Fits(d, |dst|) && d.bpp == 32
    ensures |r| == |dst|
    decreases bottom - top
  {
    if bottom <= top then dst
    else CopySpan(d, CopyRows(d, dst, read, c, left, right, top, bottom - 1), read, c, bottom - 1, left, right)
  }

  /** The whole rectangle, every pixel checked against both bitmaps. */
  function Copied(d: Bitmap, dst: seq<byte>, s: Bitmap, src: seq<byte>, c: Copy): (r: seq<byte>)
    requires Fits(d, |dst|) && Fits(s, |src|) && d.bpp == 32
    ensures |r| == |dst|
  {
    CopyRows(d, dst, ReaderOf(s, src), c, 0, c.width, 0, c.height)
  }

  method CopyByPixel(d: Bitmap, dst: array<byte>, s: Bitmap, src: seq<byte>, c: Copy)
    requires Fits(d, dst.Length) && Fits(s, |src|) && d.bpp == 32
    modifies dst
    ensures dst[..] == Copied(d, old(dst[..]), s, src, c)
  {
    ghost var before := dst[..];
    var y := 0;
    while y < c.height
      invariant 0 <= y <= Max(0, c.height)
      invariant dst[..] == CopyRows(d, before, ReaderOf(s, src), c, 0, c.width, 0, y)
    {
      CopyRowByPixel(d, dst, ReaderOf(s, src), c, y);
      y := y + 1;
    }
    assert y == Max(0, c.height);
  }

  method CopyRowByPixel(d: Bitmap, dst: array<byte>, read: Reader, c: Copy, y: int)
    requires Fits(d, dst.Length) && d.bpp == 32
    modifies dst
    ensures dst[..] == CopySpan(d, old(dst[..]), read, c, y, 0, c.width)
  {
    ghost var row := dst[..];
    var x := 0;
    while x < c.width
      invariant 0 <= x <= Max(0, c.width)
      invariant dst[..] == CopySpan(d, row, read, c, y, 0, x)
    {
      SpanOneMore(d, row, read, c, y, 0, x, x + 1);
      var pixel := read(Point(c.srcX + x, c.srcY + y));
      if pixel.Some? {
        WriteDestPixel(d, dst, c.outLeft + x, c.outTop + y, pixel.value);
      }
      x := x + 1;
    }
    assert x == Max(0, c.width);
  }

  lemma SpanOneMore(d: Bitmap, dst: seq<byte>, read: Reader, c: Copy, y: int, from: int, x: int, next: int)
    requires Fits(d, |dst|) && d.bpp == 32 && from <= x && next == x + 1
    ensures CopySpan(d, dst, read, c, y, from, next) == CopyPixel(d, CopySpan(d, dst, read, c, y, from, x), read, c, x, y)
  {
  }

  // ---- Clipping ----

  /** A pixel off either bitmap copies nothing. */
  predicate Misses(d: Bitmap, read: Reader, c: Copy, x: int, y: int) {
    read(Point(c.srcX + x, c.srcY + y)).None? || !Inside(d, Point(c.outLeft + x, c.outTop + y))
  }

  lemma {:induction false} ClipSpan(d: Bitmap, dst: seq<byte>, read: Reader, c: Copy, y: int, left: nat, right: int, w: nat)
    requires Fits(d, |dst|) && d.bpp == 32
    requires forall x | 0 <= x < w && !(left <= x < right) :: Misses(d, read, c, x, y)
    ensures CopySpan(d, dst, read, c, y, 0, w) == CopySpan(d, dst, read, c, y, left, Min(w, right))
  {
    if w <= 0 {
    } else {
      ClipSpan(d, dst, read, c, y, left, right, w - 1);
      if !(left <= w - 1 < right) {
        assert Misses(d, read, c, w - 1, y);
      }
    }
  }

  lemma {:induction false} ClipRows(d: Bitmap, dst: seq<byte>, read: Reader, c: Copy,
                                    left: nat, right: int, top: nat, bottom: int, h: nat)
    requires Fits(d, |dst|) && d.bpp == 32 && right <= Max(0, c.width)
    requires forall x, y | 0 <= x < c.width && 0 <= y < h && !(left <= x < right && top <= y < bottom) :: Misses(d, read, c, x, y)
    ensures CopyRows(d, dst, read, c, 0, c.width, 0, h) == CopyRows(d, dst, read, c, left, right, top, Min(h, bottom))
  {
    if h <= 0 {
    } else {
      ClipRows(d, dst, read, c, left, right, top, bottom, h - 1);
      var rows := CopyRows(d, dst, read, c, 0, c.width, 0, h - 1);
      var end := if top <= h - 1 < bottom then right else 0;
      ClipSpan(d, rows, read, c, h - 1, left, end, Max(0, c.width));
    }
  }

  // ---- The copy by lanes ----

  function Word(src: seq<byte>, at: nat): uint16
    requires at + 2 <= |src|
  {
    var low: nat, high: nat := src[at], src[at + 1];
    low + 256 * high
  }

  /** What one lane computes: the top field needs no mask, the others do. */
  function Lane(value: uint16): uint32 {
    var r5, g6, b5 := value / 0x800, value / 0x20 % 64, value % 32;
    OPAQUE + (r5 * 8 + r5 / 4) * 0x1_0000 + ((g6 * 4 + g6 / 16) * 0x100 + (b5 * 8 + b5 / 4))
  }

  lemma LaneIsDecode(value: uint16)
    ensures Lane(value) == DecodeRgb565(value)
  {
    var r5 := value / 0x800;
    assert r5 % 32 == r5;
  }

  lemma LaneBytes(value: uint16)
    ensures Split(Lane(value), 4) == DestBytes(DecodeRgb565(value))
  {
    LaneIsDecode(value);
    OpaqueColour(DecodeRgb565(value) - OPAQUE);
    SplitColour(DecodeRgb565(value));
  }

  /** How a 16-bit word becomes a colour. */
  type Decoder = uint16 -> uint32

  /** The bytes of `n` converted words. */
  function Block(src: seq<byte>, at: nat, n: nat, decode: Decoder): (bytes: seq<byte>)
    requires at + 2 * n <= |src|
    ensures |bytes| == 4 * n
  {
    if n == 0 then [] else Block(src, at, n - 1, decode) + DestBytes(decode(Word(src, at + 2 * (n - 1))))
  }

  lemma PutTwice(s: seq<byte>, at: nat, a: seq<byte>, b: seq<byte>)
    requires at + |a| + |b| <= |s|
    ensures Put(Put(s, at, a), at + |a|, b) == Put(s, at, a + b)
  {
    PutIs(s, at, a);
    PutIs(Put(s, at, a), at + |a|, b);
    PutIs(s, at, a + b);
  }

  /** `n` words converted one after the other. */
  function Converted(dst: seq<byte>, at: nat, src: seq<byte>, from: nat, n: nat, decode: Decoder): (r: seq<byte>)
    requires from + 2 * n <= |src| && at + 4 * n <= |dst|
    ensures |r| == |dst|
  {
    if n == 0 then dst
    else Put(Converted(dst, at, src, from, n - 1, decode), at + 4 * (n - 1), DestBytes(decode(Word(src, from + 2 * (n - 1)))))
  }

  lemma ConvertedExtends(dst: seq<byte>, at: nat, src: seq<byte>, from: nat, n: nat, decode: Decoder, front: seq<byte>, r: seq<byte>)
    requires n > 0 && from + 2 * n <= |src| && at + 4 * n <= |dst| && front == Converted(dst, at, src, from, n - 1, decode)
    requires r == Put(front, at + 4 * (n - 1), DestBytes(decode(Word(src, from + 2 * (n - 1)))))
    ensures r == Converted(dst, at, src, from, n, decode)
  {
  }

  /** A block of them stored at once is the same as one by one. */
  lemma {:induction false} ConvertedBlock(dst: seq<byte>, at: nat, src: seq<byte>, from: nat, x: nat, k: nat, decode: Decoder)
    returns (r: seq<byte>)
    requires from + 2 * (x + k) <= |src| && at + 4 * (x + k) <= |dst|
    ensures r == Put(Converted(dst, at, src, from, x, decode), at + 4 * x, Block(src, from + 2 * x, k, decode))
    ensures r == Converted(dst, at, src, from, x + k, decode)
  {
    var before := Converted(dst, at, src, from, x, decode);
    if k == 0 {
      r := before;
    } else {
      var front := ConvertedBlock(dst, at, src, from, x, k - 1, decode);
      var bytes := DestBytes(decode(Word(src, from + 2 * (x + k - 1))));
      r := Put(front, at + 4 * (x + k - 1), bytes);
      PutTwice(before, at + 4 * x, Block(src, from + 2 * x, k - 1, decode), bytes);
      ConvertedExtends(dst, at, src, from, x + k, decode, front, r);
    }
  }

  /** The vector step: the same arithmetic on eight words side by side. */
  method EightLanes(src: seq<byte>, at: nat) returns (block: seq<byte>)
    requires at + 16 <= |src|
    ensures block == Block(src, at, 8, DecodeRgb565)
  {
    block := [];
    for i := 0 to 8
      invariant block == Block(src, at, i, DecodeRgb565)
    {
      LaneBytes(Word(src, at + 2 * i));
      block := block + Split(Lane(Word(src, at + 2 * i)), 4);
    }
  }

  /** Eight lanes at a time, then the tail one by one. */
  method ConvertRgb565ToBgra32(src: seq<byte>, from: nat, dst: array<byte>, at: nat, pixels: nat)
    requires from + 2 * pixels <= |src| && at + 4 * pixels <= dst.Length
    modifies dst
    ensures dst[..] == Converted(old(dst[..]), at, src, from, pixels, DecodeRgb565)
  {
    ghost var before := dst[..];
    var x := 0;
    while x + 8 <= pixels
      invariant 0 <= x <= pixels && dst[..] == Converted(before, at, src, from, x, DecodeRgb565)
    {
      ConvertEight(src, from, dst, at, x, before);
      x := x + 8;
    }
    ConvertTail(src, from, dst, at, x, pixels, DecodeRgb565, before);
  }

  method ConvertEight(src: seq<byte>, from: nat, dst: array<byte>, at: nat, x: nat, ghost before: seq<byte>)
    requires from + 2 * (x + 8) <= |src| && at + 4 * (x + 8) <= dst.Length == |before|
    requires dst[..] == Converted(before, at, src, from, x, DecodeRgb565)
    modifies dst
    ensures dst[..] == Converted(before, at, src, from, x + 8, DecodeRgb565)
  {
    var block := EightLanes(src, from + 2 * x);
    StoreConverted(src, from, dst, at, x, block, DecodeRgb565, before);
  }

  method StoreConverted(src: seq<byte>, from: nat, dst: array<byte>, at: nat, x: nat, block: seq<byte>,
                        ghost decode: Decoder, ghost before: seq<byte>)
    requires from + 2 * (x + 8) <= |src| && at + 4 * (x + 8) <= dst.Length == |before|
    requires dst[..] == Converted(before, at, src, from, x, decode) && block == Block(src, from + 2 * x, 8, decode)
    modifies dst
    ensures dst[..] == Converted(before, at, src, from, x + 8, decode)
  {
    ghost var converted := ConvertedBlock(before, at, src, from, x, 8, decode);
    StoreBlock(dst, at + 4 * x, block);
    assert dst[..] == converted;
  }

  method ConvertTail(src: seq<byte>, from: nat, dst: array<byte>, at: nat, first: nat, pixels: nat, decode: Decoder,
                     ghost before: seq<byte>)
    requires from + 2 * pixels <= |src| && at + 4 * pixels <= dst.Length == |before| && first <= pixels
    requires dst[..] == Converted(before, at, src, from, first, decode)
    modifies dst
    ensures dst[..] == Converted(before, at, src, from, pixels, decode)
  {
    var x := first;
    while x < pixels
      invariant first <= x <= pixels && dst[..] == Converted(before, at, src, from, x, decode)
    {
      StoreBlock(dst, at + 4 * x, DestBytes(decode(Word(src, from + 2 * x))));
      x := x + 1;
    }
    assert x == pixels;
  }

  // ---- Both copies agree ----

  lemma AtAlong(b: Bitmap, x: int, y: int, k: nat)
    requires Inside(b, Point(x, y)) && Inside(b, Point(x + k, y)) && (b.bpp == 16 || b.bpp == 32)
    ensures At(b, Point(x + k, y)) == At(b, Point(x, y)) + k * Bytes(b)
  {
  }

  /** The source's colours along one row of words. */
  ghost predicate ReadsRow(read: Reader, x: int, y: int, n: nat, src: seq<byte>, from: nat, decode: Decoder)
    requires from + 2 * n <= |src|
  {
    forall k: nat | k < n ::
      read(Point(x + k, y)) == Some(decode(Word(src, from + 2 * k)))
  }

  /** A run of pixels on both bitmaps, copied one by one, is one conversion of the row's words. */
  lemma {:induction false} SpanIsConversion(d: Bitmap, dst: seq<byte>, read: Reader, src: seq<byte>, c: Copy, y: int,
                                            left: int, end: int, n: nat, from: nat, at: nat, decode: Decoder)
    returns (r: seq<byte>)
    requires Fits(d, |dst|) && d.bpp == 32 && end == left + n && from + 2 * n <= |src| && at + 4 * n <= |dst|
    requires ReadsRow(read, c.srcX + left, c.srcY + y, n, src, from, decode)
    requires Inside(d, Point(c.outLeft + left, c.outTop + y)) && at == At(d, Point(c.outLeft + left, c.outTop + y))
    requires n > 0 ==> Inside(d, Point(c.outLeft + end - 1, c.outTop + y))
    ensures r == CopySpan(d, dst, read, c, y, left, end)
    ensures r == Converted(dst, at, src, from, n, decode)
    decreases n
  {
    r := dst;
    if n > 0 {
      var front := SpanIsConversion(d, dst, read, src, c, y, left, end - 1, n - 1, from, at, decode);
      r := StepIsConversion(d, front, read, src, c, y, left, end - 1, n - 1, from, at, decode);
      SpanExtends(d, dst, read, c, y, left, end, front, r);
      ConvertedExtends(dst, at, src, from, n, decode, front, r);
    }
  }

  lemma SpanExtends(d: Bitmap, dst: seq<byte>, read: Reader, c: Copy, y: int, left: int, end: int, front: seq<byte>, r: seq<byte>)
    requires Fits(d, |dst|) && d.bpp == 32 && left < end && front == CopySpan(d, dst, read, c, y, left, end - 1)
    requires r == CopyPixel(d, front, read, c, end - 1, y)
    ensures r == CopySpan(d, dst, read, c, y, left, end)
  {
  }

  lemma StepIsConversion(d: Bitmap, dst: seq<byte>, read: Reader, src: seq<byte>, c: Copy, y: int,
                         left: int, x: int, k: nat, from: nat, at: nat, decode: Decoder) returns (r: seq<byte>)
    requires Fits(d, |dst|) && d.bpp == 32 && x == left + k && from + 2 * (k + 1) <= |src| && at + 4 * (k + 1) <= |dst|
    requires ReadsRow(read, c.srcX + left, c.srcY + y, k + 1, src, from, decode)
    requires Inside(d, Point(c.outLeft + left, c.outTop + y)) && at == At(d, Point(c.outLeft + left, c.outTop + y))
    requires Inside(d, Point(c.outLeft + x, c.outTop + y))
    ensures r == CopyPixel(d, dst, read, c, x, y)
    ensures r == Put(dst, at + 4 * k, DestBytes(decode(Word(src, from + 2 * k))))
  {
    AtAlong(d, c.outLeft + left, c.outTop + y, k);
    var p := decode(Word(src, from + 2 * k));
    assert read(Point(c.srcX + left + k, c.srcY + y)) == Some(p);
    r := Put(dst, at + 4 * k, DestBytes(p));
  }

  lemma JoinWord(src: seq<byte>, at: nat)
    requires at + 2 <= |src|
    ensures Join(src[at..at + 2]) == Word(src, at)
  {
    var word := src[at..at + 2];
    assert word[1..] == [src[at + 1]];
    assert Join(word[1..]) == src[at + 1] + 256 * Join([]);
  }

  lemma ReadsWord(s: Bitmap, src: seq<byte>, q: Point, from: nat)
    requires Fits(s, |src|) && s.bpp == 16 && IsRgb565(s) && Inside(s, q) && from == At(s, q) && from + 2 <= |src|
    ensures ReaderOf(s, src)(q) == Some(DecodeRgb565(Word(src, from)))
  {
    JoinWord(src, from);
    WordUnchanged(Word(src, from));
  }

  /** A row of an RGB565 bitmap reads word by word. */
  lemma RowReads(s: Bitmap, src: seq<byte>, x: int, y: int, n: nat, from: nat)
    requires Fits(s, |src|) && s.bpp == 16 && IsRgb565(s) && n > 0 && from + 2 * n <= |src|
    requires Inside(s, Point(x, y)) && Inside(s, Point(x + n - 1, y)) && from == At(s, Point(x, y))
    ensures ReadsRow(ReaderOf(s, src), x, y, n, src, from, DecodeRgb565)
  {
    forall k: nat | k < n
      ensures ReaderOf(s, src)(Point(x + k, y)) == Some(DecodeRgb565(Word(src, from + 2 * k)))
    {
      AtAlong(s, x, y, k);
      ReadsWord(s, src, Point(x + k, y), from + 2 * k);
    }
  }

  /** The rows of the clipped rectangle, each converted in one go. */
  method CopyByRow(d: Bitmap, dst: array<byte>, s: Bitmap, src: seq<byte>, c: Copy) returns (done: bool)
    requires Fits(d, dst.Length) && Fits(s, |src|) && d.stride != 0 && s.stride != 0
    modifies dst
    ensures done <==> s.bpp == 16 && IsRgb565(s) && d.bpp == 32 && c.width > 0 && c.height > 0
    ensures !done ==> dst[..] == old(dst[..])
    ensures done ==> dst[..] == Copied(d, old(dst[..]), s, src, c)
  {
    if s.bpp != 16 || !IsRgb565(s) || d.bpp != 32 || c.width <= 0 || c.height <= 0 {
      return false;
    }
    var copyLeft := Max(0, Max(-c.outLeft, -c.srcX));
    var copyTop := Max(0, Max(-c.outTop, -c.srcY));
    var copyRight := Min(c.width, Min(d.width - c.outLeft, s.width - c.srcX));
    var copyBottom := Min(c.height, Min(Height(d) - c.outTop, Height(s) - c.srcY));
    ghost var before, read := dst[..], ReaderOf(s, src);
    ClipIsExact(d, s, src, c, copyLeft, copyRight, copyTop, copyBottom);
    ClipRows(d, before, read, c, copyLeft, copyRight, copyTop, copyBottom, c.height);
    if copyRight <= copyLeft || copyBottom <= copyTop {
      NothingToCopy(d, before, read, c, copyLeft, copyRight, copyTop, copyBottom);
      return true;
    }
    CopyClipped(d, dst, s, src, c, copyLeft, copyRight, copyTop, copyBottom);
    return true;
  }

  lemma RowsOneMore(d: Bitmap, dst: seq<byte>, read: Reader, c: Copy, left: int, right: int, top: int, y: int, next: int)
    requires Fits(d, |dst|) && d.bpp == 32 && top <= y && next == y + 1
    ensures CopyRows(d, dst, read, c, left, right, top, next)
         == CopySpan(d, CopyRows(d, dst, read, c, left, right, top, y), read, c, y, left, right)
  {
  }

  method CopyClipped(d: Bitmap, dst: array<byte>, s: Bitmap, src: seq<byte>, c: Copy, left: int, right: int, top: int, bottom: int)
    requires Fits(d, dst.Length) && Fits(s, |src|) && d.bpp == 32 && s.bpp == 16 && IsRgb565(s)
    requires left < right && top < bottom
    requires Inside(s, Point(c.srcX + left, c.srcY + top)) && Inside(s, Point(c.srcX + right - 1, c.srcY + bottom - 1))
    requires Inside(d, Point(c.outLeft + left, c.outTop + top)) && Inside(d, Point(c.outLeft + right - 1, c.outTop + bottom - 1))
    modifies dst
    ensures dst[..] == CopyRows(d, old(dst[..]), ReaderOf(s, src), c, left, right, top, bottom)
  {
    ghost var before := dst[..];
    var y := top;
    while y < bottom
      invariant top <= y <= bottom
      invariant dst[..] == CopyRows(d, before, ReaderOf(s, src), c, left, right, top, y)
    {
      RowsOneMore(d, before, ReaderOf(s, src), c, left, right, top, y, y + 1);
      CopyRow(d, dst, s, src, c, y, left, right);
      y := y + 1;
    }
    assert y == bottom;
  }

  /** The clipped rectangle is exactly the pixels that lie on both bitmaps. */
  lemma ClipIsExact(d: Bitmap, s: Bitmap, src: seq<byte>, c: Copy, left: int, right: int, top: int, bottom: int)
    requires d.stride != 0 && s.stride != 0 && s.bpp == 16 && Fits(s, |src|)
    requires left == Max(0, Max(-c.outLeft, -c.srcX)) && top == Max(0, Max(-c.outTop, -c.srcY))
    requires right == Min(c.width, Min(d.width - c.outLeft, s.width - c.srcX))
    requires bottom == Min(c.height, Min(Height(d) - c.outTop, Height(s) - c.srcY))
    ensures forall x, y | 0 <= x < c.width && 0 <= y < c.height ::
              Misses(d, ReaderOf(s, src), c, x, y) <==> !(left <= x < right && top <= y < bottom)
  {
    forall x, y | 0 <= x < c.width && 0 <= y < c.height
      ensures Misses(d, ReaderOf(s, src), c, x, y) <==> !(left <= x < right && top <= y < bottom)
    {
      assert ReaderOf(s, src)(Point(c.srcX + x, c.srcY + y)).None? <==> !Inside(s, Point(c.srcX + x, c.srcY + y));
    }
  }

  lemma {:induction false} NothingToCopy(d: Bitmap, dst: seq<byte>, read: Reader, c: Copy, left: int, right: int, top: int, bottom: int)
    requires Fits(d, |dst|) && d.bpp == 32 && (right <= left || bottom <= top)
    ensures CopyRows(d, dst, read, c, left, right, top, bottom) == dst
    decreases bottom - top
  {
    if bottom <= top {
    } else {
      NothingToCopy(d, dst, read, c, left, right, top, bottom - 1);
    }
  }

  method CopyRow(d: Bitmap, dst: array<byte>, s: Bitmap, src: seq<byte>, c: Copy, y: int, copyLeft: int, copyRight: int)
    requires Fits(d, dst.Length) && Fits(s, |src|) && d.bpp == 32 && s.bpp == 16 && IsRgb565(s) && copyLeft < copyRight
    requires Inside(s, Point(c.srcX + copyLeft, c.srcY + y)) && Inside(s, Point(c.srcX + copyRight - 1, c.srcY + y))
    requires Inside(d, Point(c.outLeft + copyLeft, c.outTop + y)) && Inside(d, Point(c.outLeft + copyRight - 1, c.outTop + y))
    modifies dst
    ensures dst[..] == CopySpan(d, old(dst[..]), ReaderOf(s, src), c, y, copyLeft, copyRight)
  {
    var copyWidth := copyRight - copyLeft;
    var sy, dy := c.srcY + y, c.outTop + y;
    var sx, dx := c.srcX + copyLeft, c.outLeft + copyLeft;
    var srcRow := RowOffset(s, sy);
    var dstRow := RowOffset(d, dy);
    var from, at := srcRow + sx * 2, dstRow + dx * 4;
    RowFits(s, |src|, sx, sy, copyWidth);
    RowFits(d, dst.Length, dx, dy, copyWidth);
    RowReads(s, src, sx, sy, copyWidth, from);
    ghost var copied := SpanIsConversion(d, dst[..], ReaderOf(s, src), src, c, y, copyLeft, copyRight, copyWidth, from, at, DecodeRgb565);
    ConvertRgb565ToBgra32(src, from, dst, at, copyWidth);
  }

  lemma RowFits(b: Bitmap, size: nat, x: int, y: int, n: nat)
    requires Fits(b, size) && n > 0 && Inside(b, Point(x, y)) && Inside(b, Point(x + n - 1, y)) && (b.bpp == 16 || b.bpp == 32)
    ensures At(b, Point(x, y)) + n * Bytes(b) <= size
  {
    AtInside(b, size, Point(x + (n - 1), y));
    AtAlong(b, x, y, n - 1);
  }

  // ---- What a copy means ----

  /** The colour a destination pixel takes from this part of the rectangle, or else the one it had. */
  function Taken(d: Bitmap, dst: seq<byte>, read: Reader, c: Copy, q: Point, left: int, right: int, top: int, bottom: int): Option<uint32>
    requires Fits(d, |dst|)
  {
    var x, y := q.x - c.outLeft, q.y - c.outTop;
    var p := read(Point(c.srcX + x, c.srcY + y));
    if left <= x < right && top <= y < bottom && Inside(d, q) && p.Some? then Some(OPAQUE + p.value % COLOURS)
    else Read(d, dst, q)
  }

  lemma CopyPixelIs(d: Bitmap, dst: seq<byte>, read: Reader, c: Copy, x: int, y: int, q: Point)
    requires Fits(d, |dst|) && d.bpp == 32
    ensures Read(d, CopyPixel(d, dst, read, c, x, y), q) == Taken(d, dst, read, c, q, x, x + 1, y, y + 1)
  {
    var p := read(Point(c.srcX + x, c.srcY + y));
    if p.Some? {
      var at := Point(c.outLeft + x, c.outTop + y);
      WriteDestIsWrite(d, dst, at, p.value);
      StoreLaw(d, dst, at, p.value, q);
    }
  }

  lemma {:induction false} CopySpanIs(d: Bitmap, dst: seq<byte>, read: Reader, c: Copy, y: int, left: int, right: int, q: Point)
    requires Fits(d, |dst|) && d.bpp == 32
    ensures Read(d, CopySpan(d, dst, read, c, y, left, right), q) == Taken(d, dst, read, c, q, left, right, y, y + 1)
    decreases right - left
  {
    if right <= left {
    } else {
      CopySpanIs(d, dst, read, c, y, left, right - 1, q);
      CopyPixelIs(d, CopySpan(d, dst, read, c, y, left, right - 1), read, c, right - 1, y, q);
    }
  }

  lemma {:induction false} CopyRowsIs(d: Bitmap, dst: seq<byte>, read: Reader, c: Copy,
                                      left: int, right: int, top: int, bottom: int, q: Point)
    requires Fits(d, |dst|) && d.bpp == 32
    ensures Read(d, CopyRows(d, dst, read, c, left, right, top, bottom), q) == Taken(d, dst, read, c, q, left, right, top, bottom)
    decreases bottom - top
  {
    if bottom <= top {
    } else {
      CopyRowsIs(d, dst, read, c, left, right, top, bottom - 1, q);
      CopySpanIs(d, CopyRows(d, dst, read, c, left, right, top, bottom - 1), read, c, bottom - 1, left, right, q);
    }
  }

  /**
   * After either copy, every destination pixel inside the rectangle whose source point
   * exists shows that point's colour, opaque; every other one is as it was.
   */
  lemma CopiedIs(d: Bitmap, dst: seq<byte>, s: Bitmap, src: seq<byte>, c: Copy, q: Point)
    requires Fits(d, |dst|) && Fits(s, |src|) && d.bpp == 32
    ensures var x, y := q.x - c.outLeft, q.y - c.outTop; var p := Read(s, src, Point(c.srcX + x, c.srcY + y));
            Read(d, Copied(d, dst, s, src, c), q) ==
            if 0 <= x < c.width && 0 <= y < c.height && Inside(d, q) && p.Some? then Some(OPAQUE + p.value % COLOURS)
            else Read(d, dst, q)
  {
    CopyRowsIs(d, dst, ReaderOf(s, src), c, 0, c.width, 0, c.height, q);
  }
}
