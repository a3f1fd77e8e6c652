/**
 * Packed pixels of guest bitmaps at 1, 4, 8, 16, 24 and 32 bits each, and what is
 * painted with them. Fields joined by shift and or are written as sums of disjoint fields.
 */
module Pixels {
  import opened Basics

  // What 16-bit masks other than 565 and 555 do; everything here holds for any such codec.
  datatype MaskCodec = MaskCodec(decode: (uint16, uint32, uint32, uint32) -> uint32,
                                 encode: (uint32, uint32, uint32, uint32) -> uint16)

  datatype Bitmap = Bitmap(
    width: int, heightRaw: int, stride: nat, bpp: nat,
    redMask: uint32, greenMask: uint32, blueMask: uint32, palette: seq<uint32>, masked: MaskCodec)

  datatype Point = Point(x: int, y: int)

  const OPAQUE: uint32 := 0xff00_0000
  const COLOURS := 0x100_0000

  // ---- Colour codecs ----

  function Expand5To8(value: nat): byte { value % 32 * 8 + value % 32 / 4 }

  function Expand6To8(value: nat): byte { value % 64 * 4 + value % 64 / 16 }

  function Argb(r: byte, g: byte, b: byte): uint32 { OPAQUE + r * 0x1_0000 + g * 0x100 + b }

  function DecodeRgb555(value: uint16): uint32 {
    Argb(Expand5To8(value / 0x400), Expand5To8(value / 0x20), Expand5To8(value))
  }

  function EncodeRgb555(pixel: uint32): uint16 {
    pixel / 0x8_0000 % 32 * 0x400 + pixel / 0x800 % 32 * 0x20 + pixel / 8 % 32
  }

  function DecodeRgb565(value: uint16): uint32 {
    Argb(Expand5To8(value / 0x800), Expand6To8(value / 0x20), Expand5To8(value))
  }

  function EncodeRgb565(pixel: uint32): uint16 {
    pixel / 0x8_0000 % 32 * 0x800 + pixel / 0x400 % 64 * 0x20 + pixel / 8 % 32
  }

  predicate IsRgb565(b: Bitmap) {
    (b.redMask == 0 && b.greenMask == 0 && b.blueMask == 0) ||
    (b.redMask == 0xf800 && b.greenMask == 0x07e0 && b.blueMask == 0x001f)
  }

  predicate IsRgb555(b: Bitmap) {
    b.redMask == 0x7c00 && b.greenMask == 0x03e0 && b.blueMask == 0x001f
  }

  function DecodeBitmap16(b: Bitmap, value: uint16): uint32 {
    if IsRgb565(b) then DecodeRgb565(value)
    else if IsRgb555(b) then DecodeRgb555(value)
    else b.masked.decode(value, b.redMask, b.greenMask, b.blueMask)
  }

  function EncodeBitmap16(b: Bitmap, pixel: uint32): uint16 {
    if IsRgb565(b) then EncodeRgb565(pixel)
    else if IsRgb555(b) then EncodeRgb555(pixel)
    else b.masked.encode(pixel, b.redMask, b.greenMask, b.blueMask)
  }

  // ---- Palettes ----

  function Square(d: int): (r: nat)
    requires -255 <= d <= 255
    ensures r <= 0xfe01
  {
    SquareBound(d);
    d * d
  }

  lemma SquareBound(d: int)
    requires -255 <= d <= 255
    ensures 0 <= d * d <= 0xfe01
  {
    var a: nat := Abs(d);
    MulMonotone(a, 255, a);
    MulMonotone(a, 255, 255);
    assert d * d == a * a;
  }

  /** How far apart two colours are. */
  function Distance(p: uint32, q: uint32): (r: nat)
    ensures r < 0xffff_ffff
  {
    Square(p / 0x1_0000 % 256 - q / 0x1_0000 % 256) + Square(p / 0x100 % 256 - q / 0x100 % 256) + Square(p % 256 - q % 256)
  }

  /** The distance is the sum of the squared differences of red, green and blue; the top byte has no part in it. */
  lemma DistanceIs(p: uint32, q: uint32, a: int, r: int, g: int, b: int, a': int, r': int, g': int, b': int)
    requires p == a * 0x100_0000 + r * 0x1_0000 + g * 0x100 + b
    requires q == a' * 0x100_0000 + r' * 0x1_0000 + g' * 0x100 + b'
    requires 0 <= a && 0 <= r < 256 && 0 <= g < 256 && 0 <= b < 256
    requires 0 <= a' && 0 <= r' < 256 && 0 <= g' < 256 && 0 <= b' < 256
    ensures Distance(p, q) == (r - r') * (r - r') + (g - g') * (g - g') + (b - b') * (b - b')
  {
    ColourFields(p, a, r, g, b);
    ColourFields(q, a', r', g', b');
  }

  lemma ColourFields(p: uint32, a: nat, r: nat, g: nat, b: nat)
    requires p == a * 0x100_0000 + r * 0x1_0000 + g * 0x100 + b && r < 256 && g < 256 && b < 256
    ensures p / 0x1_0000 % 256 == r && p / 0x100 % 256 == g && p % 256 == b
  {
    assert p / 0x1_0000 == a * 256 + r;
    assert p / 0x100 == (a * 256 + r) * 256 + g;
  }

  predicate IsNearest(palette: seq<uint32>, limit: nat, pixel: uint32, i: nat) {
    && i < limit <= |palette|
    && (forall j | 0 <= j < limit :: Distance(palette[i], pixel) <= Distance(palette[j], pixel))
    && (forall j | 0 <= j < i :: Distance(palette[i], pixel) < Distance(palette[j], pixel))
  }

  function Nearest(palette: seq<uint32>, limit: nat, pixel: uint32): (i: nat)
    requires 0 < limit <= |palette|
    ensures i < limit
  {
    if limit == 1 then 0
    else
      var k := Nearest(palette, limit - 1, pixel);
      if Distance(palette[limit - 1], pixel) < Distance(palette[k], pixel) then limit - 1 else k
  }

  /** It is the lowest index among the nearest of the first `limit` palette entries. */
  lemma {:induction false} NearestIsNearest(palette: seq<uint32>, limit: nat, pixel: uint32)
    requires 0 < limit <= |palette|
    ensures IsNearest(palette, limit, pixel, Nearest(palette, limit, pixel))
  {
    if limit > 1 {
      NearestIsNearest(palette, limit - 1, pixel);
    }
  }

  /** And the only one. */
  lemma NearestIs(palette: seq<uint32>, limit: nat, pixel: uint32, i: nat)
    requires IsNearest(palette, limit, pixel, i)
    ensures Nearest(palette, limit, pixel) == i
  {
    NearestIsNearest(palette, limit, pixel);
    var k := Nearest(palette, limit, pixel);
    assert !(k < i) && !(i < k);
  }

  function PalettePixel(palette: seq<uint32>, index: nat): uint32 {
    if palette == [] then OPAQUE else palette[if index >= |palette| then |palette| - 1 else index]
  }

  // ---- Where a pixel lies ----

  function Height(b: Bitmap): nat { Abs(b.heightRaw) }

  /** Where a row starts: `row * stride`, unfolded so that no product has to be reasoned about. */
  function RowStart(row: nat, stride: nat): nat {
    if row == 0 then 0 else RowStart(row - 1, stride) + stride
  }

  lemma {:induction false} RowStartIs(row: nat, stride: nat)
    ensures RowStart(row, stride) == row * stride
  {
    if row == 0 {
    } else {
      RowStartIs(row - 1, stride);
      assert row * stride == (row - 1) * stride + stride;
    }
  }

  /** The bits a row of pixels takes; other depths are not supported. */
  function RowBits(b: Bitmap): int {
    if b.bpp == 32 then 32 * b.width else if b.bpp == 24 then 24 * b.width else if b.bpp == 16 then 16 * b.width
    else if b.bpp == 8 then 8 * b.width else if b.bpp == 4 then 4 * b.width else if b.bpp == 1 then b.width else 0
  }

  /** The rows fit their stride and the bytes hold every row. */
  predicate Fits(b: Bitmap, size: nat) {
    RowBits(b) <= 8 * b.stride && size == RowStart(Height(b), b.stride)
  }

  predicate Inside(b: Bitmap, p: Point) {
    0 <= p.x < b.width && 0 <= p.y < Height(b) && b.stride != 0
  }

  predicate Indexed(b: Bitmap) {
    (b.bpp == 8 || b.bpp == 4 || b.bpp == 1) && b.palette != []
  }

  predicate Supported(b: Bitmap) {
    b.bpp == 32 || b.bpp == 24 || b.bpp == 16 || Indexed(b)
  }

  function PaletteLimit(b: Bitmap): nat {
    Min(if b.bpp == 8 then 256 else if b.bpp == 4 then 16 else 2, |b.palette|)
  }

  function RowOf(b: Bitmap, y: int): int {
    if b.heightRaw < 0 then y else Height(b) - 1 - y
  }

  function Column(b: Bitmap, x: nat): nat {
    if b.bpp == 32 then x * 4 else if b.bpp == 24 then x * 3 else if b.bpp == 16 then x * 2
    else if b.bpp == 8 then x else if b.bpp == 4 then x / 2 else x / 8
  }

  function Bytes(b: Bitmap): nat {
    if b.bpp == 32 then 4 else if b.bpp == 24 then 3 else if b.bpp == 16 then 2 else 1
  }

  function At(b: Bitmap, p: Point): nat
    requires Inside(b, p)
  {
    RowStart(RowOf(b, p.y), b.stride) + Column(b, p.x)
  }

  /** The bytes of one pixel stay inside its own row. */
  lemma AtInside(b: Bitmap, size: nat, p: Point)
    requires Inside(b, p) && Fits(b, size) && Supported(b)
    ensures Column(b, p.x) + Bytes(b) <= b.stride && At(b, p) + Bytes(b) <= size
  {
    RowBelow(RowOf(b, p.y), Height(b), b.stride);
  }

  lemma {:induction false} RowBelow(row: nat, rows: nat, stride: nat)
    requires row < rows
    ensures RowStart(row, stride) + stride <= RowStart(rows, stride)
    decreases rows - row
  {
    if row + 1 < rows {
      RowBelow(row + 1, rows, stride);
    }
  }

  // ---- Raw pixel values ----

  function Split(v: nat, n: nat): (bytes: seq<byte>)
    ensures |bytes| == n
  {
    if n == 0 then [] else [v % 256] + Split(v / 256, n - 1)
  }

  function Join(bytes: seq<byte>): nat {
    if bytes == [] then 0 else bytes[0] + 256 * Join(bytes[1..])
  }

  function Range(n: nat): (r: nat)
    ensures r > 0
  {
    if n == 0 then 1 else 256 * Range(n - 1)
  }

  lemma {:induction false} JoinSplit(v: nat, n: nat)
    requires v < Range(n)
    ensures Join(Split(v, n)) == v
  {
    if n == 0 {
    } else {
      JoinSplit(v / 256, n - 1);
      assert Split(v, n)[1..] == Split(v / 256, n - 1);
    }
  }

  lemma Ranges()
    ensures Range(1) == 0x100 && Range(2) == 0x1_0000 && Range(3) == 0x100_0000 && Range(4) == 0x1_0000_0000
  {
    assert Range(0) == 1;
    assert Range(2) == 256 * Range(1);
    assert Range(3) == 256 * Range(2);
  }

  function Put(s: seq<byte>, at: nat, bytes: seq<byte>): (r: seq<byte>)
    requires at + |bytes| <= |s|
    ensures |r| == |s|
    decreases |bytes|
  {
    if bytes == [] then s else Put(s[at := bytes[0]], at + 1, bytes[1..])
  }

  lemma {:induction false} PutIs(s: seq<byte>, at: nat, bytes: seq<byte>)
    requires at + |bytes| <= |s|
    ensures Put(s, at, bytes) == s[..at] + bytes + s[at + |bytes|..]
    decreases |bytes|
  {
    if bytes == [] {
    } else {
      PutIs(s[at := bytes[0]], at + 1, bytes[1..]);
    }
  }

  lemma PutHere(s: seq<byte>, at: nat, bytes: seq<byte>)
    requires at + |bytes| <= |s|
    ensures Put(s, at, bytes)[at..at + |bytes|] == bytes
  {
    PutIs(s, at, bytes);
  }

  lemma PutElsewhere(s: seq<byte>, at: nat, bytes: seq<byte>, from: nat, n: nat)
    requires at + |bytes| <= |s| && from + n <= |s| && (at + |bytes| <= from || from + n <= at)
    ensures Put(s, at, bytes)[from..from + n] == s[from..from + n]
  {
    PutIs(s, at, bytes);
  }

  function Pow2(n: nat): (r: nat)
    ensures r > 0
  {
    if n == 0 then 1 else 2 * Pow2(n - 1)
  }

  function BitAt(packed: nat, k: nat): (bit: nat)
    ensures bit < 2
  {
    if k == 0 then packed % 2 else BitAt(packed / 2, k - 1)
  }

  function SetBit(packed: nat, k: nat, bit: nat): nat {
    if k == 0 then packed / 2 * 2 + bit else packed % 2 + 2 * SetBit(packed / 2, k - 1, bit)
  }

  lemma {:induction false} SetBitLaw(packed: nat, k: nat, j: nat, bit: nat)
    requires bit < 2
    ensures BitAt(SetBit(packed, k, bit), j) == if j == k then bit else BitAt(packed, j)
  {
    if k > 0 && j > 0 {
      SetBitLaw(packed / 2, k - 1, j - 1, bit);
    }
  }

  lemma {:induction false} SetBitBound(packed: nat, k: nat, bit: nat, n: nat)
    requires bit < 2 && packed < Pow2(n) && k < n
    ensures SetBit(packed, k, bit) < Pow2(n)
  {
    if k == 0 {
    } else {
      SetBitBound(packed / 2, k - 1, bit, n - 1);
    }
  }

  lemma EightBits()
    ensures Pow2(8) == 256
  {
    assert Pow2(2) == 4;
    assert Pow2(4) == 16;
    assert Pow2(6) == 64;
  }

  /** The pixel of column `x` within a byte it shares with others. */
  function Slot(b: Bitmap, packed: byte, x: nat): nat {
    if b.bpp == 4 then (if x % 2 == 1 then packed % 16 else packed / 16) else BitAt(packed, 7 - x % 8)
  }

  function WithSlot(b: Bitmap, packed: byte, x: nat, v: nat): nat {
    if b.bpp == 4 then (if x % 2 == 1 then packed / 16 * 16 + v else packed % 16 + v * 16) else SetBit(packed, 7 - x % 8, v)
  }

  function Base(b: Bitmap): nat { if b.bpp == 4 then 16 else 2 }

  /** Setting one pixel of a shared byte leaves the others in it alone. */
  lemma SlotLaw(b: Bitmap, packed: byte, x: nat, v: nat, z: nat)
    requires v < Base(b) && Column(b, x) == Column(b, z) && (b.bpp == 4 || b.bpp == 1)
    ensures WithSlot(b, packed, x, v) < 256
    ensures Slot(b, WithSlot(b, packed, x, v), z) == if z == x then v else Slot(b, packed, z)
  {
    if b.bpp == 1 {
      EightBits();
      SetBitBound(packed, 7 - x % 8, v, 8);
      SetBitLaw(packed, 7 - x % 8, 7 - z % 8, v);
      SameByte(x, z);
    } else {
      NibbleLaw(b, packed, x, v, z);
    }
  }

  lemma SameByte(x: nat, z: nat)
    requires x / 8 == z / 8
    ensures x % 8 == z % 8 <==> x == z
  {
  }

  lemma NibbleLaw(b: Bitmap, packed: byte, x: nat, v: nat, z: nat)
    requires v < 16 && x / 2 == z / 2 && b.bpp == 4
    ensures WithSlot(b, packed, x, v) < 256
    ensures Slot(b, WithSlot(b, packed, x, v), z) == if z == x then v else Slot(b, packed, z)
  {
  }

  // ---- Reading and writing one pixel ----

  /** The stored value of a pixel at the depths that need no palette. */
  function Direct(b: Bitmap, pixel: uint32): nat
    requires b.bpp == 32 || b.bpp == 24 || b.bpp == 16
  {
    if b.bpp == 32 then OPAQUE + pixel % COLOURS else if b.bpp == 24 then pixel % COLOURS else EncodeBitmap16(b, pixel)
  }

  function Encode(b: Bitmap, pixel: uint32): nat
    requires Supported(b)
  {
    if b.bpp == 32 || b.bpp == 24 || b.bpp == 16 then Direct(b, pixel) else Nearest(b.palette, PaletteLimit(b), pixel)
  }

  function Decode(b: Bitmap, raw: nat): uint32 {
    if b.bpp == 32 || b.bpp == 24 then OPAQUE + raw % COLOURS
    else if b.bpp == 16 then DecodeBitmap16(b, raw % 0x1_0000)
    else PalettePixel(b.palette, raw)
  }

  predicate Shares(b: Bitmap) { b.bpp == 4 || b.bpp == 1 }

  function Load(b: Bitmap, bits: seq<byte>, p: Point): nat
    requires Inside(b, p) && Fits(b, |bits|) && Supported(b)
  {
    AtInside(b, |bits|, p);
    if Shares(b) then Slot(b, bits[At(b, p)], p.x) else Join(bits[At(b, p)..At(b, p) + Bytes(b)])
  }

  function Store(b: Bitmap, bits: seq<byte>, p: Point, raw: nat): (r: seq<byte>)
    requires Inside(b, p) && Fits(b, |bits|) && Supported(b) && (Shares(b) ==> raw < Base(b))
    ensures |r| == |bits|
  {
    AtInside(b, |bits|, p);
    if Shares(b) then
      SlotLaw(b, bits[At(b, p)], p.x, raw, p.x);
      bits[At(b, p) := WithSlot(b, bits[At(b, p)], p.x, raw)]
    else Put(bits, At(b, p), Split(raw, Bytes(b)))
  }

  lemma EncodeBound(b: Bitmap, pixel: uint32)
    requires Supported(b)
    ensures Shares(b) ==> Encode(b, pixel) < Base(b)
    ensures !Shares(b) ==> Encode(b, pixel) < Range(Bytes(b))
  {
    Ranges();
  }

  function Read(b: Bitmap, bits: seq<byte>, p: Point): Option<uint32>
    requires Fits(b, |bits|)
  {
    if !Inside(b, p) || !Supported(b) then None else Some(Decode(b, Load(b, bits, p)))
  }

  function Write(b: Bitmap, bits: seq<byte>, p: Point, pixel: uint32): (r: seq<byte>)
    requires Fits(b, |bits|)
    ensures |r| == |bits|
  {
    if !Inside(b, p) || !Supported(b) then bits
    else EncodeBound(b, pixel); Store(b, bits, p, Encode(b, pixel))
  }

  /** What a pixel written to this bitmap reads back as. */
  function Kept(b: Bitmap, pixel: uint32): uint32
    requires Supported(b)
  {
    if b.bpp == 32 || b.bpp == 24 then OPAQUE + pixel % COLOURS
    else if b.bpp == 16 then DecodeBitmap16(b, EncodeBitmap16(b, pixel))
    else b.palette[Nearest(b.palette, PaletteLimit(b), pixel)]
  }

  // ---- The store law ----

  /** Two pixels never share a byte, unless they sit side by side in one. */
  lemma PixelsApart(b: Bitmap, p: Point, q: Point)
    requires Inside(b, p) && Inside(b, q) && Supported(b) && p != q
    requires Column(b, p.x) + Bytes(b) <= b.stride && Column(b, q.x) + Bytes(b) <= b.stride
    ensures At(b, p) + Bytes(b) <= At(b, q) || At(b, q) + Bytes(b) <= At(b, p) ||
            (Shares(b) && At(b, p) == At(b, q) && Column(b, p.x) == Column(b, q.x) && p.x != q.x)
  {
    var r, t := RowOf(b, p.y), RowOf(b, q.y);
    if r < t {
      RowBelow(r, t, b.stride);
    } else if t < r {
      RowBelow(t, r, b.stride);
    } else {
      assert p.y == q.y;
    }
  }

  lemma LoadStored(b: Bitmap, bits: seq<byte>, p: Point, raw: nat)
    requires Inside(b, p) && Fits(b, |bits|) && Supported(b)
    requires if Shares(b) then raw < Base(b) else raw < Range(Bytes(b))
    ensures Load(b, Store(b, bits, p, raw), p) == raw
  {
    AtInside(b, |bits|, p);
    if Shares(b) {
      SlotLaw(b, bits[At(b, p)], p.x, raw, p.x);
    } else {
      PutHere(bits, At(b, p), Split(raw, Bytes(b)));
      JoinSplit(raw, Bytes(b));
    }
  }

  lemma LoadElsewhere(b: Bitmap, bits: seq<byte>, p: Point, raw: nat, q: Point)
    requires Inside(b, p) && Inside(b, q) && p != q && Fits(b, |bits|) && Supported(b)
    requires if Shares(b) then raw < Base(b) else raw < Range(Bytes(b))
    ensures Load(b, Store(b, bits, p, raw), q) == Load(b, bits, q)
  {
    AtInside(b, |bits|, p);
    AtInside(b, |bits|, q);
    PixelsApart(b, p, q);
    if Shares(b) {
      if At(b, p) == At(b, q) {
        SlotLaw(b, bits[At(b, p)], p.x, raw, q.x);
      }
    } else {
      PutElsewhere(bits, At(b, p), Split(raw, Bytes(b)), At(b, q), Bytes(b));
    }
  }

  /** A written pixel reads back as what its format keeps of it; every other pixel stays as it was. */
  lemma StoreLaw(b: Bitmap, bits: seq<byte>, p: Point, pixel: uint32, q: Point)
    requires Fits(b, |bits|)
    ensures Read(b, Write(b, bits, p, pixel), q) ==
            if q == p && Inside(b, p) && Supported(b) then Some(Kept(b, pixel)) else Read(b, bits, q)
  {
    if Inside(b, p) && Supported(b) && Inside(b, q) {
      EncodeBound(b, pixel);
      if p == q {
        LoadStored(b, bits, p, Encode(b, pixel));
        DecodeEncode(b, pixel);
      } else {
        LoadElsewhere(b, bits, p, Encode(b, pixel), q);
      }
    }
  }

  lemma OpaqueColour(colour: nat)
    requires colour < COLOURS
    ensures (OPAQUE + colour) % COLOURS == colour && colour % COLOURS == colour
  {
    assert OPAQUE == 0xff * COLOURS;
  }

  lemma WordUnchanged(v: uint16)
    ensures v % 0x1_0000 == v
  {
  }

  lemma DecodeEncodeWord(b: Bitmap, pixel: uint32)
    requires b.bpp == 16
    ensures Decode(b, Encode(b, pixel)) == Kept(b, pixel)
  {
    WordUnchanged(EncodeBitmap16(b, pixel));
  }

  lemma DecodeEncode(b: Bitmap, pixel: uint32)
    requires Supported(b)
    ensures Decode(b, Encode(b, pixel)) == Kept(b, pixel)
  {
    if b.bpp == 32 || b.bpp == 24 {
    } else if b.bpp == 16 {
      DecodeEncodeWord(b, pixel);
    } else {
      var i := Nearest(b.palette, PaletteLimit(b), pixel);
      assert i < |b.palette|;
    }
  }

  // ---- Where the bytes of a pixel are ----

  /** Where the row of a point starts: top row first when the height is negative, last otherwise. */
  function RowOffset(b: Bitmap, p: Point): int {
    (if b.heightRaw < 0 then p.y else b.heightRaw - 1 - p.y) * b.stride
  }

  lemma AtIs(b: Bitmap, p: Point)
    requires Inside(b, p)
    ensures At(b, p) == RowOffset(b, p) + Column(b, p.x)
  {
    RowStartIs(RowOf(b, p.y), b.stride);
  }

  lemma PutOne(s: seq<byte>, at: nat, bytes: seq<byte>, i: nat)
    requires at + |bytes| <= |s| && i < |bytes|
    ensures Put(s, at, bytes)[at + i] == bytes[i]
  {
    PutIs(s, at, bytes);
  }

  lemma SplitIs(v: nat)
    ensures Split(v, 1) == [v % 256] && Split(v, 2) == [v % 256, v / 256 % 256]
    ensures Split(v, 3) == [v % 256, v / 256 % 256, v / 256 / 256 % 256]
    ensures Split(v, 4) == [v % 256, v / 256 % 256, v / 256 / 256 % 256, v / 256 / 256 / 256 % 256]
  {
    var a, b, c := v / 256, v / 256 / 256, v / 256 / 256 / 256;
    assert Split(c, 1) == [c % 256] + Split(c / 256, 0);
    assert Split(b, 1) == [b % 256] + Split(b / 256, 0);
    assert Split(a, 1) == [a % 256] + Split(a / 256, 0);
    assert Split(v, 1) == [v % 256] + Split(a, 0);
    assert Split(b, 2) == [b % 256] + Split(c, 1);
    assert Split(a, 2) == [a % 256] + Split(b, 1);
    assert Split(a, 3) == [a % 256] + Split(b, 2);
  }

  /** Whole-byte depths store their value lowest byte first: blue, green, red and then 255, or one word, or one index. */
  lemma StoredBytes(b: Bitmap, bits: seq<byte>, p: Point, pixel: uint32, i: nat)
    requires Inside(b, p) && Fits(b, |bits|) && Supported(b) && !Shares(b) && i < b.bpp / 8
    ensures var at := RowOffset(b, p) + p.x * (b.bpp / 8) + i; var v := Encode(b, pixel);
            && 0 <= at < |bits|
            && Write(b, bits, p, pixel)[at] ==
               if i == 0 then v % 256 else if i == 1 then v / 256 % 256
               else if i == 2 then v / 256 / 256 % 256 else v / 256 / 256 / 256 % 256
  {
    AtInside(b, |bits|, p);
    AtIs(b, p);
    SplitIs(Encode(b, pixel));
    PutOne(bits, At(b, p), Split(Encode(b, pixel), Bytes(b)), i);
  }

  lemma Nibbles(packed: byte, v: nat)
    requires v < 16
    ensures (packed / 16 * 16 + v) / 16 == packed / 16 && (packed / 16 * 16 + v) % 16 == v
    ensures (packed % 16 + v * 16) / 16 == v && (packed % 16 + v * 16) % 16 == packed % 16
  {
  }

  lemma WrittenSlot(b: Bitmap, bits: seq<byte>, p: Point, pixel: uint32)
    requires Inside(b, p) && Fits(b, |bits|) && Supported(b) && Shares(b)
    ensures var at := RowOffset(b, p) + p.x / (if b.bpp == 4 then 2 else 8);
            && 0 <= at < |bits| == |Write(b, bits, p, pixel)| && Encode(b, pixel) < Base(b)
            && Write(b, bits, p, pixel)[at] == WithSlot(b, bits[at], p.x, Encode(b, pixel))
  {
    AtInside(b, |bits|, p);
    AtIs(b, p);
    EncodeBound(b, pixel);
  }

  /** Of two pixels that share a byte at 4 bits the left one has the high half. */
  lemma StoredNibble(b: Bitmap, bits: seq<byte>, p: Point, pixel: uint32)
    requires Inside(b, p) && Fits(b, |bits|) && Supported(b) && b.bpp == 4
    ensures var at := RowOffset(b, p) + p.x / 2; var r := Write(b, bits, p, pixel);
            && 0 <= at < |bits| == |r|
            && (p.x % 2 == 0 ==> r[at] / 16 == Encode(b, pixel) && r[at] % 16 == bits[at] % 16)
            && (p.x % 2 == 1 ==> r[at] % 16 == Encode(b, pixel) && r[at] / 16 == bits[at] / 16)
  {
    WrittenSlot(b, bits, p, pixel);
    Nibbles(bits[RowOffset(b, p) + p.x / 2], Encode(b, pixel));
  }

  lemma {:induction false} BitAtIs(packed: nat, k: nat)
    ensures BitAt(packed, k) == packed / Pow2(k) % 2
  {
    if k == 0 {
    } else {
      BitAtIs(packed / 2, k - 1);
      DivTwice(packed, Pow2(k - 1));
    }
  }

  lemma DivTwice(v: nat, n: nat)
    requires n > 0
    ensures v / 2 / n == v / (2 * n)
  {
    var q := v / (2 * n);
    var r := v - q * (2 * n);
    assert v / 2 == q * n + r / 2;
    assert r / 2 < n;
    QuotientIs(v / 2, n, q, r / 2);
  }

  lemma QuotientIs(v: nat, n: nat, q: nat, r: nat)
    requires n > 0 && v == q * n + r && r < n
    ensures v / n == q
  {
    var d := v / n;
    assert d * n <= v < d * n + n;
    if d < q {
      MulMonotone(d + 1, q, n);
    } else if q < d {
      MulMonotone(q + 1, d, n);
    }
  }

  /** Of the pixels that share a byte at 1 bit the leftmost has the highest bit. */
  lemma StoredBit(b: Bitmap, bits: seq<byte>, p: Point, pixel: uint32)
    requires Inside(b, p) && Fits(b, |bits|) && Supported(b) && b.bpp == 1
    ensures var at := RowOffset(b, p) + p.x / 8; var r := Write(b, bits, p, pixel);
            0 <= at < |bits| == |r| && r[at] / Pow2(7 - p.x % 8) % 2 == Encode(b, pixel)
  {
    WrittenSlot(b, bits, p, pixel);
    var at := RowOffset(b, p) + p.x / 8;
    SlotLaw(b, bits[at], p.x, Encode(b, pixel), p.x);
    BitAtIs(Write(b, bits, p, pixel)[at], 7 - p.x % 8);
  }

  // ---- The 565 and 555 codecs are exact ----

  /** Red is the top field and blue the bottom one, and each is widened by repeating its top bits. */
  lemma DecodedFields(value: uint16)
    ensures var r: nat, g: nat, b: nat := value / 0x800, value / 0x20 % 64, value % 32;
            DecodeRgb565(value) == 0xff00_0000 + (r * 8 + r / 4) * 0x1_0000 + (g * 4 + g / 16) * 0x100 + (b * 8 + b / 4)
    ensures var r: nat, g: nat, b: nat := value / 0x400 % 32, value / 0x20 % 32, value % 32;
            DecodeRgb555(value) == 0xff00_0000 + (r * 8 + r / 4) * 0x1_0000 + (g * 8 + g / 4) * 0x100 + (b * 8 + b / 4)
  {
    assert value / 0x800 % 32 == value / 0x800;
  }

  lemma ChannelExact(r: nat)
    ensures Expand5To8(r) / 8 == r % 32 && Expand6To8(r) / 4 == r % 64
  {
  }

  lemma LowByte(upper: nat, low: byte)
    ensures (upper * 256 + low) / 8 % 32 == low / 8 && (upper * 256 + low) / 4 % 64 == low / 4
  {
    assert (upper * 256 + low) / 8 == upper * 32 + low / 8;
    assert (upper * 256 + low) / 4 == upper * 64 + low / 4;
  }

  lemma ArgbRed(r: byte, g: byte, b: byte)
    ensures Argb(r, g, b) / 0x8_0000 % 32 == r / 8
  {
    assert Argb(r, g, b) / 0x1_0000 == 0xff * 256 + r;
    assert Argb(r, g, b) / 0x8_0000 == (0xff * 256 + r) / 8;
    LowByte(0xff, r);
  }

  lemma ArgbGreen(r: byte, g: byte, b: byte)
    ensures Argb(r, g, b) / 0x400 % 64 == g / 4 && Argb(r, g, b) / 0x800 % 32 == g / 8
  {
    var upper := 0xff00 + r;
    assert Argb(r, g, b) / 0x100 == upper * 256 + g;
    assert Argb(r, g, b) / 0x400 == (upper * 256 + g) / 4;
    assert Argb(r, g, b) / 0x800 == (upper * 256 + g) / 8;
    LowByte(upper, g);
  }

  lemma ArgbBlue(r: byte, g: byte, b: byte)
    ensures Argb(r, g, b) / 8 % 32 == b / 8
  {
    var upper := 0xff_0000 + r * 256 + g;
    assert Argb(r, g, b) == upper * 256 + b;
    LowByte(upper, b);
  }

  lemma ArgbChannels(r: byte, g: byte, b: byte)
    ensures var p := Argb(r, g, b);
            && p / 0x8_0000 % 32 == r / 8 && p / 0x400 % 64 == g / 4 && p / 0x800 % 32 == g / 8 && p / 8 % 32 == b / 8
  {
    ArgbRed(r, g, b);
    ArgbGreen(r, g, b);
    ArgbBlue(r, g, b);
  }

  lemma Fields565(value: uint16)
    ensures value / 0x800 % 32 * 0x800 + value / 0x20 % 64 * 0x20 + value % 32 == value
  {
    assert value / 0x20 / 64 == value / 0x800;
  }

  lemma Fields555(value: uint16)
    ensures value / 0x400 % 32 * 0x400 + value / 0x20 % 32 * 0x20 + value % 32 == value % 0x8000
  {
    assert value / 0x20 / 32 == value / 0x400;
    assert value / 0x400 / 32 == value / 0x8000;
  }

  lemma EncodedArgb(r: byte, g: byte, b: byte)
    ensures EncodeRgb565(Argb(r, g, b)) == r / 8 * 0x800 + g / 4 * 0x20 + b / 8
    ensures EncodeRgb555(Argb(r, g, b)) == r / 8 * 0x400 + g / 8 * 0x20 + b / 8
  {
    ArgbChannels(r, g, b);
  }

  lemma Rgb565Exact(value: uint16)
    ensures EncodeRgb565(DecodeRgb565(value)) == value
  {
    EncodedArgb(Expand5To8(value / 0x800), Expand6To8(value / 0x20), Expand5To8(value));
    ChannelExact(value / 0x800);
    ChannelExact(value / 0x20);
    ChannelExact(value);
    Fields565(value);
  }

  /** The top bit of a 555 word carries nothing and is lost. */
  lemma Rgb555Exact(value: uint16)
    ensures EncodeRgb555(DecodeRgb555(value)) == value % 0x8000
  {
    EncodedArgb(Expand5To8(value / 0x400), Expand5To8(value / 0x20), Expand5To8(value));
    ChannelExact(value / 0x400);
    ChannelExact(value / 0x20);
    ChannelExact(value);
    Fields555(value);
  }

  // ---- Painting a list of points ----

  function PaintAll(b: Bitmap, bits: seq<byte>, points: seq<Point>, pixel: uint32): (r: seq<byte>)
    requires Fits(b, |bits|)
    ensures |r| == |bits|
  {
    if points == [] then bits
    else Write(b, PaintAll(b, bits, points[..|points| - 1], pixel), points[|points| - 1], pixel)
  }

  /** Painting changes exactly the painted points inside the bitmap, whatever their order or number. */
  lemma {:induction false} PaintedIs(b: Bitmap, bits: seq<byte>, points: seq<Point>, pixel: uint32, q: Point)
    requires Fits(b, |bits|)
    ensures Read(b, PaintAll(b, bits, points, pixel), q) ==
            if q in points && Inside(b, q) && Supported(b) then Some(Kept(b, pixel)) else Read(b, bits, q)
  {
    if points == [] {
    } else {
      var front, last := points[..|points| - 1], points[|points| - 1];
      PaintedIs(b, bits, front, pixel, q);
      StoreLaw(b, PaintAll(b, bits, front, pixel), last, pixel, q);
      assert points == front + [last];
    }
  }

  lemma {:induction false} PaintConcat(b: Bitmap, bits: seq<byte>, first: seq<Point>, rest: seq<Point>, pixel: uint32)
    requires Fits(b, |bits|)
    ensures PaintAll(b, bits, first + rest, pixel) == PaintAll(b, PaintAll(b, bits, first, pixel), rest, pixel)
  {
    if rest == [] {
      assert first + rest == first;
    } else {
      PaintConcat(b, bits, first, rest[..|rest| - 1], pixel);
      assert (first + rest)[..|first + rest| - 1] == first + rest[..|rest| - 1];
    }
  }

  function RowPoints(y: int, left: int, right: int): seq<Point>
    decreases right - left
  {
    if right <= left then [] else RowPoints(y, left, right - 1) + [Point(right - 1, y)]
  }

  function RectPoints(left: int, top: int, right: int, bottom: int): seq<Point>
    decreases bottom - top
  {
    if bottom <= top then [] else RectPoints(left, top, right, bottom - 1) + RowPoints(bottom - 1, left, right)
  }

  lemma {:induction false} InRow(y: int, left: int, right: int, p: Point)
    ensures p in RowPoints(y, left, right) <==> p.y == y && left <= p.x < right
    decreases right - left
  {
    if right <= left {
    } else {
      InRow(y, left, right - 1, p);
    }
  }

  lemma {:induction false} InRect(left: int, top: int, right: int, bottom: int, p: Point)
    ensures p in RectPoints(left, top, right, bottom) <==> top <= p.y < bottom && left <= p.x < right
    decreases bottom - top
  {
    if bottom <= top {
    } else {
      InRect(left, top, right, bottom - 1, p);
      InRow(bottom - 1, left, right, p);
    }
  }

  function Clamp(v: int, low: int, high: int): int { Max(low, Min(v, high)) }

  /** The part of a rectangle, given by any two opposite corners, that lies on the bitmap. */
  function ClippedRect(b: Bitmap, left: int, top: int, right: int, bottom: int): seq<Point> {
    RectPoints(Clamp(Min(left, right), 0, b.width), Clamp(Min(top, bottom), 0, Height(b)),
               Clamp(Max(left, right), 0, b.width), Clamp(Max(top, bottom), 0, Height(b)))
  }

  /** Filling changes exactly the pixels of the bitmap between the two corners. */
  lemma FilledIs(b: Bitmap, bits: seq<byte>, left: int, top: int, right: int, bottom: int, pixel: uint32, q: Point)
    requires Fits(b, |bits|) && Supported(b) && Inside(b, q)
    ensures Read(b, PaintAll(b, bits, ClippedRect(b, left, top, right, bottom), pixel), q) ==
            if Min(left, right) <= q.x < Max(left, right) && Min(top, bottom) <= q.y < Max(top, bottom)
            then Some(Kept(b, pixel)) else Read(b, bits, q)
  {
    PaintedIs(b, bits, ClippedRect(b, left, top, right, bottom), pixel, q);
    InRect(Clamp(Min(left, right), 0, b.width), Clamp(Min(top, bottom), 0, Height(b)),
           Clamp(Max(left, right), 0, b.width), Clamp(Max(top, bottom), 0, Height(b)), q);
  }

  // ---- The methods ----

  method NearestIndex(palette: seq<uint32>, limit: nat, pixel: uint32) returns (bestIndex: nat)
    requires 0 < limit <= |palette|
    ensures bestIndex == Nearest(palette, limit, pixel)
  {
    bestIndex := 0;
    var bestDistance := 0xffff_ffff;
    var i := 0;
    while i < limit
      invariant i <= limit
      invariant i == 0 ==> bestDistance == 0xffff_ffff
      invariant i > 0 ==> IsNearest(palette, i, pixel, bestIndex) && bestDistance == Distance(palette[bestIndex], pixel)
    {
      var distance := Distance(palette[i], pixel);
      if distance < bestDistance {
        bestDistance := distance;
        bestIndex := i;
        if distance == 0 {
          break;
        }
      }
      i := i + 1;
    }
    NearestIs(palette, limit, pixel, bestIndex);
  }

  method StoreBytes(bits: array<byte>, at: nat, value: nat, n: nat)
    requires at + n <= bits.Length
    modifies bits
    ensures bits[..] == Put(old(bits[..]), at, Split(value, n))
  {
    var rest := value;
    var i := 0;
    while i < n
      invariant i <= n && Put(bits[..], at + i, Split(rest, n - i)) == Put(old(bits[..]), at, Split(value, n))
    {
      ghost var before := bits[..];
      bits[at + i] := rest % 256;
      assert bits[..] == before[at + i := rest % 256];
      assert Split(rest, n - i)[1..] == Split(rest / 256, n - i - 1);
      rest := rest / 256;
      i := i + 1;
    }
    assert i == n;
  }

  method ReadBitmapPixel(b: Bitmap, bits: array<byte>, height: int, x: int, y: int) returns (pixel: Option<uint32>)
    requires Fits(b, bits.Length) && height == Height(b)
    ensures pixel == Read(b, bits[..], Point(x, y))
  {
    if x < 0 || x >= b.width || y < 0 || y >= height || b.stride == 0 {
      return None;
    }
    if !Supported(b) {
      return None;
    }
    var rowIndex := if b.heightRaw < 0 then y else height - 1 - y;
    var row := rowIndex * b.stride;
    RowStartIs(rowIndex, b.stride);
    AtInside(b, bits.Length, Point(x, y));
    assert row + Column(b, x) == At(b, Point(x, y));
    pixel := Some(ReadRow(b, bits[..], row, x));
  }

  /** The cases by depth, on the row that starts at `row`. */
  function ReadRow(b: Bitmap, bits: seq<byte>, row: nat, x: nat): (pixel: uint32)
    requires Supported(b) && row + Column(b, x) + Bytes(b) <= |bits|
    ensures pixel == Decode(b, if Shares(b) then Slot(b, bits[row + Column(b, x)], x)
                               else Join(bits[row + Column(b, x)..row + Column(b, x) + Bytes(b)]))
  {
    if b.bpp == 32 then
      OPAQUE + Join(bits[row + x * 4..row + x * 4 + 4]) % COLOURS
    else if b.bpp == 24 then
      OPAQUE + Join(bits[row + x * 3..row + x * 3 + 3]) % COLOURS
    else if b.bpp == 16 then
      DecodeBitmap16(b, Join(bits[row + x * 2..row + x * 2 + 2]) % 0x1_0000)
    else if b.bpp == 8 then
      PalettePixel(b.palette, bits[row + x])
    else if b.bpp == 4 then
      var packed := bits[row + x / 2];
      PalettePixel(b.palette, if x % 2 == 1 then packed % 16 else packed / 16)
    else
      PalettePixel(b.palette, BitAt(bits[row + x / 8], 7 - x % 8))
  }

  method WriteBitmapPixel(b: Bitmap, bits: array<byte>, height: int, x: int, y: int, pixel: uint32) returns (ok: bool)
    requires Fits(b, bits.Length) && height == Height(b)
    modifies bits
    ensures bits[..] == Write(b, old(bits[..]), Point(x, y), pixel)
    ensures ok <==> Inside(b, Point(x, y)) && Supported(b)
  {
    if x < 0 || x >= b.width || y < 0 || y >= height || b.stride == 0 {
      return false;
    }
    if !Supported(b) {
      return false;
    }
    var rowIndex := if b.heightRaw < 0 then y else height - 1 - y;
    var row := rowIndex * b.stride;
    RowStartIs(rowIndex, b.stride);
    ghost var p := Point(x, y);
    AtInside(b, bits.Length, p);
    assert row + Column(b, x) == At(b, p);
    EncodeBound(b, pixel);
    if b.bpp == 32 || b.bpp == 24 || b.bpp == 16 {
      var o := row + (if b.bpp == 32 then x * 4 else if b.bpp == 24 then x * 3 else x * 2);
      StoreBytes(bits, o, Direct(b, pixel), if b.bpp == 32 then 4 else if b.bpp == 24 then 3 else 2);
    } else {
      var bestIndex := NearestIndex(b.palette, PaletteLimit(b), pixel);
      WriteIndex(b, bits, row, x, bestIndex);
    }
    return true;
  }

  method WriteIndex(b: Bitmap, bits: array<byte>, row: nat, x: nat, index: nat)
    requires Indexed(b) && row + Column(b, x) < bits.Length && (Shares(b) ==> index < Base(b))
    modifies bits
    ensures var o := row + Column(b, x);
            if Shares(b) then
              && WithSlot(b, old(bits[o]), x, index) < 256
              && bits[..] == old(bits[..])[o := WithSlot(b, old(bits[o]), x, index)]
            else bits[..] == Put(old(bits[..]), o, Split(index, 1))
  {
    if b.bpp == 8 {
      StoreBytes(bits, row + x, index, 1);
    } else {
      var o := row + (if b.bpp == 4 then x / 2 else x / 8);
      SlotLaw(b, bits[o], x, index, x);
      bits[o] := WithSlot(b, bits[o], x, index);
    }
  }

  method WriteBitmapSpan(b: Bitmap, bits: array<byte>, height: int, y: int, left: int, right: int, pixel: uint32)
    returns (ok: bool)
    requires Fits(b, bits.Length) && height == Height(b)
    modifies bits
    ensures bits[..] == PaintAll(b, old(bits[..]), RowPoints(y, Clamp(left, 0, b.width), Clamp(right, 0, b.width)), pixel)
    ensures ok <==> 0 <= y < height && b.width > 0 && b.stride != 0 &&
                    (Supported(b) || Clamp(right, 0, b.width) <= Clamp(left, 0, b.width))
  {
    if y < 0 || y >= height || b.width <= 0 || b.stride == 0 {
      RowOutside(b, bits[..], y, Clamp(left, 0, b.width), Clamp(right, 0, b.width), pixel);
      return false;
    }
    var from, to := Clamp(left, 0, b.width), Clamp(right, 0, b.width);
    if from >= to {
      return true;
    }
    var rowIndex := if b.heightRaw < 0 then y else height - 1 - y;
    var row := rowIndex * b.stride;
    RowStartIs(rowIndex, b.stride);
    if b.bpp == 32 || b.bpp == 16 {
      FillCells(b, bits, row, y, from, to, pixel);
      return true;
    }
    ok := WritePixels(b, bits, height, y, from, to, pixel);
  }

  method WritePixels(b: Bitmap, bits: array<byte>, height: int, y: int, from: int, to: int, pixel: uint32)
    returns (ok: bool)
    requires Fits(b, bits.Length) && height == Height(b) && 0 <= y < height && 0 <= from < to <= b.width && b.stride != 0
    modifies bits
    ensures bits[..] == PaintAll(b, old(bits[..]), RowPoints(y, from, to), pixel)
    ensures ok <==> Supported(b)
  {
    ghost var before := bits[..];
    if !Supported(b) {
      RowOutside(b, before, y, from, to, pixel);
    }
    var x := from;
    while x < to
      invariant from <= x <= to && bits[..] == PaintAll(b, before, RowPoints(y, from, x), pixel)
      invariant !Supported(b) ==> x == from && PaintAll(b, before, RowPoints(y, from, to), pixel) == before
    {
      var wrote := WriteNext(b, bits, height, y, from, x, pixel, before);
      if !wrote {
        return false;
      }
      x := x + 1;
    }
    assert x == to;
    return true;
  }

  method WriteNext(b: Bitmap, bits: array<byte>, height: int, y: int, from: int, x: int, pixel: uint32, ghost before: seq<byte>)
    returns (ok: bool)
    requires Fits(b, bits.Length) && height == Height(b) && 0 <= y < height && 0 <= from <= x < b.width && b.stride != 0
    requires |before| == bits.Length && bits[..] == PaintAll(b, before, RowPoints(y, from, x), pixel)
    modifies bits
    ensures ok <==> Supported(b)
    ensures bits[..] == if ok then PaintAll(b, before, RowPoints(y, from, x + 1), pixel) else before
  {
    PaintOneMore(b, before, y, from, x, pixel);
    if !Supported(b) {
      RowOutside(b, before, y, from, x + 1, pixel);
    }
    ok := WriteBitmapPixel(b, bits, height, x, y, pixel);
  }

  lemma CellAt(b: Bitmap, size: nat, row: nat, x: nat, y: int)
    requires Fits(b, size) && Inside(b, Point(x, y)) && (b.bpp == 32 || b.bpp == 16) && row == RowStart(RowOf(b, y), b.stride)
    ensures At(b, Point(x, y)) == row + (if b.bpp == 32 then x * 4 else x * 2)
    ensures At(b, Point(x, y)) + Bytes(b) <= size
  {
    AtInside(b, size, Point(x, y));
  }

  /** One value is stored over a run of cells, without a bounds check for each. */
  method FillCells(b: Bitmap, bits: array<byte>, row: nat, y: int, from: int, to: int, pixel: uint32)
    requires Fits(b, bits.Length) && 0 <= y < Height(b) && 0 <= from < to <= b.width && b.stride != 0
    requires (b.bpp == 32 || b.bpp == 16) && row == RowStart(RowOf(b, y), b.stride)
    modifies bits
    ensures bits[..] == PaintAll(b, old(bits[..]), RowPoints(y, from, to), pixel)
  {
    ghost var before := bits[..];
    var x := from;
    while x < to
      invariant from <= x <= to && bits[..] == PaintAll(b, before, RowPoints(y, from, x), pixel)
    {
      PaintOneMore(b, before, y, from, x, pixel);
      FillCell(b, bits, row, x, y, pixel);
      x := x + 1;
    }
    assert x == to;
  }

  method FillCell(b: Bitmap, bits: array<byte>, row: nat, x: int, y: int, pixel: uint32)
    requires Fits(b, bits.Length) && Inside(b, Point(x, y)) && (b.bpp == 32 || b.bpp == 16) && row == RowStart(RowOf(b, y), b.stride)
    modifies bits
    ensures bits[..] == Write(b, old(bits[..]), Point(x, y), pixel)
  {
    CellAt(b, bits.Length, row, x, y);
    if b.bpp == 32 {
      StoreBytes(bits, row + x * 4, Direct(b, pixel), 4);
    } else {
      StoreBytes(bits, row + x * 2, Direct(b, pixel), 2);
    }
  }

  lemma {:induction false} RowOutside(b: Bitmap, bits: seq<byte>, y: int, left: int, right: int, pixel: uint32)
    requires Fits(b, |bits|)
    requires !Supported(b) || y < 0 || y >= Height(b) || b.width <= 0 || b.stride == 0
    ensures PaintAll(b, bits, RowPoints(y, left, right), pixel) == bits
    decreases right - left
  {
    if right <= left {
    } else {
      RowOutside(b, bits, y, left, right - 1, pixel);
      PaintOneMore(b, bits, y, left, right - 1, pixel);
    }
  }

  lemma PaintOneMore(b: Bitmap, bits: seq<byte>, y: int, from: int, x: int, pixel: uint32)
    requires Fits(b, |bits|) && from <= x
    ensures PaintAll(b, bits, RowPoints(y, from, x + 1), pixel) ==
            Write(b, PaintAll(b, bits, RowPoints(y, from, x), pixel), Point(x, y), pixel)
  {
    var points := RowPoints(y, from, x + 1);
    assert points[..|points| - 1] == RowPoints(y, from, x);
  }

  method FillBitmapRect(b: Bitmap, bits: array<byte>, left: int, top: int, right: int, bottom: int, pixel: uint32)
    returns (ok: bool)
    requires Fits(b, bits.Length)
    modifies bits
    ensures ok <==> b.width > 0 && Height(b) > 0 && b.stride != 0 && pixel != 0 && bits.Length <= 0x200_0000
    ensures bits[..] == if ok then PaintAll(b, old(bits[..]), ClippedRect(b, left, top, right, bottom), pixel) else old(bits[..])
  {
    var height := Height(b);
    if b.width <= 0 || height <= 0 || b.stride == 0 || pixel == 0 {
      return false;
    }
    if bits.Length > 0x200_0000 {
      return false;
    }
    var l, r := Clamp(Min(left, right), 0, b.width), Clamp(Max(left, right), 0, b.width);
    var t, e := Clamp(Min(top, bottom), 0, height), Clamp(Max(top, bottom), 0, height);
    FillRows(b, bits, l, t, r, e, pixel);
    return true;
  }

  method FillRows(b: Bitmap, bits: array<byte>, l: int, t: int, r: int, e: int, pixel: uint32)
    requires Fits(b, bits.Length) && 0 <= l <= r <= b.width && 0 <= t <= e <= Height(b)
    modifies bits
    ensures bits[..] == PaintAll(b, old(bits[..]), RectPoints(l, t, r, e), pixel)
  {
    ghost var before := bits[..];
    var y := t;
    while y < e
      invariant t <= y <= e && bits[..] == PaintAll(b, before, RectPoints(l, t, r, y), pixel)
    {
      var wrote := WriteBitmapSpan(b, bits, Height(b), y, l, r, pixel);
      PaintConcat(b, before, RectPoints(l, t, r, y), RowPoints(y, l, r), pixel);
      y := y + 1;
    }
  }
}
