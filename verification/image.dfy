// Pixel buffers: decoding raw rows with padding into a tight buffer, and reading pixels.

module Image {
  import opened Core

  const USIZE_MAX: int := 0xffff_ffff_ffff_ffff

  datatype ImageError = WidthTooLarge | StrideTooSmall | SizeOverflow | LengthMismatch

  /** Where a row begins. */
  function RowStart(y: nat, stride: nat): nat { y * stride }

  datatype ImageBuffer = ImageBuffer(width: U32, height: U32, stride: U32, data: seq<bv8>) {
    /** The four bytes of a pixel; a byte offset past the data gives nothing. */
    function Pixel(x: U32, y: U32): Option<seq<bv8>> {
      if x >= width || y >= height then None
      else
        var offset := RowStart(y, stride) + 4 * x;
        if offset + 4 <= |data| then Some(data[offset..offset + 4]) else None
    }
  }

  function FromRgba(width: U32, height: U32, data: seq<bv8>): Result<ImageBuffer, ImageError> {
    if 4 * width > U32_MAX then Err(WidthTooLarge)
    else if RowStart(height, 4 * width) != |data| then Err(LengthMismatch)
    else Ok(ImageBuffer(width, height, 4 * width, data))
  }

  // ----- index arithmetic -----

  lemma ProductFits(a: U32, b: U32)
    ensures RowStart(b, a) <= USIZE_MAX
  {
    TimesMonotone(b, a, U32_MAX);
    TimesMonotone(U32_MAX, b, U32_MAX);
  }

  lemma TimesMonotone(x: nat, y: nat, z: nat)
    requires y <= z
    ensures x * y <= x * z && y * x <= z * x
  {
    assert x * z == x * y + x * (z - y);
  }

  lemma NextRow(y: nat, stride: nat)
    ensures RowStart(y + 1, stride) == RowStart(y, stride) + stride
  {
  }

  lemma RowsAscend(y: nat, z: nat, stride: nat)
    requires y <= z
    ensures RowStart(y, stride) <= RowStart(z, stride)
  {
    assert z * stride == y * stride + (z - y) * stride;
  }

  /** A pixel of row `y` ends inside that row, and that row inside the data. */
  lemma InsideRow(x: nat, y: nat, width: nat, height: nat, stride: nat)
    requires x < width && y < height && 4 * width <= stride
    ensures RowStart(y, stride) + 4 * x + 4 <= RowStart(y + 1, stride) <= RowStart(height, stride)
  {
    NextRow(y, stride);
    RowsAscend(y + 1, height, stride);
  }

  // ----- rows with padding -----

  /** The first `rowBytes` of each of the first `n` rows. */
  function Rows(data: seq<bv8>, stride: nat, rowBytes: nat, n: nat): (r: seq<bv8>)
    requires rowBytes <= stride && RowStart(n, stride) <= |data|
    ensures |r| == RowStart(n, rowBytes)
  {
    if n == 0 then []
    else
      NextRow(n - 1, stride);
      NextRow(n - 1, rowBytes);
      Rows(data, stride, rowBytes, n - 1) + data[RowStart(n - 1, stride)..][..rowBytes]
  }

  /** Byte `k` of row `y` lands `k` bytes behind the start of the packed row `y`. */
  lemma {:induction false} RowsAt(data: seq<bv8>, stride: nat, rowBytes: nat, n: nat, y: nat, k: nat)
    requires rowBytes <= stride && RowStart(n, stride) <= |data| && y < n && k < rowBytes
    ensures RowStart(y, rowBytes) + k < RowStart(n, rowBytes) && RowStart(y, stride) + k < |data|
    ensures Rows(data, stride, rowBytes, n)[RowStart(y, rowBytes) + k] == data[RowStart(y, stride) + k]
  {
    NextRow(n - 1, stride);
    NextRow(n - 1, rowBytes);
    hide RowStart;
    if y < n - 1 {
      RowsAt(data, stride, rowBytes, n - 1, y, k);
    }
  }

  /** The declared row length, or the tight one. */
  function StrideOf(width: U32, stride: Option<U32>): nat {
    match stride case Some(s) => s case None => 4 * width
  }

  /** What makes raw pixel data well formed. */
  predicate WellFormed(width: U32, height: U32, stride: Option<U32>, length: nat) {
    && 4 * width <= U32_MAX
    && 4 * width <= StrideOf(width, stride)
    && length == RowStart(height, StrideOf(width, stride))
  }

  /** The pixel is the four bytes of the raw data at its row and column. */
  predicate SamePixel(image: ImageBuffer, data: seq<bv8>, stride: nat, x: U32, y: U32) {
    var at := RowStart(y, stride) + 4 * x;
    at + 4 <= |data| && image.Pixel(x, y) == Some(data[at..at + 4])
  }

  ghost predicate SamePixels(image: ImageBuffer, data: seq<bv8>, stride: nat) {
    forall x: U32, y: U32 :: x < image.width && y < image.height ==> SamePixel(image, data, stride, x, y)
  }

  /**
   * Decoding succeeds exactly on well-formed data and keeps every pixel; the size check never
   * overflows, and rows are never cut at length zero.
   */
  method DecodeRgba8(width: U32, height: U32, declared: Option<U32>, data: seq<bv8>)
    returns (r: Result<ImageBuffer, ImageError>)
    ensures r.Ok? <==> WellFormed(width, height, declared, |data|)
    ensures 4 * width > 0xffff_ffff ==> r == Err(WidthTooLarge)
    ensures 4 * width <= 0xffff_ffff && declared.Some? && declared.value < 4 * width ==> r == Err(StrideTooSmall)
    ensures 4 * width <= 0xffff_ffff && !(declared.Some? && declared.value < 4 * width) && r.Err? ==>
              r == Err(LengthMismatch)
    ensures r.Ok? ==> r.value.width == width && r.value.height == height && r.value.stride == 4 * width
    ensures r.Ok? ==> |r.value.data| == RowStart(height, 4 * width)
    ensures r.Ok? ==> SamePixels(r.value, data, StrideOf(width, declared))
  {
    hide RowStart, SamePixels;
    var rowBytes: nat := 4 * width;
    if rowBytes > U32_MAX {
      return Err(WidthTooLarge);
    }
    var stride := StrideOf(width, declared);
    if stride < rowBytes {
      return Err(StrideTooSmall);
    }
    ProductFits(stride, height);
    var expected := CheckedMul(stride, height);
    if expected != Some(|data|) {
      return Err(LengthMismatch);
    }
    var pixels := data;
    if stride != rowBytes {
      pixels := Repack(data, stride, rowBytes, height);
      RowsKeepPixels(data, stride, width, height);
    } else {
      TightKeepsPixels(data, width, height);
    }
    r := FromRgba(width, height, pixels);
  }

  function CheckedMul(a: nat, b: nat): Option<nat> {
    if RowStart(b, a) <= USIZE_MAX then Some(RowStart(b, a)) else None
  }

  /** Cuts the data into rows and drops the padding of each. */
  method Repack(data: seq<bv8>, stride: nat, rowBytes: nat, height: nat) returns (tight: seq<bv8>)
    requires stride > rowBytes && |data| == RowStart(height, stride)
    ensures tight == Rows(data, stride, rowBytes, height)
  {
    tight := [];
    var rest := data;
    ghost var y: nat := 0;
    assert RowStart(0, stride) == 0;
    hide RowStart;
    while |rest| >= stride
      invariant y <= height && RowStart(y, stride) <= |data| && rest == data[RowStart(y, stride)..]
      invariant tight == Rows(data, stride, rowBytes, y)
      decreases |rest|
    {
      NextRow(y, stride);
      assert y < height;
      RowsAscend(y + 1, height, stride);
      tight := tight + rest[..stride][..rowBytes];
      assert rest[..stride][..rowBytes] == rest[..rowBytes];
      rest := rest[stride..];
      y := y + 1;
    }
    NextRow(y, stride);
    if y < height { RowsAscend(y + 1, height, stride); }
  }

  /** The four bytes of a pixel survive the repacking. */
  lemma RowsKeepPixel(data: seq<bv8>, stride: nat, width: nat, height: nat, x: nat, y: nat)
    requires 4 * width <= stride && |data| == RowStart(height, stride) && x < width && y < height
    ensures var rows := Rows(data, stride, 4 * width, height);
            var from, at := RowStart(y, 4 * width) + 4 * x, RowStart(y, stride) + 4 * x;
            from + 4 <= |rows| && at + 4 <= |data| && rows[from..from + 4] == data[at..at + 4]
  {
    hide RowStart, Rows;
    InsideRow(x, y, width, height, stride);
    InsideRow(x, y, width, height, 4 * width);
    var rows := Rows(data, stride, 4 * width, height);
    var from, at := RowStart(y, 4 * width) + 4 * x, RowStart(y, stride) + 4 * x;
    RowsAt(data, stride, 4 * width, height, y, 4 * x);
    RowsAt(data, stride, 4 * width, height, y, 4 * x + 1);
    RowsAt(data, stride, 4 * width, height, y, 4 * x + 2);
    RowsAt(data, stride, 4 * width, height, y, 4 * x + 3);
    assert rows[from..from + 4] == [rows[from], rows[from + 1], rows[from + 2], rows[from + 3]];
    assert data[at..at + 4] == [data[at], data[at + 1], data[at + 2], data[at + 3]];
  }

  lemma RowsKeepPixels(data: seq<bv8>, stride: U32, width: U32, height: U32)
    requires 4 * width <= stride && |data| == RowStart(height, stride)
    ensures SamePixels(ImageBuffer(width, height, 4 * width, Rows(data, stride, 4 * width, height)), data, stride)
  {
    hide RowStart, Rows;
    var image := ImageBuffer(width, height, 4 * width, Rows(data, stride, 4 * width, height));
    forall x: U32, y: U32 | x < width && y < height ensures SamePixel(image, data, stride, x, y)
    {
      RowsKeepPixel(data, stride, width, height, x, y);
    }
  }

  lemma TightKeepsPixels(data: seq<bv8>, width: U32, height: U32)
    requires 4 * width <= U32_MAX && |data| == RowStart(height, 4 * width)
    ensures SamePixels(ImageBuffer(width, height, 4 * width, data), data, 4 * width)
  {
    hide RowStart;
    var image := ImageBuffer(width, height, 4 * width, data);
    forall x: U32, y: U32 | x < width && y < height ensures SamePixel(image, data, 4 * width, x, y)
    {
      InsideRow(x, y, width, height, 4 * width);
    }
  }

  // ----- a fresh buffer -----

  const OPAQUE_BLACK: seq<bv8> := [0, 0, 0, 255]

  method NewRgba(width: U32, height: U32) returns (image: ImageBuffer)
    ensures image == BlankImage(width, height)
  {
    var stride := Min(4 * width, U32_MAX);
    ProductFits(stride, height);
    var len: nat := Min(RowStart(height, stride), USIZE_MAX);
    hide RowStart, BlankByte;
    var data := new bv8[len](i => 0);
    for p := 0 to len / 4
      invariant forall i :: 0 <= i < 4 * p ==> data[i] == BlankByte(i)
      invariant forall i :: 4 * p <= i < len ==> data[i] == 0
    {
      BlankPixel(p);
      data[4 * p + 3] := 255;
    }
    BlankPixel(len / 4);
    assert data[..] == Blank(len);
    image := ImageBuffer(width, height, stride, data[..]);
  }

  function BlankByte(i: nat): bv8 { if i % 4 == 3 then 255 else 0 }

  lemma BlankPixel(p: nat)
    ensures BlankByte(4 * p) == 0 && BlankByte(4 * p + 1) == 0
    ensures BlankByte(4 * p + 2) == 0 && BlankByte(4 * p + 3) == 255
  {
  }

  /** Every fourth byte is opaque. */
  function Blank(len: nat): seq<bv8> { seq(len, i requires 0 <= i => BlankByte(i)) }

  function BlankImage(width: U32, height: U32): ImageBuffer {
    var stride := Min(4 * width, U32_MAX);
    ImageBuffer(width, height, stride, Blank(RowStart(height, stride)))
  }

  lemma RowStartByFour(y: nat, width: nat)
    ensures RowStart(y, 4 * width) == 4 * RowStart(y, width)
  {
  }

  /** All pixels can be read and are opaque black exactly when the row length fits. */
  lemma BlankIsOpaqueIff(width: U32, height: U32)
    ensures (forall x: U32, y: U32 :: x < width && y < height ==>
               BlankImage(width, height).Pixel(x, y) == Some(OPAQUE_BLACK)) <==> 4 * width <= U32_MAX || height == 0
  {
    var image := BlankImage(width, height);
    hide RowStart;
    if 4 * width <= U32_MAX {
      forall x: U32, y: U32 | x < width && y < height ensures image.Pixel(x, y) == Some(OPAQUE_BLACK) {
        InsideRow(x, y, width, height, 4 * width);
        RowStartByFour(y, width);
        var offset := RowStart(y, 4 * width) + 4 * x;
        assert offset == 4 * (RowStart(y, width) + x);
        BlankPixel(RowStart(y, width) + x);
        assert image.data[offset..offset + 4] == OPAQUE_BLACK;
      }
    } else if height > 0 {
      var x: U32, y: U32 := 0x3fff_ffff, height - 1;
      NextRow(y, U32_MAX);
      assert image.Pixel(x, y) == None;
    }
  }
}
