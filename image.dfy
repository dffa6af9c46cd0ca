/**
 * Loading a PNG image held in memory (ImageHandling.cpp): a byte cursor that
 * feeds the decoder, the decisions that normalise every PNG pixel format to
 * 8-bit RGBA, and the row layout of the decoded image. The decoder itself
 * (libpng) is not part of this model; `PngInfo` stands for the header it
 * reads, and `Transformed` for what its transformations do to a pixel format.
 */
module PngLoad {
  import opened Wrappers
  import opened RamTypes

  /** The message `png_error` is raised with when the data runs out. */
  const READ_ERROR := "Read Error: Unexpected end of PNG data in memory."
  /** `abort()`. */
  const ABORT := "abort"

  /** One read of `n` bytes at `pos`: the bytes, or the error when fewer than `n` remain. */
  function ReadStep(buffer: seq<byte>, pos: nat, n: nat): Result<seq<byte>, string>
  {
    if pos + n > |buffer| then Err(READ_ERROR) else Ok(buffer[pos..pos + n])
  }

  function Sum(ns: seq<nat>): nat
  {
    if ns == [] then 0 else ns[0] + Sum(ns[1..])
  }

  /**
   * Successive reads of `ns[0]`, `ns[1]`, ... bytes from `pos`: the bytes
   * read, or the first error (which ends decoding), and the cursor after.
   */
  function ReadAll(buffer: seq<byte>, pos: nat, ns: seq<nat>): (Result<seq<byte>, string>, nat)
    decreases |ns|
  {
    if ns == [] then (Ok([]), pos)
    else match ReadStep(buffer, pos, ns[0])
      case Err(e) => (Err(e), pos)
      case Ok(bytes) =>
        var (rest, pos') := ReadAll(buffer, pos + ns[0], ns[1..]);
        if rest.Err? then (rest, pos') else (Ok(bytes + rest.value), pos')
  }

  /**
   * Reads from a cursor within the buffer fail exactly when they ask for more than the bytes left;
   * otherwise they return the next `Sum(ns)` bytes in order and move the
   * cursor past them, so it stays within the buffer.
   */
  lemma {:induction false} ReadsConcatenate(buffer: seq<byte>, pos: nat, ns: seq<nat>)
    requires pos <= |buffer|
    decreases |ns|
    ensures ReadAll(buffer, pos, ns).0.Ok? <==> pos + Sum(ns) <= |buffer|
    ensures ReadAll(buffer, pos, ns).0.Ok? ==>
      ReadAll(buffer, pos, ns).0.value == buffer[pos..pos + Sum(ns)] && ReadAll(buffer, pos, ns).1 == pos + Sum(ns)
  {
    if ns != [] {
      assert Sum(ns) == ns[0] + Sum(ns[1..]);
      if pos + ns[0] <= |buffer| {
        ReadsConcatenate(buffer, pos + ns[0], ns[1..]);
        var rest := ReadAll(buffer, pos + ns[0], ns[1..]);
        assert ReadAll(buffer, pos, ns) == if rest.0.Err? then rest else (Ok(buffer[pos..pos + ns[0]] + rest.0.value), rest.1);
        if pos + Sum(ns) <= |buffer| {
          assert buffer[pos..pos + Sum(ns)] == buffer[pos..pos + ns[0]] + buffer[pos + ns[0]..pos + Sum(ns)];
        }
      } else {
        assert ReadAll(buffer, pos, ns).0 == Err(READ_ERROR);
      }
    }
  }

  /** `PngMemoryReaderState`: the bytes (their count is `size`) and the read cursor. */
  class PngMemoryReader {
    const buffer: seq<byte>
    var currentPos: nat

    /** A reader at the start of `data`. */
    constructor (data: seq<byte>)
      ensures buffer == data && currentPos == 0
    {
      buffer := data;
      currentPos := 0;
    }

    /**
     * `PngReadFromMemory`: copy the next `n` bytes into `outBytes` and move
     * the cursor on by `n`; when fewer than `n` bytes remain, copy nothing,
     * keep the cursor and report the error.
     */
    method Read(outBytes: array<byte>, n: nat) returns (err: Option<string>)
      requires n <= outBytes.Length
      modifies this`currentPos, outBytes
      ensures ReadStep(buffer, old(currentPos), n).Err? ==>
        err == Some(READ_ERROR) && currentPos == old(currentPos) && outBytes[..] == old(outBytes[..])
      ensures ReadStep(buffer, old(currentPos), n).Ok? ==>
        && err == None
        && outBytes[..n] == ReadStep(buffer, old(currentPos), n).value
        && outBytes[n..] == old(outBytes[n..])
        && currentPos == old(currentPos) + n
    {
      if currentPos + n > |buffer| {
        return Some(READ_ERROR);
      }
      var pos := currentPos;
      var i := 0;
      while i < n
        invariant 0 <= i <= n
        invariant outBytes[..i] == buffer[pos..pos + i]
        invariant outBytes[i..] == old(outBytes[i..])
      {
        outBytes[i] := buffer[pos + i];
        i := i + 1;
      }
      currentPos := pos + n;
      return None;
    }
  }

  // ---------------------------------------------------------------------------
  // Normalisation to RGBA8

  /** The PNG colour types. */
  datatype ColorType = Gray | Rgb | Palette | GrayAlpha | RgbAlpha

  /**
   * The colour type and bit depth combinations the PNG specification
   * (section 11.2.2 of ISO/IEC 15948) allows, with a tRNS chunk only on
   * types without an alpha channel.
   */
  predicate WellFormed(colorType: ColorType, bitDepth: nat, hasTRNS: bool)
  {
    && (match colorType
        case Gray => bitDepth in {1, 2, 4, 8, 16}
        case Palette => bitDepth in {1, 2, 4, 8}
        case _ => bitDepth in {8, 16})
    && (hasTRNS ==> colorType in {Gray, Rgb, Palette})
  }

  /** The libpng transformations the loader asks for. */
  datatype Decisions = Decisions(
    strip16: bool,
    paletteToRgb: bool,
    expandGray: bool,
    tRNSToAlpha: bool,
    fillerAfter: bool,
    grayToRgb: bool)

  /** The loader's decision table. */
  function Normalise(colorType: ColorType, bitDepth: nat, hasTRNS: bool): Decisions
  {
    Decisions(
      strip16 := bitDepth == 16,
      paletteToRgb := colorType == Palette,
      expandGray := colorType == Gray && bitDepth < 8,
      tRNSToAlpha := hasTRNS,
      fillerAfter := colorType in {Rgb, Gray, Palette},
      grayToRgb := colorType in {Gray, GrayAlpha})
  }

  /** Channels per pixel and bits per channel. */
  datatype PixelFormat = PixelFormat(channels: nat, bitDepth: nat)

  const RGBA8 := PixelFormat(4, 8)

  /**
   * The pixel format libpng delivers for an image after the transformations
   * `d`: palette indices and gray below 8 bits are expanded to 8 bits (tRNS
   * expansion implies this too), 16 bits are stripped to 8, tRNS becomes an
   * alpha channel, gray becomes three colour channels, and the filler adds a
   * fourth channel to rows that have no alpha.
   */
  function Transformed(colorType: ColorType, bitDepth: nat, hasTRNS: bool, d: Decisions): PixelFormat
  {
    var paletteExpanded := colorType == Palette && (d.paletteToRgb || d.tRNSToAlpha);
    var grayExpanded := colorType == Gray && bitDepth < 8 && (d.expandGray || d.tRNSToAlpha);
    var depth := if paletteExpanded || grayExpanded || (bitDepth == 16 && d.strip16) then 8 else bitDepth;
    var colours := if colorType in {Rgb, RgbAlpha} || paletteExpanded || (colorType in {Gray, GrayAlpha} && d.grayToRgb) then 3 else 1;
    var alpha := colorType in {GrayAlpha, RgbAlpha} || (hasTRNS && d.tRNSToAlpha && colorType in {Gray, Rgb, Palette});
    var filler := d.fillerAfter && !alpha && (colorType != Palette || paletteExpanded);
    PixelFormat(colours + (if alpha || filler then 1 else 0), depth)
  }

  /** Every well-formed PNG ends as four 8-bit channels under the loader's decisions. */
  lemma NormalisesToRgba8(colorType: ColorType, bitDepth: nat, hasTRNS: bool)
    requires WellFormed(colorType, bitDepth, hasTRNS)
    ensures Transformed(colorType, bitDepth, hasTRNS, Normalise(colorType, bitDepth, hasTRNS)) == RGBA8
  { }

  /** Without the filler, an opaque RGB image would stay at three channels. */
  lemma FillerNeeded()
    ensures Transformed(Rgb, 8, false, Normalise(Rgb, 8, false).(fillerAfter := false)) == PixelFormat(3, 8)
  { }

  // ---------------------------------------------------------------------------
  // Row layout

  /** Bytes in a row of `width` pixels. */
  function RowBytes(width: nat, format: PixelFormat): nat
  {
    (width * format.channels * format.bitDepth + 7) / 8
  }

  /** Row `y` of an image with `rowBytes`-byte rows begins at `y * rowBytes`. */
  method RowOffsets(rowBytes: nat, height: nat) returns (rows: array<nat>)
    ensures rows.Length == height
    ensures forall y :: 0 <= y < height ==> rows[y] == y * rowBytes
  {
    rows := new nat[height];
    var y := 0;
    while y < height
      invariant 0 <= y <= height
      invariant forall j :: 0 <= j < y ==> rows[j] == j * rowBytes
    {
      rows[y] := y * rowBytes;
      y := y + 1;
    }
  }

  /** Each row lies inside a buffer of `rowBytes * height` bytes, and the rows do not overlap. */
  lemma RowsInside(rowBytes: nat, height: nat, y: nat, z: nat)
    requires y < z < height
    ensures y * rowBytes + rowBytes <= z * rowBytes
    ensures z * rowBytes + rowBytes <= rowBytes * height
  {
    assert y * rowBytes + rowBytes == (y + 1) * rowBytes;
    assert z * rowBytes + rowBytes == (z + 1) * rowBytes;
    MulMonotone(y + 1, z, rowBytes);
    MulMonotone(z + 1, height, rowBytes);
  }

  lemma MulMonotone(a: nat, b: nat, m: nat)
    requires a <= b
    ensures a * m <= b * m
  {
    assert b * m == a * m + (b - a) * m;
  }

  // ---------------------------------------------------------------------------
  // The loader

  /** What `png_read_info` reads from the image header. */
  datatype PngInfo = PngInfo(width: nat, height: nat, colorType: ColorType, bitDepth: nat, hasTRNS: bool)

  /** The decoded image's shape: its size, pixel format, row length and where each row begins. */
  datatype Image = Image(width: nat, height: nat, format: PixelFormat, rowBytes: nat, rowOffsets: seq<nat>)

  /**
   * `LoadPngImageFromMemory` up to the decoding of the pixels. A null
   * pointer or an empty buffer aborts at once. The decoder then pulls bytes
   * through the read callback: `headerReads` are the requests
   * `png_read_info` makes, `imageReads` those of `png_read_image`. A request
   * past the end of the buffer raises `png_error`, which lands in the
   * `setjmp` branch and aborts; so does a header or a stream the decoder
   * rejects (`decoded` is false when libpng's own checks of the bytes fail).
   * Otherwise the decision table is applied and one row per line of the
   * image is laid out in a buffer of `rowBytes * height` bytes.
   */
  method LoadPngImageFromMemory(data: Option<seq<byte>>, size: nat, headerReads: seq<nat>, info: PngInfo,
                                imageReads: seq<nat>, decoded: bool)
    returns (r: Result<Image, string>)
    requires data.Some? ==> size <= |data.value|
    ensures r.Ok? <==>
      && data.Some? && size != 0
      && Sum(headerReads) + Sum(imageReads) <= size
      && WellFormed(info.colorType, info.bitDepth, info.hasTRNS) && decoded
    ensures r.Err? ==> r.error == ABORT
    ensures r.Ok? ==>
      && r.value.width == info.width && r.value.height == info.height
      && r.value.format == RGBA8 && r.value.rowBytes == 4 * info.width
      && |r.value.rowOffsets| == info.height
      && forall y :: 0 <= y < info.height ==>
           r.value.rowOffsets[y] + r.value.rowBytes <= r.value.rowBytes * info.height
  {
    if data.None? || size == 0 {
      return Err(ABORT);
    }
    var buffer := data.value[..size];
    ReadsConcatenate(buffer, 0, headerReads);
    var (header, pos) := ReadAll(buffer, 0, headerReads);
    if header.Err? || !WellFormed(info.colorType, info.bitDepth, info.hasTRNS) {
      return Err(ABORT);
    }
    var decisions := Normalise(info.colorType, info.bitDepth, info.hasTRNS);
    var format := Transformed(info.colorType, info.bitDepth, info.hasTRNS, decisions);
    NormalisesToRgba8(info.colorType, info.bitDepth, info.hasTRNS);
    var rowBytes := RowBytes(info.width, format);
    assert rowBytes == 4 * info.width;
    var rows := RowOffsets(rowBytes, info.height);
    ReadsConcatenate(buffer, pos, imageReads);
    var (pixels, _) := ReadAll(buffer, pos, imageReads);
    if pixels.Err? || !decoded {
      return Err(ABORT);
    }
    forall y | 0 <= y < info.height
      ensures rows[y] + rowBytes <= rowBytes * info.height
    {
      RowsInside(rowBytes, info.height + 1, y, info.height);
    }
    return Ok(Image(info.width, info.height, format, rowBytes, rows[..]));
  }
}
