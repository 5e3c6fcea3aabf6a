/**
 * The VTEX texture resource: the container reader (fixed header and extra-data directory),
 * the mip navigator, the decompression step and the format dispatch of GenerateBitmap.
 *
 * Each operation is given twice: as a reference function that says where every field lies
 * in terms of byte offsets from the block start, and as a method of class Texture that moves
 * a Reader's cursor as the C# code does. The methods are proved to agree with the functions;
 * the lemmas state the format's properties about the functions.
 */
module VTexture {
  import opened Wrappers
  import opened ByteIO
  import opened VTexFormats

  /** VTexExtraData values of the two kinds Read treats specially. */
  const FILL_TO_POWER_OF_TWO: nat := 3
  const COMPRESSED_MIP_SIZE: nat := 4

  /** Bytes from the block start to the end of the extra-data count field. */
  const HEADER_SIZE: nat := 40

  datatype TextureError =
    | UnknownVersion(version: nat)   // InvalidDataException("Unknown vtex version")
    | Io(io: IoError)
    | DuplicateExtraData(kind: nat)  // ArgumentException from Dictionary.Add
    | MipIndexOutOfRange             // IndexOutOfRangeException on CompressedMips
    | NegativeBufferLength           // OverflowException from `new byte[n]` with n < 0
    | UnhandledImageType(tag: byte)  // NotImplementedException("Unhandled image type")

  /** The header fields. Reflectivity is kept as the raw bits of its four floats. */
  datatype Header = Header(
    version: nat, flags: nat, reflectivity: seq<nat>,
    width: nat, height: nat, depth: nat,
    format: byte, numMipLevels: nat, picmip0Res: nat)

  /** What the extra-data directory leaves behind. */
  datatype Directory = Directory(
    extraData: map<nat, seq<byte>>,
    nonPow2Width: nat, nonPow2Height: nat,
    compressedMips: Option<seq<nat>>)

  datatype TextureState = TextureState(header: Header, directory: Directory, dataOffset: nat)

  // ---------------------------------------------------------------------------------------
  // Reference definitions of Read, by byte offset

  /** The header fields at their fixed offsets from the block start. */
  function HeaderAt(data: seq<byte>, offset: nat): Header
    requires offset + HEADER_SIZE <= |data|
  {
    Header(
      U16At(data, offset), U16At(data, offset + 2),
      [U32At(data, offset + 4), U32At(data, offset + 8), U32At(data, offset + 12), U32At(data, offset + 16)],
      U16At(data, offset + 20), U16At(data, offset + 22), U16At(data, offset + 24),
      data[offset + 26], data[offset + 27], U32At(data, offset + 28))
  }

  /** The header, or the reason it cannot be read: the version is checked before anything after it is read. */
  function ParseHeader(data: seq<byte>, offset: nat): (r: Result<Header, TextureError>)
    ensures r.Success? <==> offset + HEADER_SIZE <= |data| && U16At(data, offset) == 1
    ensures r.Success? ==> r.value == HeaderAt(data, offset) && r.value.version == 1
    ensures offset + 2 <= |data| && U16At(data, offset) != 1 ==> r == Failure(UnknownVersion(U16At(data, offset)))
    ensures offset + 2 > |data| || (U16At(data, offset) == 1 && offset + HEADER_SIZE > |data|) ==> r == Failure(Io(EndOfStream))
  {
    if offset + 2 > |data| then Failure(Io(EndOfStream))
    else if U16At(data, offset) != 1 then Failure(UnknownVersion(U16At(data, offset)))
    else if offset + HEADER_SIZE > |data| then Failure(Io(EndOfStream))
    else Success(HeaderAt(data, offset))
  }

  /** The first directory entry: the extra-data offset counts from its own field, at offset + 32. */
  function DirectoryTable(data: seq<byte>, offset: nat): nat
    requires offset + HEADER_SIZE <= |data|
  {
    offset + HEADER_SIZE + U32Sub(U32At(data, offset + 32), 8)
  }

  function DirectoryCount(data: seq<byte>, offset: nat): nat
    requires offset + HEADER_SIZE <= |data|
  {
    U32At(data, offset + 36)
  }

  /** The kind of the directory entry whose 12-byte header starts at entry. */
  function EntryKind(data: seq<byte>, entry: nat): nat
    requires entry + 12 <= |data|
  {
    U32At(data, entry)
  }

  /** The entry's payload: its offset field counts from the field itself, at entry + 4. */
  function EntryPayload(data: seq<byte>, entry: nat): nat
    requires entry + 12 <= |data|
  {
    entry + 12 + U32Sub(U32At(data, entry + 4), 8)
  }

  function EntrySize(data: seq<byte>, entry: nat): nat
    requires entry + 12 <= |data|
  {
    U32At(data, entry + 8)
  }

  /** A valid non-power-of-two size: both values positive and within the stored size. */
  predicate AcceptableNonPow2(nw: nat, nh: nat, width: nat, height: nat)
  {
    nw > 0 && nh > 0 && nw <= width && nh <= height
  }

  /** The FILL_TO_POWER_OF_TWO read-ahead: the 2nd and 3rd u16 of the payload. */
  function PeekNonPow2(data: seq<byte>, width: nat, height: nat, payload: nat, dir: Directory): Result<Directory, TextureError>
  {
    if payload + 6 > |data| then Failure(Io(EndOfStream))
    else
      var nw := U16At(data, payload + 2);
      var nh := U16At(data, payload + 4);
      if AcceptableNonPow2(nw, nh, width, height) then Success(dir.(nonPow2Width := nw, nonPow2Height := nh))
      else Success(dir)
  }

  /** The COMPRESSED_MIP_SIZE layout at start: (u32, u32, count: u32, count x u32). */
  function MipSizeTable(data: seq<byte>, start: int): Result<seq<nat>, TextureError>
  {
    if start < 0 then Failure(Io(NegativePosition))
    else if start + 12 > |data| then Failure(Io(EndOfStream))
    else
      var n := U32At(data, start + 8);
      if start + 12 + 4 * n > |data| then Failure(Io(EndOfStream))
      else Success(U32Array(data, start + 12, n))
  }

  /** n consecutive little-endian u32 values from p, as the reading loop collects them. */
  function U32Array(data: seq<byte>, p: nat, n: nat): seq<nat>
    requires p + 4 * n <= |data|
  {
    if n == 0 then [] else U32Array(data, p, n - 1) + [U32At(data, p + 4 * (n - 1))]
  }

  /** One directory entry, with its 12-byte header at entry. */
  function EntryStep(data: seq<byte>, width: nat, height: nat, entry: nat, dir: Directory): Result<Directory, TextureError>
  {
    if entry + 12 > |data| then Failure(Io(EndOfStream))
    else
      var kind := EntryKind(data, entry);
      var payload := EntryPayload(data, entry);
      var size := EntrySize(data, entry);
      var peeked :- if kind == FILL_TO_POWER_OF_TWO then PeekNonPow2(data, width, height, payload, dir) else Success(dir);
      StorePayload(data, kind, payload, size, peeked)
  }

  /** `ExtraData.Add(kind, ReadBytes((int)size))` at payload, then the COMPRESSED_MIP_SIZE reinterpretation. */
  function StorePayload(data: seq<byte>, kind: nat, payload: nat, size: nat, dir: Directory): Result<Directory, TextureError>
  {
    if size >= I32_LIMIT then Failure(Io(NegativeCount))
    else if kind in dir.extraData then Failure(DuplicateExtraData(kind))
    else
      var bytes := Slice(data, payload, size);
      var added := dir.(extraData := dir.extraData[kind := bytes]);
      if kind == COMPRESSED_MIP_SIZE then
        var table :- MipSizeTable(data, payload + |bytes| - size);
        Success(added.(compressedMips := Some(table)))
      else Success(added)
  }

  /** Entries i .. count-1 of the directory at table; entry j's header lies at table + 12 * j. */
  function ParseEntries(data: seq<byte>, width: nat, height: nat, table: nat, i: nat, count: nat, dir: Directory): Result<Directory, TextureError>
    decreases count - i, 1
  {
    if i >= count then Success(dir)
    else ParseEntry(data, width, height, table, i, count, dir)
  }

  /** Entry i, then the entries after it. */
  function ParseEntry(data: seq<byte>, width: nat, height: nat, table: nat, i: nat, count: nat, dir: Directory): Result<Directory, TextureError>
    requires i < count
    decreases count - i, 0
  {
    var next :- EntryStep(data, width, height, table + 12 * i, dir);
    ParseEntries(data, width, height, table, i + 1, count, next)
  }

  /**
   * Texture.Read on a block at offset with the given size, starting from the dictionary and
   * mip table the object already holds; the pixel data is taken to start at the block's end.
   */
  function ParseTexture(data: seq<byte>, offset: nat, size: nat, extra0: map<nat, seq<byte>>, mips0: Option<seq<nat>>): Result<TextureState, TextureError>
  {
    var h :- ParseHeader(data, offset);
    var dir :- ParseEntries(data, h.width, h.height, DirectoryTable(data, offset), 0, DirectoryCount(data, offset), Directory(extra0, 0, 0, mips0));
    Success(TextureState(h, dir, offset + size))
  }

  /** The four reflectivity floats, as the raw bits of four u32 reads. */
  method ReadReflectivity(r: Reader) returns (res: Result<seq<nat>, IoError>)
    modifies r
    ensures var p := old(r.pos);
      && (p + 16 > |r.data| ==> res == Failure(EndOfStream))
      && (p + 16 <= |r.data| ==> res == Success([U32At(r.data, p), U32At(r.data, p + 4), U32At(r.data, p + 8), U32At(r.data, p + 12)]) && r.pos == p + 16)
  {
    var r0 := r.ReadU32();
    if r0.Failure? { return Failure(r0.error); }
    var r1 := r.ReadU32();
    if r1.Failure? { return Failure(r1.error); }
    var r2 := r.ReadU32();
    if r2.Failure? { return Failure(r2.error); }
    var r3 := r.ReadU32();
    if r3.Failure? { return Failure(r3.error); }
    res := Success([r0.value, r1.value, r2.value, r3.value]);
  }

  /**
   * Reads the header fields that follow the version, in their order in the file: the header
   * whose version field lies just before the cursor, and the extra-data offset and count.
   */
  method ReadHeaderFields(r: Reader, version: nat) returns (res: Result<(Header, nat, nat), TextureError>)
    requires 2 <= r.pos <= |r.data| && version == U16At(r.data, r.pos - 2)
    modifies r
    ensures var start := old(r.pos) - 2;
      && (start + HEADER_SIZE > |r.data| ==> res == Failure(Io(EndOfStream)))
      && (start + HEADER_SIZE <= |r.data| ==>
            && res == Success((HeaderAt(r.data, start), U32At(r.data, start + 32), U32At(r.data, start + 36)))
            && r.pos == start + HEADER_SIZE)
  {
    var f := r.ReadU16();
    if f.Failure? { return Failure(Io(f.error)); }
    var refl := ReadReflectivity(r);
    if refl.Failure? { return Failure(Io(refl.error)); }
    var w := r.ReadU16();
    if w.Failure? { return Failure(Io(w.error)); }
    var h := r.ReadU16();
    if h.Failure? { return Failure(Io(h.error)); }
    var d := r.ReadU16();
    if d.Failure? { return Failure(Io(d.error)); }
    var fmt := r.ReadByte();
    if fmt.Failure? { return Failure(Io(fmt.error)); }
    var mips := r.ReadByte();
    if mips.Failure? { return Failure(Io(mips.error)); }
    var picmip := r.ReadU32();
    if picmip.Failure? { return Failure(Io(picmip.error)); }
    var extraOffset := r.ReadU32();
    if extraOffset.Failure? { return Failure(Io(extraOffset.error)); }
    var extraCount := r.ReadU32();
    if extraCount.Failure? { return Failure(Io(extraCount.error)); }
    var header := Header(version, f.value, refl.value, w.value, h.value, d.value, fmt.value, mips.value, picmip.value);
    res := Success((header, extraOffset.value, extraCount.value));
  }

  // ---------------------------------------------------------------------------------------
  // Reference definitions of the mip navigator, the decompression step and the dispatch

  function Pow2(n: nat): (r: nat)
    ensures r >= 1
  {
    if n == 0 then 1 else 2 * Pow2(n - 1)
  }

  /** `(long)(size / Math.Pow(2, n))`: the quotient of two doubles is exact here, and the cast truncates toward zero. */
  function TruncDiv(a: int, b: nat): int
    requires b > 0
  {
    if a >= 0 then a / b else -((-a) / b)
  }

  /** The size product before the `int` arithmetic wraps. */
  function SizeProduct(h: Header, bpp: nat): nat
  {
    bpp * h.width * bpp * h.height
  }

  /** CalculateBufferSizeForMipLevel: the `int` product bpp * Width * bpp * Height, divided by
      2^(mip+1) for DXT1 and DXT5; every other format ignores the mip level. */
  function BufferSizeForMipLevel(h: Header, bpp: nat, mip: nat): int
  {
    var size := Int32(bpp * h.width * bpp * h.height);
    if IsBlockCompressed(FormatOf(h.format)) then TruncDiv(size, Pow2(mip + 1)) else size
  }

  /** Division of a size by a positive divisor. */
  function DivNat(a: nat, b: nat): nat
    requires b > 0
  {
    a / b
  }

  /** The legacy size of one mip as plain arithmetic, with no 32-bit wrap. */
  function PlainMipSize(h: Header, bpp: nat, mip: nat): nat
  {
    if IsBlockCompressed(FormatOf(h.format)) then DivNat(SizeProduct(h, bpp), Pow2(mip + 1)) else SizeProduct(h, bpp)
  }

  /** The product fits a C# `int`, so none of the size arithmetic wraps. */
  predicate NoOverflow(h: Header, bpp: nat)
  {
    SizeProduct(h, bpp) < I32_LIMIT
  }

  /** Sum of t[lo .. hi-1]. */
  function SumRange(t: seq<nat>, lo: nat, hi: nat): nat
    requires lo <= hi <= |t|
    decreases hi - lo
  {
    if lo == hi then 0 else t[lo] + SumRange(t, lo + 1, hi)
  }

  /** Sum of PlainMipSize for mips lo .. hi. */
  function PlainMipSum(h: Header, bpp: nat, lo: nat, hi: nat): nat
    decreases hi + 1 - lo
  {
    if lo > hi then 0 else PlainMipSize(h, bpp, lo) + PlainMipSum(h, bpp, lo + 1, hi)
  }

  /** The legacy loop `for (j = NumMipLevels; j > 1; j--) Position += CalculateBufferSizeForMipLevel(bpp, j)`. */
  function LegacySkip(h: Header, bpp: nat, pos: nat, j: nat): Result<nat, TextureError>
    decreases j
  {
    if j <= 1 then Success(pos)
    else
      var next := pos + BufferSizeForMipLevel(h, bpp, j);
      if next < 0 then Failure(Io(NegativePosition))
      else LegacySkip(h, bpp, next, j - 1)
  }

  /** SkipMipmaps: where the cursor at pos ends up. */
  function MipSkip(h: Header, mips: Option<seq<nat>>, bpp: nat, pos: nat): Result<nat, TextureError>
  {
    if h.numMipLevels < 2 then Success(pos)
    else match mips
      case Some(t) =>
        if h.numMipLevels - 1 >= |t| then Failure(MipIndexOutOfRange)
        else Success(pos + SumRange(t, 1, h.numMipLevels))
      case None => LegacySkip(h, bpp, pos, h.numMipLevels)
  }

  function Zeros(n: nat): (r: seq<byte>)
    ensures |r| == n && forall k :: 0 <= k < n ==> r[k] == 0
  {
    seq(n, _ => 0)
  }

  /** The n-byte output buffer after the decoder has written `decoded` into it from the start. */
  function Fit(decoded: seq<byte>, n: nat): (r: seq<byte>)
    ensures |r| == n
    ensures forall k :: 0 <= k < n ==> r[k] == if k < |decoded| then decoded[k] else 0
  {
    if |decoded| >= n then decoded[..n] else decoded + Zeros(n - |decoded|)
  }

  /** Where the unpacker takes its input from: the reader itself, or a decompressed buffer. */
  datatype PixelSource = StreamAt(pos: nat) | Decompressed(bytes: seq<byte>)

  /**
   * GetDecompressedBuffer with the cursor at pos: the stream itself when there is no mip
   * table; otherwise CompressedMips[0] bytes are read and decoded into a buffer of
   * CalculateBufferSizeForMipLevel(bpp, 0) bytes. lz4 gives the bytes LZ4Codec.Decode writes
   * for an input and a target length. Returns the source and the new cursor.
   */
  function DecompressedBuffer(h: Header, mips: Option<seq<nat>>, bpp: nat, data: seq<byte>, pos: nat,
                              lz4: (seq<byte>, nat) -> seq<byte>): Result<(PixelSource, nat), TextureError>
  {
    match mips
    case None => Success((StreamAt(pos), pos))
    case Some(t) =>
      if |t| == 0 then Failure(MipIndexOutOfRange)
      else
        var compressedSize := Int32(t[0]);
        var uncompressedSize := BufferSizeForMipLevel(h, bpp, 0);
        if compressedSize < 0 then Failure(Io(NegativeCount))
        else
          var input := Slice(data, pos, compressedSize);
          if uncompressedSize < 0 then Failure(NegativeBufferLength)
          else Success((Decompressed(Fit(lz4(input, uncompressedSize), uncompressedSize)), pos + |input|))
  }

  /** The width of the output canvas: the non-power-of-two width when one was accepted. */
  function ResolvedWidth(st: TextureState): nat
  {
    if st.directory.nonPow2Width > 0 then st.directory.nonPow2Width else st.header.width
  }

  function ResolvedHeight(st: TextureState): nat
  {
    if st.directory.nonPow2Height > 0 then st.directory.nonPow2Height else st.header.height
  }

  /** Bytes per pixel of a Bgra8888 canvas: SKImageInfo.RowBytes is 4 times the width. */
  const CANVAS_BYTES_PER_PIXEL: nat := 4

  /** The length of the canvas buffer, `RowBytes * Height` as a 32-bit int product. */
  function CanvasBytes(st: TextureState): int
  {
    Int32(CANVAS_BYTES_PER_PIXEL * ResolvedWidth(st) * ResolvedHeight(st))
  }

  const NO_MODIFIERS := Dxt5Modifiers(false, false, false)

  /** What GenerateBitmap hands to the unpackers or to the image-file decoder. */
  datatype Bitmap =
      /**
       * The unpacker writes into the canvas of the resolved size. The block decoders are also
       * given the stored size (storedSize); the 16-bit RGBA readers are given only the canvas.
       */
    | CanvasImage(format: VTexFormat, modifiers: Dxt5Modifiers, canvasWidth: nat, canvasHeight: nat,
                  canvasBytes: nat, source: PixelSource, storedSize: Option<(nat, nat)>)
      /** The unpacker builds its own bitmap of the stored size. */
    | OwnBitmap(format: VTexFormat, source: PixelSource, width: nat, height: nat)
      /** SKBitmap.Decode of the bytes from the pixel data onwards. */
    | EncodedImage(bytes: seq<byte>)

  /** GenerateBitmap on a parsed texture whose reader holds data. */
  function GenerateBitmapSpec(st: TextureState, data: seq<byte>, deps: Option<seq<SpecialDependency>>,
                              lz4: (seq<byte>, nat) -> seq<byte>): Result<Bitmap, TextureError>
  {
    var h := st.header;
    var f := FormatOf(h.format);
    var canvasBytes := CanvasBytes(st);
    if canvasBytes < 0 then Failure(NegativeBufferLength)
    else
      match HandlingOf(f)
      case Rejected => Failure(UnhandledImageType(h.format))
      case Encoded =>
        var length := Int32(|data|);
        if length < 0 then Failure(Io(NegativeCount))
        else Success(EncodedImage(Slice(data, st.dataOffset, length)))
      case Unpacked(bpp, intoCanvas) =>
        var pos :- MipSkip(h, st.directory.compressedMips, bpp, st.dataOffset);
        var buffer :- DecompressedBuffer(h, st.directory.compressedMips, bpp, data, pos, lz4);
        if intoCanvas then
          Success(CanvasImage(f, if f == DXT5 then ModifiersOf(deps) else NO_MODIFIERS,
                              ResolvedWidth(st), ResolvedHeight(st), canvasBytes, buffer.0,
                              if IsBlockCompressed(f) then Some((h.width, h.height)) else None))
        else Success(OwnBitmap(f, buffer.0, h.width, h.height))
  }

  // ---------------------------------------------------------------------------------------
  // The texture object

  class Texture {
    /** ResourceData.Offset and ResourceData.Size of the DATA block. */
    const offset: nat
    const size: nat

    var reader: Reader?
    var version: nat
    var flags: nat
    var reflectivity: seq<nat>
    var width: nat
    var height: nat
    var depth: nat
    var format: byte
    var numMipLevels: nat
    var picmip0Res: nat
    var extraData: map<nat, seq<byte>>
    var nonPow2Width: nat
    var nonPow2Height: nat
    var compressedMips: Option<seq<nat>>
    var dataOffset: nat

    constructor (offset: nat, size: nat)
      ensures this.offset == offset && this.size == size && reader == null
      ensures extraData == map[] && compressedMips == None
      ensures nonPow2Width == 0 && nonPow2Height == 0
    {
      this.offset := offset;
      this.size := size;
      reader := null;
      version, flags, reflectivity := 0, 0, [];
      width, height, depth := 0, 0, 0;
      format, numMipLevels, picmip0Res := 0, 0, 0;
      extraData := map[];
      nonPow2Width, nonPow2Height := 0, 0;
      compressedMips := None;
      dataOffset := 0;
    }

    function Head(): Header
      reads this
    {
      Header(version, flags, reflectivity, width, height, depth, format, numMipLevels, picmip0Res)
    }

    function Dir(): Directory
      reads this
    {
      Directory(extraData, nonPow2Width, nonPow2Height, compressedMips)
    }

    function State(): TextureState
      reads this
    {
      TextureState(Head(), Dir(), dataOffset)
    }

    /**
     * The fixed header, read field by field from the cursor at the block start. Returns the
     * extra-data offset and count, which are not kept.
     */
    method ReadHeader(r: Reader) returns (res: Result<(nat, nat), TextureError>)
      requires r.pos == offset
      modifies this`version, this`flags, this`reflectivity, this`width, this`height, this`depth
      modifies this`format, this`numMipLevels, this`picmip0Res, this`nonPow2Width, this`nonPow2Height, r
      ensures ParseHeader(r.data, offset).Failure? ==> res == Failure(ParseHeader(r.data, offset).error)
      ensures ParseHeader(r.data, offset).Success? ==>
        && offset + HEADER_SIZE <= |r.data|
        && Head() == HeaderAt(r.data, offset)
        && res == Success((U32At(r.data, offset + 32), U32At(r.data, offset + 36)))
        && nonPow2Width == 0 && nonPow2Height == 0
        && r.pos == offset + HEADER_SIZE
    {
      ghost var spec := ParseHeader(r.data, offset);
      var v := r.ReadU16();
      if v.Failure? {
        assert spec == Failure(Io(EndOfStream));
        return Failure(Io(v.error));
      }
      version := v.value;
      if version != 1 {
        assert spec == Failure(UnknownVersion(version));
        return Failure(UnknownVersion(version));
      }
      var fields := ReadHeaderFields(r, version);
      if fields.Failure? {
        assert spec == Failure(Io(EndOfStream));
        return Failure(fields.error);
      }
      var hf := fields.value.0;
      assert spec == Success(hf);
      StoreHeader(hf);
      res := Success((fields.value.1, fields.value.2));
    }

    /** Copies the header fields after the version into the object, and clears the non-power-of-two size. */
    method StoreHeader(hf: Header)
      requires hf.version == version
      modifies this`flags, this`reflectivity, this`width, this`height, this`depth
      modifies this`format, this`numMipLevels, this`picmip0Res, this`nonPow2Width, this`nonPow2Height
      ensures Head() == hf && nonPow2Width == 0 && nonPow2Height == 0
    {
      flags, reflectivity := hf.flags, hf.reflectivity;
      width, height, depth := hf.width, hf.height, hf.depth;
      nonPow2Width := 0;
      nonPow2Height := 0;
      format, numMipLevels, picmip0Res := hf.format, hf.numMipLevels, hf.picmip0Res;
    }

    /** The compressed-mip-size table read from the cursor. */
    method ReadMipSizeTable(r: Reader) returns (res: Result<seq<nat>, TextureError>)
      modifies r
      ensures res == MipSizeTable(r.data, old(r.pos))
    {
      ghost var start := r.pos;
      var int1 := r.ReadU32();
      if int1.Failure? { return Failure(Io(int1.error)); }
      var int2 := r.ReadU32();
      if int2.Failure? { return Failure(Io(int2.error)); }
      var mips := r.ReadU32();
      if mips.Failure? { return Failure(Io(mips.error)); }
      var table: seq<nat> := [];
      var k: nat := 0;
      while k < mips.value
        invariant k <= mips.value == U32At(r.data, start + 8)
        invariant r.pos == start + 12 + 4 * k <= |r.data|
        invariant table == U32Array(r.data, start + 12, k)
      {
        var x := r.ReadU32();
        if x.Failure? { return Failure(Io(x.error)); }
        table := table + [x.value];
        k := k + 1;
      }
      return Success(table);
    }

    /** The FILL_TO_POWER_OF_TWO read-ahead: three u16 reads, then the cursor steps back over them. */
    method PeekNonPow2Size(r: Reader) returns (res: Outcome<TextureError>)
      modifies this`nonPow2Width, this`nonPow2Height, r
      ensures var spec := PeekNonPow2(r.data, width, height, old(r.pos), old(Dir()));
        && (spec.Failure? ==> res == Fail(spec.error))
        && (spec.Success? ==> res == Pass && Dir() == spec.value && r.pos == old(r.pos))
    {
      var skipped := r.ReadU16();
      if skipped.Failure? { return Fail(Io(skipped.error)); }
      var nw := r.ReadU16();
      if nw.Failure? { return Fail(Io(nw.error)); }
      var nh := r.ReadU16();
      if nh.Failure? { return Fail(Io(nh.error)); }
      if nw.value > 0 && nh.value > 0 && width >= nw.value && height >= nh.value {
        nonPow2Width := nw.value;
        nonPow2Height := nh.value;
      }
      var _ := r.Seek(r.pos - 6);
      res := Pass;
    }

    /** After the COMPRESSED_MIP_SIZE bytes were stored: step back by the entry size and read the table again. */
    method RereadMipSizes(r: Reader, size: nat) returns (res: Outcome<TextureError>)
      modifies this`compressedMips, r
      ensures var spec := MipSizeTable(r.data, old(r.pos) - size);
        && (spec.Failure? ==> res == Fail(spec.error))
        && (spec.Success? ==> res == Pass && compressedMips == Some(spec.value))
    {
      var ok := r.Seek(r.pos - size);
      if !ok { return Fail(Io(NegativePosition)); }
      var table := ReadMipSizeTable(r);
      if table.Failure? { return Fail(table.error); }
      compressedMips := Some(table.value);
      res := Pass;
    }

    /** Stores the payload under its kind; for COMPRESSED_MIP_SIZE also reads the table. */
    method StoreEntryPayload(r: Reader, kind: nat, size: nat) returns (res: Outcome<TextureError>)
      requires size < U32_MODULUS
      modifies this`extraData, this`compressedMips, r
      ensures var spec := StorePayload(r.data, kind, old(r.pos), size, old(Dir()));
        && (spec.Failure? ==> res == Fail(spec.error))
        && (spec.Success? ==> res == Pass && Dir() == spec.value)
    {
      var count := if size >= I32_LIMIT then size - U32_MODULUS else size;  // the (int) cast
      var bytes := r.ReadBytes(count);
      if bytes.Failure? { return Fail(Io(bytes.error)); }
      if kind in extraData {
        return Fail(DuplicateExtraData(kind));
      }
      extraData := extraData[kind := bytes.value];
      if kind == COMPRESSED_MIP_SIZE {
        var reread := RereadMipSizes(r, size);
        if reread.Fail? { return reread; }
      }
      res := Pass;
    }

    /** One directory entry. The cursor comes back to just after the entry's 12-byte header. */
    method ReadEntry(r: Reader) returns (res: Outcome<TextureError>)
      modifies this`extraData, this`nonPow2Width, this`nonPow2Height, this`compressedMips, r
      ensures var spec := EntryStep(r.data, width, height, old(r.pos), old(Dir()));
        && (spec.Failure? ==> res == Fail(spec.error))
        && (spec.Success? ==> res == Pass && Dir() == spec.value && r.pos == old(r.pos) + 12)
    {
      ghost var entry := r.pos;
      var kind := r.ReadU32();
      if kind.Failure? { return Fail(Io(kind.error)); }
      var rel := r.ReadU32();
      if rel.Failure? { return Fail(Io(rel.error)); }
      var size := r.ReadU32();
      if size.Failure? { return Fail(Io(size.error)); }
      var relOffset := U32Sub(rel.value, 8);
      var prevOffset := r.pos;
      var _ := r.Seek(r.pos + relOffset);
      assert r.pos == EntryPayload(r.data, entry);

      if kind.value == FILL_TO_POWER_OF_TWO {
        var peeked := PeekNonPow2Size(r);
        if peeked.Fail? { return peeked; }
      }

      var stored := StoreEntryPayload(r, kind.value, size.value);
      if stored.Fail? { return stored; }

      var _ := r.Seek(prevOffset);
      res := Pass;
    }

    /** The loop over the directory: entry i is read with the cursor at table + 12 * i. */
    method ReadDirectory(r: Reader, count: nat) returns (res: Outcome<TextureError>)
      modifies this`extraData, this`nonPow2Width, this`nonPow2Height, this`compressedMips, r
      ensures var spec := ParseEntries(r.data, width, height, old(r.pos), 0, count, old(Dir()));
        && (spec.Failure? ==> res == Fail(spec.error))
        && (spec.Success? ==> res == Pass && Dir() == spec.value)
    {
      ghost var table := r.pos;
      ghost var dir0 := Dir();
      var i := 0;
      while i < count
        invariant 0 <= i <= count
        invariant r.pos == table + 12 * i
        invariant ParseEntries(r.data, width, height, table, i, count, Dir())
               == ParseEntries(r.data, width, height, table, 0, count, dir0)
      {
        var e := ReadEntry(r);
        if e.Fail? { return e; }
        i := i + 1;
      }
      res := Pass;
    }

    /** The extra-data block: with a positive count, seek to the directory and read every entry. */
    method ReadExtraData(r: Reader, extraDataOffset: nat, count: nat) returns (res: Outcome<TextureError>)
      requires extraDataOffset < U32_MODULUS
      modifies this`extraData, this`nonPow2Width, this`nonPow2Height, this`compressedMips, r
      ensures Head() == old(Head())
      ensures var spec := ParseEntries(r.data, width, height, old(r.pos) + U32Sub(extraDataOffset, 8), 0, count, old(Dir()));
        && (spec.Failure? ==> res == Fail(spec.error))
        && (spec.Success? ==> res == Pass && Dir() == spec.value)
    {
      if count > 0 {
        var _ := r.Seek(r.pos + U32Sub(extraDataOffset, 8));
        res := ReadDirectory(r, count);
      } else {
        res := Pass;
      }
    }

    /** Texture.Read: the header, then every directory entry; the pixel data starts at the end of the block. */
    method Read(r: Reader) returns (res: Outcome<TextureError>)
      modifies this, r
      ensures reader == r
      ensures var spec := ParseTexture(r.data, offset, size, old(extraData), old(compressedMips));
        && (spec.Failure? ==> res == Fail(spec.error))
        && (spec.Success? ==> res == Pass && State() == spec.value)
    {
      reader := r;
      var _ := r.Seek(offset);
      var hdr := ReadHeader(r);
      if hdr.Failure? { return Fail(hdr.error); }
      assert ParseHeader(r.data, offset) == Success(Head());
      res := ReadExtraData(r, hdr.value.0, hdr.value.1);
      if res.Fail? { return; }
      dataOffset := offset + size;
    }

    /** SkipMipmaps(bytesPerPixel): moves the cursor past the coarser mips, which precede the finest one. */
    method SkipMipmaps(bpp: nat) returns (res: Outcome<TextureError>)
      requires reader != null
      modifies reader
      ensures var spec := MipSkip(Head(), compressedMips, bpp, old(reader.pos));
        && (spec.Failure? ==> res == Fail(spec.error))
        && (spec.Success? ==> res == Pass && reader.pos == spec.value)
    {
      if numMipLevels < 2 {
        return Pass;
      }
      if compressedMips.Some? {
        var t := compressedMips.value;
        ghost var start := reader.pos;
        var j := numMipLevels - 1;
        if j >= |t| {
          return Fail(MipIndexOutOfRange);
        }
        while j > 0
          invariant 0 <= j < |t| && j < numMipLevels
          invariant reader.pos == start + SumRange(t, j + 1, numMipLevels)
        {
          var _ := reader.Seek(reader.pos + t[j]);
          j := j - 1;
        }
        return Pass;
      }
      var j := numMipLevels;
      while j > 1
        invariant 0 <= j <= numMipLevels
        invariant MipSkip(Head(), compressedMips, bpp, old(reader.pos)) == LegacySkip(Head(), bpp, reader.pos, j)
      {
        var ok := reader.Seek(reader.pos + BufferSizeForMipLevel(Head(), bpp, j));
        if !ok {
          return Fail(Io(NegativePosition));
        }
        j := j - 1;
      }
      res := Pass;
    }

    /** GetDecompressedBuffer(bytesPerPixel): the finest mip, read from the cursor. */
    method GetDecompressedBuffer(bpp: nat, lz4: (seq<byte>, nat) -> seq<byte>) returns (res: Result<PixelSource, TextureError>)
      requires reader != null
      modifies reader
      ensures var spec := DecompressedBuffer(Head(), compressedMips, bpp, reader.data, old(reader.pos), lz4);
        && (spec.Failure? ==> res == Failure(spec.error))
        && (spec.Success? ==> res == Success(spec.value.0) && reader.pos == spec.value.1)
    {
      if compressedMips.None? {
        return Success(StreamAt(reader.pos));
      }
      var t := compressedMips.value;
      if |t| == 0 {
        return Failure(MipIndexOutOfRange);
      }
      var compressedSize := Int32(t[0]);
      var uncompressedSize := BufferSizeForMipLevel(Head(), bpp, 0);
      var input := reader.ReadBytes(compressedSize);
      if input.Failure? { return Failure(Io(input.error)); }
      if uncompressedSize < 0 {
        return Failure(NegativeBufferLength);
      }
      var output := Fit(lz4(input.value, uncompressedSize), uncompressedSize);
      res := Success(Decompressed(output));
    }

    /** GenerateBitmap: restart at the pixel data, allocate the canvas, and dispatch on the format. */
    method GenerateBitmap(deps: Option<seq<SpecialDependency>>, lz4: (seq<byte>, nat) -> seq<byte>) returns (res: Result<Bitmap, TextureError>)
      requires reader != null
      modifies reader
      ensures res == GenerateBitmapSpec(State(), reader.data, deps, lz4)
    {
      var _ := reader.Seek(dataOffset);
      var w := if nonPow2Width > 0 then nonPow2Width else width;
      var h := if nonPow2Height > 0 then nonPow2Height else height;
      var canvasBytes := Int32(CANVAS_BYTES_PER_PIXEL * w * h);
      if canvasBytes < 0 { return Failure(NegativeBufferLength); }
      var f := FormatOf(format);
      match HandlingOf(f)
      case Rejected =>
        res := Failure(UnhandledImageType(format));
      case Encoded =>
        var bytes := reader.ReadBytes(Int32(|reader.data|));
        if bytes.Failure? { return Failure(Io(bytes.error)); }
        res := Success(EncodedImage(bytes.value));
      case Unpacked(bpp, intoCanvas) =>
        var modifiers := if f == DXT5 then ModifiersOf(deps) else NO_MODIFIERS;
        var skipped := SkipMipmaps(bpp);
        if skipped.Fail? { return Failure(skipped.error); }
        var source := GetDecompressedBuffer(bpp, lz4);
        if source.Failure? { return Failure(source.error); }
        if intoCanvas {
          var stored := if IsBlockCompressed(f) then Some((width, height)) else None;
          res := Success(CanvasImage(f, modifiers, w, h, canvasBytes, source.value, stored));
        } else {
          res := Success(OwnBitmap(f, source.value, width, height));
        }
    }
  }
}
