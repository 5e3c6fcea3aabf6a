/**
 * The pixel formats a VTEX header can name, what the bitmap generator does with each,
 * and the DXT5 modifier flags recovered from the resource's special dependencies.
 */
module VTexFormats {
  import opened Wrappers
  import opened ByteIO

  /**
   * The format byte of the header, cast to the VTexFormat enumeration. Formats the
   * bitmap generator does not handle are kept with their raw tag.
   */
  datatype VTexFormat =
    | DXT1 | DXT5 | I8 | RGBA8888 | R16 | RG1616 | RGBA16161616 | R16F | RG1616F
    | RGBA16161616F | R32F | RG3232F | RGB323232F | RGBA32323232F | IA88 | JPG | PNG | PNG2
    | Unhandled(tag: byte)

  /** Numeric values of the VTexFormat enumeration for the handled names. */
  function TagOf(f: VTexFormat): byte
  {
    match f
    case DXT1 => 1
    case DXT5 => 2
    case I8 => 3
    case RGBA8888 => 4
    case R16 => 5
    case RG1616 => 6
    case RGBA16161616 => 7
    case R16F => 8
    case RG1616F => 9
    case RGBA16161616F => 10
    case R32F => 11
    case RG3232F => 12
    case RGB323232F => 13
    case RGBA32323232F => 14
    case JPG => 15
    case PNG => 16
    case PNG2 => 17
    case IA88 => 22
    case Unhandled(t) => t
  }

  predicate IsNamed(f: VTexFormat) { !f.Unhandled? }

  /** The cast `(VTexFormat)reader.ReadByte()`: a named format when the tag has a name among the handled ones. */
  function FormatOf(tag: byte): (f: VTexFormat)
    ensures TagOf(f) == tag
    ensures f.Unhandled? ==> forall g :: IsNamed(g) ==> TagOf(g) != tag
  {
    if tag == 1 then DXT1
    else if tag == 2 then DXT5
    else if tag == 3 then I8
    else if tag == 4 then RGBA8888
    else if tag == 5 then R16
    else if tag == 6 then RG1616
    else if tag == 7 then RGBA16161616
    else if tag == 8 then R16F
    else if tag == 9 then RG1616F
    else if tag == 10 then RGBA16161616F
    else if tag == 11 then R32F
    else if tag == 12 then RG3232F
    else if tag == 13 then RGB323232F
    else if tag == 14 then RGBA32323232F
    else if tag == 15 then JPG
    else if tag == 16 then PNG
    else if tag == 17 then PNG2
    else if tag == 22 then IA88
    else Unhandled(tag)
  }

  /** Reading a named format back from its tag gives the same format: the cast loses nothing. */
  lemma FormatOfTagOf(f: VTexFormat)
    requires IsNamed(f) || !IsNamed(FormatOf(TagOf(f)))
    ensures FormatOf(TagOf(f)) == f
  {
  }

  /** What GenerateBitmap does with a format. */
  datatype Handling =
    | Unpacked(bytesPerPixel: nat, intoCanvas: bool)   // skip mips, fetch the finest mip, run the unpacker
    | Encoded                                          // the payload is a complete image file, handed on as is
    | Rejected                                         // NotImplementedException("Unhandled image type")

  /** The switch of GenerateBitmap: the bytes-per-pixel argument given to SkipMipmaps and
      GetDecompressedBuffer, and whether the unpacker writes into the preallocated canvas. */
  function HandlingOf(f: VTexFormat): Handling
  {
    match f
    case DXT1 => Unpacked(8, true)
    case DXT5 => Unpacked(16, true)
    case I8 => Unpacked(1, false)
    case RGBA8888 => Unpacked(4, false)
    case R16 => Unpacked(2, false)
    case RG1616 => Unpacked(4, false)
    case RGBA16161616 => Unpacked(8, true)
    case R16F => Unpacked(2, false)
    case RG1616F => Unpacked(4, false)
    case RGBA16161616F => Unpacked(8, true)
    case R32F => Unpacked(4, false)
    case RG3232F => Unpacked(8, false)
    case RGB323232F => Unpacked(12, false)
    case RGBA32323232F => Unpacked(16, false)
    case IA88 => Unpacked(2, false)
    case JPG => Encoded
    case PNG => Encoded
    case PNG2 => Encoded
    case Unhandled(_) => Rejected
  }

  /** The two block-compressed formats, whose mip sizes CalculateBufferSizeForMipLevel halves. */
  predicate IsBlockCompressed(f: VTexFormat) { f == DXT1 || f == DXT5 }

  /** The storage layout a format's name spells out: bytes per 4x4 block, or channels times bytes per channel. */
  datatype Layout = Block(bytesPerBlock: nat) | Channels(count: nat, bytesPerChannel: nat) | ImageFile | NoLayout

  function LayoutOf(f: VTexFormat): Layout
  {
    match f
    case DXT1 => Block(8)
    case DXT5 => Block(16)
    case I8 => Channels(1, 1)
    case RGBA8888 => Channels(4, 1)
    case R16 => Channels(1, 2)
    case RG1616 => Channels(2, 2)
    case RGBA16161616 => Channels(4, 2)
    case R16F => Channels(1, 2)
    case RG1616F => Channels(2, 2)
    case RGBA16161616F => Channels(4, 2)
    case R32F => Channels(1, 4)
    case RG3232F => Channels(2, 4)
    case RGB323232F => Channels(3, 4)
    case RGBA32323232F => Channels(4, 4)
    case IA88 => Channels(2, 1)
    case JPG => ImageFile
    case PNG => ImageFile
    case PNG2 => ImageFile
    case Unhandled(_) => NoLayout
  }

  /**
   * The bytes-per-pixel value of the dispatch agrees with the layout: channels times channel
   * width for uncompressed formats, bytes per block for DXT1/DXT5; exactly the image-file
   * formats are passed through, and exactly the formats without a layout are rejected.
   */
  lemma HandlingMatchesLayout(f: VTexFormat)
    ensures HandlingOf(f).Unpacked? <==> LayoutOf(f).Block? || LayoutOf(f).Channels?
    ensures LayoutOf(f).Channels? ==> HandlingOf(f) == Unpacked(LayoutOf(f).count * LayoutOf(f).bytesPerChannel, f == RGBA16161616 || f == RGBA16161616F)
    ensures LayoutOf(f).Block? ==> HandlingOf(f) == Unpacked(LayoutOf(f).bytesPerBlock, true) && IsBlockCompressed(f)
    ensures HandlingOf(f) == Encoded <==> LayoutOf(f) == ImageFile
    ensures HandlingOf(f) == Rejected <==> f.Unhandled?
  {
  }

  /** One entry of the resource's SpecialDependencies block (the fields this model reads). */
  datatype SpecialDependency = SpecialDependency(str: string, compilerIdentifier: string)

  const COMPILE_TEXTURE: string := "CompileTexture"
  const YCOCG_CONVERSION: string := "Texture Compiler Version Image YCoCg Conversion"
  const NORMALIZE_NORMALS: string := "Texture Compiler Version Image NormalizeNormals"
  const INVERT_NORMALS: string := "Texture Compiler Version LegacySource1InvertNormals"

  /** `List.Any(d => d.CompilerIdentifier == "CompileTexture" && d.String == s)`. */
  function HasCompileTextureDependency(deps: seq<SpecialDependency>, s: string): (r: bool)
    ensures r <==> exists i :: 0 <= i < |deps| && deps[i].compilerIdentifier == COMPILE_TEXTURE && deps[i].str == s
  {
    if deps == [] then false
    else
      var rest := HasCompileTextureDependency(deps[1..], s);
      assert forall i :: 1 <= i < |deps| ==> deps[i] == deps[1..][i - 1];
      (deps[0].compilerIdentifier == COMPILE_TEXTURE && deps[0].str == s) || rest
  }

  datatype Dxt5Modifiers = Dxt5Modifiers(yCoCg: bool, normalize: bool, invert: bool)

  /** The three DXT5 flags; all false when the edit info has no SpecialDependencies block. */
  function ModifiersOf(deps: Option<seq<SpecialDependency>>): (m: Dxt5Modifiers)
    ensures deps.None? ==> m == Dxt5Modifiers(false, false, false)
    ensures deps.Some? ==> (m.yCoCg <==> exists i :: 0 <= i < |deps.value| && deps.value[i] == SpecialDependency(YCOCG_CONVERSION, COMPILE_TEXTURE))
    ensures deps.Some? ==> (m.normalize <==> exists i :: 0 <= i < |deps.value| && deps.value[i] == SpecialDependency(NORMALIZE_NORMALS, COMPILE_TEXTURE))
    ensures deps.Some? ==> (m.invert <==> exists i :: 0 <= i < |deps.value| && deps.value[i] == SpecialDependency(INVERT_NORMALS, COMPILE_TEXTURE))
  {
    match deps
    case None => Dxt5Modifiers(false, false, false)
    case Some(list) =>
      Dxt5Modifiers(
        HasCompileTextureDependency(list, YCOCG_CONVERSION),
        HasCompileTextureDependency(list, NORMALIZE_NORMALS),
        HasCompileTextureDependency(list, INVERT_NORMALS))
  }
}
