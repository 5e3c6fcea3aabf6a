# VTEX textures and world lighting, modelled in Dafny

This project models three pieces of ValveResourceFormat and its viewer:

- **The VTEX texture block reader.** It parses the texture header and the extra-data directory, and records the non-power-of-two size and the table of compressed mip sizes. It skips the smaller mip levels in front of the largest one, and produces the pixel source for the largest level: the stream itself, or an LZ4-decoded buffer. It also dispatches on the pixel format to choose how the bitmap is made.
- **The per-world lighting bookkeeping.** This covers the light-probe and environment-map lists, their handshake dictionaries and the `HasValidLightProbes` flag. It also covers the two light binners, which write the baked lights into the lighting constants' slot arrays and fill the `NumLightsBakedShadowIndex` table.
- **The scene light.** This is the classname test `IsAccepted`, the entity-type to light-type mapping, and the defaults and brightness rule of `FromEntityProperties`.

Modules:

| file | module | contents |
|---|---|---|
| `wrappers.dfy` | `Wrappers` | `Option`, `Result`, `Outcome` |
| `byte_io.dfy` | `ByteIO` | the `BinaryReader` over a byte sequence (class `Reader`), the little-endian decoders, the 32-bit wraps |
| `vtex_formats.dfy` | `VTexFormats` | the pixel formats, how `GenerateBitmap` treats each one, the DXT5 special dependencies |
| `vtexture.dfy` | `VTexture` | class `Texture`, with `Read`, `SkipMipmaps`, `GetDecompressedBuffer` and `GenerateBitmap`; each is proved equal to a function of the bytes (`ParseTexture`, `MipSkip`, `DecompressedBuffer`, `GenerateBitmapSpec`) |
| `vtexture_properties.dfy` | `VTextureProperties` | what those functions promise |
| `scene_lights.dfy` | `SceneLights` | `IsAccepted`, `LightTypeOf`, `FromEntityProperties` and their properties |
| `light_binning.dfy` | `LightBinning` | `OrderBy` as a stable sort, `Where`, the reference results of the two binners (`StoredV1`, `StoredV2`, `ShadowTableV2`) and their properties |
| `world_lighting.dfy` | `WorldLighting` | class `WorldLightingInfo`, with `AddEnvironmentMap`, `AddProbe`, `StoreLightMappedLightsV1` and `StoreLightMappedLightsV2` |

Modelling choices:

- **Errors are results.** An exception the C# code can raise becomes an error value (`Failure`/`Fail`), never a precondition. Those exceptions are:
  - reading past the end;
  - a negative stream position or read count;
  - an unknown version;
  - an index past the end of `CompressedMips`;
  - a negative buffer length;
  - an unhandled format;
  - a duplicate dictionary key.
- **Integer widths are explicit.** The unsigned `reader.ReadUInt32() - 8` wraps modulo 2^32 (`U32Sub`). The `int` product `bytesPerPixel * Width * bytesPerPixel * Height` wraps to 32 bits (`Int32`). The `(long)(size / 2^(mip+1))` division truncates toward zero (`TruncDiv`). `(int)CompressedMips[0]` wraps (`Int32`). The canvas length `imageInfo.RowBytes * imageInfo.Height` of `GenerateBitmap` is an `int` product too (`CanvasBytes`): a negative wrap fails for every format, before the format switch.
- **LZ4 is a parameter.** The LZ4 decoder is a function parameter `lz4(input, outputLength)`. It is outside the modelled code; its result is padded or cut to the output buffer's length, because the code decodes into a zero-filled buffer of that length.
- **Bitmaps are descriptions.** SkiaSharp and the pixel unpackers are outside the modelled code. `GenerateBitmap` returns a `Bitmap` value that says where the pixels come from (`PixelSource`) and how they are to be unpacked.

Three behaviours of the code are easy to misread:

- **DataOffset.** The pixel data is taken to start at `Offset + Size` of the block (Texture.cs:135). It does not start where the directory ends.
- **LZ4 result.** `GetDecompressedBuffer` ignores the return value of `LZ4Codec.Decode` (Texture.cs:307). A short decode therefore leaves zeros in the buffer and raises no error.
- **Compressed mips.** With a mip-size table, `SkipMipmaps` adds `CompressedMips[NumMipLevels-1]` down to `CompressedMips[1]` (Texture.cs:280-283). `GetDecompressedBuffer` then reads `CompressedMips[0]` bytes (Texture.cs:301-304). For the table `[40, 20, 10]` with three levels, that means skipping 30 bytes and reading 40 (`ThreeLevelTableExample`).

## Model

| member | source | states |
|---|---|---|
| ByteIO.U32Sub | ValveResourceFormat/Resource/ResourceTypes/Texture.cs:92 | the unsigned subtraction `offset - 8` stays a 32-bit value and wraps by 2^32 exactly when the offset is below 8 |
| ByteIO.Int32 | ValveResourceFormat/Resource/ResourceTypes/Texture.cs:260 | the 32-bit `int` result of an arithmetic expression lies in the int32 range, agrees with the exact value modulo 2^32, and equals it when no overflow happens |
| ByteIO.Slice | ValveResourceFormat/Resource/ResourceTypes/Texture.cs:113 | `ReadBytes(n)` yields the next n bytes, or only the bytes left when the stream ends first |
| ByteIO.Reader.Seek | ValveResourceFormat/Resource/ResourceTypes/Texture.cs:55 | setting `Position` succeeds exactly for a non-negative position and moves there; otherwise nothing changes |
| ByteIO.Reader.ReadU16 | ValveResourceFormat/Resource/ResourceTypes/Texture.cs:57 | with two bytes left, returns the little-endian value and advances by 2; otherwise end of stream |
| ByteIO.Reader.ReadU32 | ValveResourceFormat/Resource/ResourceTypes/Texture.cs:82-83 | with four bytes left, returns the little-endian value and advances by 4; otherwise end of stream |
| ByteIO.Reader.ReadByte | ValveResourceFormat/Resource/ResourceTypes/Texture.cs:78-79 | with a byte left, returns it and advances by 1; otherwise end of stream |
| ByteIO.Reader.ReadBytes | ValveResourceFormat/Resource/ResourceTypes/Texture.cs:113 | a negative count fails; otherwise returns the available bytes (at most the count) and advances by how many it returned |
| VTexFormats.FormatOf | ValveResourceFormat/Resource/ResourceTypes/Texture.cs:78 | the cast of the format byte keeps the tag, and gives an unnamed format only to a tag no named format has |
| VTexFormats.FormatOfTagOf | ValveResourceFormat/Resource/ResourceTypes/Texture.cs:78 | tag and format are inverse: every named format is read back from its own tag |
| VTexFormats.HandlingMatchesLayout | ValveResourceFormat/Resource/ResourceTypes/Texture.cs:148-245 | the bytes-per-pixel passed to SkipMipmaps and GetDecompressedBuffer for each format are its channel count times channel width (or its block size); the DXT and 16-bit RGBA formats are the ones unpacked into the canvas; JPG/PNG/PNG2 are read whole; only unnamed formats are rejected |
| VTexFormats.HasCompileTextureDependency | ValveResourceFormat/Resource/ResourceTypes/Texture.cs:164-166 | true iff some special dependency has compiler identifier "CompileTexture" and the given string |
| VTexFormats.ModifiersOf | ValveResourceFormat/Resource/ResourceTypes/Texture.cs:156-167 | without a special-dependencies block all three DXT5 flags are false; with one, each flag is set iff the matching CompileTexture dependency is listed |
| VTexture.ParseHeader | ValveResourceFormat/Resource/ResourceTypes/Texture.cs:57-83 | the header parses iff the block holds the whole fixed header and the version is 1; a different version is reported with its value; a short block is end of stream |
| VTexture.ReadReflectivity | ValveResourceFormat/Resource/ResourceTypes/Texture.cs:66-72 | the four reflectivity reads give the four 32-bit values after the flags and advance by 16, or fail with end of stream |
| VTexture.ReadHeaderFields | ValveResourceFormat/Resource/ResourceTypes/Texture.cs:64-83 | the reads after the version give the header at its fixed offsets together with the directory offset and count, and advance past the 40-byte header; a short block is end of stream |
| VTexture.Fit | ValveResourceFormat/Resource/ResourceTypes/Texture.cs:305-307 | the output buffer has exactly the uncompressed size, holds the decoded bytes first and zeros after |
| VTexture.Texture.ReadHeader | ValveResourceFormat/Resource/ResourceTypes/Texture.cs:57-83 | when the header parses, the header fields become the header at the block offset, the non-power-of-two size is reset to 0 and the directory offset and count are returned; otherwise the parse error is returned |
| VTexture.Texture.StoreHeader | ValveResourceFormat/Resource/ResourceTypes/Texture.cs:64-80 | the header fields take the given values and the non-power-of-two size is reset to 0 |
| VTexture.Texture.ReadMipSizeTable | ValveResourceFormat/Resource/ResourceTypes/Texture.cs:119-128 | the mip-size table read from the stream equals the table function of the bytes at the start position |
| VTexture.Texture.PeekNonPow2Size | ValveResourceFormat/Resource/ResourceTypes/Texture.cs:99-111 | the FILL_TO_POWER_OF_TWO entry sets the non-power-of-two size exactly as the reference function says, and leaves the stream where it was |
| VTexture.Texture.RereadMipSizes | ValveResourceFormat/Resource/ResourceTypes/Texture.cs:115-129 | stepping back over the payload and reading the table stores the table the bytes describe |
| VTexture.Texture.StoreEntryPayload | ValveResourceFormat/Resource/ResourceTypes/Texture.cs:113-129 | storing the payload (and for COMPRESSED_MIP_SIZE the mip table) agrees with the reference step |
| VTexture.Texture.ReadEntry | ValveResourceFormat/Resource/ResourceTypes/Texture.cs:89-132 | one directory entry changes the directory as the reference step does and returns to the next 12-byte entry |
| VTexture.Texture.ReadDirectory | ValveResourceFormat/Resource/ResourceTypes/Texture.cs:85-133 | the loop over the directory entries gives the directory of the reference parse, or its first error |
| VTexture.Texture.ReadExtraData | ValveResourceFormat/Resource/ResourceTypes/Texture.cs:85-133 | with a positive count, seeks past the wrapped offset `extraDataOffset - 8` and gives the directory of the reference parse or its error; with none, changes nothing; the header fields are left alone |
| VTexture.Texture.Read | ValveResourceFormat/Resource/ResourceTypes/Texture.cs:50-136 | reading the block leaves the object in the state `ParseTexture` computes from the bytes, or fails with its error |
| VTexture.Texture.SkipMipmaps | ValveResourceFormat/Resource/ResourceTypes/Texture.cs:271-292 | the stream position afterwards is the one `MipSkip` computes: unchanged below two levels, advanced by the table's sizes from the top level down to level 1, or by the computed sizes of levels NumMipLevels down to 2 |
| VTexture.Texture.GetDecompressedBuffer | ValveResourceFormat/Resource/ResourceTypes/Texture.cs:294-312 | without a mip table the stream itself is the pixel source; with one, CompressedMips[0] bytes are decoded into a buffer of the level-0 size, and the errors are those of `DecompressedBuffer` |
| VTexture.Texture.GenerateBitmap | ValveResourceFormat/Resource/ResourceTypes/Texture.cs:138-256 | the result is `GenerateBitmapSpec` of the parsed state: seek to DataOffset, allocate the canvas of the 32-bit length `RowBytes * Height` (failing when it is negative), then dispatch on the format |
| VTextureProperties.EntryStepStores | ValveResourceFormat/Resource/ResourceTypes/Texture.cs:89-113 | a successful entry lies in the data, its size fits the `(int)size` cast, and it adds its kind, which was not present, with its payload bytes |
| VTextureProperties.EntryStepMips | ValveResourceFormat/Resource/ResourceTypes/Texture.cs:113-129 | a successful entry's kind is present afterwards; the mip table changes only for COMPRESSED_MIP_SIZE, which stores the table its payload describes |
| VTextureProperties.EntryStepNonPow2 | ValveResourceFormat/Resource/ResourceTypes/Texture.cs:99-108 | the non-power-of-two size changes only for FILL_TO_POWER_OF_TWO, and stays unset or positive within Width × Height |
| VTextureProperties.EntryStepFill | ValveResourceFormat/Resource/ResourceTypes/Texture.cs:99-108 | a successful FILL_TO_POWER_OF_TWO entry has the three u16 of its payload in the data; the size becomes the 2nd and 3rd when they are positive and within Width × Height, and is kept otherwise |
| VTextureProperties.ParseEntriesInBounds | ValveResourceFormat/Resource/ResourceTypes/Texture.cs:89-93 | a successful directory parse means every entry header lies in the data and every size fits the `(int)size` cast |
| VTextureProperties.ParseEntriesKeepsEarlier | ValveResourceFormat/Resource/ResourceTypes/Texture.cs:113 | the parse keeps what was already in ExtraData, and no parsed kind was already there |
| VTextureProperties.ParseEntriesStores | ValveResourceFormat/Resource/ResourceTypes/Texture.cs:113 | every parsed entry's kind maps to its payload bytes |
| VTextureProperties.ParseEntriesDistinct | ValveResourceFormat/Resource/ResourceTypes/Texture.cs:113 | the kinds of a successful parse are pairwise distinct, since Dictionary.Add throws on a duplicate |
| VTextureProperties.ParseEntriesAddsOnlyEntries | ValveResourceFormat/Resource/ResourceTypes/Texture.cs:113 | every key after the parse was there before or is the kind of a parsed entry |
| VTextureProperties.ParseEntriesNonPow2 | ValveResourceFormat/Resource/ResourceTypes/Texture.cs:104-108 | the non-power-of-two size stays either unset or positive and within Width × Height |
| VTextureProperties.ParseEntriesKeepsSize | ValveResourceFormat/Resource/ResourceTypes/Texture.cs:99-108 | without a FILL_TO_POWER_OF_TWO entry the non-power-of-two size is unchanged |
| VTextureProperties.ParseEntriesNonPow2Value | ValveResourceFormat/Resource/ResourceTypes/Texture.cs:99-108 | after the whole directory, the non-power-of-two size is the FILL_TO_POWER_OF_TWO entry's 2nd and 3rd u16 when acceptable, and the size before the directory otherwise |
| VTextureProperties.ParseEntriesKeepsMips | ValveResourceFormat/Resource/ResourceTypes/Texture.cs:115-129 | without a COMPRESSED_MIP_SIZE entry the mip table is unchanged |
| VTextureProperties.ParseEntriesMipTable | ValveResourceFormat/Resource/ResourceTypes/Texture.cs:115-129 | the mip table is the one the compressed-mip-size entry's payload describes |
| VTextureProperties.MipSizeTableLayout | ValveResourceFormat/Resource/ResourceTypes/Texture.cs:119-128 | the table has the stored count of entries, each the uint32 after the two leading ints and the count |
| VTextureProperties.ParseTextureRejectsVersion | ValveResourceFormat/Resource/ResourceTypes/Texture.cs:59-62 | a version other than 1 is rejected with that version |
| VTextureProperties.ParseTextureHeader | ValveResourceFormat/Resource/ResourceTypes/Texture.cs:57-135 | a successful read has version 1, the header fields at their offsets, and DataOffset = Offset + Size |
| VTextureProperties.ResolvedSizeWithinStored | ValveResourceFormat/Resource/ResourceTypes/Texture.cs:142-143 | the size GenerateBitmap uses is at most the stored width and height, both non-power-of-two sides are set or neither is, and a positive stored side gives a positive used side |
| VTextureProperties.ResolvedSizeWithoutFill | ValveResourceFormat/Resource/ResourceTypes/Texture.cs:142-143 | without a FILL_TO_POWER_OF_TWO entry the non-power-of-two size keeps the 0 written by Read (Texture.cs:76-77), so the stored width and height are used |
| VTextureProperties.ResolvedSizeWithFill | ValveResourceFormat/Resource/ResourceTypes/Texture.cs:99-108 | with a FILL_TO_POWER_OF_TWO entry, the size GenerateBitmap uses (Texture.cs:142-143) is that entry's size when acceptable, and the stored width and height otherwise |
| VTextureProperties.BufferSizeWithoutOverflow | ValveResourceFormat/Resource/ResourceTypes/Texture.cs:258-269 | when the int product does not overflow, the mip size is the plain (non-negative) formula |
| VTextureProperties.BlockMipHalves | ValveResourceFormat/Resource/ResourceTypes/Texture.cs:262-266 | for DXT1/DXT5 each mip level is half the size of the previous one |
| VTextureProperties.UncompressedMipSizeConstant | ValveResourceFormat/Resource/ResourceTypes/Texture.cs:258-269 | for other formats every mip level gets the full-image size |
| VTextureProperties.PlainMipSumTop | ValveResourceFormat/Resource/ResourceTypes/Texture.cs:288-291 | the sum of mip sizes over a range splits off its top level |
| VTextureProperties.LegacySkipSum | ValveResourceFormat/Resource/ResourceTypes/Texture.cs:288-291 | without a mip table and without overflow, the skip advances by the sum of the sizes of levels 2 to NumMipLevels |
| VTextureProperties.LegacySkipFailure | ValveResourceFormat/Resource/ResourceTypes/Texture.cs:290 | the only way the skip without a table fails is a negative stream position |
| VTextureProperties.MipSkipWithTable | ValveResourceFormat/Resource/ResourceTypes/Texture.cs:278-286 | with a long enough table the skip succeeds, and the skipped bytes plus CompressedMips[0] are the sum of the first NumMipLevels entries |
| VTextureProperties.MipSkipSingleLevel | ValveResourceFormat/Resource/ResourceTypes/Texture.cs:273-276 | below two mip levels nothing is skipped |
| VTextureProperties.MipSkipShortTable | ValveResourceFormat/Resource/ResourceTypes/Texture.cs:280-283 | a table shorter than NumMipLevels fails with an index out of range |
| VTextureProperties.ThreeLevelTableExample | ValveResourceFormat/Resource/ResourceTypes/Texture.cs:280-304 | the table [40, 20, 10] with three levels skips 30 bytes and then decodes the next 40 bytes into a level-0 buffer |
| VTextureProperties.DecompressedBufferWithoutTable | ValveResourceFormat/Resource/ResourceTypes/Texture.cs:296-299 | without a mip table the reader itself is returned and not moved |
| VTextureProperties.DecompressedBufferLength | ValveResourceFormat/Resource/ResourceTypes/Texture.cs:301-311 | with a table the decoded buffer has the level-0 size and starts with the decoder's output, and the stream advances by CompressedMips[0] |
| VTextureProperties.GenerateBitmapRejects | ValveResourceFormat/Resource/ResourceTypes/Texture.cs:243-244 | GenerateBitmap reports an unhandled image type iff the canvas allocation succeeds and the format is not one of the named ones, and the report carries the format byte |
| VTextureProperties.GenerateBitmapCanvasOverflow | ValveResourceFormat/Resource/ResourceTypes/Texture.cs:145-146 | when 4 × width × height wraps to a negative 32-bit int, the allocation fails for every format |
| VTextureProperties.CanvasOverflowExample | ValveResourceFormat/Resource/ResourceTypes/Texture.cs:145-146 | a 65535 × 65535 canvas wraps to -524284 bytes, so GenerateBitmap fails whatever the format |
| VTextureProperties.CanvasWrapToEmptyExample | ValveResourceFormat/Resource/ResourceTypes/Texture.cs:145-146 | a 32768 × 32768 canvas wraps to an empty buffer |
| VTextureProperties.GenerateBitmapEncoded | ValveResourceFormat/Resource/ResourceTypes/Texture.cs:238-241 | once the canvas is allocated, JPG, PNG and PNG2 hand the bytes from DataOffset to the end, as ReadBuffer reads them (Texture.cs:314-317), to the image decoder; a negative canvas length fails first |
| VTextureProperties.GenerateBitmapCanvas | ValveResourceFormat/Resource/ResourceTypes/Texture.cs:142-255 | the canvas formats (DXT1, DXT5 and the two 16-bit RGBA ones) unpack into a BGRA canvas of the resolved size, whose length is 4 bytes per pixel wrapped to 32 bits; only DXT1 and DXT5 are also given the stored width and height; only DXT5 carries the dependency flags |
| SceneLights.ParseEntityType | GUI/Types/Renderer/SceneLight.cs:44 | the ignore-case parse gives a member whose name matches the text, and fails only when no member name matches |
| SceneLights.ParseNameOf | GUI/Types/Renderer/SceneLight.cs:21-44 | any spelling of a member name parses back to that member (the names differ even ignoring case) |
| SceneLights.IsAcceptedIff | GUI/Types/Renderer/SceneLight.cs:37-46 | a classname is accepted iff it starts with "light_" ignoring case and the rest is a member name ignoring case; the accepted type is that member; a refusal reports Environment |
| SceneLights.IsAcceptedWithoutPrefix | GUI/Types/Renderer/SceneLight.cs:39-42 | a classname without the prefix gives (false, Environment) |
| SceneLights.IsAcceptedRoundTrip | GUI/Types/Renderer/SceneLight.cs:37-46 | any spelling of the prefix followed by any spelling of a member name is accepted as that member |
| SceneLights.IsAcceptedExample | GUI/Types/Renderer/SceneLight.cs:37-46 | "LIGHT_omni" is accepted as Omni |
| SceneLights.IsAcceptedUnknownSuffix | GUI/Types/Renderer/SceneLight.cs:44-45 | "light_ortho" is refused with Environment |
| SceneLights.LightTypeOfCases | GUI/Types/Renderer/SceneLight.cs:57-66 | only Environment is directional; Omni and Omni2 are point lights; Spot, Barn and Rect are spot lights |
| SceneLights.FromEntityPropertiesBrightness | GUI/Types/Renderer/SceneLight.cs:56-90 | the record keeps the entity type and its light type; its brightness never exceeds 10; a stored brightness up to 10 is kept and a larger one becomes 1 |
| SceneLights.FromEntityPropertiesDefaults | GUI/Types/Renderer/SceneLight.cs:55-84 | an entity without the properties gets baked shadow index -1, brightness 1, range 512 and falloff 0.1 |
| SceneLights.FromEntityPropertiesBrightnessKey | GUI/Types/Renderer/SceneLight.cs:77-81 | the sun reads only "brightness" and the other lights only "brightness_legacy" |
| LightBinning.SortByIndex | GUI/Types/Renderer/WorldLightingInfo.cs:173 | `OrderBy(StationaryLightIndex)`, here and at line 210, returns a permutation of the lights in non-decreasing index order |
| LightBinning.SortStable | GUI/Types/Renderer/WorldLightingInfo.cs:173 | the sort (here and at line 210) is stable: the lights of each index keep their input order |
| LightBinning.Filter | GUI/Types/Renderer/WorldLightingInfo.cs:173 | `Where` (here and the shadow-index test at lines 218-221) keeps only lights that pass the test, drawn from the input |
| LightBinning.FilterAppend | GUI/Types/Renderer/WorldLightingInfo.cs:173 | filtering a concatenation is the concatenation of the filtered parts |
| LightBinning.FilterSorted | GUI/Types/Renderer/WorldLightingInfo.cs:173 | filtering keeps the index order |
| LightBinning.BinV1Length | GUI/Types/Renderer/WorldLightingInfo.cs:175-179 | V1 never fills more than MAX_LIGHTS slots |
| LightBinning.BinV1Slots | GUI/Types/Renderer/WorldLightingInfo.cs:181-185 | the light in each slot has a baked index at least that slot's number, since a light with a smaller index is skipped |
| LightBinning.BinV1Subset | GUI/Types/Renderer/WorldLightingInfo.cs:173-198 | V1 stores lights of its input, in input order |
| LightBinning.BinV1Complete | GUI/Types/Renderer/WorldLightingInfo.cs:173-198 | when no index is below its slot (distinct indices in order), nothing is skipped and the first MAX_LIGHTS lights are stored |
| LightBinning.StoredV1Properties | GUI/Types/Renderer/WorldLightingInfo.cs:169-203 | V1 stores at most MAX_LIGHTS baked lights of the input, sorted by index, the light in slot k having index at least k |
| LightBinning.StoredV2Properties | GUI/Types/Renderer/WorldLightingInfo.cs:205-244 | V2 stores at most MAX_LIGHTS lights of the input, sorted by index, each of shadow index 0 to 3 |
| LightBinning.CountUpToPrefix | GUI/Types/Renderer/WorldLightingInfo.cs:223-227 | in sorted stored lights, the lights of index at most s are exactly the first CountUpTo(s) |
| LightBinning.ShadowTableGroups | GUI/Types/Renderer/WorldLightingInfo.cs:223-243 | for shadow index 0 and every shadow index some stored light has, the table entry is the number of stored lights of that index or less, the end of that group |
| LightBinning.ShadowTableLastGroup | GUI/Types/Renderer/WorldLightingInfo.cs:243 | the last group's entry is the total stored; with nothing stored, entry 0 is 0 |
| LightBinning.ShadowTableUnchanged | GUI/Types/Renderer/WorldLightingInfo.cs:223-243 | a shadow index other than 0 that no stored light has keeps its earlier table entry |
| LightBinning.TableSoFarStore | GUI/Types/Renderer/WorldLightingInfo.cs:223-227 | storing a light of the current or a later group, and closing the current group when the index changes, keeps the table invariant of the loop |
| LightBinning.TableSoFarFinish | GUI/Types/Renderer/WorldLightingInfo.cs:243 | the final write of the total into the current group's entry gives the reference table |
| LightBinning.TakeFilterPrefix | GUI/Types/Renderer/WorldLightingInfo.cs:212-216 | stopping at MAX_LIGHTS stored lights, or at the end of the list, leaves exactly the first MAX_LIGHTS lights in range |
| WorldLighting.ValidTextureSetIff | GUI/Types/Renderer/WorldLightingInfo.cs:112-118 | a probe's texture set is valid iff it has an irradiance texture, both direct-light textures under game version 1, and the direct-light shadows under version 2 |
| WorldLighting.ProbeFlagConjunction | GUI/Types/Renderer/WorldLightingInfo.cs:120 | after probes are added to a non-empty list, HasValidLightProbes is the old flag and the validity of every added probe |
| WorldLighting.ProbeFlagFromEmpty | GUI/Types/Renderer/WorldLightingInfo.cs:120 | starting from an empty list, HasValidLightProbes says whether every added probe is valid, whatever the old flag was |
| WorldLighting.AddHandshakeProperties | GUI/Types/Renderer/WorldLightingInfo.cs:124-127 | in AddProbe, and likewise in AddEnvironmentMap (lines 104-107), a positive handshake not yet present is added and nothing else changes; a present one is an error (Dictionary.Add throws); a non-positive one adds nothing |
| WorldLighting.TryAddKeeps | GUI/Types/Renderer/WorldLightingInfo.cs:90 | TryAdd never overwrites an entry and adds the key when it is missing |
| WorldLighting.CubemapTypeOfIff | GUI/Types/Renderer/WorldLightingInfo.cs:81-86 | only a cube-map-array target gives CubemapArray and only a cube-map target gives IndividualCubemaps |
| WorldLighting.WorldLightingInfo.constructor | GUI/Types/Renderer/WorldLightingInfo.cs:25-36 | a new object has empty lists and dictionaries, no valid probes, no cubemaps, and its slot arrays allocated |
| WorldLighting.WorldLightingInfo.AddEnvironmentMap | GUI/Types/Renderer/WorldLightingInfo.cs:77-108 | the map is appended; the first one decides the cubemap type and, for an array, adds the environment-map texture; the handshake is registered or reported as a duplicate; the cubemap-type and handshake invariants are kept |
| WorldLighting.WorldLightingInfo.AddProbe | GUI/Types/Renderer/WorldLightingInfo.cs:110-128 | the probe is appended, the flag is updated by the switch's rule, the handshake is registered or reported as a duplicate, and the invariant that the flag means "every probe is valid" is kept |
| WorldLighting.WorldLightingInfo.StoreLightMappedLightsV1 | GUI/Types/Renderer/WorldLightingInfo.cs:169-203 | slots 0 to n-1 hold exactly the lights `StoredV1` chooses, the later slots are unchanged, and table entry 0 becomes n |
| WorldLighting.WorldLightingInfo.FillSlotsV1 | GUI/Types/Renderer/WorldLightingInfo.cs:173-199 | the loop over the ordered baked lights writes exactly the binner's result into the first slots and returns its length |
| WorldLighting.WorldLightingInfo.StoreLightMappedLightsV2 | GUI/Types/Renderer/WorldLightingInfo.cs:205-244 | slots 0 to n-1 hold exactly the lights `StoredV2` chooses, the later slots are unchanged, and the table is `ShadowTableV2` of them |
| WorldLighting.WorldLightingInfo.FillSlotsV2 | GUI/Types/Renderer/WorldLightingInfo.cs:210-241 | the loop writes the first MAX_LIGHTS lights of shadow index 0 to 3 into the first slots and closes each group's table entry as it leaves it |

## Left out

- Reflectivity: the four floats are kept as their raw 32-bit patterns; floating point is not modelled.
- Enum numbering: VTexFormat, VTexExtraData and VTexFlags are defined outside the modelled files. The numeric values of the format tags and of the FILL_TO_POWER_OF_TWO and COMPRESSED_MIP_SIZE kinds are declared once, as constants, and are assumed rather than taken from the source.
- The LZ4 decoder, SkiaSharp (`SKBitmap`, `SKImageInfo`, `InstallPixels`, `SKBitmap.Decode`) and the `TextureDecompressors` unpackers are outside the modelled code. The model states which bytes reach them and with which width, height and flags, not the pixels they produce.
- Very large allocations are not modelled as failures: a non-negative `new byte[uncompressedSize]` or canvas length beyond the runtime's array limit succeeds in the model.
- What an unpacker does with a canvas shorter than its image, for example the empty canvas a 32768 × 32768 texture wraps to, is not modelled, since the unpackers are outside the modelled code.
- ByteIO.Reader.Seek: only a negative position fails. `MemoryStream` also refuses a position above `int.MaxValue`, but the stream type behind the reader is not part of this model. The model accepts such a position, and the reads after it find no bytes there.
- `GenerateBitmap` reads `Resource.EditInfo` for the special dependencies. It is passed in as an optional list of dependencies.
- `IsAccepted`: `Enum.TryParse` also accepts numeric strings, comma-separated member lists and surrounding white space. Only the plain member names are modelled, and the ignore-case comparison folds ASCII letters only.
- `FromEntityProperties`: the colour (a byte array, vector or string) and the direction from pitch, yaw and roll are floating-point and trigonometric and are not modelled. `GetPropertyUnchecked` is modelled as a typed map lookup with a default, without its value conversions. A NaN brightness, which is never greater than 10 in IEEE arithmetic, is not modelled because brightness is a real.
- Light binning:
  - LightingConstants.cs as shown declares neither MAX_LIGHTS nor the light slot arrays. `maxLights` is a constructor parameter, and `NumLightsBakedShadowIndex` is assumed to have four entries, one per shadow index 0 to 3.
  - The five slot arrays (position and type, direction and inverse range, transform, colour and brightness, falloff and range) are always written together at the same index, so they are one array of `SceneLight`. The per-field vector packing is floating-point and is not modelled.
  - The "too many lights" and "duplicate baked index" log calls, and the envmap target-mismatch log in `AddEnvironmentMap`, have no effect on state and are left out.
- `scene.LightingInfo` in `AddProbe` and `AddEnvironmentMap` is taken to be the object itself. The cubemap type is a field, not an entry of the scene's render attributes.
- `SetLightmapTextures`, `UpdateSunLightFrustum`, the light-probe type and GLSceneViewer.cs are rendering and GPU code and are not modelled.
