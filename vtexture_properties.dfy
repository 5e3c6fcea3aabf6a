/**
 * Properties of the VTEX reference definitions: what the directory leaves in the texture,
 * how the non-power-of-two size and the mip table are chosen, what the mip navigator skips
 * and what GenerateBitmap hands on.
 */
module VTextureProperties {
  import opened Wrappers
  import opened ByteIO
  import opened VTexFormats
  import opened VTexture

  // ---------------------------------------------------------------------------------------
  // The directory, entry by entry

  /** Where the header of directory entry j lies. */
  function EntryAt(table: nat, j: nat): nat
  {
    table + 12 * j
  }

  function KindAt(data: seq<byte>, table: nat, j: nat): nat
    requires EntryAt(table, j) + 12 <= |data|
  {
    EntryKind(data, EntryAt(table, j))
  }

  function PayloadAt(data: seq<byte>, table: nat, j: nat): nat
    requires EntryAt(table, j) + 12 <= |data|
  {
    EntryPayload(data, EntryAt(table, j))
  }

  function SizeAt(data: seq<byte>, table: nat, j: nat): nat
    requires EntryAt(table, j) + 12 <= |data|
  {
    EntrySize(data, EntryAt(table, j))
  }

  /** The two non-power-of-two fields are either both unset, or an acceptable size. */
  predicate NonPow2Sound(dir: Directory, width: nat, height: nat)
  {
    || (dir.nonPow2Width == 0 && dir.nonPow2Height == 0)
    || AcceptableNonPow2(dir.nonPow2Width, dir.nonPow2Height, width, height)
  }

  /** A successful entry lies in the data, has a size below 2^31 and adds its payload under a new kind. */
  lemma EntryStepStores(data: seq<byte>, w: nat, h: nat, entry: nat, dir: Directory, next: Directory)
    requires EntryStep(data, w, h, entry, dir) == Success(next)
    ensures entry + 12 <= |data|
    ensures EntrySize(data, entry) < I32_LIMIT
    ensures EntryKind(data, entry) !in dir.extraData
    ensures next.extraData == dir.extraData[EntryKind(data, entry) := Slice(data, EntryPayload(data, entry), EntrySize(data, entry))]
  {
  }

  /** Only a COMPRESSED_MIP_SIZE entry sets the mip table, to the list at its payload. */
  lemma EntryStepMips(data: seq<byte>, w: nat, h: nat, entry: nat, dir: Directory, next: Directory)
    requires EntryStep(data, w, h, entry, dir) == Success(next)
    ensures entry + 12 <= |data| && EntryKind(data, entry) in next.extraData
    ensures EntryKind(data, entry) != COMPRESSED_MIP_SIZE ==> next.compressedMips == dir.compressedMips
    ensures EntryKind(data, entry) == COMPRESSED_MIP_SIZE && EntryPayload(data, entry) + EntrySize(data, entry) <= |data| ==>
      MipSizeTable(data, EntryPayload(data, entry)).Success? && next.compressedMips == Some(MipSizeTable(data, EntryPayload(data, entry)).value)
  {
  }

  /** Only a FILL_TO_POWER_OF_TWO entry changes the non-power-of-two size, and only to an acceptable one. */
  lemma EntryStepNonPow2(data: seq<byte>, w: nat, h: nat, entry: nat, dir: Directory, next: Directory)
    requires EntryStep(data, w, h, entry, dir) == Success(next)
    ensures entry + 12 <= |data|
    ensures EntryKind(data, entry) != FILL_TO_POWER_OF_TWO ==>
      next.nonPow2Width == dir.nonPow2Width && next.nonPow2Height == dir.nonPow2Height
    ensures EntryKind(data, entry) == FILL_TO_POWER_OF_TWO && NonPow2Sound(dir, w, h) ==> NonPow2Sound(next, w, h)
  {
  }

  /**
   * The non-power-of-two size after a FILL_TO_POWER_OF_TWO entry whose payload starts at p:
   * the payload's 2nd and 3rd u16 when they are an acceptable size, the size before otherwise.
   */
  predicate FillResult(data: seq<byte>, p: nat, w: nat, h: nat, before: Directory, after: Directory)
    requires p + 6 <= |data|
  {
    var nw := U16At(data, p + 2);
    var nh := U16At(data, p + 4);
    if AcceptableNonPow2(nw, nh, w, h) then after.nonPow2Width == nw && after.nonPow2Height == nh
    else after.nonPow2Width == before.nonPow2Width && after.nonPow2Height == before.nonPow2Height
  }

  /** A successful FILL_TO_POWER_OF_TWO entry has its three u16 in the data and sets the size they give, if acceptable. */
  lemma EntryStepFill(data: seq<byte>, w: nat, h: nat, entry: nat, dir: Directory, next: Directory)
    requires EntryStep(data, w, h, entry, dir) == Success(next)
    requires entry + 12 <= |data| && EntryKind(data, entry) == FILL_TO_POWER_OF_TWO
    ensures EntryPayload(data, entry) + 6 <= |data| && FillResult(data, EntryPayload(data, entry), w, h, dir, next)
    ensures FILL_TO_POWER_OF_TWO in next.extraData
  {
  }

  /** A successful parse of entries i .. count-1, with i < count, is a successful entry i followed by the rest. */
  lemma ParseEntriesFirst(data: seq<byte>, w: nat, h: nat, table: nat, i: nat, count: nat, dir: Directory, d: Directory)
      returns (next: Directory)
    requires ParseEntries(data, w, h, table, i, count, dir) == Success(d) && i < count
    ensures ParseEntries(data, w, h, table, i + 1, count, next) == Success(d)
  {
    assert ParseEntry(data, w, h, table, i, count, dir) == Success(d);
    next := EntryStep(data, w, h, EntryAt(table, i), dir).value;
  }

  /** Entry i of a successful parse of entries i .. count-1 stores its payload, and the rest reaches the same result. */
  lemma ParseEntriesFirstStores(data: seq<byte>, w: nat, h: nat, table: nat, i: nat, count: nat, dir: Directory, d: Directory)
      returns (next: Directory)
    requires ParseEntries(data, w, h, table, i, count, dir) == Success(d) && i < count
    ensures EntryAt(table, i) + 12 <= |data| && SizeAt(data, table, i) < I32_LIMIT
    ensures KindAt(data, table, i) !in dir.extraData
    ensures next.extraData == dir.extraData[KindAt(data, table, i) := Slice(data, PayloadAt(data, table, i), SizeAt(data, table, i))]
    ensures ParseEntries(data, w, h, table, i + 1, count, next) == Success(d)
  {
    assert ParseEntry(data, w, h, table, i, count, dir) == Success(d);
    next := EntryStep(data, w, h, EntryAt(table, i), dir).value;
    EntryStepStores(data, w, h, EntryAt(table, i), dir, next);
  }

  /** Entry i of a successful parse sets the mip table only if it is a COMPRESSED_MIP_SIZE entry. */
  lemma ParseEntriesFirstMips(data: seq<byte>, w: nat, h: nat, table: nat, i: nat, count: nat, dir: Directory, d: Directory)
      returns (next: Directory)
    requires ParseEntries(data, w, h, table, i, count, dir) == Success(d) && i < count
    ensures EntryAt(table, i) + 12 <= |data| && KindAt(data, table, i) in next.extraData
    ensures KindAt(data, table, i) != COMPRESSED_MIP_SIZE ==> next.compressedMips == dir.compressedMips
    ensures KindAt(data, table, i) == COMPRESSED_MIP_SIZE && PayloadAt(data, table, i) + SizeAt(data, table, i) <= |data| ==>
      MipSizeTable(data, PayloadAt(data, table, i)).Success? && next.compressedMips == Some(MipSizeTable(data, PayloadAt(data, table, i)).value)
    ensures ParseEntries(data, w, h, table, i + 1, count, next) == Success(d)
  {
    assert ParseEntry(data, w, h, table, i, count, dir) == Success(d);
    next := EntryStep(data, w, h, EntryAt(table, i), dir).value;
    EntryStepMips(data, w, h, EntryAt(table, i), dir, next);
  }

  /** Entry i of a successful parse changes the non-power-of-two size only if it is a FILL_TO_POWER_OF_TWO entry. */
  lemma ParseEntriesFirstNonPow2(data: seq<byte>, w: nat, h: nat, table: nat, i: nat, count: nat, dir: Directory, d: Directory)
      returns (next: Directory)
    requires ParseEntries(data, w, h, table, i, count, dir) == Success(d) && i < count
    ensures EntryAt(table, i) + 12 <= |data|
    ensures KindAt(data, table, i) != FILL_TO_POWER_OF_TWO ==>
      next.nonPow2Width == dir.nonPow2Width && next.nonPow2Height == dir.nonPow2Height
    ensures NonPow2Sound(dir, w, h) ==> NonPow2Sound(next, w, h)
    ensures ParseEntries(data, w, h, table, i + 1, count, next) == Success(d)
  {
    assert ParseEntry(data, w, h, table, i, count, dir) == Success(d);
    next := EntryStep(data, w, h, EntryAt(table, i), dir).value;
    EntryStepNonPow2(data, w, h, EntryAt(table, i), dir, next);
  }

  /** Entry i of a successful parse, when it is a FILL_TO_POWER_OF_TWO entry, sets the size its payload gives. */
  lemma ParseEntriesFirstFill(data: seq<byte>, w: nat, h: nat, table: nat, i: nat, count: nat, dir: Directory, d: Directory)
      returns (next: Directory)
    requires ParseEntries(data, w, h, table, i, count, dir) == Success(d) && i < count
    requires EntryAt(table, i) + 12 <= |data| && KindAt(data, table, i) == FILL_TO_POWER_OF_TWO
    ensures PayloadAt(data, table, i) + 6 <= |data| && FillResult(data, PayloadAt(data, table, i), w, h, dir, next)
    ensures FILL_TO_POWER_OF_TWO in next.extraData
    ensures ParseEntries(data, w, h, table, i + 1, count, next) == Success(d)
  {
    assert ParseEntry(data, w, h, table, i, count, dir) == Success(d);
    next := EntryStep(data, w, h, EntryAt(table, i), dir).value;
    EntryStepFill(data, w, h, EntryAt(table, i), dir, next);
  }

  /** A directory that was read completely has every entry header in the data and every size below 2^31. */
  lemma {:induction false} ParseEntriesInBounds(data: seq<byte>, w: nat, h: nat, table: nat, i: nat, count: nat, dir: Directory, d: Directory)
    requires ParseEntries(data, w, h, table, i, count, dir) == Success(d)
    ensures forall j :: i <= j < count ==> EntryAt(table, j) + 12 <= |data|
    ensures forall j :: i <= j < count && EntryAt(table, j) + 12 <= |data| ==> SizeAt(data, table, j) < I32_LIMIT
    decreases count - i
  {
    if i < count {
      var next := ParseEntriesFirstStores(data, w, h, table, i, count, dir, d);
      ParseEntriesInBounds(data, w, h, table, i + 1, count, next, d);
    }
  }

  /** Earlier dictionary contents survive, and no entry reuses one of their kinds. */
  lemma {:induction false} ParseEntriesKeepsEarlier(data: seq<byte>, w: nat, h: nat, table: nat, i: nat, count: nat, dir: Directory, d: Directory)
    requires ParseEntries(data, w, h, table, i, count, dir) == Success(d)
    ensures forall k :: k in dir.extraData ==> k in d.extraData && d.extraData[k] == dir.extraData[k]
    ensures forall j :: i <= j < count && EntryAt(table, j) + 12 <= |data| ==> KindAt(data, table, j) !in dir.extraData
    decreases count - i
  {
    if i < count {
      var next := ParseEntriesFirstStores(data, w, h, table, i, count, dir, d);
      ParseEntriesKeepsEarlier(data, w, h, table, i + 1, count, next, d);
      forall j | i < j < count && EntryAt(table, j) + 12 <= |data|
        ensures KindAt(data, table, j) !in dir.extraData
      {
        assert KindAt(data, table, j) !in next.extraData;
      }
    }
  }

  /**
   * Every entry is in the dictionary under its kind, with exactly the bytes its header points
   * at (the shorter rest of the data when the payload runs past the end).
   */
  lemma {:induction false} ParseEntriesStores(data: seq<byte>, w: nat, h: nat, table: nat, i: nat, count: nat, dir: Directory, d: Directory)
    requires ParseEntries(data, w, h, table, i, count, dir) == Success(d)
    ensures forall j :: i <= j < count && EntryAt(table, j) + 12 <= |data| ==>
      KindAt(data, table, j) in d.extraData && d.extraData[KindAt(data, table, j)] == Slice(data, PayloadAt(data, table, j), SizeAt(data, table, j))
    decreases count - i
  {
    if i < count {
      var next := ParseEntriesFirstStores(data, w, h, table, i, count, dir, d);
      ParseEntriesStores(data, w, h, table, i + 1, count, next, d);
      ParseEntriesKeepsEarlier(data, w, h, table, i + 1, count, next, d);
      forall j | i <= j < count && EntryAt(table, j) + 12 <= |data|
        ensures KindAt(data, table, j) in d.extraData
        ensures d.extraData[KindAt(data, table, j)] == Slice(data, PayloadAt(data, table, j), SizeAt(data, table, j))
      {
        if j == i {
          assert KindAt(data, table, i) in next.extraData;
        }
      }
    }
  }

  /** No two entries of a successful directory have the same kind: Dictionary.Add refuses a repeated key. */
  lemma {:induction false} ParseEntriesDistinct(data: seq<byte>, w: nat, h: nat, table: nat, i: nat, count: nat, dir: Directory, d: Directory)
    requires ParseEntries(data, w, h, table, i, count, dir) == Success(d)
    ensures forall j1, j2 :: i <= j1 < j2 < count && EntryAt(table, j2) + 12 <= |data| ==>
      EntryAt(table, j1) + 12 <= |data| && KindAt(data, table, j1) != KindAt(data, table, j2)
    decreases count - i
  {
    if i < count {
      var next := ParseEntriesFirstStores(data, w, h, table, i, count, dir, d);
      ParseEntriesDistinct(data, w, h, table, i + 1, count, next, d);
      ParseEntriesKeepsEarlier(data, w, h, table, i + 1, count, next, d);
      forall j1, j2 | i <= j1 < j2 < count && EntryAt(table, j2) + 12 <= |data|
        ensures EntryAt(table, j1) + 12 <= |data| && KindAt(data, table, j1) != KindAt(data, table, j2)
      {
        if j1 == i {
          assert KindAt(data, table, i) in next.extraData;
        }
      }
    }
  }

  /** Nothing but the entries is added to the dictionary. */
  lemma {:induction false} ParseEntriesAddsOnlyEntries(data: seq<byte>, w: nat, h: nat, table: nat, i: nat, count: nat, dir: Directory, d: Directory)
    requires ParseEntries(data, w, h, table, i, count, dir) == Success(d)
    ensures forall k :: k in d.extraData ==>
      k in dir.extraData || exists j :: i <= j < count && EntryAt(table, j) + 12 <= |data| && KindAt(data, table, j) == k
    decreases count - i
  {
    if i < count {
      var next := ParseEntriesFirstStores(data, w, h, table, i, count, dir, d);
      ParseEntriesAddsOnlyEntries(data, w, h, table, i + 1, count, next, d);
      forall k | k in d.extraData
        ensures k in dir.extraData || exists j :: i <= j < count && EntryAt(table, j) + 12 <= |data| && KindAt(data, table, j) == k
      {
        if k !in next.extraData {
          var j :| i + 1 <= j < count && EntryAt(table, j) + 12 <= |data| && KindAt(data, table, j) == k;
        } else if k !in dir.extraData {
          assert KindAt(data, table, i) == k;
        }
      }
    }
  }

  /** The non-power-of-two size stays unset or acceptable through the whole directory. */
  lemma {:induction false} ParseEntriesNonPow2(data: seq<byte>, w: nat, h: nat, table: nat, i: nat, count: nat, dir: Directory, d: Directory)
    requires ParseEntries(data, w, h, table, i, count, dir) == Success(d)
    requires NonPow2Sound(dir, w, h)
    ensures NonPow2Sound(d, w, h)
    decreases count - i
  {
    if i < count {
      var next := ParseEntriesFirstNonPow2(data, w, h, table, i, count, dir, d);
      ParseEntriesNonPow2(data, w, h, table, i + 1, count, next, d);
    }
  }

  /** Entries of other kinds leave the non-power-of-two size as it was. */
  lemma {:induction false} ParseEntriesKeepsSize(data: seq<byte>, w: nat, h: nat, table: nat, i: nat, count: nat, dir: Directory, d: Directory)
    requires ParseEntries(data, w, h, table, i, count, dir) == Success(d)
    requires forall j :: i <= j < count && EntryAt(table, j) + 12 <= |data| ==> KindAt(data, table, j) != FILL_TO_POWER_OF_TWO
    ensures d.nonPow2Width == dir.nonPow2Width && d.nonPow2Height == dir.nonPow2Height
    decreases count - i
  {
    if i < count {
      var next := ParseEntriesFirstNonPow2(data, w, h, table, i, count, dir, d);
      ParseEntriesKeepsSize(data, w, h, table, i + 1, count, next, d);
    }
  }

  /** Entries of other kinds leave the mip table as it was. */
  lemma {:induction false} ParseEntriesKeepsMips(data: seq<byte>, w: nat, h: nat, table: nat, i: nat, count: nat, dir: Directory, d: Directory)
    requires ParseEntries(data, w, h, table, i, count, dir) == Success(d)
    requires forall j :: i <= j < count && EntryAt(table, j) + 12 <= |data| ==> KindAt(data, table, j) != COMPRESSED_MIP_SIZE
    ensures d.compressedMips == dir.compressedMips
    decreases count - i
  {
    if i < count {
      var next := ParseEntriesFirstMips(data, w, h, table, i, count, dir, d);
      ParseEntriesKeepsMips(data, w, h, table, i + 1, count, next, d);
    }
  }

  /**
   * The FILL_TO_POWER_OF_TWO entry decides the non-power-of-two size: the 2nd and 3rd u16 of
   * its payload when they are positive and within Width x Height, the size before the
   * directory otherwise. Kinds are distinct, so no other entry changes it.
   */
  lemma {:induction false} ParseEntriesNonPow2Value(data: seq<byte>, w: nat, h: nat, table: nat, i: nat, count: nat, dir: Directory, d: Directory, j: nat)
    requires ParseEntries(data, w, h, table, i, count, dir) == Success(d)
    requires i <= j < count && EntryAt(table, j) + 12 <= |data| && KindAt(data, table, j) == FILL_TO_POWER_OF_TWO
    ensures PayloadAt(data, table, j) + 6 <= |data| && FillResult(data, PayloadAt(data, table, j), w, h, dir, d)
    decreases count - i
  {
    if j == i {
      ParseEntriesNonPow2ValueHere(data, w, h, table, i, count, dir, d);
    } else {
      ParseEntriesDistinct(data, w, h, table, i, count, dir, d);
      assert KindAt(data, table, i) != KindAt(data, table, j);
      var next := ParseEntriesFirstNonPow2(data, w, h, table, i, count, dir, d);
      ParseEntriesNonPow2Value(data, w, h, table, i + 1, count, next, d, j);
    }
  }

  /** The case where the FILL_TO_POWER_OF_TWO entry is the first one parsed: no later entry has that kind. */
  lemma ParseEntriesNonPow2ValueHere(data: seq<byte>, w: nat, h: nat, table: nat, i: nat, count: nat, dir: Directory, d: Directory)
    requires ParseEntries(data, w, h, table, i, count, dir) == Success(d)
    requires i < count && EntryAt(table, i) + 12 <= |data| && KindAt(data, table, i) == FILL_TO_POWER_OF_TWO
    ensures PayloadAt(data, table, i) + 6 <= |data| && FillResult(data, PayloadAt(data, table, i), w, h, dir, d)
  {
    var next := ParseEntriesFirstFill(data, w, h, table, i, count, dir, d);
    ParseEntriesKeepsEarlier(data, w, h, table, i + 1, count, next, d);
    ParseEntriesKeepsSize(data, w, h, table, i + 1, count, next, d);
  }

  /** Entry j is a COMPRESSED_MIP_SIZE entry whose payload lies within the data. */
  predicate MipEntryAt(data: seq<byte>, table: nat, j: nat)
  {
    && EntryAt(table, j) + 12 <= |data|
    && KindAt(data, table, j) == COMPRESSED_MIP_SIZE
    && PayloadAt(data, table, j) + SizeAt(data, table, j) <= |data|
  }

  /**
   * The COMPRESSED_MIP_SIZE entry decides the mip table: it is the (count, sizes...) list at
   * that entry's payload, read past its first two u32 fields.
   */
  lemma {:induction false} ParseEntriesMipTable(data: seq<byte>, w: nat, h: nat, table: nat, i: nat, count: nat, dir: Directory, d: Directory, j: nat)
    requires ParseEntries(data, w, h, table, i, count, dir) == Success(d)
    requires i <= j < count && MipEntryAt(data, table, j)
    ensures MipSizeTable(data, PayloadAt(data, table, j)).Success?
    ensures d.compressedMips == Some(MipSizeTable(data, PayloadAt(data, table, j)).value)
    decreases count - i
  {
    if j == i {
      ParseEntriesMipTableHere(data, w, h, table, i, count, dir, d);
    } else {
      var next := ParseEntriesFirst(data, w, h, table, i, count, dir, d);
      ParseEntriesMipTable(data, w, h, table, i + 1, count, next, d, j);
    }
  }

  /** The case where the COMPRESSED_MIP_SIZE entry is the first one parsed: no later entry has that kind. */
  lemma ParseEntriesMipTableHere(data: seq<byte>, w: nat, h: nat, table: nat, i: nat, count: nat, dir: Directory, d: Directory)
    requires ParseEntries(data, w, h, table, i, count, dir) == Success(d)
    requires i < count && MipEntryAt(data, table, i)
    ensures MipSizeTable(data, PayloadAt(data, table, i)).Success?
    ensures d.compressedMips == Some(MipSizeTable(data, PayloadAt(data, table, i)).value)
  {
    var next := ParseEntriesFirstMips(data, w, h, table, i, count, dir, d);
    ParseEntriesKeepsEarlier(data, w, h, table, i + 1, count, next, d);
    ParseEntriesKeepsMips(data, w, h, table, i + 1, count, next, d);
  }

  /** The mip table read by MipSizeTable: `count` values right after the count field. */
  lemma MipSizeTableLayout(data: seq<byte>, start: nat)
    requires MipSizeTable(data, start).Success?
    ensures var t := MipSizeTable(data, start).value;
      && start + 12 + 4 * |t| <= |data|
      && |t| == U32At(data, start + 8)
      && forall k :: 0 <= k < |t| ==> t[k] == U32At(data, start + 12 + 4 * k)
  {
    U32ArrayValues(data, start + 12, U32At(data, start + 8));
  }

  /** The collected values are the n u32 fields from p, in order. */
  lemma {:induction false} U32ArrayValues(data: seq<byte>, p: nat, n: nat)
    requires p + 4 * n <= |data|
    ensures |U32Array(data, p, n)| == n
    ensures forall k :: 0 <= k < n ==> U32Array(data, p, n)[k] == U32At(data, p + 4 * k)
    decreases n
  {
    if n > 0 {
      U32ArrayValues(data, p, n - 1);
    }
  }

  // ---------------------------------------------------------------------------------------
  // Read as a whole

  /** A version other than 1 is refused before anything is stored. */
  lemma ParseTextureRejectsVersion(data: seq<byte>, offset: nat, size: nat, extra0: map<nat, seq<byte>>, mips0: Option<seq<nat>>)
    requires offset + 2 <= |data| && U16At(data, offset) != 1
    ensures ParseTexture(data, offset, size, extra0, mips0) == Failure(UnknownVersion(U16At(data, offset)))
  {
  }

  /** A successful Read keeps the header as stored, and the pixel data starts at the block's end. */
  lemma ParseTextureHeader(data: seq<byte>, offset: nat, size: nat, extra0: map<nat, seq<byte>>, mips0: Option<seq<nat>>, st: TextureState)
    requires ParseTexture(data, offset, size, extra0, mips0) == Success(st)
    ensures offset + HEADER_SIZE <= |data| && st.header == HeaderAt(data, offset) && st.header.version == 1
    ensures st.dataOffset == offset + size
  {
  }

  /** The output size of a successful Read is never larger than the stored size, and its two halves are set together. */
  lemma {:induction false} ResolvedSizeWithinStored(data: seq<byte>, offset: nat, size: nat, extra0: map<nat, seq<byte>>, mips0: Option<seq<nat>>, st: TextureState)
    requires ParseTexture(data, offset, size, extra0, mips0) == Success(st)
    ensures ResolvedWidth(st) <= st.header.width && ResolvedHeight(st) <= st.header.height
    ensures (st.directory.nonPow2Width > 0) == (st.directory.nonPow2Height > 0)
    ensures st.header.width > 0 ==> ResolvedWidth(st) > 0
    ensures st.header.height > 0 ==> ResolvedHeight(st) > 0
  {
    var h := ParseHeader(data, offset).value;
    ParseEntriesNonPow2(data, h.width, h.height, DirectoryTable(data, offset), 0, DirectoryCount(data, offset),
      Directory(extra0, 0, 0, mips0), st.directory);
  }

  /** Without a FILL_TO_POWER_OF_TWO entry the output has the stored size. */
  lemma ResolvedSizeWithoutFill(data: seq<byte>, offset: nat, size: nat, extra0: map<nat, seq<byte>>, mips0: Option<seq<nat>>, st: TextureState)
    requires ParseTexture(data, offset, size, extra0, mips0) == Success(st)
    requires var table := DirectoryTable(data, offset);
      forall j :: 0 <= j < DirectoryCount(data, offset) && EntryAt(table, j) + 12 <= |data| ==> KindAt(data, table, j) != FILL_TO_POWER_OF_TWO
    ensures ResolvedWidth(st) == st.header.width && ResolvedHeight(st) == st.header.height
  {
    var h := ParseHeader(data, offset).value;
    ParseEntriesKeepsSize(data, h.width, h.height, DirectoryTable(data, offset), 0, DirectoryCount(data, offset),
      Directory(extra0, 0, 0, mips0), st.directory);
  }

  /**
   * With a FILL_TO_POWER_OF_TWO entry, the output has the size that entry gives when it is
   * acceptable, and the stored size when a side is zero or too large.
   */
  lemma ResolvedSizeWithFill(data: seq<byte>, offset: nat, size: nat, extra0: map<nat, seq<byte>>, mips0: Option<seq<nat>>, st: TextureState, j: nat)
    requires ParseTexture(data, offset, size, extra0, mips0) == Success(st)
    requires var table := DirectoryTable(data, offset);
      j < DirectoryCount(data, offset) && EntryAt(table, j) + 12 <= |data| && KindAt(data, table, j) == FILL_TO_POWER_OF_TWO
    ensures var p := PayloadAt(data, DirectoryTable(data, offset), j);
      && p + 6 <= |data|
      && var nw := U16At(data, p + 2);
      var nh := U16At(data, p + 4);
      if AcceptableNonPow2(nw, nh, st.header.width, st.header.height) then ResolvedWidth(st) == nw && ResolvedHeight(st) == nh
      else ResolvedWidth(st) == st.header.width && ResolvedHeight(st) == st.header.height
  {
    var h := ParseHeader(data, offset).value;
    ParseEntriesNonPow2Value(data, h.width, h.height, DirectoryTable(data, offset), 0, DirectoryCount(data, offset),
      Directory(extra0, 0, 0, mips0), st.directory, j);
  }

  // ---------------------------------------------------------------------------------------
  // Mip sizes

  lemma MulAtLeast(d: nat, k: nat)
    requires k >= 1
    ensures d * k >= d
  {
  }

  lemma DivUnique(a: int, d: int, q: int, r: int)
    requires d > 0 && 0 <= r < d && a == d * q + r
    ensures a / d == q
  {
    var q0, r0 := a / d, a % d;
    assert a == d * q0 + r0;
    if q > q0 {
      MulAtLeast(d, q - q0);
    } else if q < q0 {
      MulAtLeast(d, q0 - q);
    }
  }

  lemma DivHalf(a: nat, b: nat)
    requires b > 0
    ensures a / b / 2 == a / (2 * b)
  {
    var q, r := a / b, a % b;
    var q2, r2 := q / 2, q % 2;
    assert a == (2 * b) * q2 + (b * r2 + r);
    assert b * r2 <= b * 1;
    DivUnique(a, 2 * b, q2, b * r2 + r);
  }

  /** When the size product fits an `int`, the C# arithmetic is the plain one and never negative. */
  lemma BufferSizeWithoutOverflow(h: Header, bpp: nat, mip: nat)
    requires NoOverflow(h, bpp)
    ensures BufferSizeForMipLevel(h, bpp, mip) == PlainMipSize(h, bpp, mip) >= 0
  {
  }

  /** Block-compressed mips halve from one level to the next. */
  lemma BlockMipHalves(h: Header, bpp: nat, mip: nat)
    requires IsBlockCompressed(FormatOf(h.format))
    ensures PlainMipSize(h, bpp, mip + 1) == PlainMipSize(h, bpp, mip) / 2
  {
    DivHalf(SizeProduct(h, bpp), Pow2(mip + 1));
  }

  /** Every other format gets the same size at every level. */
  lemma UncompressedMipSizeConstant(h: Header, bpp: nat, mip: nat)
    requires !IsBlockCompressed(FormatOf(h.format))
    ensures BufferSizeForMipLevel(h, bpp, mip) == Int32(SizeProduct(h, bpp))
  {
  }

  // ---------------------------------------------------------------------------------------
  // Mip skipping

  lemma {:induction false} PlainMipSumTop(h: Header, bpp: nat, lo: nat, hi: nat)
    requires lo <= hi && hi > 0
    ensures PlainMipSum(h, bpp, lo, hi) == PlainMipSum(h, bpp, lo, hi - 1) + PlainMipSize(h, bpp, hi)
    decreases hi - lo
  {
    if lo < hi {
      PlainMipSumTop(h, bpp, lo + 1, hi);
    }
  }

  /** Without a mip table, the skip is the sum of the level sizes from 2 to NumMipLevels. */
  lemma {:induction false} LegacySkipSum(h: Header, bpp: nat, pos: nat, j: nat)
    requires NoOverflow(h, bpp)
    ensures LegacySkip(h, bpp, pos, j) == Success(pos + PlainMipSum(h, bpp, 2, j))
    decreases j
  {
    if j > 1 {
      BufferSizeWithoutOverflow(h, bpp, j);
      LegacySkipSum(h, bpp, pos + PlainMipSize(h, bpp, j), j - 1);
      PlainMipSumTop(h, bpp, 2, j);
    }
  }

  /** The legacy skip can fail only by a negative position. */
  lemma {:induction false} LegacySkipFailure(h: Header, bpp: nat, pos: nat, j: nat)
    requires LegacySkip(h, bpp, pos, j).Failure?
    ensures LegacySkip(h, bpp, pos, j).error == Io(NegativePosition)
    decreases j
  {
    var next := pos + BufferSizeForMipLevel(h, bpp, j);
    if next >= 0 {
      LegacySkipFailure(h, bpp, next, j - 1);
    }
  }

  /** With a mip table, the skip lands where the finest mip starts: it is the last thing stored. */
  lemma MipSkipWithTable(h: Header, t: seq<nat>, bpp: nat, pos: nat)
    requires 2 <= h.numMipLevels <= |t|
    ensures MipSkip(h, Some(t), bpp, pos).Success?
    ensures MipSkip(h, Some(t), bpp, pos).value + t[0] == pos + SumRange(t, 0, h.numMipLevels)
  {
  }

  /** A single-level texture is not skipped over, whatever the table says. */
  lemma MipSkipSingleLevel(h: Header, mips: Option<seq<nat>>, bpp: nat, pos: nat)
    requires h.numMipLevels < 2
    ensures MipSkip(h, mips, bpp, pos) == Success(pos)
  {
  }

  /** The mip table must have an entry per level. */
  lemma MipSkipShortTable(h: Header, t: seq<nat>, bpp: nat, pos: nat)
    requires 2 <= h.numMipLevels && |t| < h.numMipLevels
    ensures MipSkip(h, Some(t), bpp, pos) == Failure(MipIndexOutOfRange)
  {
  }

  /**
   * A mip table [40, 20, 10] for three levels: 20 + 10 bytes are skipped and then
   * CompressedMips[0] = 40 bytes are read and decoded.
   */
  lemma ThreeLevelTableExample(h: Header, bpp: nat, data: seq<byte>, pos: nat, lz4: (seq<byte>, nat) -> seq<byte>)
    requires h.numMipLevels == 3 && pos + 70 <= |data|
    requires NoOverflow(h, bpp)
    ensures MipSkip(h, Some([40, 20, 10]), bpp, pos) == Success(pos + 30)
    ensures var b := DecompressedBuffer(h, Some([40, 20, 10]), bpp, data, pos + 30, lz4);
      b.Success? && b.value.1 == pos + 70
      && b.value.0 == Decompressed(Fit(lz4(data[pos + 30..pos + 70], PlainMipSize(h, bpp, 0)), PlainMipSize(h, bpp, 0)))
  {
    BufferSizeWithoutOverflow(h, bpp, 0);
    assert SumRange([40, 20, 10], 1, 3) == 30;
  }

  // ---------------------------------------------------------------------------------------
  // Decompression

  /** Without a mip table the unpacker reads the stream itself, from the cursor. */
  lemma DecompressedBufferWithoutTable(h: Header, bpp: nat, data: seq<byte>, pos: nat, lz4: (seq<byte>, nat) -> seq<byte>)
    ensures DecompressedBuffer(h, None, bpp, data, pos, lz4) == Success((StreamAt(pos), pos))
  {
  }

  /**
   * With a mip table the buffer holds exactly the finest mip's size, filled from the front by
   * the decoder, and the cursor moves past CompressedMips[0] bytes when they are all there.
   */
  lemma DecompressedBufferLength(h: Header, t: seq<nat>, bpp: nat, data: seq<byte>, pos: nat, lz4: (seq<byte>, nat) -> seq<byte>)
    requires |t| > 0 && t[0] < I32_LIMIT && NoOverflow(h, bpp)
    ensures var b := DecompressedBuffer(h, Some(t), bpp, data, pos, lz4);
      && b.Success? && b.value.0.Decompressed?
      && |b.value.0.bytes| == PlainMipSize(h, bpp, 0)
      && (pos + t[0] <= |data| ==> b.value.1 == pos + t[0])
      && (pos + t[0] <= |data| ==> var decoded := lz4(data[pos..pos + t[0]], PlainMipSize(h, bpp, 0));
           forall k :: 0 <= k < |decoded| && k < PlainMipSize(h, bpp, 0) ==> b.value.0.bytes[k] == decoded[k])
  {
    BufferSizeWithoutOverflow(h, bpp, 0);
  }

  // ---------------------------------------------------------------------------------------
  // The dispatch

  /** GenerateBitmap fails with "Unhandled image type" exactly for formats without an unpacker or decoder, once the canvas is allocated. */
  lemma {:induction false} GenerateBitmapRejects(st: TextureState, data: seq<byte>, deps: Option<seq<SpecialDependency>>, lz4: (seq<byte>, nat) -> seq<byte>)
    ensures var r := GenerateBitmapSpec(st, data, deps, lz4);
      (r.Failure? && r.error.UnhandledImageType?) <==> CanvasBytes(st) >= 0 && HandlingOf(FormatOf(st.header.format)) == Rejected
    ensures var r := GenerateBitmapSpec(st, data, deps, lz4);
      r.Failure? && r.error.UnhandledImageType? ==> r.error.tag == st.header.format && !IsNamed(FormatOf(st.header.format))
  {
    var f := FormatOf(st.header.format);
    if CanvasBytes(st) >= 0 && HandlingOf(f).Unpacked? {
      var mips := st.directory.compressedMips;
      if mips.None? && st.header.numMipLevels >= 2 {
        var s := LegacySkip(st.header, HandlingOf(f).bytesPerPixel, st.dataOffset, st.header.numMipLevels);
        if s.Failure? {
          LegacySkipFailure(st.header, HandlingOf(f).bytesPerPixel, st.dataOffset, st.header.numMipLevels);
        }
      }
    }
  }

  /**
   * The canvas is allocated before the format is looked at: when the 32-bit product
   * `RowBytes * Height` wraps to a negative length, every format fails, the image files too.
   */
  lemma GenerateBitmapCanvasOverflow(st: TextureState, data: seq<byte>, deps: Option<seq<SpecialDependency>>, lz4: (seq<byte>, nat) -> seq<byte>)
    requires (CANVAS_BYTES_PER_PIXEL * ResolvedWidth(st) * ResolvedHeight(st)) % U32_MODULUS >= I32_LIMIT
    ensures CanvasBytes(st) < 0
    ensures GenerateBitmapSpec(st, data, deps, lz4) == Failure(NegativeBufferLength)
  {
  }

  /** A 65535 x 65535 canvas needs 4 * 65535 * 65535 bytes, which wraps to -524284, so GenerateBitmap fails whatever the format. */
  lemma CanvasOverflowExample(st: TextureState, data: seq<byte>, deps: Option<seq<SpecialDependency>>, lz4: (seq<byte>, nat) -> seq<byte>)
    requires ResolvedWidth(st) == 65535 && ResolvedHeight(st) == 65535
    ensures CanvasBytes(st) == -524284
    ensures GenerateBitmapSpec(st, data, deps, lz4) == Failure(NegativeBufferLength)
  {
    assert CANVAS_BYTES_PER_PIXEL * ResolvedWidth(st) * ResolvedHeight(st) == 17179344900;
  }

  /** A 32768 x 32768 canvas needs 2^32 bytes, which wraps to an empty buffer. */
  lemma CanvasWrapToEmptyExample(st: TextureState)
    requires ResolvedWidth(st) == 32768 && ResolvedHeight(st) == 32768
    ensures CanvasBytes(st) == 0
  {
    assert CANVAS_BYTES_PER_PIXEL * ResolvedWidth(st) * ResolvedHeight(st) == U32_MODULUS;
  }

  /** Image-file formats skip nothing: the decoder is given everything from the pixel data on, once the canvas is allocated. */
  lemma GenerateBitmapEncoded(st: TextureState, data: seq<byte>, deps: Option<seq<SpecialDependency>>, lz4: (seq<byte>, nat) -> seq<byte>)
    requires HandlingOf(FormatOf(st.header.format)) == Encoded
    requires st.dataOffset <= |data| < I32_LIMIT
    ensures CanvasBytes(st) >= 0 ==> GenerateBitmapSpec(st, data, deps, lz4) == Success(EncodedImage(data[st.dataOffset..]))
    ensures CanvasBytes(st) < 0 ==> GenerateBitmapSpec(st, data, deps, lz4) == Failure(NegativeBufferLength)
  {
    assert Slice(data, st.dataOffset, |data|) == data[st.dataOffset..];
  }

  /**
   * For a texture Read produced, the canvas has the resolved size, never larger than the stored
   * size; its byte count is the 32-bit wrap of 4 bytes per pixel, exact when that fits; only
   * DXT5 carries modifiers; and only the block decoders are given the stored size.
   */
  lemma GenerateBitmapCanvas(data: seq<byte>, offset: nat, size: nat, extra0: map<nat, seq<byte>>, mips0: Option<seq<nat>>,
                             st: TextureState, deps: Option<seq<SpecialDependency>>, lz4: (seq<byte>, nat) -> seq<byte>)
    requires ParseTexture(data, offset, size, extra0, mips0) == Success(st)
    requires GenerateBitmapSpec(st, data, deps, lz4).Success?
    ensures var b := GenerateBitmapSpec(st, data, deps, lz4).value;
      b.CanvasImage? ==>
        && b.canvasWidth == ResolvedWidth(st) <= st.header.width
        && b.canvasHeight == ResolvedHeight(st) <= st.header.height
        && b.canvasBytes < I32_LIMIT
        && (b.canvasBytes - 4 * b.canvasWidth * b.canvasHeight) % U32_MODULUS == 0
        && (4 * b.canvasWidth * b.canvasHeight < I32_LIMIT ==> b.canvasBytes == 4 * b.canvasWidth * b.canvasHeight)
        && (b.format != DXT5 ==> b.modifiers == Dxt5Modifiers(false, false, false))
        && (b.format == DXT5 ==> b.modifiers == ModifiersOf(deps))
        && b.format in {DXT1, DXT5, RGBA16161616, RGBA16161616F}
        && (b.format in {DXT1, DXT5} ==> b.storedSize == Some((st.header.width, st.header.height)))
        && (b.format in {RGBA16161616, RGBA16161616F} ==> b.storedSize == None)
  {
    ResolvedSizeWithinStored(data, offset, size, extra0, mips0, st);
  }
}
