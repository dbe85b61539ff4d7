/** What the scanner reports, said over the bytes of the file alone: where the end record
    points, the two sizes and the magic of the block, and the chain of its entries. */
module SchemeBytes {
  import opened ApkSigningBlock
  import opened Bytes
  import opened Slices

  function Word32(data: seq<Byte>, i: nat): nat
    requires i + 4 <= |data|
  {
    data[i] as int + 0x100 * data[i + 1] as int + 0x1_0000 * data[i + 2] as int + 0x100_0000 * data[i + 3] as int
  }

  function Word64(data: seq<Byte>, i: nat): nat
    requires i + 8 <= |data|
  {
    Word32(data, i) + 0x1_0000_0000 * Word32(data, i + 4)
  }

  lemma WordsAreRead(data: seq<Byte>, i: nat)
    ensures i + 4 <= |data| ==> U32At(data, i) == Word32(data, i)
    ensures i + 8 <= |data| ==> U64At(data, i) == Word64(data, i)
  {
    if i + 4 <= |data| {
      U32Bytes(data, i);
    }
    if i + 8 <= |data| {
      U64Bytes(data, i);
      U32Bytes(data, i + 4);
    }
  }

  predicate Spells(data: seq<Byte>, i: nat, text: string) {
    i + |text| <= |data| && forall k :: 0 <= k < |text| ==> data[i + k] == text[k] as int
  }

  /** The last sixteen bytes before the directory. */
  predicate HasMagic(data: seq<Byte>, directory: nat) {
    directory >= 16 && Spells(data, directory - 16, "APK Sig Block 42")
  }

  /** `end` is where the last end record of the file starts. */
  ghost predicate LastEndRecord(data: seq<Byte>, end: nat) {
    && Spells(data, end, "PK\U{0005}\U{0006}") && end + 22 <= |data|
    && forall i: nat :: i > end ==> !Spells(data, i, "PK\U{0005}\U{0006}")
  }

  /** An eight-byte size of at least four, then that many bytes. */
  predicate IsEntry(data: seq<Byte>, at: nat, next: nat) {
    at + 12 <= next <= |data| && next == at + 8 + Word64(data, at)
  }

  /** Each offset starts an entry that ends at the next offset. */
  ghost predicate Chain(data: seq<Byte>, offsets: seq<nat>) {
    forall k: nat :: k + 1 < |offsets| ==> IsEntry(data, offsets[k], offsets[k + 1])
  }

  /** The directory starts at `directory`, and these are the offsets of the entries of the
      signing block before it, with the end of the last. */
  ghost predicate Layout(data: seq<Byte>, end: nat, directory: nat, offsets: seq<nat>) {
    && LastEndRecord(data, end) && directory == Word32(data, end + 16)
    && 32 <= directory <= |data| && HasMagic(data, directory)
    && var size := Word64(data, directory - 24);
    && 24 <= size <= directory - 8 && Word64(data, directory - size - 8) == size
    && offsets != [] && offsets[0] == directory - size && offsets[|offsets| - 1] == directory - 24
    && Chain(data, offsets)
  }

  ghost predicate HasEntry(data: seq<Byte>, offsets: seq<nat>, id: seq<Byte>) {
    exists k: nat :: k + 1 < |offsets| && EntryId(data, offsets[k]) == id
  }

  /** The four bytes after the size of an entry. */
  function EntryId(data: seq<Byte>, at: nat): seq<Byte> {
    if at + 12 <= |data| then data[at + 8..at + 12] else []
  }

  // ---------------------------------------------------------------- the header

  lemma EndRecordIff(data: seq<Byte>, end: nat)
    ensures LastEndRecord(data, end) <==> LastIndexOf(data, EOCD_MAGIC) == end && end + 22 <= |data|
  {
    forall i: nat ensures Spells(data, i, "PK\U{0005}\U{0006}") <==> OccursAt(data, EOCD_MAGIC, i) {
      SpellsIff(data, i, "PK\U{0005}\U{0006}", EOCD_MAGIC);
    }
    assert OccursAt(data, EOCD_MAGIC, end) ==> LastIndexOf(data, EOCD_MAGIC) >= 0;
  }

  lemma SpellsIff(data: seq<Byte>, i: nat, text: string, bytes: seq<Byte>)
    requires |bytes| == |text| && forall k :: 0 <= k < |text| ==> bytes[k] == text[k] as int
    ensures Spells(data, i, text) <==> OccursAt(data, bytes, i)
  {
    if i + |text| <= |data| {
      var s := data[i..i + |text|];
      assert forall k :: 0 <= k < |text| ==> s[k] == data[i + k];
    }
  }

  lemma MagicIsSpelled(data: seq<Byte>, directory: nat)
    requires 16 <= directory <= |data|
    ensures HasMagic(data, directory) <==> MagicBefore(data, directory)
  {
    SpellsIff(data, directory - 16, "APK Sig Block 42", BLOCK_MAGIC);
  }

  /** The tests before the loop, over the bytes. */
  ghost predicate Header(data: seq<Byte>, directory: nat) {
    && 32 <= directory <= |data| && HasMagic(data, directory)
    && var size := Word64(data, directory - 24);
    && size <= directory - 8 && Word64(data, directory - size - 8) == size
  }

  lemma HeaderIff(data: seq<Byte>, directory: nat)
    ensures Header(data, directory) <==> RegionBefore(data, directory).Region?
    ensures Header(data, directory) ==>
              RegionBefore(data, directory) == Region(directory - Word64(data, directory - 24), directory - 24)
  {
    if 32 <= directory <= |data| {
      MagicIsSpelled(data, directory);
      SizesAreRead(data);
      hide Word64, U64At, HasMagic, MagicBefore;
      assert U64At(data, directory - 24) == Word64(data, directory - 24);
    }
  }

  lemma SizesAreRead(data: seq<Byte>)
    ensures forall i: nat :: i + 8 <= |data| ==> U64At(data, i) == Word64(data, i)
  {
    forall i: nat | i + 8 <= |data| ensures U64At(data, i) == Word64(data, i) {
      WordsAreRead(data, i);
    }
  }

  lemma DirectoryIs(data: seq<Byte>, end: nat)
    requires LastEndRecord(data, end)
    ensures CentralDirectory(data) == At(Word32(data, end + 16))
  {
    EndRecordIff(data, end);
    WordsAreRead(data, end + 16);
    hide Word32, U32At;
  }

  // --------------------------------------------------------------- the entries

  /** The offsets of these entries. */
  ghost predicate OffsetsOf(data: seq<Byte>, offsets: seq<nat>, pairs: seq<Pair>) {
    && |offsets| == |pairs| + 1
    && forall k :: 0 <= k < |pairs| ==> offsets[k] + 12 <= |data| && U32At(data, offsets[k] + 8) == pairs[k].id
  }

  lemma {:induction false} ChainToPairs(data: seq<Byte>, offsets: seq<nat>) returns (pairs: seq<Pair>)
    requires offsets != [] && Chain(data, offsets) && offsets[0] <= |data|
    ensures offsets[0] <= offsets[|offsets| - 1] <= |data| && AllValid(pairs)
    ensures data[offsets[0]..offsets[|offsets| - 1]] == EncodePairs(pairs)
    ensures OffsetsOf(data, offsets, pairs)
    decreases |offsets|
  {
    hide Word64, Word32, U64At, U32At, EncodePairs;
    if |offsets| == 1 {
      pairs := [];
      NoPairs(data, offsets[0]);
    } else {
      var n := |offsets| - 1;
      var parsed := ChainToPairs(data, offsets[..n]);
      var at := offsets[n - 1];
      assert IsEntry(data, offsets[n - 1], offsets[n - 1 + 1]);
      WordsAreRead(data, at);
      var p := ReadPair(data, offsets[0], at, parsed, U64At(data, at));
      pairs := parsed + [p];
    }
  }

  lemma NoPairs(data: seq<Byte>, at: nat)
    requires at <= |data|
    ensures data[at..at] == EncodePairs([])
  {
  }

  /** The first entry of a region, and where the rest lies. */
  lemma FirstEntry(data: seq<Byte>, start: nat, limit: nat, pairs: seq<Pair>)
    requires AllValid(pairs) && pairs != [] && start <= limit <= |data|
    requires data[start..limit] == EncodePairs(pairs)
    ensures var next := start + 12 + |pairs[0].value|;
            && next <= limit && data[next..limit] == EncodePairs(pairs[1..])
            && IsEntry(data, start, next) && U32At(data, start + 8) == pairs[0].id
  {
    FirstEncoded(pairs);
    hide Word64, U64At, U32At, EncodePairs, Pair.Encode, Word32;
    var first, rest := pairs[0].Encode(), EncodePairs(pairs[1..]);
    EntryFields(pairs[0], rest);
    FieldsOfSlice(data, start, limit);
    WordsAreRead(data, start);
    TailOfRegion(data, start, limit, first, rest);
  }

  lemma FirstEncoded(pairs: seq<Pair>)
    requires pairs != []
    ensures EncodePairs(pairs) == pairs[0].Encode() + EncodePairs(pairs[1..])
  {
  }

  lemma FieldsOfSlice(data: seq<Byte>, start: nat, limit: nat)
    requires start + 12 <= limit <= |data|
    ensures U64At(data[start..limit], 0) == U64At(data, start)
    ensures U32At(data[start..limit], 8) == U32At(data, start + 8)
  {
    SliceOfSlice(data, start, limit, 0, 8);
    SliceOfSlice(data, start, limit, 8, 12);
  }

  lemma TailOfRegion(data: seq<Byte>, start: nat, limit: nat, first: seq<Byte>, rest: seq<Byte>)
    requires start <= limit <= |data| && data[start..limit] == first + rest
    ensures data[start + |first|..limit] == rest
  {
    SliceOfSlice(data, start, limit, |first|, limit - start);
    assert (first + rest)[|first|..limit - start] == rest;
  }

  lemma {:induction false} PairsToChain(data: seq<Byte>, start: nat, limit: nat, pairs: seq<Pair>)
    returns (offsets: seq<nat>)
    requires AllValid(pairs) && start <= limit <= |data| && data[start..limit] == EncodePairs(pairs)
    ensures offsets != [] && offsets[0] == start && offsets[|offsets| - 1] == limit
    ensures Chain(data, offsets) && OffsetsOf(data, offsets, pairs)
    decreases |pairs|
  {
    if pairs == [] {
      offsets := [start];
      NoPairs(data, start);
    } else {
      var next := start + 12 + |pairs[0].value|;
      FirstEntry(data, start, limit, pairs);
      hide IsEntry, EncodePairs, U32At, Chain, OffsetsOf;
      var others := PairsToChain(data, next, limit, pairs[1..]);
      offsets := [start] + others;
      OneMoreEntry(data, start, others, pairs);
    }
  }

  lemma OneMoreEntry(data: seq<Byte>, start: nat, others: seq<nat>, pairs: seq<Pair>)
    requires others != [] && pairs != []
    requires IsEntry(data, start, others[0]) && U32At(data, start + 8) == pairs[0].id
    requires Chain(data, others) && OffsetsOf(data, others, pairs[1..])
    ensures Chain(data, [start] + others) && OffsetsOf(data, [start] + others, pairs)
  {
    hide U32At, Word64;
    var offsets := [start] + others;
    assert start + 12 <= |data|;
    forall k: nat | k + 1 < |offsets| ensures IsEntry(data, offsets[k], offsets[k + 1]) {
      if k > 0 {
        assert IsEntry(data, others[k - 1], others[k - 1 + 1]);
      }
    }
    forall k | 0 <= k < |pairs| ensures offsets[k] + 12 <= |data| && U32At(data, offsets[k] + 8) == pairs[k].id {
      if k > 0 {
        assert offsets[k] == others[k - 1] && pairs[k] == pairs[1..][k - 1];
      }
    }
  }

  // ------------------------------------------------------------------ the answer

  lemma RegionToLayout(data: seq<Byte>, pairs: seq<Pair>, end: nat, directory: nat) returns (offsets: seq<nat>)
    requires LastEndRecord(data, end) && directory == Word32(data, end + 16)
    requires SplitsInto(data, RegionBefore(data, directory), pairs)
    ensures Layout(data, end, directory, offsets) && OffsetsOf(data, offsets, pairs)
  {
    hide LastEndRecord, HasMagic, Word32, Word64, RegionBefore, Chain, OffsetsOf;
    HeaderIff(data, directory);
    offsets := PairsToChain(data, directory - Word64(data, directory - 24), directory - 24, pairs);
  }

  lemma BlockToLayout(data: seq<Byte>, pairs: seq<Pair>) returns (end: nat, directory: nat, offsets: seq<nat>)
    requires EndsWithBlock(data, pairs)
    ensures Layout(data, end, directory, offsets) && OffsetsOf(data, offsets, pairs)
  {
    BlockIffRegionSplits(data, pairs);
    hide LastEndRecord, Word32, RegionBefore, SplitsInto, Layout, OffsetsOf;
    end := LastIndexOf(data, EOCD_MAGIC);
    EndRecordIff(data, end);
    DirectoryIs(data, end);
    directory := Word32(data, end + 16);
    offsets := RegionToLayout(data, pairs, end, directory);
  }

  lemma LayoutToBlock(data: seq<Byte>, end: nat, directory: nat, offsets: seq<nat>) returns (pairs: seq<Pair>)
    requires Layout(data, end, directory, offsets)
    ensures EndsWithBlock(data, pairs) && OffsetsOf(data, offsets, pairs)
  {
    hide LastEndRecord, HasMagic, Word32, Word64, RegionBefore, Chain, OffsetsOf, EndsWithBlock, CentralDirectory;
    DirectoryIs(data, end);
    HeaderIff(data, directory);
    pairs := ChainToPairs(data, offsets);
    BlockIffRegionSplits(data, pairs);
  }

  /** These four bytes are the little-endian id of this name. */
  predicate NamedId(name: string, id: seq<Byte>) {
    || (name == "v2" && id == [0x1A, 0x87, 0x09, 0x71])
    || (name == "v3" && id == [0xC0, 0x68, 0x53, 0xF0])
    || (name == "v3.1" && id == [0x61, 0xAD, 0x93, 0x1B])
  }

  lemma IdIff(data: seq<Byte>, at: nat, name: string, id: seq<Byte>)
    requires at + 12 <= |data| && NamedId(name, id)
    ensures EntryId(data, at) == id <==>
              KnownScheme(U32At(data, at + 8)) && SchemeName(U32At(data, at + 8)) == name
  {
    U32Bytes(data, at + 8);
    var found := EntryId(data, at);
    assert forall k :: 0 <= k < 4 ==> found[k] == data[at + 8 + k];
    DigitsAreUnique(found, id);
    assert |"v2"| == 2 && |"v3"| == 2 && |"v3.1"| == 4 && "v2"[1] == '2' && "v3"[1] == '3';
  }

  lemma DigitsAreUnique(a: seq<Byte>, b: seq<Byte>)
    requires |a| == 4 && |b| == 4
    ensures a == b <==> Word32(a, 0) == Word32(b, 0)
  {
    var a2, b2 := a[2] as int + 256 * a[3] as int, b[2] as int + 256 * b[3] as int;
    SameLow(a[0], a[1] as int + 256 * a2, b[0], b[1] as int + 256 * b2);
    SameLow(a[1], a2, b[1], b2);
    SameLow(a[2], a[3] as int, b[2], b[3] as int);
  }

  lemma SameLow(a: Byte, x: int, b: Byte, y: int)
    ensures a as int + 256 * x == b as int + 256 * y <==> a == b && x == y
  {
  }

  /** A scheme is reported exactly when some entry of the block has its id bytes. */
  lemma SchemeReportedIff(data: seq<Byte>, name: string, id: seq<Byte>)
    requires NamedId(name, id)
    ensures name in DetectedSchemes(data) <==>
            exists end, directory, offsets :: Layout(data, end, directory, offsets) && HasEntry(data, offsets, id)
  {
    if name in DetectedSchemes(data) {
      var pairs :| EndsWithBlock(data, pairs);
      DetectedIs(data, pairs);
      var end, directory, offsets := BlockToLayout(data, pairs);
      NamedIff(data, offsets, pairs, name, id);
    }
    if end, directory, offsets :| Layout(data, end, directory, offsets) && HasEntry(data, offsets, id) {
      var pairs := LayoutToBlock(data, end, directory, offsets);
      DetectedIs(data, pairs);
      NamedIff(data, offsets, pairs, name, id);
    }
  }

  lemma NamedIff(data: seq<Byte>, offsets: seq<nat>, pairs: seq<Pair>, name: string, id: seq<Byte>)
    requires OffsetsOf(data, offsets, pairs) && NamedId(name, id)
    ensures name in SchemesOf(pairs) <==> HasEntry(data, offsets, id)
  {
    SchemesInFirstOccurrenceOrder(pairs);
    forall k | 0 <= k < |pairs|
      ensures EntryId(data, offsets[k]) == id <==> KnownScheme(pairs[k].id) && SchemeName(pairs[k].id) == name
    {
      IdIff(data, offsets[k], name, id);
    }
    if FirstIndex(pairs, name) >= 0 {
      var k: nat := FirstIndex(pairs, name);
      assert FirstAt(pairs, name, k) && EntryId(data, offsets[k]) == id;
    }
    if HasEntry(data, offsets, id) {
      var k: nat :| k + 1 < |offsets| && EntryId(data, offsets[k]) == id;
      assert pairs[k] in pairs;
    }
  }

  /** Nothing else is reported. */
  lemma OnlyThreeSchemes(data: seq<Byte>, name: string)
    requires name in DetectedSchemes(data)
    ensures name in {"v2", "v3", "v3.1"}
  {
    var pairs :| EndsWithBlock(data, pairs);
    DetectedIs(data, pairs);
    SchemesInFirstOccurrenceOrder(pairs);
    assert FirstAt(pairs, name, FirstIndex(pairs, name));
  }
}
