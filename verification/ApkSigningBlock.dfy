/** `detect_apk_signature_schemes`: the parser that walks an APK Signing Block.
    The loop is proved against a grammar: the file is laid out so that its bytes
    up to the central directory end with an encoded block, or it is not. */
module ApkSigningBlock {
  import opened Bytes
  import opened Slices

  const EOCD_MAGIC: seq<Byte> := [0x50, 0x4B, 0x05, 0x06]
  const BLOCK_MAGIC: seq<Byte> :=
    [0x41, 0x50, 0x4B, 0x20, 0x53, 0x69, 0x67, 0x20, 0x42, 0x6C, 0x6F, 0x63, 0x6B, 0x20, 0x34, 0x32]
  const EOCD_LENGTH := 22

  const V2_ID := 0x7109871A
  const V3_ID := 0xF05368C0
  const V31_ID := 0x1B93AD61

  // ---------------------------------------------------------------- grammar

  /** One entry of the block: a 32-bit id and the bytes that follow it. */
  datatype Pair = Pair(id: nat, value: seq<Byte>) {
    predicate Valid() { id < 0x1_0000_0000 && |value| + 4 < 0x1_0000_0000_0000_0000 }

    function Encode(): (s: seq<Byte>)
      ensures |s| == 12 + |value|
    {
      ToLittleEndian(4 + |value|, 8) + ToLittleEndian(id, 4) + value
    }
  }

  predicate AllValid(pairs: seq<Pair>) { forall p <- pairs :: p.Valid() }

  function EncodePairs(pairs: seq<Pair>): seq<Byte> {
    if pairs == [] then [] else pairs[0].Encode() + EncodePairs(pairs[1..])
  }

  /** The size the block stores twice: everything but its own leading size field. */
  function BlockSize(pairs: seq<Pair>): nat { |EncodePairs(pairs)| + 24 }

  function EncodeBlock(pairs: seq<Pair>): (s: seq<Byte>)
    ensures |s| == BlockSize(pairs) + 8
  {
    ToLittleEndian(BlockSize(pairs), 8) + EncodePairs(pairs) +
    ToLittleEndian(BlockSize(pairs), 8) + BLOCK_MAGIC
  }

  predicate EncodableBlock(pairs: seq<Pair>) {
    AllValid(pairs) && BlockSize(pairs) < 0x1_0000_0000_0000_0000
  }

  datatype Offset = NoOffset | At(offset: nat)

  /** Where the last end-of-central-directory record says the directory starts. */
  function CentralDirectory(data: seq<Byte>): Offset {
    var eocd := LastIndexOf(data, EOCD_MAGIC);
    if eocd < 0 || eocd + EOCD_LENGTH > |data| then NoOffset
    else At(U32At(data, eocd + 16))
  }

  /** The bytes before the central directory end with the encoding of `pairs`. */
  ghost predicate EndsWithBlock(data: seq<Byte>, pairs: seq<Pair>) {
    CentralDirectory(data).At? && BlockBefore(data, CentralDirectory(data).offset, pairs)
  }

  ghost predicate BlockBefore(data: seq<Byte>, directory: nat, pairs: seq<Pair>) {
    && EncodableBlock(pairs)
    && |EncodeBlock(pairs)| <= directory <= |data|
    && data[directory - |EncodeBlock(pairs)|..directory] == EncodeBlock(pairs)
  }

  // ----------------------------------------------------------- scheme names

  function SchemeName(id: nat): string {
    if id == V2_ID then "v2"
    else if id == V3_ID then "v3"
    else if id == V31_ID then "v3.1"
    else "unknown"
  }

  predicate KnownScheme(id: nat) { id in {V2_ID, V3_ID, V31_ID} }

  /** The names of the known ids, each where its id first occurs. */
  function SchemesOf(pairs: seq<Pair>): seq<string> {
    if pairs == [] then []
    else
      var earlier := SchemesOf(pairs[..|pairs| - 1]);
      var id := pairs[|pairs| - 1].id;
      if KnownScheme(id) && SchemeName(id) !in earlier then earlier + [SchemeName(id)] else earlier
  }

  predicate FirstAt(pairs: seq<Pair>, name: string, i: nat)
    requires i < |pairs|
  {
    && KnownScheme(pairs[i].id) && SchemeName(pairs[i].id) == name
    && forall j :: 0 <= j < i && KnownScheme(pairs[j].id) ==> SchemeName(pairs[j].id) != name
  }

  /** Position of the first pair whose known id has this name, -1 if there is none. */
  function FirstIndex(pairs: seq<Pair>, name: string): (i: int)
    ensures -1 <= i < |pairs|
    ensures i >= 0 ==> FirstAt(pairs, name, i)
    ensures i == -1 ==> forall p <- pairs :: KnownScheme(p.id) ==> SchemeName(p.id) != name
  {
    if pairs == [] then -1
    else
      var earlier := FirstIndex(pairs[..|pairs| - 1], name);
      var last := pairs[|pairs| - 1];
      if earlier >= 0 then earlier
      else if KnownScheme(last.id) && SchemeName(last.id) == name then |pairs| - 1
      else -1
  }

  /** The reported tuple lists exactly the names present, once each, by first occurrence. */
  lemma {:induction false} SchemesInFirstOccurrenceOrder(pairs: seq<Pair>)
    ensures forall name :: name in SchemesOf(pairs) <==> FirstIndex(pairs, name) >= 0
    ensures forall i, j :: 0 <= i < j < |SchemesOf(pairs)| ==>
              FirstIndex(pairs, SchemesOf(pairs)[i]) < FirstIndex(pairs, SchemesOf(pairs)[j])
  {
    if pairs != [] {
      SchemesInFirstOccurrenceOrder(pairs[..|pairs| - 1]);
    }
  }

  lemma SchemesAppend(pairs: seq<Pair>, p: Pair)
    ensures SchemesOf(pairs + [p]) ==
            var earlier := SchemesOf(pairs);
            if KnownScheme(p.id) && SchemeName(p.id) !in earlier then earlier + [SchemeName(p.id)] else earlier
  {
    assert (pairs + [p])[..|pairs|] == pairs;
  }

  // ------------------------------------------------- encoding is a prefix code

  lemma {:induction false} EncodeAppend(pairs: seq<Pair>, p: Pair)
    ensures EncodePairs(pairs + [p]) == EncodePairs(pairs) + p.Encode()
  {
    if pairs == [] {
      assert EncodePairs([p]) == p.Encode() + EncodePairs([]);
    } else {
      EncodeAppend(pairs[1..], p);
      assert (pairs + [p])[1..] == pairs[1..] + [p];
    }
  }

  /** Two valid entries at the start of the same bytes are the same entry. */
  lemma SameFirstPair(p: Pair, pRest: seq<Byte>, q: Pair, qRest: seq<Byte>)
    requires p.Valid() && q.Valid()
    requires p.Encode() + pRest == q.Encode() + qRest
    ensures p == q && pRest == qRest
  {
    EntryFields(p, pRest);
    EntryFields(q, qRest);
    ThreeParts([], p.value, pRest);
    ThreeParts([], q.value, qRest);
    assert [] + p.value == p.value && [] + q.value == q.value;
  }

  lemma EntryFields(p: Pair, rest: seq<Byte>)
    requires p.Valid()
    ensures var bytes := p.Encode() + rest;
            U64At(bytes, 0) == 4 + |p.value| && U32At(bytes, 8) == p.id && bytes[12..] == p.value + rest
  {
    var size, id := ToLittleEndian(4 + |p.value|, 8), ToLittleEndian(p.id, 4);
    ThreeParts(size, id, p.value + rest);
    assert p.Encode() + rest == size + id + (p.value + rest);
    WordSizes();
    DecodeEncoded(4 + |p.value|, 8);
    DecodeEncoded(p.id, 4);
  }

  /** A parsed prefix is a prefix of every parse of the same bytes. */
  lemma {:induction false} ParsedPrefix(parsed: seq<Pair>, rest: seq<Byte>, pairs: seq<Pair>)
    requires AllValid(parsed) && AllValid(pairs)
    requires EncodePairs(parsed) + rest == EncodePairs(pairs)
    ensures parsed <= pairs && rest == EncodePairs(pairs[|parsed|..])
  {
    if parsed == [] {
      assert [] + rest == rest && pairs[0..] == pairs;
    } else {
      var inner := EncodePairs(parsed[1..]) + rest;
      assert EncodePairs(parsed) + rest == parsed[0].Encode() + inner;
      assert |EncodePairs(pairs)| > 0 && pairs != [];
      SameFirstPair(parsed[0], inner, pairs[0], EncodePairs(pairs[1..]));
      ParsedPrefix(parsed[1..], rest, pairs[1..]);
      assert pairs[1..][|parsed| - 1..] == pairs[|parsed|..];
    }
  }

  lemma {:induction false} EncodedLength(pairs: seq<Pair>)
    ensures |EncodePairs(pairs)| >= 12 * |pairs|
  {
    if pairs != [] { EncodedLength(pairs[1..]); }
  }

  /** The split of a region into entries is unique. */
  lemma EncodeInjective(p: seq<Pair>, q: seq<Pair>)
    requires AllValid(p) && AllValid(q)
    requires EncodePairs(p) == EncodePairs(q)
    ensures p == q
  {
    assert EncodePairs(p) + [] == EncodePairs(p);
    ParsedPrefix(p, [], q);
    EncodedLength(q[|p|..]);
  }

  // ------------------------------------------------------------ block layout

  datatype Region = NoRegion | Region(start: nat, limit: nat)

  /** The tests before the pair loop: where the entries of a block would lie.
      A stored size below 24 puts `start` past `limit`. */
  function SigningRegion(data: seq<Byte>): (r: Region)
    ensures r.Region? ==> r.limit <= |data| - 24
  {
    var directory := CentralDirectory(data);
    if directory.NoOffset? then NoRegion else RegionBefore(data, directory.offset)
  }

  predicate MagicBefore(data: seq<Byte>, directory: nat)
    requires 16 <= directory <= |data|
  {
    data[directory - 16..directory] == BLOCK_MAGIC
  }

  function RegionBefore(data: seq<Byte>, directory: nat): (r: Region)
    ensures r.Region? ==> r.limit + 24 == directory <= |data|
  {
    if directory < 32 || directory > |data| then NoRegion
    else if !MagicBefore(data, directory) then NoRegion
    else
      var blockSize := U64At(data, directory - 24);
      if directory < blockSize + 8 then NoRegion
      else if U64At(data, directory - blockSize - 8) != blockSize then NoRegion
      else Region(directory - blockSize, directory - 24)
  }

  ghost predicate SplitsInto(data: seq<Byte>, r: Region, pairs: seq<Pair>) {
    && r.Region? && r.start <= r.limit <= |data|
    && AllValid(pairs) && data[r.start..r.limit] == EncodePairs(pairs)
  }

  /** The header tests accept exactly the files that can end with a block, and
      leave exactly the bytes of its entries. */
  lemma BlockIffRegionSplits(data: seq<Byte>, pairs: seq<Pair>)
    ensures EndsWithBlock(data, pairs) <==> SplitsInto(data, SigningRegion(data), pairs)
  {
    if CentralDirectory(data).At? {
      var directory := CentralDirectory(data).offset;
      if BlockBefore(data, directory, pairs) {
        BlockToFields(data, directory, pairs);
      }
      if SplitsInto(data, RegionBefore(data, directory), pairs) {
        BlockFromFields(data, directory, pairs);
      }
    }
  }

  lemma BlockToFields(data: seq<Byte>, directory: nat, pairs: seq<Pair>)
    requires BlockBefore(data, directory, pairs)
    ensures SplitsInto(data, RegionBefore(data, directory), pairs)
  {
    BlockFieldsAt(data, directory, EncodePairs(pairs), BLOCK_MAGIC);
  }

  lemma BlockFieldsAt(data: seq<Byte>, directory: nat, region: seq<Byte>, magic: seq<Byte>)
    requires |region| + 24 < 0x1_0000_0000_0000_0000 && |magic| == 16
    requires |region| + 32 <= directory <= |data|
    requires data[directory - |region| - 32..directory] ==
             ToLittleEndian(|region| + 24, 8) + region + ToLittleEndian(|region| + 24, 8) + magic
    ensures data[directory - 16..directory] == magic
    ensures U64At(data, directory - 24) == U64At(data, directory - |region| - 32) == |region| + 24
    ensures data[directory - |region| - 24..directory - 24] == region
  {
    FieldsOfBlock(data, directory, ToLittleEndian(|region| + 24, 8), region, magic);
    WordSizes();
    DecodeEncoded(|region| + 24, 8);
  }

  lemma FieldsOfBlock(data: seq<Byte>, directory: nat, word: seq<Byte>, region: seq<Byte>, magic: seq<Byte>)
    requires |word| == 8 && |magic| == 16 && |region| + 32 <= directory <= |data|
    requires data[directory - |region| - 32..directory] == word + region + word + magic
    ensures data[directory - |region| - 32..directory - |region| - 24] == word
    ensures data[directory - |region| - 24..directory - 24] == region
    ensures data[directory - 24..directory - 16] == word
    ensures data[directory - 16..directory] == magic
  {
    var start := directory - |region| - 32;
    ThreeParts(word, region, word + magic);
    ThreeParts(word + region, word, magic);
    assert word + region + word + magic == word + region + (word + magic);
    SliceOfSlice(data, start, directory, 0, 8);
    SliceOfSlice(data, start, directory, 8, 8 + |region|);
    SliceOfSlice(data, start, directory, 8 + |region|, 16 + |region|);
    SliceOfSlice(data, start, directory, 16 + |region|, 32 + |region|);
  }

  lemma BlockFromFields(data: seq<Byte>, directory: nat, pairs: seq<Pair>)
    requires SplitsInto(data, RegionBefore(data, directory), pairs)
    ensures BlockBefore(data, directory, pairs)
  {
    var r := RegionBefore(data, directory);
    var start := r.start - 8;
    assert directory - r.start == U64At(data, directory - 24) == BlockSize(pairs);
    EncodeDecoded(data[start..start + 8]);
    EncodeDecoded(data[directory - 24..directory - 16]);
    JoinFour(data, start, directory);
  }

  /** A block is its two size fields, the entries between them and the magic. */
  lemma JoinFour(data: seq<Byte>, start: nat, directory: nat)
    requires start + 32 <= directory <= |data|
    ensures data[start..directory] ==
            data[start..start + 8] + data[start + 8..directory - 24] + data[directory - 24..directory - 16]
            + data[directory - 16..directory]
  {
    JoinSlices(data, start, start + 8, directory - 24);
    JoinSlices(data, start, directory - 24, directory - 16);
    JoinSlices(data, start, directory - 16, directory);
  }

  /** A file determines its entries. */
  lemma BlockUnique(data: seq<Byte>, p: seq<Pair>, q: seq<Pair>)
    requires EndsWithBlock(data, p) && EndsWithBlock(data, q)
    ensures p == q
  {
    BlockIffRegionSplits(data, p);
    BlockIffRegionSplits(data, q);
    EncodeInjective(p, q);
  }

  // ---------------------------------------------------------------- scanner

  /** What the scanner reports, by the grammar alone. */
  ghost function DetectedSchemes(data: seq<Byte>): seq<string> {
    if exists pairs :: EndsWithBlock(data, pairs)
    then var pairs :| EndsWithBlock(data, pairs); SchemesOf(pairs)
    else []
  }

  lemma DetectedIs(data: seq<Byte>, pairs: seq<Pair>)
    requires EndsWithBlock(data, pairs)
    ensures DetectedSchemes(data) == SchemesOf(pairs)
  {
    var chosen :| EndsWithBlock(data, chosen) && DetectedSchemes(data) == SchemesOf(chosen);
    BlockUnique(data, pairs, chosen);
  }

  /** The bytes at `at` do not start an entry that ends by `limit`. */
  predicate Stuck(data: seq<Byte>, at: nat, limit: nat)
    requires at < limit <= |data| - 8
  {
    at + 12 > limit || U64At(data, at) < 4 || at + 8 + U64At(data, at) > limit
  }

  lemma StuckIsNoEntry(data: seq<Byte>, at: nat, limit: nat, next: Pair, tail: seq<Byte>)
    requires at < limit <= |data| - 8 && next.Valid()
    requires data[at..limit] == next.Encode() + tail
    ensures !Stuck(data, at, limit)
  {
    EntryFields(next, tail);
    SliceOfSlice(data, at, limit, 0, 8);
  }

  /** The next entry cannot be read, so no split of the whole region exists. */
  lemma StuckParse(data: seq<Byte>, parsed: seq<Pair>, start: nat, at: nat, limit: nat)
    requires limit <= |data| - 8 && start <= at < limit
    requires AllValid(parsed) && data[start..at] == EncodePairs(parsed)
    requires Stuck(data, at, limit)
    ensures forall pairs :: AllValid(pairs) ==> data[start..limit] != EncodePairs(pairs)
  {
    forall pairs | AllValid(pairs) && data[start..limit] == EncodePairs(pairs) ensures false {
      JoinSlices(data, start, at, limit);
      ParsedPrefix(parsed, data[at..limit], pairs);
      var next := pairs[|parsed|..];
      assert next != [] && next[0] in pairs;
      StuckIsNoEntry(data, at, limit, next[0], EncodePairs(next[1..]));
    }
  }

  lemma PairFromFields(sizeField: seq<Byte>, idField: seq<Byte>, value: seq<Byte>)
    requires |sizeField| == 8 && |idField| == 4 && FromLittleEndian(sizeField) == |value| + 4
    ensures var p := Pair(FromLittleEndian(idField), value);
            p.Valid() && p.Encode() == sizeField + idField + value
  {
    WordSizes();
    EncodeDecoded(sizeField);
    EncodeDecoded(idField);
  }

  /** Reading one entry at `at` extends the parse by exactly that entry. */
  lemma ReadPair(data: seq<Byte>, start: nat, at: nat, parsed: seq<Pair>, size: nat) returns (p: Pair)
    requires start <= at && at + 8 + size <= |data| && size >= 4
    requires size == U64At(data, at)
    requires data[start..at] == EncodePairs(parsed)
    ensures p.Valid() && p.id == U32At(data, at + 8)
    ensures data[start..at + 8 + size] == EncodePairs(parsed + [p])
  {
    var end := at + 8 + size;
    p := Pair(U32At(data, at + 8), data[at + 12..end]);
    PairFromFields(data[at..at + 8], data[at + 8..at + 12], data[at + 12..end]);
    EncodeAppend(parsed, p);
    JoinSlices(data, at, at + 8, at + 12);
    JoinSlices(data, at, at + 12, end);
    JoinSlices(data, start, at, end);
  }

  /** The pair loop: a complete split of the region with its schemes, or nothing. */
  method WalkPairs(data: seq<Byte>, start: nat, pairLimit: nat)
    returns (complete: bool, schemes: seq<string>, ghost parsed: seq<Pair>)
    requires pairLimit <= |data| - 8
    ensures start > pairLimit ==> schemes == []
    ensures start <= pairLimit && complete ==>
              AllValid(parsed) && data[start..pairLimit] == EncodePairs(parsed) && schemes == SchemesOf(parsed)
    ensures start <= pairLimit && !complete ==>
              schemes == [] && forall pairs :: AllValid(pairs) ==> data[start..pairLimit] != EncodePairs(pairs)
  {
    schemes, parsed := [], [];
    var pairOffset := start;
    while pairOffset < pairLimit
      invariant start <= pairOffset && (start <= pairLimit ==> pairOffset <= pairLimit)
      invariant start > pairLimit ==> schemes == []
      invariant start <= pairLimit ==> AllValid(parsed) && data[start..pairOffset] == EncodePairs(parsed)
      invariant start <= pairLimit ==> schemes == SchemesOf(parsed)
      decreases pairLimit - pairOffset
    {
      if pairOffset + 12 > pairLimit {
        StuckParse(data, parsed, start, pairOffset, pairLimit);
        return false, [], parsed;
      }
      var pairSize := U64At(data, pairOffset);
      var pairEnd := pairOffset + 8 + pairSize;
      if pairSize < 4 || pairEnd > pairLimit {
        StuckParse(data, parsed, start, pairOffset, pairLimit);
        return false, [], parsed;
      }
      var signatureId := U32At(data, pairOffset + 8);
      ghost var p := ReadPair(data, start, pairOffset, parsed, pairSize);
      SchemesAppend(parsed, p);
      if KnownScheme(signatureId) {
        var name := SchemeName(signatureId);
        if name !in schemes { schemes := schemes + [name]; }
      }
      parsed := parsed + [p];
      pairOffset := pairEnd;
    }
    complete := true;
  }

  /** The scanner. All index reads are in bounds and the walk ends. */
  method DetectSignatureSchemes(data: seq<Byte>) returns (schemes: seq<string>)
    ensures schemes == DetectedSchemes(data)
    ensures forall pairs :: EndsWithBlock(data, pairs) ==> schemes == SchemesOf(pairs)
    ensures (forall pairs :: !EndsWithBlock(data, pairs)) ==> schemes == []
  {
    forall pairs ensures EndsWithBlock(data, pairs) <==> SplitsInto(data, SigningRegion(data), pairs) {
      BlockIffRegionSplits(data, pairs);
    }
    var region := SigningRegion(data);
    if region.NoRegion? { return []; }
    var complete, names, parsed := WalkPairs(data, region.start, region.limit);
    if region.start <= region.limit && complete {
      DetectedIs(data, parsed);
      forall pairs | EndsWithBlock(data, pairs) ensures pairs == parsed { BlockUnique(data, pairs, parsed); }
    }
    schemes := names;
  }

  // -------------------------------------------------------------- round trip

  /** A ZIP with a signing block: `fields` are the twelve bytes of the end record
      before the directory offset, `tail` its comment length and comment. */
  function EncodeEndRecord(offset: nat, fields: seq<Byte>, tail: seq<Byte>): seq<Byte> {
    EOCD_MAGIC + fields + ToLittleEndian(offset, 4) + tail
  }

  function EncodeApk(prefix: seq<Byte>, pairs: seq<Pair>, directory: seq<Byte>,
                     fields: seq<Byte>, tail: seq<Byte>): seq<Byte>
  {
    var head := prefix + EncodeBlock(pairs);
    head + directory + EncodeEndRecord(|head|, fields, tail)
  }

  /** Scanning an encoded APK gives back exactly the schemes that were put in,
      if the magic does not come back inside the end record or its comment. */
  lemma ScanEncodedApk(prefix: seq<Byte>, pairs: seq<Pair>, directory: seq<Byte>,
                       fields: seq<Byte>, tail: seq<Byte>)
    requires EncodableBlock(pairs) && |fields| == 12 && |tail| >= 2
    requires |prefix + EncodeBlock(pairs)| < 0x1_0000_0000
    requires forall i :: i > 0 ==>
               !OccursAt(EncodeEndRecord(|prefix + EncodeBlock(pairs)|, fields, tail), EOCD_MAGIC, i)
    ensures EndsWithBlock(EncodeApk(prefix, pairs, directory, fields, tail), pairs)
    ensures DetectedSchemes(EncodeApk(prefix, pairs, directory, fields, tail)) == SchemesOf(pairs)
  {
    var head := prefix + EncodeBlock(pairs);
    var record := EncodeEndRecord(|head|, fields, tail);
    var data := EncodeApk(prefix, pairs, directory, fields, tail);
    assert data == head + directory + record;
    DirectoryOfEndRecord(head + directory, |head|, fields, tail);
    BlockAfterPrefix(prefix, pairs, directory + record);
    assert data == head + (directory + record);
    hide EncodeBlock, EncodeEndRecord, CentralDirectory, BlockBefore, EncodeApk;
    DetectedIs(data, pairs);
  }

  lemma BlockAfterPrefix(prefix: seq<Byte>, pairs: seq<Pair>, rest: seq<Byte>)
    requires EncodableBlock(pairs)
    ensures var head := prefix + EncodeBlock(pairs); BlockBefore(head + rest, |head|, pairs)
  {
    ThreeParts(prefix, EncodeBlock(pairs), rest);
    hide EncodeBlock;
  }

  lemma DirectoryOfEndRecord(before: seq<Byte>, offset: nat, fields: seq<Byte>, tail: seq<Byte>)
    requires offset < 0x1_0000_0000 && |fields| == 12 && |tail| >= 2
    requires forall i :: i > 0 ==> !OccursAt(EncodeEndRecord(offset, fields, tail), EOCD_MAGIC, i)
    ensures CentralDirectory(before + EncodeEndRecord(offset, fields, tail)) == At(offset)
  {
    var record := EncodeEndRecord(offset, fields, tail);
    var data := before + record;
    assert record[0..4] == EOCD_MAGIC;
    LastIndexInSuffix(before, record, EOCD_MAGIC);
    ThreeParts(before + EOCD_MAGIC + fields, ToLittleEndian(offset, 4), tail);
    assert data == before + EOCD_MAGIC + fields + ToLittleEndian(offset, 4) + tail;
    WordSizes();
    DecodeEncoded(offset, 4);
  }
}
