/** When a staging group counts as archived: verifyArchiveStagingGroup and the two
    size readers of plugins/archive_lifecycle.go. */
module ArchiveProof {
  import opened Common
  import opened Bytes
  import opened Paths

  // ---------------------------------------------------------------- zstd frame header

  const ZSTD_MAGIC := 0xFD2FB528
  const PLAUSIBLE := 0x4000_0000_0000_0000

  /** Frame_Header of RFC 8878 section 3.1.1.1, after the magic number. other holds the
      unused, reserved and checksum bits; size is Frame_Content_Size where present. */
  datatype FrameHeader = FrameHeader(sizeFlag: nat, single: bool, other: nat, dictFlag: nat,
                                     window: Byte, dictionary: seq<Byte>, size: nat)

  function SizeWidth(sizeFlag: nat, single: bool): nat {
    match sizeFlag
    case 0 => if single then 1 else 0
    case 1 => 2
    case 2 => 4
    case _ => 8
  }

  function DictionaryWidth(dictFlag: nat): nat {
    if dictFlag == 3 then 4 else dictFlag
  }

  /** The two-byte form stores the size less 256. */
  function SizeBias(width: nat): nat {
    if width == 2 then 256 else 0
  }

  predicate ValidHeader(h: FrameHeader) {
    var width := SizeWidth(h.sizeFlag, h.single);
    && h.sizeFlag < 4 && h.dictFlag < 4 && h.other < 8
    && |h.dictionary| == DictionaryWidth(h.dictFlag)
    && (h.single ==> h.window == 0)
    && SizeBias(width) <= h.size < SizeBias(width) + Power256(width)
  }

  function Descriptor(h: FrameHeader): Byte
    requires ValidHeader(h)
  {
    64 * h.sizeFlag + (if h.single then 32 else 0) + 4 * h.other + h.dictFlag
  }

  function EncodeHeader(h: FrameHeader): seq<Byte>
    requires ValidHeader(h)
  {
    var width := SizeWidth(h.sizeFlag, h.single);
    LittleEndian(ZSTD_MAGIC, 4) + [Descriptor(h)] + (if h.single then [] else [h.window])
    + h.dictionary + LittleEndian(h.size - SizeBias(width), width)
  }

  /** What a header lets its reader conclude about the size of the content. */
  function Declares(h: FrameHeader): Option<nat> {
    if SizeWidth(h.sizeFlag, h.single) == 0 || h.size > PLAUSIBLE then None else Some(h.size)
  }

  /** A file opens with this header. */
  predicate OpensWith(data: seq<Byte>, h: FrameHeader) {
    ValidHeader(h) && EncodeHeader(h) <= data
  }

  ghost predicate ZstdDeclares(data: seq<Byte>, size: nat) {
    exists h :: OpensWith(data, h) && Declares(h) == Some(size)
  }

  /** Reads no more than the first 18 bytes, and gets every header right whatever
      follows it; nothing else is taken for a size. */
  method ZstdDeclaredSize(data: seq<Byte>) returns (r: Option<nat>)
    ensures forall h :: OpensWith(data, h) ==> r == Declares(h)
    ensures r.Some? ==> ZstdDeclares(data, r.value)
  {
    var header := data[..Min(18, |data|)];
    forall h | OpensWith(data, h)
      ensures OpensWith(header, h)
    {
      assert |EncodeHeader(h)| <= 18;
    }
    if |header| < 5 || FromLittleEndian(header[..4]) != ZSTD_MAGIC {
      forall h | OpensWith(header, h)
        ensures false
      {
        HeaderFields(header, h);
      }
      return None;
    }
    var descriptor := header[4];
    var sizeFlag, single, dictFlag := descriptor / 64, descriptor / 32 % 2 != 0, descriptor % 4;
    var width := SizeWidth(sizeFlag, single);
    forall h | OpensWith(header, h)
      ensures h.sizeFlag == sizeFlag && h.single == single && h.dictFlag == dictFlag
    {
      HeaderFields(header, h);
    }
    if width == 0 {
      return None;
    }
    var offset := 5;
    if !single {
      offset := offset + 1;
    }
    offset := offset + DictionaryWidth(dictFlag);
    if |header| < offset + width {
      forall h | OpensWith(header, h)
        ensures false
      {
        HeaderFields(header, h);
      }
      return None;
    }
    var value := FromLittleEndian(header[offset..offset + width]) + SizeBias(width);
    forall h | OpensWith(header, h)
      ensures h.size == value
    {
      HeaderFields(header, h);
    }
    r := if value > PLAUSIBLE then None else Some(value);
    ghost var found := HeaderAt(header);
    assert OpensWith(data, found);
  }

  /** Where the fields of a header are. */
  lemma HeaderFields(data: seq<Byte>, h: FrameHeader)
    requires OpensWith(data, h)
    ensures |data| >= 5 && FromLittleEndian(data[..4]) == ZSTD_MAGIC
    ensures data[4] / 64 == h.sizeFlag && (data[4] / 32 % 2 != 0) == h.single && data[4] % 4 == h.dictFlag
    ensures SizeField(data).Some? && h.size == SizeField(data).value
  {
    HeaderLayout(data, h);
    MagicReads();
    var width := SizeWidth(h.sizeFlag, h.single);
    DescriptorBits(h.sizeFlag, if h.single then 1 else 0, h.other, h.dictFlag, data[4]);
    LittleEndianRoundTrip(h.size - SizeBias(width), width);
  }

  lemma HeaderLayout(data: seq<Byte>, h: FrameHeader)
    requires OpensWith(data, h)
    ensures |data| >= 5 && data[..4] == LittleEndian(ZSTD_MAGIC, 4) && data[4] == Descriptor(h)
    ensures var width := SizeWidth(h.sizeFlag, h.single);
      var offset := 5 + (if h.single then 0 else 1) + |h.dictionary|;
      |data| >= offset + width && data[offset..offset + width] == LittleEndian(h.size - SizeBias(width), width)
  {
    var width := SizeWidth(h.sizeFlag, h.single);
    var field := LittleEndian(h.size - SizeBias(width), width);
    Layout(LittleEndian(ZSTD_MAGIC, 4), Descriptor(h), if h.single then [] else [h.window], h.dictionary, field, data);
  }

  lemma DescriptorBits(sizeFlag: nat, single: nat, other: nat, dictFlag: nat, d: nat)
    requires single < 2 && other < 8 && dictFlag < 4
    requires d == 64 * sizeFlag + 32 * single + 4 * other + dictFlag
    ensures sizeFlag == d / 64 && single == d / 32 % 2 && other == d / 4 % 8 && dictFlag == d % 4
  {
    assert d / 4 == 16 * sizeFlag + 8 * single + other;
    assert d / 32 == 2 * sizeFlag + single;
  }

  lemma DescriptorFromBits(d: nat)
    ensures d == 64 * (d / 64) + 32 * (d / 32 % 2) + 4 * (d / 4 % 8) + d % 4
  {
    assert d / 4 == 8 * (d / 32) + d / 4 % 8;
    assert d / 32 == 2 * (d / 64) + d / 32 % 2;
  }

  lemma Layout(magic: seq<Byte>, d: Byte, window: seq<Byte>, dictionary: seq<Byte>, field: seq<Byte>, data: seq<Byte>)
    requires |magic| == 4 && magic + [d] + window + dictionary + field <= data
    ensures data[..4] == magic && data[4] == d
    ensures var offset := 5 + |window| + |dictionary|; data[offset..offset + |field|] == field
  {
    var e := magic + [d] + window + dictionary + field;
    assert data[..4] == e[..4];
    var offset := 5 + |window| + |dictionary|;
    assert data[offset..offset + |field|] == e[offset..];
  }

  /** The size a header at the start of data would carry, if data is long enough. */
  function SizeField(data: seq<Byte>): Option<nat>
    requires |data| >= 5
  {
    var single := data[4] / 32 % 2 != 0;
    var width := SizeWidth(data[4] / 64, single);
    var offset := 5 + (if single then 0 else 1) + DictionaryWidth(data[4] % 4);
    if |data| < offset + width then None
    else Some(FromLittleEndian(data[offset..offset + width]) + SizeBias(width))
  }

  lemma MagicReads()
    ensures FromLittleEndian(LittleEndian(ZSTD_MAGIC, 4)) == ZSTD_MAGIC
  {
    assert Power256(4) == 256 * (256 * (256 * Power256(1)));
    LittleEndianRoundTrip(ZSTD_MAGIC, 4);
  }

  function HeaderIn(data: seq<Byte>): FrameHeader
    requires |data| >= 5 && SizeField(data).Some?
  {
    var single := data[4] / 32 % 2 != 0;
    var start := if single then 5 else 6;
    FrameHeader(data[4] / 64, single, data[4] / 4 % 8, data[4] % 4, if single then 0 else data[5],
                data[start..start + DictionaryWidth(data[4] % 4)], SizeField(data).value)
  }

  lemma HeaderInIsValid(data: seq<Byte>)
    requires |data| >= 5 && SizeField(data).Some?
    ensures ValidHeader(HeaderIn(data)) && Descriptor(HeaderIn(data)) == data[4]
  {
    var h := HeaderIn(data);
    var width := SizeWidth(h.sizeFlag, h.single);
    var offset := 5 + (if h.single then 0 else 1) + |h.dictionary|;
    FromLittleEndianRoundTrip(data[offset..offset + width]);
    DescriptorFromBits(data[4]);
  }

  /** Bytes that read like a header are the encoding of one. */
  lemma HeaderAt(data: seq<Byte>) returns (h: FrameHeader)
    requires |data| >= 5 && FromLittleEndian(data[..4]) == ZSTD_MAGIC && SizeField(data).Some?
    ensures OpensWith(data, h)
  {
    h := HeaderIn(data);
    HeaderInIsValid(data);
    var start := if h.single then 5 else 6;
    var offset, width := start + |h.dictionary|, SizeWidth(h.sizeFlag, h.single);
    FromLittleEndianRoundTrip(data[..4]);
    FromLittleEndianRoundTrip(data[offset..offset + width]);
    Assembled(data, start, offset, offset + width);
    EncodedFrom(h, data[..4], data[4], data[5..start], data[offset..offset + width]);
  }

  lemma EncodedFrom(h: FrameHeader, magic: seq<Byte>, d: Byte, window: seq<Byte>, field: seq<Byte>)
    requires ValidHeader(h) && magic == LittleEndian(ZSTD_MAGIC, 4) && d == Descriptor(h)
    requires window == if h.single then [] else [h.window]
    requires var width := SizeWidth(h.sizeFlag, h.single); field == LittleEndian(h.size - SizeBias(width), width)
    ensures EncodeHeader(h) == magic + [d] + window + h.dictionary + field
  {
  }

  lemma Assembled(data: seq<Byte>, start: nat, offset: nat, end: nat)
    requires 5 <= start <= offset <= end <= |data|
    ensures data[..4] + [data[4]] + data[5..start] + data[start..offset] + data[offset..end] <= data
  {
    assert data[..4] + [data[4]] + data[5..start] + data[start..offset] + data[offset..end] == data[..end];
  }

  // ------------------------------------------------------------------- gzip trailer

  const FOUR_GIB := 0x1_0000_0000

  /** A gzip member of n content bytes: the magic, and ISIZE of RFC 1952 section 2.3.1,
      n modulo 2^32, at the end. */
  predicate GzipMember(data: seq<Byte>, n: nat) {
    && |data| >= 18 && data[..2] == [0x1f, 0x8b]
    && data[|data| - 4..] == LittleEndian(n % FOUR_GIB, 4)
  }

  lemma TrailerReads(trailer: seq<Byte>, n: nat)
    requires |trailer| == 4
    ensures FromLittleEndian(trailer) < FOUR_GIB
    ensures trailer == LittleEndian(n % FOUR_GIB, 4) <==> FromLittleEndian(trailer) == n % FOUR_GIB
  {
    assert Power256(4) == 256 * (256 * (256 * Power256(1)));
    FromLittleEndianRoundTrip(trailer);
    LittleEndianRoundTrip(n % FOUR_GIB, 4);
  }

  method GzipDeclaredSize(data: seq<Byte>, stagingSize: nat) returns (r: Option<nat>)
    ensures forall n: nat :: GzipMember(data, n) ==> r == if stagingSize < FOUR_GIB then Some(n % FOUR_GIB) else None
    ensures r.Some? ==> r.value < FOUR_GIB && GzipMember(data, r.value)
  {
    if stagingSize >= FOUR_GIB || |data| < 18 {
      return None;
    }
    if data[0] != 0x1f || data[1] != 0x8b {
      return None;
    }
    var trailer := data[|data| - 4..];
    r := Some(FromLittleEndian(trailer));
    TrailerReads(trailer, r.value);
    forall n: nat | GzipMember(data, n)
      ensures r == Some(n % FOUR_GIB)
    {
      TrailerReads(trailer, n);
    }
  }

  // -------------------------------------------------------------------- counterparts

  /** What a path holds, if anything. readable covers every failure to open or read. */
  datatype File = Regular(data: seq<Byte>, readable: bool) | Special | StatFails

  type Files = map<string, File>

  /** The first of the plain, .gz and .zst names that exists decides, alone. */
  ghost predicate Proves(files: Files, counterpart: string, size: nat) {
    if counterpart in files then
      files[counterpart].Regular? && |files[counterpart].data| == size
    else if counterpart + ".gz" in files then
      var file := files[counterpart + ".gz"];
      file.Regular? && file.readable && size < FOUR_GIB && GzipMember(file.data, size)
    else
      && counterpart + ".zst" in files
      && var file := files[counterpart + ".zst"];
        file.Regular? && file.readable && ZstdDeclares(file.data, size)
  }

  method CounterpartProvesSize(files: Files, counterpart: string, size: nat) returns (ok: bool)
    ensures ok <==> Proves(files, counterpart, size)
  {
    if counterpart in files {
      match files[counterpart]
      case Regular(data, _) => return |data| == size;
      case _ => return false;
    }
    var compressed := counterpart + ".gz";
    if compressed in files {
      if !files[compressed].Regular? || !files[compressed].readable {
        return false;
      }
      var declared := GzipDeclaredSize(files[compressed].data, size);
      return declared == Some(size);
    }
    compressed := counterpart + ".zst";
    if compressed !in files || !files[compressed].Regular? || !files[compressed].readable {
      return false;
    }
    var declared := ZstdDeclaredSize(files[compressed].data);
    return declared == Some(size);
  }

  lemma SizesOfMember(data: seq<Byte>, size: nat, content: nat)
    requires GzipMember(data, content)
    ensures size < FOUR_GIB && GzipMember(data, size) <==> content % FOUR_GIB == size
  {
    TrailerReads(data[|data| - 4..], content);
    TrailerReads(data[|data| - 4..], size);
  }

  /** A gzip counterpart proves the size only modulo 2^32: it passes exactly when its
      content is the staging file's length, or longer by a multiple of 4 GiB. */
  lemma GzipProvesModulo(files: Files, counterpart: string, size: nat, content: nat)
    requires counterpart !in files && counterpart + ".gz" in files
    requires files[counterpart + ".gz"].Regular? && files[counterpart + ".gz"].readable
    requires GzipMember(files[counterpart + ".gz"].data, content)
    ensures Proves(files, counterpart, size) <==> content % FOUR_GIB == size
  {
    SizesOfMember(files[counterpart + ".gz"].data, size, content);
  }

  // ---------------------------------------------------------------------- the group

  datatype Info = Info(directory: bool, regular: bool, size: nat, modTime: Time)

  /** One callback of the walk: whether the context was done, and what was found. */
  datatype Visit = Visit(path: seq<string>, cancelled: bool, info: Option<Info>)

  datatype Verdict = Verdict(verified: bool, fileCount: nat, verifiedCount: nat, bytes: nat, newest: Time)

  predicate IsFile(v: Visit) {
    v.info.Some? && !v.info.value.directory
  }

  ghost predicate FileArchived(files: Files, source: seq<string>, target: seq<string>, v: Visit)
    requires source <= v.path
  {
    && IsFile(v) && v.info.value.regular
    && Proves(files, Render(target + v.path[|source|..]), v.info.value.size)
  }

  function FilesSeen(visits: seq<Visit>): nat {
    if visits == [] then 0
    else FilesSeen(visits[..|visits| - 1]) + if IsFile(visits[|visits| - 1]) then 1 else 0
  }

  function BytesSeen(visits: seq<Visit>): nat {
    if visits == [] then 0
    else
      var last := visits[|visits| - 1];
      BytesSeen(visits[..|visits| - 1]) + if IsFile(last) then last.info.value.size else 0
  }

  function NewestSeen(visits: seq<Visit>): Time {
    if visits == [] then ZERO_TIME
    else
      var last := visits[|visits| - 1];
      if IsFile(last) then Max(NewestSeen(visits[..|visits| - 1]), last.info.value.modTime)
      else NewestSeen(visits[..|visits| - 1])
  }

  lemma {:induction false} RelBelow(base: seq<string>, path: seq<string>)
    requires base <= path
    ensures Rel(base, path) == path[|base|..]
  {
    if base != [] {
      RelBelow(base[1..], path[1..]);
    } else {
      assert seq(0, _ => "..") + path == path;
    }
  }

  /** A visit that keeps the group from being verified. */
  ghost predicate Blocks(files: Files, source: seq<string>, target: seq<string>, v: Visit)
    requires source <= v.path
  {
    v.info.None? || (IsFile(v) && !FileArchived(files, source, target, v))
  }

  /** No visit was cancelled, none blocks. */
  ghost predicate Clear(files: Files, source: seq<string>, target: seq<string>, visits: seq<Visit>)
    requires forall k :: 0 <= k < |visits| ==> source <= visits[k].path
  {
    visits != [] ==>
      var last := visits[|visits| - 1];
      Clear(files, source, target, visits[..|visits| - 1]) && !last.cancelled && !Blocks(files, source, target, last)
  }

  lemma {:induction false} ClearIsAll(files: Files, source: seq<string>, target: seq<string>, visits: seq<Visit>)
    requires forall k :: 0 <= k < |visits| ==> source <= visits[k].path
    ensures Clear(files, source, target, visits)
       <==> forall k :: 0 <= k < |visits| ==> !visits[k].cancelled && !Blocks(files, source, target, visits[k])
  {
    if visits != [] {
      ClearIsAll(files, source, target, visits[..|visits| - 1]);
    }
  }

  lemma {:induction false} SeenIsSome(visits: seq<Visit>)
    ensures FilesSeen(visits) > 0 <==> exists k :: 0 <= k < |visits| && IsFile(visits[k])
  {
    if visits != [] {
      SeenIsSome(visits[..|visits| - 1]);
    }
  }

  function Counted(verdict: Verdict, v: Visit, archived: bool): Verdict {
    if IsFile(v) then
      verdict.(fileCount := verdict.fileCount + 1, bytes := verdict.bytes + v.info.value.size,
               newest := Max(verdict.newest, v.info.value.modTime),
               verifiedCount := verdict.verifiedCount + if archived then 1 else 0)
    else verdict
  }

  /** One callback that was not cancelled. */
  method VisitEntry(source: seq<string>, target: seq<string>, group: seq<string>, files: Files, v: Visit, verdict: Verdict)
    returns (next: Verdict, blocked: bool)
    requires source <= group <= v.path
    ensures blocked <==> Blocks(files, source, target, v)
    ensures next == Counted(verdict, v, !blocked)
  {
    if v.info.None? {
      return verdict, true;
    }
    var info := v.info.value;
    if info.directory {
      return verdict, false;
    }
    next := verdict.(fileCount := verdict.fileCount + 1, bytes := verdict.bytes + info.size,
                     newest := Max(verdict.newest, info.modTime));
    if !info.regular {
      return next, true;
    }
    RelBelow(source, group);
    RelBelow(group, v.path);
    assert target + Rel(source, group) + Rel(group, v.path) == target + v.path[|source|..];
    var ok := CounterpartProvesSize(files, Render(target + Rel(source, group) + Rel(group, v.path)), info.size);
    if !ok {
      return next, true;
    }
    return next.(verifiedCount := next.verifiedCount + 1), false;
  }

  /** The callbacks of one walk, in order. */
  method WalkGroup(source: seq<string>, target: seq<string>, group: seq<string>, files: Files, visits: seq<Visit>)
    returns (verdict: Verdict)
    requires source <= group
    requires forall k :: 0 <= k < |visits| ==> source <= group <= visits[k].path
    ensures verdict.verified <==> FilesSeen(visits) > 0 && Clear(files, source, target, visits)
    ensures verdict.verified ==>
              verdict == Verdict(true, FilesSeen(visits), FilesSeen(visits), BytesSeen(visits), NewestSeen(visits))
  {
    verdict := Verdict(false, 0, 0, 0, ZERO_TIME);
    var failed, i := false, 0;
    while i < |visits| && !visits[i].cancelled
      invariant i <= |visits|
      invariant !verdict.verified
      invariant verdict.fileCount == FilesSeen(visits[..i]) && verdict.verifiedCount <= verdict.fileCount
      invariant verdict.bytes == BytesSeen(visits[..i]) && verdict.newest == NewestSeen(visits[..i])
      invariant !failed ==> verdict.verifiedCount == verdict.fileCount
      invariant failed <==> !Clear(files, source, target, visits[..i])
    {
      assert visits[..i + 1][..i] == visits[..i];
      var blocked;
      verdict, blocked := VisitEntry(source, target, group, files, visits[i], verdict);
      failed := failed || blocked;
      i := i + 1;
    }
    if i < |visits| {
      ClearIsAll(files, source, target, visits);
      return;
    }
    assert visits[..i] == visits;
    if verdict.fileCount == 0 || failed || verdict.verifiedCount != verdict.fileCount {
      return;
    }
    verdict := verdict.(verified := true);
  }

  /** A group is verified exactly when it lies in the staging dir, its target is a
      directory, the walk met no error and no cancellation, and it met at least one file,
      every file being regular with a counterpart, at the same relative place, that
      proves its size. */
  method VerifyGroup(source: seq<string>, target: seq<string>, group: seq<string>, targetGroupIsDir: bool,
                     files: Files, visits: seq<Visit>)
    returns (verdict: Verdict)
    requires ValidComponents(source) && ValidComponents(group)
    requires forall k :: 0 <= k < |visits| ==> group <= visits[k].path
    ensures verdict.verified
       <==> && source <= group && targetGroupIsDir
            && (exists k :: 0 <= k < |visits| && IsFile(visits[k]))
            && (forall k :: 0 <= k < |visits| ==>
                  !visits[k].cancelled && visits[k].info.Some?
                  && (IsFile(visits[k]) ==> FileArchived(files, source, target, visits[k])))
    ensures verdict.verified ==>
              verdict == Verdict(true, FilesSeen(visits), FilesSeen(visits), BytesSeen(visits), NewestSeen(visits))
  {
    verdict := Verdict(false, 0, 0, 0, ZERO_TIME);
    var rel := Rel(source, group);
    InsideRootIsUnder(group, source);
    if (rel != [] && rel[0] == "..") || !targetGroupIsDir {
      return;
    }
    verdict := WalkGroup(source, target, group, files, visits);
    ClearIsAll(files, source, target, visits);
    SeenIsSome(visits);
  }

  // ------------------------------------------------------------- the formats, byte by byte

  const MAGIC_BYTES: seq<Byte> := [0x28, 0xB5, 0x2F, 0xFD]

  lemma MagicIs()
    ensures FromLittleEndian(MAGIC_BYTES) == ZSTD_MAGIC
  {
    assert MAGIC_BYTES[1..] == [0xB5, 0x2F, 0xFD] && [0xB5, 0x2F, 0xFD][1..] == [0x2F, 0xFD];
    assert [0x2F, 0xFD][1..] == [0xFD] && [0xFD][1..] == [];
  }

  lemma Small(field: seq<Byte>)
    ensures |field| == 1 ==> FromLittleEndian(field) == field[0]
    ensures |field| == 2 ==> FromLittleEndian(field) == (field[0] as int) + 256 * (field[1] as int)
    ensures |field| == 4 ==>
              FromLittleEndian(field) == (field[0] as int) + 256 * (field[1] as int) + 65536 * (field[2] as int) + 16777216 * (field[3] as int)
  {
    if |field| == 2 {
      assert field[1..][1..] == [];
    } else if |field| == 4 {
      Small(field[2..]);
      assert field[1..][1..] == field[2..];
    }
  }

  /** A frame that opens with these bytes: the magic, a descriptor, what stands before the size
      field, and the field. */
  function Frame(descriptor: Byte, between: seq<Byte>, field: seq<Byte>, rest: seq<Byte>): seq<Byte> {
    MAGIC_BYTES + [descriptor] + between + field + rest
  }

  lemma FrameSize(descriptor: Byte, between: seq<Byte>, field: seq<Byte>, rest: seq<Byte>, bias: nat)
    requires |between| == (if descriptor / 32 % 2 == 1 then 0 else 1) + (match descriptor % 4 case 0 => 0 case 1 => 1 case 2 => 2 case _ => 4)
    requires |field| == (match descriptor / 64 case 0 => (if descriptor / 32 % 2 == 1 then 1 else 0) case 1 => 2 case 2 => 4 case _ => 8)
    requires |field| > 0 && bias == (if |field| == 2 then 256 else 0)
    ensures var data := Frame(descriptor, between, field, rest);
      |data| >= 5 && data[..4] == MAGIC_BYTES && SizeField(data) == Some(FromLittleEndian(field) + bias)
  {
    var data := Frame(descriptor, between, field, rest);
    assert MAGIC_BYTES + [descriptor] + between + [] + field == MAGIC_BYTES + [descriptor] + between + field;
    Layout(MAGIC_BYTES, descriptor, between, [], field, data);
  }

  lemma DataDeclares(data: seq<Byte>, size: nat)
    requires |data| >= 5 && data[..4] == MAGIC_BYTES && SizeField(data) == Some(size) && size <= PLAUSIBLE
    requires SizeWidth(data[4] / 64, data[4] / 32 % 2 != 0) != 0
    ensures ZstdDeclares(data, size)
  {
    MagicIs();
    var h := HeaderAt(data);
    HeaderFields(data, h);
  }

  lemma FrameDeclares(descriptor: Byte, between: seq<Byte>, field: seq<Byte>, rest: seq<Byte>, bias: nat)
    requires |between| == (if descriptor / 32 % 2 == 1 then 0 else 1) + (match descriptor % 4 case 0 => 0 case 1 => 1 case 2 => 2 case _ => 4)
    requires |field| == (match descriptor / 64 case 0 => (if descriptor / 32 % 2 == 1 then 1 else 0) case 1 => 2 case 2 => 4 case _ => 8)
    requires |field| > 0 && bias == (if |field| == 2 then 256 else 0) && FromLittleEndian(field) + bias <= 0x4000_0000_0000_0000
    ensures ZstdDeclares(Frame(descriptor, between, field, rest), FromLittleEndian(field) + bias)
  {
    FrameSize(descriptor, between, field, rest, bias);
    assert Frame(descriptor, between, field, rest)[4] == descriptor;
    DataDeclares(Frame(descriptor, between, field, rest), FromLittleEndian(field) + bias);
  }

  /** The four forms of a frame of a single segment with no dictionary, whatever follows. */
  lemma OneByteFrame(b: seq<Byte>, rest: seq<Byte>)
    requires |b| == 1
    ensures ZstdDeclares(Frame(0x20, [], b, rest), b[0])
  {
    Small(b);
    FrameDeclares(0x20, [], b, rest, 0);
  }

  lemma TwoByteFrame(b: seq<Byte>, rest: seq<Byte>)
    requires |b| == 2
    ensures ZstdDeclares(Frame(0x60, [], b, rest), (b[0] as int) + 256 * (b[1] as int) + 256)
  {
    Small(b);
    FrameDeclares(0x60, [], b, rest, 256);
  }

  lemma FourByteFrame(b: seq<Byte>, rest: seq<Byte>)
    requires |b| == 4
    ensures ZstdDeclares(Frame(0xA0, [], b, rest),
                         (b[0] as int) + 256 * (b[1] as int) + 65536 * (b[2] as int) + 16777216 * (b[3] as int))
  {
    Small(b);
    FrameDeclares(0xA0, [], b, rest, 0);
  }

  lemma EightByteFrame(b: seq<Byte>, rest: seq<Byte>)
    requires |b| == 4
    ensures ZstdDeclares(Frame(0xE0, [], b + [0, 0, 0, 0], rest),
                         (b[0] as int) + 256 * (b[1] as int) + 65536 * (b[2] as int) + 16777216 * (b[3] as int))
  {
    Small(b);
    Widened(b);
    FrameDeclares(0xE0, [], b + [0, 0, 0, 0], rest, 0);
  }

  lemma {:induction false} Widened(b: seq<Byte>)
    ensures FromLittleEndian(b + [0, 0, 0, 0]) == FromLittleEndian(b)
  {
    if b == [] {
      assert b + [0, 0, 0, 0] == [0, 0, 0, 0] && [0, 0, 0, 0][1..] == [0, 0, 0] && [0, 0, 0][1..] == [0, 0];
      assert [0, 0][1..] == [0] && [0][1..] == [];
    } else {
      Widened(b[1..]);
      assert (b + [0, 0, 0, 0])[1..] == b[1..] + [0, 0, 0, 0];
    }
  }

  /** A frame with a window descriptor and a four-byte dictionary: the size starts at byte ten. */
  lemma DictionaryFrame(window: Byte, dictionary: seq<Byte>, b: seq<Byte>, rest: seq<Byte>)
    requires |dictionary| == 4 && |b| == 2
    ensures ZstdDeclares(Frame(0x43, [window] + dictionary, b, rest), (b[0] as int) + 256 * (b[1] as int) + 256)
  {
    Small(b);
    FrameDeclares(0x43, [window] + dictionary, b, rest, 256);
  }

  /** A frame declares one size at most. */
  lemma DeclaredSizeIsUnique(data: seq<Byte>, a: nat, b: nat)
    requires ZstdDeclares(data, a) && ZstdDeclares(data, b)
    ensures a == b
  {
    var h :| OpensWith(data, h) && Declares(h) == Some(a);
    var g :| OpensWith(data, g) && Declares(g) == Some(b);
    HeaderFields(data, h);
    HeaderFields(data, g);
  }

  /** The compressed empty file: a gzip member of no content. */
  lemma EmptyGzip(data: seq<Byte>)
    requires data == [0x1f, 0x8b, 8, 0, 0, 0, 0, 0, 0, 3, 3, 0, 0, 0, 0, 0, 0, 0, 0, 0]
    ensures GzipMember(data, 0) && GzipMember(data, 0x1_0000_0000) && !GzipMember(data, 1)
  {
    assert data[16..] == [0, 0, 0, 0] && LittleEndian(0, 4) == [0] + LittleEndian(0, 3);
    assert LittleEndian(0, 3) == [0] + LittleEndian(0, 2) && LittleEndian(0, 2) == [0] + LittleEndian(0, 1);
    assert LittleEndian(1, 4)[0] == 1;
  }

  /** A counterpart proves one size at most, and an uncompressed one exactly its length. */
  lemma ProvenSizeIsUnique(files: Files, counterpart: string, a: nat, b: nat)
    requires Proves(files, counterpart, a)
    ensures Proves(files, counterpart, b) ==> a == b
    ensures counterpart in files ==> files[counterpart].Regular? && |files[counterpart].data| == a
    ensures counterpart !in files ==> counterpart + ".gz" in files || counterpart + ".zst" in files
    ensures counterpart !in files && counterpart + ".gz" in files ==>
              && files[counterpart + ".gz"].Regular? && files[counterpart + ".gz"].readable
              && a < 0x1_0000_0000 && GzipMember(files[counterpart + ".gz"].data, a)
    ensures counterpart !in files && counterpart + ".gz" !in files ==>
              && files[counterpart + ".zst"].Regular? && files[counterpart + ".zst"].readable
              && ZstdDeclares(files[counterpart + ".zst"].data, a)
  {
    if Proves(files, counterpart, b) && counterpart !in files {
      if counterpart + ".gz" in files {
        SizesOfMember(files[counterpart + ".gz"].data, b, a);
      } else {
        DeclaredSizeIsUnique(files[counterpart + ".zst"].data, a, b);
      }
    }
  }
}
