/** The reader of ZIP central directories, against the format it reads. */
module ZipDirectory {
  import opened Bytes

  const CD_SIGNATURE: uint32 := 0x0605_4b50
  const ENTRY_SIGNATURE: uint32 := 0x0201_4b50
  const LFH_SIGNATURE: uint32 := 0x0403_4b50
  const EOCD_LEN: nat := 22
  const MAX_EOCD_SEARCH: nat := 65535 + 22
  const ENTRY_LEN: nat := 46
  const LFH_SIZE: nat := 30

  // ---- the format ----

  /** A member of an archive, as PKWARE's APPNOTE.TXT sections 4.3.7 and 4.3.12 describe it. `after` is
      whatever follows its data, such as a data descriptor. */
  datatype Member = Member(
    name: seq<byte>, content: seq<byte>, compression: uint16, uncompressedSize: uint32,
    madeBy: uint16, needed: uint16, flags: uint16, time: uint16, date: uint16, crc: uint32,
    localExtra: seq<byte>, centralExtra: seq<byte>, comment: seq<byte>,
    internalAttrs: uint16, externalAttrs: uint32, after: seq<byte>)

  predicate MemberOk(m: Member) {
    && |m.name| < 0x1_0000 && |m.localExtra| < 0x1_0000 && |m.centralExtra| < 0x1_0000 && |m.comment| < 0x1_0000
    && |m.content| < 0x1_0000_0000
  }

  /** The local file header, section 4.3.7, without its variable parts. */
  function LocalHeader(m: Member): (s: seq<byte>)
    requires MemberOk(m)
    ensures |s| == LFH_SIZE
  {
    ((Le32(LFH_SIGNATURE) + (Le16(m.needed) + (Le16(m.flags) + Le16(m.compression)))) +
    (Le16(m.time) + (Le16(m.date) + Le32(m.crc))) +
    (Le32(|m.content|) + Le32(m.uncompressedSize))) +
    (Le16(|m.name|) + Le16(|m.localExtra|))
  }

  function LocalSize(m: Member): nat { LFH_SIZE + |m.name| + |m.localExtra| + |m.content| + |m.after| }

  function LocalRecord(m: Member): (s: seq<byte>)
    requires MemberOk(m)
    ensures |s| == LocalSize(m)
  {
    LocalHeader(m) + (m.name + (m.localExtra + (m.content + m.after)))
  }

  function CentralVersion(m: Member): (s: seq<byte>)
    ensures |s| == 10
  {
    Le32(ENTRY_SIGNATURE) + (Le16(m.madeBy) + (Le16(m.needed) + Le16(m.flags)))
  }

  function CentralMethod(m: Member): (s: seq<byte>)
    ensures |s| == 10
  {
    Le16(m.compression) + (Le16(m.time) + (Le16(m.date) + Le32(m.crc)))
  }

  function CentralSizes(m: Member): (s: seq<byte>)
    requires MemberOk(m)
    ensures |s| == 8
  {
    Le32(|m.content|) + Le32(m.uncompressedSize)
  }

  function CentralLengths(m: Member): (s: seq<byte>)
    requires MemberOk(m)
    ensures |s| == 8
  {
    Le16(|m.name|) + (Le16(|m.centralExtra|) + (Le16(|m.comment|) + Le16(0)))
  }

  function CentralPlace(m: Member, offset: uint32): (s: seq<byte>)
    ensures |s| == 10
  {
    Le16(m.internalAttrs) + (Le32(m.externalAttrs) + Le32(offset))
  }

  /** The central directory header, section 4.3.12, without its variable parts. */
  function CentralHeader(m: Member, offset: uint32): (s: seq<byte>)
    requires MemberOk(m)
    ensures |s| == ENTRY_LEN
  {
    CentralVersion(m) + (CentralMethod(m) + (CentralSizes(m) + (CentralLengths(m) + CentralPlace(m, offset))))
  }

  function CentralSize(m: Member): nat { ENTRY_LEN + |m.name| + |m.centralExtra| + |m.comment| }

  function CentralRecord(m: Member, offset: uint32): (s: seq<byte>)
    requires MemberOk(m)
    ensures |s| == CentralSize(m)
  {
    CentralHeader(m, offset) + (m.name + (m.centralExtra + m.comment))
  }

  predicate MembersOk(ms: seq<Member>) {
    forall i :: 0 <= i < |ms| ==> MemberOk(ms[i])
  }

  /** The sizes of the first `n` local records and of the first `n` directory entries together. */
  function LocalsSize(ms: seq<Member>, n: nat): nat
    requires n <= |ms|
  {
    if n == 0 then 0 else LocalsSize(ms, n - 1) + LocalSize(ms[n - 1])
  }

  function CentralsSize(ms: seq<Member>, n: nat): nat
    requires n <= |ms|
  {
    if n == 0 then 0 else CentralsSize(ms, n - 1) + CentralSize(ms[n - 1])
  }

  function Locals(ms: seq<Member>, n: nat): (s: seq<byte>)
    requires n <= |ms| && MembersOk(ms)
    ensures |s| == LocalsSize(ms, n)
  {
    if n == 0 then [] else Locals(ms, n - 1) + LocalRecord(ms[n - 1])
  }

  /** The directory of the first `n` members, whose local records begin at `offset`. */
  function Central(ms: seq<Member>, offset: nat, n: nat): (s: seq<byte>)
    requires n <= |ms| && MembersOk(ms) && offset + LocalsSize(ms, n) < 0x1_0000_0000
    ensures |s| == CentralsSize(ms, n)
  {
    if n == 0 then [] else Central(ms, offset, n - 1) + CentralRecord(ms[n - 1], offset + LocalsSize(ms, n - 1))
  }

  /** The end of central directory record, section 4.3.16, and its comment. */
  function EndRecord(count: uint16, size: uint32, offset: uint32, comment: seq<byte>): (s: seq<byte>)
    requires |comment| < 0x1_0000
    ensures |s| == EOCD_LEN + |comment|
  {
    (Le32(CD_SIGNATURE) + (Le16(0) + Le16(0))) +
    ((Le16(count) + Le16(count)) +
    ((Le32(size) + (Le32(offset) + Le16(|comment|))) + comment))
  }

  /** An archive: `lead` may be any bytes in front of the first member. */
  datatype Archive = Archive(lead: seq<byte>, members: seq<Member>, comment: seq<byte>)

  /** Where the directory begins, and where the end record does. */
  function DirOffset(a: Archive): nat { |a.lead| + LocalsSize(a.members, |a.members|) }
  function EndOffset(a: Archive): nat { DirOffset(a) + CentralsSize(a.members, |a.members|) }

  predicate ArchiveOk(a: Archive) {
    && MembersOk(a.members) && |a.members| < 0x1_0000 && |a.comment| < 0x1_0000
    && EndOffset(a) + EOCD_LEN + |a.comment| < 0x8000_0000
  }

  function ArchiveBytes(a: Archive): (s: seq<byte>)
    requires ArchiveOk(a)
    ensures |s| == EndOffset(a) + EOCD_LEN + |a.comment|
  {
    var n := |a.members|;
    (a.lead + (Locals(a.members, n) + Central(a.members, |a.lead|, n))) +
    EndRecord(n, EndOffset(a) - DirOffset(a), DirOffset(a), a.comment)
  }

  // ---- finding the end record ----

  predicate SignatureAt(buf: seq<byte>, p: nat) {
    p + 4 <= |buf| && ReadLe32(buf, p) == CD_SIGNATURE
  }

  /** Where the backward search gives up. */
  function SearchStart(buf: seq<byte>): nat {
    if |buf| > MAX_EOCD_SEARCH then |buf| - MAX_EOCD_SEARCH else 0
  }

  /** The last signature of the part that is searched. */
  ghost predicate LastSignature(buf: seq<byte>, found: Option<nat>) {
    match found
    case None => forall p: nat :: SearchStart(buf) <= p ==> !SignatureAt(buf, p)
    case Some(e) => SearchStart(buf) <= e && SignatureAt(buf, e) && forall p: nat :: e < p ==> !SignatureAt(buf, p)
  }

  /** The backward search of `read_central_dir`. */
  method FindEocd(buf: seq<byte>) returns (found: Option<nat>)
    requires |buf| >= EOCD_LEN
    ensures LastSignature(buf, found)
  {
    var start := SearchStart(buf);
    var p := |buf| - 4;
    while p >= start
      invariant start - 1 <= p <= |buf| - 4
      invariant forall q: nat :: p < q ==> !SignatureAt(buf, q)
    {
      if buf[p] == 0x50 && ReadLe32(buf, p) == CD_SIGNATURE {
        return Some(p);
      }
      FirstByte(buf, p);
      p := p - 1;
    }
    found := None;
  }

  /** The test of the first byte only saves work. */
  lemma FirstByte(buf: seq<byte>, p: nat)
    ensures SignatureAt(buf, p) ==> buf[p] == 0x50
  {
    if SignatureAt(buf, p) {
      assert ReadLe32(buf, p) % 256 == buf[p];
    }
  }

  // ---- what the reader computes ----

  /** An entry of the reader's list; names and data are positions in the buffer. */
  datatype Zipentry = Zipentry(fileNameLength: uint16, fileName: Option<nat>, compressionMethod: uint16,
                               uncompressedSize: uint32, compressedSize: uint32, data: uint32)

  /** `Wild`: the reader leaves the buffer. */
  datatype Status = Done | Rejected | Wild

  datatype Step = Step(entry: Zipentry, next: nat) | Stop(status: Status)

  /** `read_central_directory_entry` at `p`; `len` never shrinks as the reader advances. */
  function EntryAt(buf: seq<byte>, p: nat, len: int): Step {
    if len < ENTRY_LEN then Stop(Rejected)
    else if p + ENTRY_LEN > |buf| then Stop(Wild)
    else if ReadLe32(buf, p) != ENTRY_SIGNATURE then Stop(Rejected)
    else
      var nameLen, local := ReadLe16(buf, p + 0x1c), ReadLe32(buf, p + 0x2a);
      if local + LFH_SIZE > |buf| then Stop(Wild)
      else
        MakeStep(p, nameLen, ReadLe16(buf, p + 0x1e), ReadLe16(buf, p + 0x20), ReadLe16(buf, p + 0xa),
                 ReadLe32(buf, p + 0x18), ReadLe32(buf, p + 0x14), local, ReadLe16(buf, local + 0x1c))
  }

  function MakeStep(p: nat, nameLen: uint16, extraLen: uint16, commentLen: uint16, compression: uint16,
                    uncompressed: uint32, compressed: uint32, local: uint32, localExtraLen: uint16): (r: Step)
    ensures r.Step?
  {
    Step(Zipentry(nameLen, if nameLen != 0 then Some(p + ENTRY_LEN) else None, compression, uncompressed, compressed,
                  (local + LFH_SIZE + nameLen + localExtraLen) % 0x1_0000_0000),
         p + ENTRY_LEN + nameLen + extraLen + commentLen)
  }

  datatype Walk = Walk(status: Status, entries: seq<Zipentry>)

  /** The loop over the directory: each entry is put in front of the list. */
  function EntriesFrom(buf: seq<byte>, p: nat, len: int, count: nat, entries: seq<Zipentry>): Walk
    decreases count
  {
    if count == 0 then Walk(Done, entries)
    else
      match EntryAt(buf, p, len)
      case Stop(status) => Walk(status, entries)
      case Step(entry, next) => EntriesFrom(buf, next, len, count - 1, [entry] + entries)
  }

  /** The end record is whole and describes an archive in one piece. */
  predicate EndRecordOk(buf: seq<byte>, e: nat) {
    && e + EOCD_LEN <= |buf|
    && e + EOCD_LEN + ReadLe16(buf, e + 0x14) <= |buf|
    && ReadLe16(buf, e + 0x04) == 0 && ReadLe16(buf, e + 0x06) == 0
    && ReadLe16(buf, e + 0x08) == ReadLe16(buf, e + 0x0a)
  }

  /** The directory that the end record at `e` points to. */
  function DirectoryAt(buf: seq<byte>, e: nat, entries: seq<Zipentry>): Walk {
    if !EndRecordOk(buf, e) then Walk(Rejected, entries)
    else
      var offset := ReadLe32(buf, e + 0x10);
      EntriesFrom(buf, offset, |buf| - offset, ReadLe16(buf, e + 0x0a), entries)
  }

  class Zipfile {
    const buf: seq<byte>
    var disknum: uint16
    var diskWithCentralDir: uint16
    var entryCount: uint16
    var totalEntryCount: uint16
    var centralDirSize: uint32
    var centralDirOffset: uint32
    var commentLen: uint16
    var comment: Option<nat>
    var entries: seq<Zipentry>

    constructor (buf: seq<byte>)
      ensures this.buf == buf && entries == []
    {
      this.buf := buf;
      disknum, diskWithCentralDir, entryCount, totalEntryCount := 0, 0, 0, 0;
      centralDirSize, centralDirOffset, commentLen := 0, 0, 0;
      comment, entries := None, [];
    }

    /** `read_central_dir_values`. */
    method ReadValues(e: nat) returns (ok: bool)
      requires e <= |buf|
      modifies this`disknum, this`diskWithCentralDir, this`entryCount, this`totalEntryCount,
               this`centralDirSize, this`centralDirOffset, this`commentLen, this`comment
      ensures ok <==> e + EOCD_LEN <= |buf| && e + EOCD_LEN + ReadLe16(buf, e + 0x14) <= |buf|
      ensures e + EOCD_LEN <= |buf| ==>
        && disknum == ReadLe16(buf, e + 0x04) && diskWithCentralDir == ReadLe16(buf, e + 0x06)
        && entryCount == ReadLe16(buf, e + 0x08) && totalEntryCount == ReadLe16(buf, e + 0x0a)
        && centralDirSize == ReadLe32(buf, e + 0x0c) && centralDirOffset == ReadLe32(buf, e + 0x10)
        && commentLen == ReadLe16(buf, e + 0x14)
      ensures comment == if ok && commentLen > 0 then Some(e + EOCD_LEN) else old(comment)
    {
      if |buf| - e < EOCD_LEN {
        return false;
      }
      disknum := ReadLe16(buf, e + 0x04);
      diskWithCentralDir := ReadLe16(buf, e + 0x06);
      entryCount := ReadLe16(buf, e + 0x08);
      totalEntryCount := ReadLe16(buf, e + 0x0a);
      centralDirSize := ReadLe32(buf, e + 0x0c);
      centralDirOffset := ReadLe32(buf, e + 0x10);
      commentLen := ReadLe16(buf, e + 0x14);
      if commentLen > 0 {
        if EOCD_LEN + commentLen > |buf| - e {
          return false;
        }
        comment := Some(e + EOCD_LEN);
      }
      ok := true;
    }

    /** The second half of `read_central_dir`. */
    method ReadEntries() returns (status: Status)
      modifies this`entries
      ensures Walk(status, entries) == EntriesFrom(buf, centralDirOffset, |buf| - centralDirOffset, totalEntryCount, old(entries))
    {
      var p: nat := centralDirOffset;
      var len := |buf| - p;
      var i := 0;
      ghost var result := EntriesFrom(buf, p, len, totalEntryCount, entries);
      while i < totalEntryCount
        invariant 0 <= i <= totalEntryCount
        invariant EntriesFrom(buf, p, len, totalEntryCount - i, entries) == result
      {
        match EntryAt(buf, p, len) {
          case Stop(why) =>
            return why;
          case Step(entry, next) =>
            entries := [entry] + entries;
            p := next;
        }
        i := i + 1;
      }
      status := Done;
    }

    /** `read_central_dir`. */
    method ReadCentralDir() returns (status: Status, ghost eocd: Option<nat>)
      modifies this
      ensures |buf| < EOCD_LEN ==> status == Rejected && entries == old(entries)
      ensures |buf| >= EOCD_LEN ==> LastSignature(buf, eocd)
      ensures |buf| >= EOCD_LEN ==>
        Walk(status, entries) == if eocd.None? then Walk(Rejected, old(entries)) else DirectoryAt(buf, eocd.value, old(entries))
    {
      eocd := None;
      if |buf| < EOCD_LEN {
        return Rejected, eocd;
      }
      var found := FindEocd(buf);
      eocd := found;
      if found.None? {
        return Rejected, eocd;
      }
      var ok := ReadValues(found.value);
      if !ok || disknum != 0 || diskWithCentralDir != 0 || entryCount != totalEntryCount {
        return Rejected, eocd;
      }
      status := ReadEntries();
    }
  }

  // ---- records inside a buffer ----

  /** The bytes `b` stand at position `at`. */
  predicate At(s: seq<byte>, at: nat, b: seq<byte>) {
    at + |b| <= |s| && s[at..at + |b|] == b
  }

  lemma AtParts(s: seq<byte>, at: nat, a: seq<byte>, b: seq<byte>)
    requires At(s, at, a + b)
    ensures At(s, at, a) && At(s, at + |a|, b)
  {
    var w := s[at..at + |a| + |b|];
    assert w[..|a|] == a && w[|a|..] == b;
    assert s[at..at + |a|] == w[..|a|] && s[at + |a|..at + |a| + |b|] == w[|a|..];
  }

  lemma AtWhole(a: seq<byte>, b: seq<byte>, c: seq<byte>)
    ensures At(a + (b + c), |a|, b)
  {
  }

  lemma At16(s: seq<byte>, at: nat, n: uint16)
    requires At(s, at, Le16(n))
    ensures ReadLe16(s, at) == n
  {
    Le16RoundTrip(s, at, n);
  }

  lemma At32(s: seq<byte>, at: nat, n: uint32)
    requires At(s, at, Le32(n))
    ensures ReadLe32(s, at) == n
  {
    Le32RoundTrip(s, at, n);
  }

  // ---- reading what the format says ----

  lemma LengthsRead(s: seq<byte>, at: nat, m: Member)
    requires MemberOk(m) && At(s, at, CentralLengths(m))
    ensures ReadLe16(s, at) == |m.name| && ReadLe16(s, at + 2) == |m.centralExtra| && ReadLe16(s, at + 4) == |m.comment|
  {
    AtParts(s, at, Le16(|m.name|), Le16(|m.centralExtra|) + (Le16(|m.comment|) + Le16(0)));
    AtParts(s, at + 2, Le16(|m.centralExtra|), Le16(|m.comment|) + Le16(0));
    AtParts(s, at + 4, Le16(|m.comment|), Le16(0));
    At16(s, at, |m.name|);
    At16(s, at + 2, |m.centralExtra|);
    At16(s, at + 4, |m.comment|);
  }

  lemma SizesRead(s: seq<byte>, at: nat, m: Member)
    requires MemberOk(m) && At(s, at, CentralSizes(m))
    ensures ReadLe32(s, at) == |m.content| && ReadLe32(s, at + 4) == m.uncompressedSize
  {
    AtParts(s, at, Le32(|m.content|), Le32(m.uncompressedSize));
    At32(s, at, |m.content|);
    At32(s, at + 4, m.uncompressedSize);
  }

  lemma PlaceRead(s: seq<byte>, at: nat, m: Member, offset: uint32)
    requires At(s, at, CentralPlace(m, offset))
    ensures ReadLe32(s, at + 6) == offset
  {
    AtParts(s, at, Le16(m.internalAttrs), Le32(m.externalAttrs) + Le32(offset));
    AtParts(s, at + 2, Le32(m.externalAttrs), Le32(offset));
    At32(s, at + 6, offset);
  }

  lemma HeadRead(s: seq<byte>, at: nat, m: Member)
    requires At(s, at, CentralVersion(m)) && At(s, at + 10, CentralMethod(m))
    ensures ReadLe32(s, at) == ENTRY_SIGNATURE && ReadLe16(s, at + 10) == m.compression
  {
    AtParts(s, at, Le32(ENTRY_SIGNATURE), Le16(m.madeBy) + (Le16(m.needed) + Le16(m.flags)));
    AtParts(s, at + 10, Le16(m.compression), Le16(m.time) + (Le16(m.date) + Le32(m.crc)));
    At32(s, at, ENTRY_SIGNATURE);
    At16(s, at + 10, m.compression);
  }

  /** The fields that the reader takes from a central directory header. */
  ghost predicate FieldsRead(s: seq<byte>, at: nat, m: Member, offset: uint32) {
    && at + ENTRY_LEN <= |s|
    && ReadLe32(s, at) == ENTRY_SIGNATURE && ReadLe16(s, at + 0xa) == m.compression
    && ReadLe32(s, at + 0x14) == |m.content| && ReadLe32(s, at + 0x18) == m.uncompressedSize
    && ReadLe16(s, at + 0x1c) == |m.name| && ReadLe16(s, at + 0x1e) == |m.centralExtra|
    && ReadLe16(s, at + 0x20) == |m.comment| && ReadLe32(s, at + 0x2a) == offset
  }

  lemma HeaderRead(s: seq<byte>, at: nat, m: Member, offset: uint32)
    requires MemberOk(m) && At(s, at, CentralHeader(m, offset))
    ensures FieldsRead(s, at, m, offset)
  {
    var sizes, lengths, place := CentralSizes(m), CentralLengths(m), CentralPlace(m, offset);
    AtParts(s, at, CentralVersion(m), CentralMethod(m) + (sizes + (lengths + place)));
    AtParts(s, at + 10, CentralMethod(m), sizes + (lengths + place));
    AtParts(s, at + 20, sizes, lengths + place);
    AtParts(s, at + 28, lengths, place);
    HeadRead(s, at, m);
    SizesRead(s, at + 20, m);
    LengthsRead(s, at + 28, m);
    PlaceRead(s, at + 36, m, offset);
  }

  /** The length of the local extra field, which may differ from the central one, places the data. */
  lemma LocalRead(s: seq<byte>, at: nat, m: Member)
    requires MemberOk(m) && At(s, at, LocalRecord(m))
    ensures at + LFH_SIZE <= |s| && ReadLe16(s, at + 0x1c) == |m.localExtra|
    ensures At(s, at + LFH_SIZE + |m.name| + |m.localExtra|, m.content)
  {
    LocalParts(s, at, LocalHeader(m), m.name, m.localExtra, m.content, m.after);
    LocalLengths(s, at, m);
  }

  lemma LocalParts(s: seq<byte>, at: nat, header: seq<byte>, name: seq<byte>, extra: seq<byte>, content: seq<byte>, after: seq<byte>)
    requires At(s, at, header + (name + (extra + (content + after))))
    ensures At(s, at, header) && At(s, at + |header| + |name| + |extra|, content)
  {
    AtParts(s, at, header, name + (extra + (content + after)));
    AtParts(s, at + |header|, name, extra + (content + after));
    AtParts(s, at + |header| + |name|, extra, content + after);
    AtParts(s, at + |header| + |name| + |extra|, content, after);
  }

  lemma LocalLengths(s: seq<byte>, at: nat, m: Member)
    requires MemberOk(m) && At(s, at, LocalHeader(m))
    ensures ReadLe16(s, at + 0x1c) == |m.localExtra|
  {
    var front := (Le32(LFH_SIGNATURE) + (Le16(m.needed) + (Le16(m.flags) + Le16(m.compression)))) +
                 (Le16(m.time) + (Le16(m.date) + Le32(m.crc))) +
                 (Le32(|m.content|) + Le32(m.uncompressedSize));
    AtParts(s, at, front, Le16(|m.name|) + Le16(|m.localExtra|));
    AtParts(s, at + 26, Le16(|m.name|), Le16(|m.localExtra|));
    At16(s, at + 28, |m.localExtra|);
  }

  /** The reader's entry says of a member what the archive says: its name, sizes and method, and
      where its bytes are. */
  ghost predicate Describes(buf: seq<byte>, z: Zipentry, m: Member) {
    && z.fileNameLength == |m.name| && z.compressionMethod == m.compression
    && z.compressedSize == |m.content| && z.uncompressedSize == m.uncompressedSize
    && (if m.name == [] then z.fileName == None else z.fileName.Some? && At(buf, z.fileName.value, m.name))
    && At(buf, z.data, m.content)
  }

  /** A member's name and content are where its directory entry at `p` and its local record at
      `offset` put them. */
  ghost predicate Placed(buf: seq<byte>, p: nat, m: Member, offset: nat) {
    && offset < 0x1_0000_0000 && FieldsRead(buf, p, m, offset) && At(buf, p + ENTRY_LEN, m.name)
    && offset + LFH_SIZE <= |buf| && ReadLe16(buf, offset + 0x1c) == |m.localExtra|
    && At(buf, offset + LFH_SIZE + |m.name| + |m.localExtra|, m.content)
  }

  lemma StepDescribes(buf: seq<byte>, p: nat, m: Member, offset: uint32)
    requires MemberOk(m) && |buf| < 0x8000_0000 && At(buf, p + ENTRY_LEN, m.name)
    requires At(buf, offset + LFH_SIZE + |m.name| + |m.localExtra|, m.content)
    ensures
      var step := MakeStep(p, |m.name|, |m.centralExtra|, |m.comment|, m.compression, m.uncompressedSize, |m.content|, offset, |m.localExtra|);
      StepOk(buf, p, m, step)
  {
  }

  ghost predicate StepOk(buf: seq<byte>, p: nat, m: Member, step: Step) {
    step.Step? && step.next == p + CentralSize(m) && Describes(buf, step.entry, m)
  }

  /** The entry that the reader makes of a member. */
  lemma EntryFrom(buf: seq<byte>, p: nat, len: int, m: Member, offset: nat)
    requires MemberOk(m) && Placed(buf, p, m, offset) && ENTRY_LEN <= len && |buf| < 0x8000_0000
    ensures StepOk(buf, p, m, EntryAt(buf, p, len))
  {
    StepDescribes(buf, p, m, offset);
  }

  lemma PlacedBy(buf: seq<byte>, p: nat, m: Member, offset: uint32)
    requires MemberOk(m) && At(buf, p, CentralRecord(m, offset)) && At(buf, offset, LocalRecord(m))
    ensures Placed(buf, p, m, offset)
  {
    CentralParts(buf, p, m, offset);
    LocalRead(buf, offset, m);
  }

  lemma CentralParts(buf: seq<byte>, p: nat, m: Member, offset: uint32)
    requires MemberOk(m) && At(buf, p, CentralRecord(m, offset))
    ensures FieldsRead(buf, p, m, offset) && At(buf, p + ENTRY_LEN, m.name)
  {
    var tail := m.centralExtra + m.comment;
    AtParts(buf, p, CentralHeader(m, offset), m.name + tail);
    AtParts(buf, p + ENTRY_LEN, m.name, tail);
    HeaderRead(buf, p, m, offset);
  }

  /** The reader's list describes the members from `from` on, in reverse order, in front of what was
      there. */
  ghost predicate ReadBack(buf: seq<byte>, ms: seq<Member>, from: nat, was: seq<Zipentry>, now: seq<Zipentry>)
    requires from <= |ms|
  {
    && |now| == |ms| - from + |was| && now[|ms| - from..] == was
    && forall i :: from <= i < |ms| ==> Describes(buf, now[|ms| - 1 - i], ms[i])
  }

  lemma ReadBackFirst(buf: seq<byte>, ms: seq<Member>, from: nat, was: seq<Zipentry>, z: Zipentry, now: seq<Zipentry>)
    requires from < |ms| && Describes(buf, z, ms[from]) && ReadBack(buf, ms, from + 1, [z] + was, now)
    ensures ReadBack(buf, ms, from, was, now)
  {
    var n := |ms| - 1 - from;
    assert now[n..][0] == z == now[n];
    assert now[n + 1..] == now[n..][1..] == was;
  }

  /** All members are placed, directory entries from `p` on and local records from `offset` on. */
  ghost predicate AllPlaced(buf: seq<byte>, p: nat, ms: seq<Member>, offset: nat) {
    forall i: nat :: i < |ms| ==> PlacedAt(buf, p, ms, offset, i)
  }

  ghost predicate PlacedAt(buf: seq<byte>, p: nat, ms: seq<Member>, offset: nat, i: nat)
    requires i < |ms|
  {
    Placed(buf, p + CentralsSize(ms, i), ms[i], offset + LocalsSize(ms, i))
  }

  lemma {:induction false} LocalAt(buf: seq<byte>, offset: nat, ms: seq<Member>, n: nat, i: nat)
    requires i < n <= |ms| && MembersOk(ms) && At(buf, offset, Locals(ms, n))
    ensures At(buf, offset + LocalsSize(ms, i), LocalRecord(ms[i]))
  {
    AtParts(buf, offset, Locals(ms, n - 1), LocalRecord(ms[n - 1]));
    if i < n - 1 {
      LocalAt(buf, offset, ms, n - 1, i);
    }
  }

  lemma LastCentral(buf: seq<byte>, p: nat, ms: seq<Member>, offset: nat, n: nat)
    requires 0 < n <= |ms| && MembersOk(ms) && offset + LocalsSize(ms, n) < 0x1_0000_0000
    requires At(buf, p, Central(ms, offset, n))
    ensures offset + LocalsSize(ms, n - 1) < 0x1_0000_0000 && At(buf, p, Central(ms, offset, n - 1))
    ensures At(buf, p + CentralsSize(ms, n - 1), CentralRecord(ms[n - 1], offset + LocalsSize(ms, n - 1)))
  {
    AtParts(buf, p, Central(ms, offset, n - 1), CentralRecord(ms[n - 1], offset + LocalsSize(ms, n - 1)));
  }

  lemma {:induction false} CentralAt(buf: seq<byte>, p: nat, ms: seq<Member>, offset: nat, n: nat, i: nat)
    requires i < n <= |ms| && MembersOk(ms) && offset + LocalsSize(ms, n) < 0x1_0000_0000
    requires At(buf, p, Central(ms, offset, n))
    ensures offset + LocalsSize(ms, i) < 0x1_0000_0000 && At(buf, p + CentralsSize(ms, i), CentralRecord(ms[i], offset + LocalsSize(ms, i)))
  {
    LastCentral(buf, p, ms, offset, n);
    if i < n - 1 {
      CentralAt(buf, p, ms, offset, n - 1, i);
    }
  }

  /** The two records of member `i` stand where the sizes of the others put them. */
  ghost predicate RecordsAt(buf: seq<byte>, p: nat, ms: seq<Member>, offset: nat, i: nat)
    requires i < |ms| && MembersOk(ms)
  {
    && offset + LocalsSize(ms, i) < 0x1_0000_0000
    && At(buf, p + CentralsSize(ms, i), CentralRecord(ms[i], offset + LocalsSize(ms, i)))
    && At(buf, offset + LocalsSize(ms, i), LocalRecord(ms[i]))
  }

  lemma AllRecords(buf: seq<byte>, p: nat, ms: seq<Member>, offset: nat)
    requires MembersOk(ms) && offset + LocalsSize(ms, |ms|) < 0x1_0000_0000
    requires At(buf, p, Central(ms, offset, |ms|)) && At(buf, offset, Locals(ms, |ms|))
    ensures forall i: nat :: i < |ms| ==> RecordsAt(buf, p, ms, offset, i)
  {
    forall i: nat | i < |ms|
      ensures RecordsAt(buf, p, ms, offset, i)
    {
      LocalAt(buf, offset, ms, |ms|, i);
      CentralAt(buf, p, ms, offset, |ms|, i);
    }
  }

  lemma PlacedOne(buf: seq<byte>, p: nat, ms: seq<Member>, offset: nat, i: nat)
    requires i < |ms| && MembersOk(ms) && RecordsAt(buf, p, ms, offset, i)
    ensures PlacedAt(buf, p, ms, offset, i)
  {
    PlacedBy(buf, p + CentralsSize(ms, i), ms[i], offset + LocalsSize(ms, i));
  }

  lemma AllPlacedBy(buf: seq<byte>, p: nat, ms: seq<Member>, offset: nat)
    requires MembersOk(ms) && offset + LocalsSize(ms, |ms|) < 0x1_0000_0000
    requires At(buf, p, Central(ms, offset, |ms|)) && At(buf, offset, Locals(ms, |ms|))
    ensures AllPlaced(buf, p, ms, offset)
  {
    AllRecords(buf, p, ms, offset);
    forall i: nat | i < |ms|
      ensures PlacedAt(buf, p, ms, offset, i)
    {
      PlacedOne(buf, p, ms, offset, i);
    }
  }

  lemma StepAt(buf: seq<byte>, p: nat, len: int, ms: seq<Member>, offset: nat, i: nat, at: nat, next: nat) returns (entry: Zipentry)
    requires i < |ms| && MembersOk(ms) && AllPlaced(buf, p, ms, offset) && |buf| < 0x8000_0000 && ENTRY_LEN <= len
    requires at == p + CentralsSize(ms, i) && next == p + CentralsSize(ms, i + 1)
    ensures EntryAt(buf, at, len) == Step(entry, next) && Describes(buf, entry, ms[i])
  {
    assert PlacedAt(buf, p, ms, offset, i);
    EntryFrom(buf, at, len, ms[i], offset + LocalsSize(ms, i));
    entry := EntryAt(buf, at, len).entry;
  }

  /** A directory of placed members, with room for an entry in front of the buffer's end, is read to
      its end. */
  lemma {:induction false} DirectoryRead(buf: seq<byte>, p: nat, len: int, ms: seq<Member>, offset: nat, from: nat, at: nat, was: seq<Zipentry>)
    requires from <= |ms| && MembersOk(ms) && AllPlaced(buf, p, ms, offset) && |buf| < 0x8000_0000
    requires (ms != [] ==> ENTRY_LEN <= len) && at == p + CentralsSize(ms, from)
    ensures AllRead(buf, ms, from, was, EntriesFrom(buf, at, len, |ms| - from, was))
    decreases |ms| - from
  {
    if from < |ms| {
      var next := p + CentralsSize(ms, from + 1);
      var entry := StepAt(buf, p, len, ms, offset, from, at, next);
      DirectoryRead(buf, p, len, ms, offset, from + 1, next, [entry] + was);
      AllReadFirst(buf, at, len, ms, from, was, entry, next);
    } else {
      AllReadNone(buf, at, len, ms, was);
    }
  }

  lemma AllReadNone(buf: seq<byte>, at: nat, len: int, ms: seq<Member>, was: seq<Zipentry>)
    ensures AllRead(buf, ms, |ms|, was, EntriesFrom(buf, at, len, 0, was))
  {
  }

  lemma AllReadFirst(buf: seq<byte>, at: nat, len: int, ms: seq<Member>, from: nat, was: seq<Zipentry>, entry: Zipentry, next: nat)
    requires from < |ms| && EntryAt(buf, at, len) == Step(entry, next) && Describes(buf, entry, ms[from])
    requires AllRead(buf, ms, from + 1, [entry] + was, EntriesFrom(buf, next, len, |ms| - (from + 1), [entry] + was))
    ensures AllRead(buf, ms, from, was, EntriesFrom(buf, at, len, |ms| - from, was))
  {
    ReadBackFirst(buf, ms, from, was, entry, EntriesFrom(buf, next, len, |ms| - (from + 1), [entry] + was).entries);
  }

  ghost predicate AllRead(buf: seq<byte>, ms: seq<Member>, from: nat, was: seq<Zipentry>, walk: Walk)
    requires from <= |ms|
  {
    walk.status == Done && ReadBack(buf, ms, from, was, walk.entries)
  }

  /** The end record at `e` reads as it was written. */
  ghost predicate EndPlaced(buf: seq<byte>, e: nat, count: nat, offset: nat, commentLen: nat) {
    && |buf| == e + EOCD_LEN + commentLen
    && ReadLe32(buf, e) == CD_SIGNATURE && ReadLe16(buf, e + 4) == 0 && ReadLe16(buf, e + 6) == 0
    && ReadLe16(buf, e + 8) == count && ReadLe16(buf, e + 10) == count
    && ReadLe32(buf, e + 16) == offset && ReadLe16(buf, e + 20) == commentLen
  }

  lemma EndRead(buf: seq<byte>, e: nat, count: uint16, size: uint32, offset: uint32, comment: seq<byte>)
    requires |comment| < 0x1_0000 && At(buf, e, EndRecord(count, size, offset, comment))
    requires |buf| == e + EOCD_LEN + |comment|
    ensures EndPlaced(buf, e, count, offset, |comment|)
  {
    var disks, counts, place := Le16(0) + Le16(0), Le16(count) + Le16(count), Le32(size) + (Le32(offset) + Le16(|comment|));
    AtParts(buf, e, Le32(CD_SIGNATURE) + disks, counts + (place + comment));
    AtParts(buf, e + 8, counts, place + comment);
    AtParts(buf, e + 12, place, comment);
    EndNumbers(buf, e, count);
    EndPlace(buf, e + 12, size, offset, comment);
  }

  lemma EndNumbers(buf: seq<byte>, e: nat, count: uint16)
    requires At(buf, e, Le32(CD_SIGNATURE) + (Le16(0) + Le16(0))) && At(buf, e + 8, Le16(count) + Le16(count))
    ensures ReadLe32(buf, e) == CD_SIGNATURE && ReadLe16(buf, e + 4) == 0 && ReadLe16(buf, e + 6) == 0
    ensures ReadLe16(buf, e + 8) == count && ReadLe16(buf, e + 10) == count
  {
    AtParts(buf, e, Le32(CD_SIGNATURE), Le16(0) + Le16(0));
    AtParts(buf, e + 4, Le16(0), Le16(0));
    AtParts(buf, e + 8, Le16(count), Le16(count));
    At32(buf, e, CD_SIGNATURE);
    At16(buf, e + 4, 0);
    At16(buf, e + 6, 0);
    At16(buf, e + 8, count);
    At16(buf, e + 10, count);
  }

  lemma EndPlace(buf: seq<byte>, at: nat, size: uint32, offset: uint32, comment: seq<byte>)
    requires |comment| < 0x1_0000 && At(buf, at, Le32(size) + (Le32(offset) + Le16(|comment|)))
    ensures ReadLe32(buf, at + 4) == offset && ReadLe16(buf, at + 8) == |comment|
  {
    AtParts(buf, at, Le32(size), Le32(offset) + Le16(|comment|));
    AtParts(buf, at + 4, Le32(offset), Le16(|comment|));
    At32(buf, at + 4, offset);
    At16(buf, at + 8, |comment|);
  }

  // ---- the round trip ----

  /** Four parts one behind the other. */
  lemma FourParts(buf: seq<byte>, lead: seq<byte>, locals: seq<byte>, central: seq<byte>, end: seq<byte>, offset: nat, e: nat)
    requires buf == (lead + (locals + central)) + end && offset == |lead| + |locals| && e == offset + |central|
    ensures At(buf, |lead|, locals) && At(buf, offset, central) && At(buf, e, end)
  {
    assert buf == lead + (locals + (central + end));
    AtWhole(lead, locals, central + end);
    assert buf == (lead + locals) + (central + end);
    AtWhole(lead + locals, central, end);
    assert buf == (lead + locals + central) + (end + []);
    AtWhole(lead + locals + central, end, []);
  }

  /** The buffer holds an archive: a directory at `offset` and the end record behind it, at `e`. */
  ghost predicate Stands(buf: seq<byte>, a: Archive, offset: nat, e: nat) {
    && |a.comment| < 0x1_0000 && |buf| < 0x8000_0000 && offset + (if a.members == [] then 0 else ENTRY_LEN) <= |buf|
    && AllPlaced(buf, offset, a.members, |a.lead|)
    && EndPlaced(buf, e, |a.members|, offset, |a.comment|)
  }

  lemma LayoutParts(a: Archive)
    requires ArchiveOk(a)
    ensures
      var buf, n := ArchiveBytes(a), |a.members|;
      && At(buf, |a.lead|, Locals(a.members, n)) && At(buf, DirOffset(a), Central(a.members, |a.lead|, n))
      && At(buf, EndOffset(a), EndRecord(n, EndOffset(a) - DirOffset(a), DirOffset(a), a.comment))
  {
    var n := |a.members|;
    FourParts(ArchiveBytes(a), a.lead, Locals(a.members, n), Central(a.members, |a.lead|, n),
              EndRecord(n, EndOffset(a) - DirOffset(a), DirOffset(a), a.comment), DirOffset(a), EndOffset(a));
  }

  lemma Layout(a: Archive)
    requires ArchiveOk(a)
    ensures Stands(ArchiveBytes(a), a, DirOffset(a), EndOffset(a))
  {
    LayoutParts(a);
    AllPlacedBy(ArchiveBytes(a), DirOffset(a), a.members, |a.lead|);
    EndRead(ArchiveBytes(a), EndOffset(a), |a.members|, EndOffset(a) - DirOffset(a), DirOffset(a), a.comment);
    RoomForEntry(a);
  }

  lemma RoomForEntry(a: Archive)
    requires ArchiveOk(a)
    ensures a.members != [] ==> DirOffset(a) + ENTRY_LEN <= EndOffset(a)
  {
  }

  /** No other signature follows the archive's end record. */
  ghost predicate NoLaterSignature(a: Archive)
    requires ArchiveOk(a)
  {
    LastOne(ArchiveBytes(a), EndOffset(a))
  }

  /** A check that a writer can make: no byte behind the first of the end record is a 'P'. */
  lemma WithoutP(a: Archive)
    requires ArchiveOk(a)
    requires forall k :: EndOffset(a) < k < |ArchiveBytes(a)| ==> ArchiveBytes(a)[k] != 0x50
    ensures NoLaterSignature(a)
  {
    forall p: nat | EndOffset(a) < p
      ensures !SignatureAt(ArchiveBytes(a), p)
    {
      FirstByte(ArchiveBytes(a), p);
    }
  }

  /** The archive without members is one that the reader accepts. */
  lemma EmptyArchive(lead: seq<byte>)
    requires |lead| < 0x50
    ensures var a := Archive(lead, [], []); ArchiveOk(a) && NoLaterSignature(a)
  {
    var a := Archive(lead, [], []);
    var end := EndRecord(0, 0, |lead|, []);
    assert ArchiveBytes(a) == lead + end;
    EndBytes(|lead|);
    assert forall k :: |lead| < k < |lead| + |end| ==> (lead + end)[k] == end[k - |lead|];
    WithoutP(a);
  }

  lemma EndBytes(offset: uint32)
    requires offset < 0x50
    ensures forall k :: 0 < k < EOCD_LEN ==> EndRecord(0, 0, offset, [])[k] != 0x50
  {
    var front, middle := Le32(CD_SIGNATURE) + (Le16(0) + Le16(0)), Le16(0) + Le16(0);
    var tail := Le32(0) + (Le32(offset) + Le16(0));
    assert front == [0x50, 0x4b, 0x05, 0x06, 0, 0, 0, 0] && middle == [0, 0, 0, 0];
    assert tail == [0, 0, 0, 0, offset, 0, 0, 0, 0, 0];
    assert EndRecord(0, 0, offset, []) == front + middle + tail;
  }

  ghost predicate LastOne(buf: seq<byte>, e: nat) {
    forall p: nat :: e < p ==> !SignatureAt(buf, p)
  }

  lemma SearchFinds(buf: seq<byte>, a: Archive, offset: nat, e: nat, found: Option<nat>)
    requires Stands(buf, a, offset, e) && LastSignature(buf, found)
    ensures found == Some(e) <==> LastOne(buf, e)
  {
    assert SearchStart(buf) <= e && SignatureAt(buf, e);
  }

  /** The backward search stops at the archive's own end record exactly when no signature follows it. */
  lemma SearchFindsEnd(a: Archive, found: Option<nat>)
    requires ArchiveOk(a) && LastSignature(ArchiveBytes(a), found)
    ensures found == Some(EndOffset(a)) <==> NoLaterSignature(a)
  {
    Layout(a);
    SearchFinds(ArchiveBytes(a), a, DirOffset(a), EndOffset(a), found);
  }

  lemma StandingRead(buf: seq<byte>, a: Archive, offset: nat, e: nat, was: seq<Zipentry>)
    requires MembersOk(a.members) && Stands(buf, a, offset, e)
    ensures AllRead(buf, a.members, 0, was, DirectoryAt(buf, e, was))
  {
    DirectoryRead(buf, offset, |buf| - offset, a.members, |a.lead|, 0, offset, was);
  }

  /** From its own end record, the archive's directory is read back whole. */
  lemma DirectoryRoundTrip(a: Archive, was: seq<Zipentry>)
    requires ArchiveOk(a)
    ensures
      var walk := DirectoryAt(ArchiveBytes(a), EndOffset(a), was);
      walk.status == Done && ReadBack(ArchiveBytes(a), a.members, 0, was, walk.entries)
  {
    Layout(a);
    StandingRead(ArchiveBytes(a), a, DirOffset(a), EndOffset(a), was);
  }

  /** Reading a well-formed archive: its members come back in reverse order. */
  method ReadArchive(a: Archive) returns (status: Status, entries: seq<Zipentry>)
    requires ArchiveOk(a) && NoLaterSignature(a)
    ensures status == Done && ReadBack(ArchiveBytes(a), a.members, 0, [], entries)
  {
    var file := new Zipfile(ArchiveBytes(a));
    Layout(a);
    ghost var eocd;
    status, eocd := file.ReadCentralDir();
    SearchFindsEnd(a, eocd);
    DirectoryRoundTrip(a, []);
    entries := file.entries;
  }
}
