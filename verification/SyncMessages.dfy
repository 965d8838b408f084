/** The byte formats of the sync protocol: eight-byte headers, data chunks, and the SEND name. */
module SyncMessages {
  import opened Bytes

  const SYNC_DATA_MAX := 65536
  const MAX_NAME := 1024

  function Mkid(a: char, b: char, c: char, d: char): uint32
    requires a < 128 as char && b < 128 as char && c < 128 as char && d < 128 as char
  {
    a as int + 0x100 * (b as int) + 0x1_0000 * (c as int) + 0x100_0000 * (d as int)
  }

  const ID_STAT: uint32 := Mkid('S', 'T', 'A', 'T')
  const ID_LIST: uint32 := Mkid('L', 'I', 'S', 'T')
  const ID_SEND: uint32 := Mkid('S', 'E', 'N', 'D')
  const ID_RECV: uint32 := Mkid('R', 'E', 'C', 'V')
  const ID_DENT: uint32 := Mkid('D', 'E', 'N', 'T')
  const ID_DONE: uint32 := Mkid('D', 'O', 'N', 'E')
  const ID_DATA: uint32 := Mkid('D', 'A', 'T', 'A')
  const ID_OKAY: uint32 := Mkid('O', 'K', 'A', 'Y')
  const ID_FAIL: uint32 := Mkid('F', 'A', 'I', 'L')
  const ID_QUIT: uint32 := Mkid('Q', 'U', 'I', 'T')

  // ---- headers ----

  function Header(id: uint32, n: uint32): (s: seq<byte>)
    ensures |s| == 8
  {
    Le32(id) + Le32(n)
  }

  lemma HeaderRead(id: uint32, n: uint32, rest: seq<byte>)
    ensures
      var s := Header(id, n) + rest;
      |s| >= 8 && ReadLe32(s, 0) == id && ReadLe32(s, 4) == n && s[8..] == rest
  {
    var s := Header(id, n) + rest;
    assert s[0..4] == Le32(id) && s[4..8] == Le32(n);
    Le32RoundTrip(s, 0, id);
    Le32RoundTrip(s, 4, n);
  }

  /** A header that announces a body, and the body. */
  function Framed(id: uint32, body: seq<byte>): seq<byte>
    requires |body| < 0x1_0000_0000
  {
    Header(id, |body|) + body
  }

  lemma FramedRead(id: uint32, body: seq<byte>, rest: seq<byte>)
    requires |body| < 0x1_0000_0000
    ensures
      var s := Framed(id, body) + rest;
      && |s| >= 8 + |body|
      && ReadLe32(s, 0) == id && ReadLe32(s, 4) == |body|
      && s[8..8 + |body|] == body && s[8 + |body|..] == rest
  {
    var s := Framed(id, body) + rest;
    assert s == Header(id, |body|) + (body + rest);
    HeaderRead(id, |body|, body + rest);
    assert s[8..] == body + rest;
    assert s[8..8 + |body|] == s[8..][..|body|];
    assert s[8 + |body|..] == s[8..][|body|..];
  }

  // ---- DATA ... DATA DONE ----

  datatype Chunks =
    | Finished(chunks: seq<seq<byte>>, mtime: uint32, rest: seq<byte>)
    | Short | Invalid | Oversize

  /** The loop of `handle_send_file` and `sync_recv` over the stream: DATA chunks up to DONE. */
  function ReadChunks(s: seq<byte>): Chunks
    decreases |s|
  {
    if |s| < 8 then Short
    else
      var id, len := ReadLe32(s, 0), ReadLe32(s, 4);
      if id == ID_DONE then Finished([], len, s[8..])
      else if id != ID_DATA then Invalid
      else if len > SYNC_DATA_MAX then Oversize
      else if |s| < 8 + len then Short
      else
        match ReadChunks(s[8 + len..])
        case Finished(chunks, mtime, rest) => Finished([s[8..8 + len]] + chunks, mtime, rest)
        case bad => bad
  }

  ghost predicate ChunksFit(chunks: seq<seq<byte>>) {
    forall i :: 0 <= i < |chunks| ==> |chunks[i]| <= SYNC_DATA_MAX
  }

  function DataBytes(chunks: seq<seq<byte>>): seq<byte>
    requires ChunksFit(chunks)
  {
    if chunks == [] then [] else Framed(ID_DATA, chunks[0]) + DataBytes(chunks[1..])
  }

  /** A chunk that announces more than 64 KiB, or a header that is neither DATA nor DONE, ends a transfer. */
  lemma BadChunkRefused(id: uint32, n: uint32, rest: seq<byte>)
    requires (id == ID_DATA && n > 64 * 1024) || (id != ID_DATA && id != ID_DONE)
    ensures !ReadChunks(Header(id, n) + rest).Finished?
  {
    HeaderRead(id, n, rest);
  }

  lemma {:induction false} DataBytesAppend(chunks: seq<seq<byte>>, c: seq<byte>)
    requires ChunksFit(chunks) && |c| <= SYNC_DATA_MAX
    ensures ChunksFit(chunks + [c]) && DataBytes(chunks + [c]) == DataBytes(chunks) + Framed(ID_DATA, c)
  {
    if chunks == [] {
      assert ([c])[1..] == [];
      assert chunks + [c] == [c];
      assert DataBytes([c]) == Framed(ID_DATA, c) + [];
    } else {
      DataBytesAppend(chunks[1..], c);
      assert (chunks + [c])[1..] == chunks[1..] + [c];
      Assoc(Framed(ID_DATA, chunks[0]), DataBytes(chunks[1..]), Framed(ID_DATA, c));
    }
  }

  /** Any chunking of a transfer is read back chunk by chunk, and the reader stops exactly at the end. */
  lemma {:induction false} ChunksRoundTrip(chunks: seq<seq<byte>>, mtime: uint32, rest: seq<byte>)
    requires ChunksFit(chunks)
    ensures ReadChunks(DataBytes(chunks) + Header(ID_DONE, mtime) + rest) == Finished(chunks, mtime, rest)
  {
    var s := DataBytes(chunks) + Header(ID_DONE, mtime) + rest;
    if chunks == [] {
      assert s == Header(ID_DONE, mtime) + rest;
      HeaderRead(ID_DONE, mtime, rest);
    } else {
      var more := DataBytes(chunks[1..]) + Header(ID_DONE, mtime) + rest;
      assert s == Framed(ID_DATA, chunks[0]) + more;
      FramedRead(ID_DATA, chunks[0], more);
      ChunksRoundTrip(chunks[1..], mtime, rest);
      assert [chunks[0]] + chunks[1..] == chunks;
    }
  }

  // ---- the name of a SEND: path, comma, decimal mode ----

  const COMMA: byte := 44
  const MINUS: byte := 45
  const PLUS: byte := 43

  /** `strrchr(s, ',')`. */
  function LastComma(s: seq<byte>): (k: Option<nat>)
    ensures k.Some? ==> k.value < |s| && s[k.value] == COMMA && COMMA !in s[k.value + 1..]
    ensures k.None? ==> COMMA !in s
  {
    if s == [] then None
    else if s[|s| - 1] == COMMA then Some(|s| - 1)
    else
      var k := LastComma(s[..|s| - 1]);
      assert s == s[..|s| - 1] + [s[|s| - 1]];
      assert k.Some? ==> s[k.value + 1..] == s[..|s| - 1][k.value + 1..] + [s[|s| - 1]];
      k
  }

  /** `snprintf("%d")` of a non-negative number. */
  function Decimal(n: nat): (s: seq<byte>)
    ensures |s| > 0
    ensures forall i :: 0 <= i < |s| ==> IsDigit(s[i])
    ensures s[0] == DIGIT_ZERO ==> n == 0 && |s| == 1
  {
    if n < 10 then [DIGIT_ZERO + n] else Decimal(n / 10) + [DIGIT_ZERO + n % 10]
  }

  /** The value of a run of digits in the given base, as strtoul accumulates it; stops at the first
      character that is not a digit of the base. */
  function Digits(s: seq<byte>, base: nat, acc: nat): nat
    decreases |s|
  {
    if s == [] then acc
    else
      var d := DigitValue(s[0]);
      if d >= base then acc else Digits(s[1..], base, acc * base + d)
  }

  function SkipSpaces(s: seq<byte>): seq<byte>
    decreases |s|
  {
    if s != [] && (s[0] == 32 || 9 <= s[0] <= 13) then SkipSpaces(s[1..]) else s
  }

  const ULONG_MAX := 0xFFFF_FFFF

  /** `strtoul(s, NULL, 0)` on a 32-bit device; `None` is the overflow that sets errno. */
  function Strtoul(text: seq<byte>): Option<uint32> {
    var s := SkipSpaces(text);
    var negative := s != [] && s[0] == MINUS;
    var t := if s != [] && (s[0] == MINUS || s[0] == PLUS) then s[1..] else s;
    var hex := |t| > 2 && t[0] == DIGIT_ZERO && (t[1] == 120 || t[1] == 88) && DigitValue(t[2]) < 16;
    var v := if hex then Digits(t[2..], 16, 0)
             else if t != [] && t[0] == DIGIT_ZERO then Digits(t, 8, 0)
             else Digits(t, 10, 0);
    if v > ULONG_MAX then None
    else if negative && v > 0 then Some(ULONG_MAX + 1 - v)
    else Some(v)
  }

  lemma {:induction false} DigitsAppend(s: seq<byte>, d: byte, base: nat, acc: nat)
    requires forall i :: 0 <= i < |s| ==> DigitValue(s[i]) < base
    requires DigitValue(d) < base
    ensures Digits(s + [d], base, acc) == Digits(s, base, acc) * base + DigitValue(d)
    decreases |s|
  {
    if s == [] {
      assert ([d])[1..] == [] && s + [d] == [d];
    } else {
      assert (s + [d])[1..] == s[1..] + [d];
      DigitsAppend(s[1..], d, base, acc * base + DigitValue(s[0]));
    }
  }

  lemma {:induction false} DecimalDigits(n: nat)
    ensures Digits(Decimal(n), 10, 0) == n
  {
    if n >= 10 {
      DecimalDigits(n / 10);
      DigitsAppend(Decimal(n / 10), DIGIT_ZERO + n % 10, 10, 0);
    } else {
      assert Decimal(n)[1..] == [];
    }
  }

  /** The printed mode is read back, base detection included. */
  lemma ModeRoundTrip(n: uint32)
    ensures Strtoul(Decimal(n)) == Some(n)
  {
    DecimalDigits(n);
    var s := Decimal(n);
    assert IsDigit(s[0]);
    if s[0] == DIGIT_ZERO {
      assert s == [DIGIT_ZERO];
      assert s[1..] == [];
      assert Digits(s, 8, 0) == 0;
    }
  }

  /** `do_send`: where the file goes and with which permission bits. */
  datatype Target = Target(path: seq<byte>, mode: nat, plain: bool)

  /** The name before its last comma and the mode after it; without a usable mode, 0644. */
  function SendTarget(name: seq<byte>): Target {
    match LastComma(name)
    case None => Target(name, 0x1A4, false)
    case Some(k) =>
      match Strtoul(name[k + 1..])
      case None => Target(name[..k], 0x1A4, false)
      case Some(mode) => Target(name[..k], mode % 512, true)
  }

  function SendName(path: seq<byte>, mode: uint32): seq<byte> {
    path + [COMMA] + Decimal(mode)
  }

  lemma NotBefore(s: seq<byte>, k: nat, j: nat)
    requires k < |s| && j < |s| && COMMA !in s[k + 1..] && s[j] == COMMA
    ensures j <= k
  {
    forall i | k < i < |s|
      ensures s[i] in s[k + 1..]
    {
      assert s[k + 1..][i - k - 1] == s[i];
    }
  }

  /** Whatever the path, commas included, the service recovers it and the permission bits. */
  lemma NameRoundTrip(path: seq<byte>, mode: uint32)
    ensures SendTarget(SendName(path, mode)) == Target(path, mode % 512, true)
  {
    var name := SendName(path, mode);
    var digits := Decimal(mode);
    assert name[|path|] == COMMA;
    var k := LastComma(name);
    assert COMMA in name;
    assert forall j :: |path| < j < |name| ==> IsDigit(name[j]) by {
      assert forall j :: |path| < j < |name| ==> name[j] == digits[j - |path| - 1];
    }
    NotBefore(name, k.value, |path|);
    assert name[|path| + 1..] == digits && name[..|path|] == path;
    ModeRoundTrip(mode);
  }

  /** Without a comma the whole name is the path; without a usable number behind the last comma the path
      is cut there all the same. In both cases the mode is 0644. */
  lemma DefaultMode(name: seq<byte>)
    ensures COMMA !in name ==> SendTarget(name) == Target(name, 6 * 64 + 4 * 8 + 4, false)
    ensures forall path, text: seq<byte> :: name == path + [COMMA] + text && COMMA !in text && Strtoul(text) == None ==>
      SendTarget(name) == Target(path, 6 * 64 + 4 * 8 + 4, false)
  {
    forall path, text: seq<byte> | name == path + [COMMA] + text && COMMA !in text && Strtoul(text) == None
      ensures SendTarget(name) == Target(path, 6 * 64 + 4 * 8 + 4, false)
    {
      CutAtLast(path, text);
    }
  }

  lemma CutAtLast(path: seq<byte>, text: seq<byte>)
    requires COMMA !in text
    ensures
      var name := path + [COMMA] + text;
      LastComma(name) == Some(|path|) && name[..|path|] == path && name[|path| + 1..] == text
  {
    var name := path + [COMMA] + text;
    var k := LastComma(name);
    assert name[|path|] == COMMA;
    assert COMMA in name;
    NotBefore(name, k.value, |path|);
    assert forall j :: |path| < j < |name| ==> name[j] == text[j - |path| - 1];
  }

  // ---- a connection ----

  /** One end of a connection: what can be read from it and what was written to it. */
  class Channel {
    var inbox: seq<byte>
    var outbox: seq<byte>

    constructor (inbox: seq<byte>)
      ensures this.inbox == inbox && outbox == []
    {
      this.inbox, outbox := inbox, [];
    }

    /** `readx`: all of it, or failure at the end of the stream. */
    method Readx(n: nat) returns (ok: bool, data: seq<byte>)
      modifies this`inbox
      ensures ok <==> n <= |old(inbox)|
      ensures ok ==> data == old(inbox)[..n] && inbox == old(inbox)[n..]
      ensures !ok ==> inbox == []
    {
      if n <= |inbox| {
        ok, data := true, inbox[..n];
        inbox := inbox[n..];
      } else {
        ok, data, inbox := false, [], [];
      }
    }

    /** `writex`. */
    method Writex(data: seq<byte>)
      modifies this`outbox
      ensures outbox == old(outbox) + data
    {
      outbox := outbox + data;
    }

    method ReadHeader() returns (ok: bool, id: uint32, n: uint32)
      modifies this`inbox
      ensures ok <==> 8 <= |old(inbox)|
      ensures ok ==> id == ReadLe32(old(inbox), 0) && n == ReadLe32(old(inbox), 4) && inbox == old(inbox)[8..]
      ensures !ok ==> inbox == []
    {
      var data;
      ok, data := Readx(8);
      id, n := 0, 0;
      if ok {
        id, n := ReadLe32(data, 0), ReadLe32(data, 4);
      }
    }
  }
}
