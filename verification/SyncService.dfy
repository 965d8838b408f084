/** The device side of the sync protocol: the command loop and its four handlers.

    The service is the one compiled without HAVE_SYMLINKS. What the file system answers is a `Fate`
    where the protocol depends on it. */
module SyncService {
  import opened Bytes
  import opened SyncMessages

  type Path = seq<byte>

  const S_IFREG := 0x8000

  /** A regular file; `mode` is its permission bits. */
  datatype File = File(content: seq<byte>, mode: nat, mtime: uint32)

  datatype Stat = Stat(mode: uint32, size: uint32, time: uint32)

  datatype Dent = Dent(mode: uint32, size: uint32, time: uint32, name: seq<byte>)

  /** Regular files by path, and what opendir/readdir/lstat say about each directory. */
  datatype Disk = Disk(files: map<Path, File>, dirs: map<Path, seq<Dent>>, dirStat: Stat)

  /** How the file system treats one SEND: does the destination open, and how many bytes it takes
      before a write fails; `reason` is the strerror text. */
  datatype Fate = Fate(opens: bool, room: nat, reason: seq<byte>)

  // ---- replies ----

  function Lstat(d: Disk, p: Path): Stat {
    if p in d.files then
      Stat(S_IFREG + d.files[p].mode % 0x1000, |d.files[p].content| % 0x1_0000_0000, d.files[p].mtime)
    else if p in d.dirs then d.dirStat
    else Stat(0, 0, 0)
  }

  function StatBytes(st: Stat): (s: seq<byte>)
    ensures |s| == 16
  {
    Header(ID_STAT, st.mode) + Le32(st.size) + Le32(st.time)
  }

  function DentBytes(id: uint32, e: Dent): (s: seq<byte>)
    requires |e.name| < 0x1_0000_0000
    ensures |s| == 20 + |e.name|
  {
    Header(id, e.mode) + Le32(e.size) + Le32(e.time) + Le32(|e.name|) + e.name
  }

  const NAME_MAX := 256

  /** The entries of a directory that `do_list` sends: names of up to 256 bytes. */
  function Listed(es: seq<Dent>): (r: seq<Dent>)
    ensures forall i :: 0 <= i < |r| ==> |r[i].name| <= NAME_MAX
  {
    if es == [] then []
    else (if |es[0].name| > NAME_MAX then [] else [es[0]]) + Listed(es[1..])
  }

  function DentsBytes(es: seq<Dent>): seq<byte>
    requires forall i :: 0 <= i < |es| ==> |es[i].name| <= NAME_MAX
  {
    if es == [] then [] else DentBytes(ID_DENT, es[0]) + DentsBytes(es[1..])
  }

  const EndOfList: seq<byte> := DentBytes(ID_DONE, Dent(0, 0, 0, []))

  function ListReply(d: Disk, p: Path): seq<byte> {
    (if p in d.dirs then DentsBytes(Listed(d.dirs[p])) else []) + EndOfList
  }

  function FailReply(reason: seq<byte>): seq<byte>
    requires |reason| < 0x1_0000_0000
  {
    Framed(ID_FAIL, reason)
  }

  const OkayReply: seq<byte> := Header(ID_OKAY, 0)

  ghost predicate RecvReply(d: Disk, p: Path, reply: seq<byte>) {
    if p in d.files then
      exists chunks :: ChunksFit(chunks) && Flatten(chunks) == d.files[p].content
                       && reply == DataBytes(chunks) + Header(ID_DONE, 0)
    else exists reason: seq<byte> :: |reason| < 0x1_0000_0000 && reply == FailReply(reason)
  }

  // ---- what a SEND does ----

  /** Permission bits after the service has copied the owner's to group and other. */
  function Spread(mode: nat): nat {
    var u, g, o := mode / 64 % 8, mode / 8 % 8, mode % 8;
    var g1 := Or(g, u);
    u * 64 + g1 * 8 + Or(o, g1)
  }

  /** Bitwise or of two octal digits. */
  function Or(a: nat, b: nat): nat {
    (if a / 4 % 2 == 1 || b / 4 % 2 == 1 then 4 else 0)
    + (if a / 2 % 2 == 1 || b / 2 % 2 == 1 then 2 else 0)
    + (if a % 2 == 1 || b % 2 == 1 then 1 else 0)
  }

  datatype Who = Owner | Group | Others
  datatype Right = Read | Write | Execute

  /** The permission bits of a mode, one by one. */
  predicate Allows(mode: nat, who: Who, right: Right) {
    var digit := match who case Owner => mode / 64 % 8 case Group => mode / 8 % 8 case Others => mode % 8;
    DigitAllows(digit, right)
  }

  predicate DigitAllows(digit: nat, right: Right) {
    match right case Read => digit / 4 % 2 == 1 case Write => digit / 2 % 2 == 1 case Execute => digit % 2 == 1
  }

  lemma OrAllows(a: nat, b: nat, right: Right)
    requires a < 8 && b < 8
    ensures Or(a, b) < 8 && (DigitAllows(Or(a, b), right) <==> DigitAllows(a, right) || DigitAllows(b, right))
  {
  }

  lemma OctalDigits(u: nat, g: nat, o: nat)
    requires u < 8 && g < 8 && o < 8
    ensures var m := u * 64 + g * 8 + o; m < 512 && m / 64 % 8 == u && m / 8 % 8 == g && m % 8 == o
  {
  }

  /** The owner's permissions stay; the group also gets the owner's, and others also get the group's. */
  lemma SpreadMeans(mode: nat, right: Right)
    ensures Spread(mode) < 512
    ensures Allows(Spread(mode), Owner, right) <==> Allows(mode, Owner, right)
    ensures Allows(Spread(mode), Group, right) <==> Allows(mode, Group, right) || Allows(mode, Owner, right)
    ensures Allows(Spread(mode), Others, right) <==>
            Allows(mode, Others, right) || Allows(mode, Group, right) || Allows(mode, Owner, right)
  {
    var u, g, o := mode / 64 % 8, mode / 8 % 8, mode % 8;
    OrAllows(g, u, right);
    OrAllows(o, Or(g, u), right);
    OctalDigits(u, Or(g, u), Or(o, Or(g, u)));
  }

  /** A file that is not truncated keeps what lies behind the new data. */
  lemma OverwriteMeans(old0: seq<byte>, data: seq<byte>)
    ensures |Overwrite(old0, data)| == if |old0| > |data| then |old0| else |data|
    ensures forall i :: 0 <= i < |Overwrite(old0, data)| ==> Overwrite(old0, data)[i] == if i < |data| then data[i] else old0[i]
  {
  }

  /** Exactly the entries with names of at most 256 bytes are listed. */
  lemma {:induction false} ListedHas(es: seq<Dent>, e: Dent)
    ensures e in Listed(es) <==> e in es && |e.name| <= 256
  {
    if es != [] {
      ListedHas(es[1..], e);
    }
  }

  /** Writing from the start of a file that is opened without truncation. */
  function Overwrite(old0: seq<byte>, data: seq<byte>): seq<byte> {
    data + if |old0| > |data| then old0[|data|..] else []
  }

  /** The regular file at a path is removed up front when the name carried a usable mode. */
  function Cleared(d: Disk, t: Target): map<Path, File> {
    if t.plain then d.files - {t.path} else d.files
  }

  function OldContent(files: map<Path, File>, p: Path): seq<byte> {
    if p in files then files[p].content else []
  }

  /** After a failed write the file is unlinked, unless it is a directory's path. */
  function Unlinks(d: Disk, t: Target): bool {
    !t.plain || t.path !in d.dirs
  }

  /** `handle_send_file` once its stream is complete: the files and the reply. */
  function FileEffect(files: map<Path, File>, unlinks: bool, t: Target, data: seq<byte>, mtime: uint32, f: Fate): (map<Path, File>, seq<byte>)
    requires |f.reason| < 0x1_0000_0000
  {
    var old0 := OldContent(files, t.path);
    if !f.opens then (files, FailReply(f.reason))
    else if f.room < |data| then
      (if unlinks then files - {t.path} else files[t.path := File(Overwrite(old0, data[..f.room]), Spread(t.mode), 0)],
       FailReply(f.reason))
    else (files[t.path := File(Overwrite(old0, data), Spread(t.mode), mtime)], OkayReply)
  }

  /** A whole SEND. */
  function SendEffect(d: Disk, t: Target, chunks: seq<seq<byte>>, mtime: uint32, f: Fate): (Disk, seq<byte>)
    requires |f.reason| < 0x1_0000_0000
  {
    var (files, reply) := FileEffect(Cleared(d, t), Unlinks(d, t), t, Flatten(chunks), mtime, f);
    (d.(files := files), reply)
  }

  /** A SEND whose name carried no usable mode does not remove the old file first: what lies behind the
      new data stays. A write that fails removes the file all the same. */
  lemma SendWithoutMode(d: Disk, t: Target, chunks: seq<seq<byte>>, mtime: uint32, f: Fate)
    requires |f.reason| < 0x1_0000_0000 && !t.plain
    ensures
      var (after, reply) := SendEffect(d, t, chunks, mtime, f);
      var old0 := if t.path in d.files then d.files[t.path].content else [];
      && (f.opens && |Flatten(chunks)| <= f.room ==>
            && reply == OkayReply && t.path in after.files
            && after.files[t.path] == File(Overwrite(old0, Flatten(chunks)), Spread(t.mode), mtime))
      && (f.opens && |Flatten(chunks)| > f.room ==> reply == FailReply(f.reason) && after.files == d.files - {t.path})
      && (!f.opens ==> reply == FailReply(f.reason) && after == d)
  {
  }

  // ---- the request stream ----

  datatype Request =
    | StatReq(path: Path)
    | ListReq(path: Path)
    | RecvReq(path: Path)
    | SendReq(target: Target, chunks: seq<seq<byte>>, mtime: uint32)

  datatype SessionEnd = Quit | Lost | BadName | Unknown | BadData(path: Path)

  datatype Session = Session(reqs: seq<Request>, end: SessionEnd, rest: seq<byte>)

  function Prepend(r: Request, s: Session): Session {
    s.(reqs := [r] + s.reqs)
  }

  /** What the command loop makes of a byte stream. */
  function ParseSession(s: seq<byte>): Session
    decreases |s|
  {
    if |s| < 8 then Session([], Lost, [])
    else
      var id, n := ReadLe32(s, 0), ReadLe32(s, 4);
      if n > MAX_NAME then Session([], BadName, s[8..])
      else if |s| < 8 + n then Session([], Lost, [])
      else
        var name, rest := CString(s[8..8 + n]), s[8 + n..];
        if id == ID_STAT then Prepend(StatReq(name), ParseSession(rest))
        else if id == ID_LIST then Prepend(ListReq(name), ParseSession(rest))
        else if id == ID_SEND then
          match ReadChunks(rest)
          case Finished(chunks, mtime, more) =>
            ChunksShrink(rest);
            Prepend(SendReq(SendTarget(name), chunks, mtime), ParseSession(more))
          case _ => Session([], BadData(SendTarget(name).path), [])
        else if id == ID_RECV then Prepend(RecvReq(name), ParseSession(rest))
        else if id == ID_QUIT then Session([], Quit, rest)
        else Session([], Unknown, rest)
  }

  lemma {:induction false} ChunksShrink(s: seq<byte>)
    ensures ReadChunks(s).Finished? ==> |ReadChunks(s).rest| <= |s|
    decreases |s|
  {
    if |s| >= 8 && ReadLe32(s, 0) == ID_DATA && ReadLe32(s, 4) <= SYNC_DATA_MAX && |s| >= 8 + ReadLe32(s, 4) {
      ChunksShrink(s[8 + ReadLe32(s, 4)..]);
    }
  }

  /** The stream behind its first request. */
  function Behind(s: seq<byte>): seq<byte> {
    if |s| < 8 || |s| < 8 + ReadLe32(s, 4) then []
    else
      var rest := s[8 + ReadLe32(s, 4)..];
      if ReadLe32(s, 0) == ID_SEND && ReadChunks(rest).Finished? then ReadChunks(rest).rest else rest
  }

  /** The disk after a session has ended: a SEND whose data broke off leaves no file at its path. */
  function AfterEnd(d: Disk, end: SessionEnd): Disk {
    if end.BadData? then d.(files := d.files - {end.path}) else d
  }

  /** What the service still writes when a session ends. */
  ghost predicate LastWord(end: SessionEnd, tail: seq<byte>) {
    match end
    case Quit => tail == []
    case Lost => tail == FailReply(Ascii("command read failure")) || tail == FailReply(Ascii("filename read failure"))
    case BadName => tail == FailReply(Ascii("invalid namelen"))
    case Unknown => tail == FailReply(Ascii("unknown command"))
    case BadData(_) => true
  }

  /** One request, its reply, and the disk before and after. */
  datatype Exchange = Exchange(req: Request, reply: seq<byte>, before: Disk, after: Disk)

  ghost predicate ExchangeOk(x: Exchange) {
    match x.req
    case StatReq(p) => x.after == x.before && x.reply == StatBytes(Lstat(x.before, p))
    case ListReq(p) => x.after == x.before && x.reply == ListReply(x.before, p)
    case RecvReq(p) => x.after == x.before && RecvReply(x.before, p, x.reply)
    case SendReq(t, chunks, mtime) =>
      exists f: Fate :: |f.reason| < 0x1_0000_0000 && SendEffect(x.before, t, chunks, mtime, f) == (x.after, x.reply)
  }

  /** A transcript: every exchange is right and each starts where the one before left the disk. */
  ghost predicate Transcript(log: seq<Exchange>, d0: Disk, d1: Disk) {
    if log == [] then d0 == d1
    else
      var last := log[|log| - 1];
      ExchangeOk(last) && last.after == d1 && Transcript(log[..|log| - 1], d0, last.before)
  }

  function Requests(log: seq<Exchange>): seq<Request> {
    if log == [] then [] else Requests(log[..|log| - 1]) + [log[|log| - 1].req]
  }

  function Replies(log: seq<Exchange>): seq<byte> {
    if log == [] then [] else Replies(log[..|log| - 1]) + log[|log| - 1].reply
  }

  /** At most the first `n` bytes. */
  function Take(s: seq<byte>, n: nat): seq<byte> {
    if |s| <= n then s else s[..n]
  }

  lemma TakeStep(a: seq<byte>, data: seq<byte>, n: nat)
    ensures |a| <= n ==> Take(Take(a, n) + data, n) == Take(a + data, n)
    ensures |a| > n ==> Take(a + data, n) == Take(a, n)
  {
  }

  /** Whether the destination is still open after `data` was offered to it, and what it holds. */
  function Copied(f: Fate, data: seq<byte>): (bool, seq<byte>) {
    if f.opens then (|data| <= f.room, Take(data, f.room)) else (false, [])
  }

  /** The failure reported while copying, if there was one. */
  function CopyReply(f: Fate, data: seq<byte>): seq<byte>
    requires |f.reason| < 0x1_0000_0000
  {
    if f.opens && |data| > f.room then FailReply(f.reason) else []
  }

  /** A parse result seen from a point where `done` has already been read. */
  function After(done: seq<seq<byte>>, c: Chunks): Chunks {
    if c.Finished? then Finished(done + c.chunks, c.mtime, c.rest) else c
  }

  lemma AfterAfter(a: seq<seq<byte>>, b: seq<seq<byte>>, c: Chunks)
    ensures After(a, After(b, c)) == After(a + b, c)
  {
    if c.Finished? {
      Assoc(a, b, c.chunks);
    }
  }

  /** A DATA header with its body in the stream. */
  predicate AtData(s: seq<byte>) {
    |s| >= 8 && ReadLe32(s, 0) == ID_DATA && ReadLe32(s, 4) <= SYNC_DATA_MAX && |s| >= 8 + ReadLe32(s, 4)
  }

  lemma ChunkStep(s: seq<byte>)
    requires AtData(s)
    ensures ReadChunks(s) == After([s[8..8 + ReadLe32(s, 4)]], ReadChunks(s[8 + ReadLe32(s, 4)..]))
  {
  }

  lemma AfterNext(done: seq<seq<byte>>, s: seq<byte>)
    requires AtData(s)
    ensures
      var len := ReadLe32(s, 4);
      After(done, ReadChunks(s)) == After(done + [s[8..8 + len]], ReadChunks(s[8 + len..]))
  {
    var len := ReadLe32(s, 4);
    ChunkStep(s);
    AfterAfter(done, [s[8..8 + len]], ReadChunks(s[8 + len..]));
  }

  // ---- the source's procedures ----

  /** How far a copy has come after `bytes`: what the destination holds and what has been replied. */
  ghost predicate CopyState(fate: Fate, bytes: seq<byte>, open: bool, content: seq<byte>, was: seq<byte>, now: seq<byte>)
    requires |fate.reason| < 0x1_0000_0000
  {
    (open, content) == Copied(fate, bytes) && now == was + CopyReply(fate, bytes)
  }

  /** The session is over with nothing more served: what has happened to the disk, what was written last,
      and where a QUIT leaves the stream. */
  ghost predicate Ended(s: seq<byte>, rest: seq<byte>, d: Disk, d': Disk, out: seq<byte>, out': seq<byte>) {
    var p := ParseSession(s);
    && p.reqs == [] && d' == AfterEnd(d, p.end)
    && out <= out' && LastWord(p.end, out'[|out|..])
    && (p.end == Quit ==> rest == p.rest)
  }

  /** One exchange: the right reply goes out, the disk follows, and the stream is the one behind the
      first request. */
  ghost predicate Served(s: seq<byte>, s': seq<byte>, d: Disk, d': Disk, out: seq<byte>, out': seq<byte>, x: Exchange) {
    && ExchangeOk(x) && x.before == d && x.after == d' && out' == out + x.reply
    && ParseSession(s) == Prepend(x.req, ParseSession(s'))
    && s' == Behind(s) && |s'| < |s|
  }

  /** The stream begins with this header and name, and `rest` follows. */
  ghost predicate CommandAt(s: seq<byte>, id: uint32, name: Path, rest: seq<byte>) {
    && |s| >= 8 && ReadLe32(s, 4) <= MAX_NAME && |s| >= 8 + ReadLe32(s, 4)
    && id == ReadLe32(s, 0) && name == CString(s[8..8 + ReadLe32(s, 4)]) && rest == s[8 + ReadLe32(s, 4)..]
  }

  lemma ServedBy(s: seq<byte>, s': seq<byte>, d: Disk, d': Disk, out: seq<byte>, out': seq<byte>, x: Exchange)
    requires |s| >= 8 && ReadLe32(s, 4) <= MAX_NAME && |s| >= 8 + ReadLe32(s, 4)
    requires ExchangeOk(x) && x.before == d && x.after == d' && out' == out + x.reply
    requires
      var id, name, body := ReadLe32(s, 0), CString(s[8..8 + ReadLe32(s, 4)]), s[8 + ReadLe32(s, 4)..];
      || (id == ID_STAT && x.req == StatReq(name) && s' == body)
      || (id == ID_LIST && x.req == ListReq(name) && s' == body)
      || (id == ID_RECV && x.req == RecvReq(name) && s' == body)
      || (id == ID_SEND && ReadChunks(body).Finished? && s' == ReadChunks(body).rest
          && x.req == SendReq(SendTarget(name), ReadChunks(body).chunks, ReadChunks(body).mtime))
    ensures Served(s, s', d, d', out, out', x)
  {
    ParseStep(s, x.req);
  }

  lemma EndedBy(s: seq<byte>, rest: seq<byte>, d: Disk, d': Disk, out: seq<byte>, out': seq<byte>)
    requires |s| >= 8 && ReadLe32(s, 4) <= MAX_NAME && |s| >= 8 + ReadLe32(s, 4)
    requires
      var id, name, body := ReadLe32(s, 0), CString(s[8..8 + ReadLe32(s, 4)]), s[8 + ReadLe32(s, 4)..];
      && id != ID_STAT && id != ID_LIST && id != ID_RECV && (id == ID_SEND ==> !ReadChunks(body).Finished?)
      && (id != ID_SEND ==> rest == body)
      && d' == (if id == ID_SEND then d.(files := d.files - {SendTarget(name).path}) else d)
      && (id == ID_SEND ==> out <= out')
      && (id != ID_SEND ==> out' == out + if id == ID_QUIT then [] else FailReply(Ascii("unknown command")))
    ensures Ended(s, rest, d, d', out, out')
  {
    assert ReadLe32(s, 0) != ID_SEND ==>
      out'[|out|..] == if ReadLe32(s, 0) == ID_QUIT then [] else FailReply(Ascii("unknown command"));
  }

  class Service {
    const wire: Channel
    var disk: Disk
    ghost var log: seq<Exchange>

    constructor (wire: Channel, disk: Disk)
      ensures this.wire == wire && this.disk == disk && log == []
    {
      this.wire, this.disk, log := wire, disk, [];
    }

    /** `do_stat`. */
    method DoStat(path: Path)
      modifies wire`outbox
      ensures wire.outbox == old(wire.outbox) + StatBytes(Lstat(disk, path))
    {
      var st := Lstat(disk, path);
      wire.Writex(Header(ID_STAT, st.mode) + Le32(st.size) + Le32(st.time));
    }

    /** `do_list`. */
    method DoList(path: Path)
      modifies wire`outbox
      ensures wire.outbox == old(wire.outbox) + ListReply(disk, path)
    {
      if path in disk.dirs {
        SendDents(disk.dirs[path]);
        Assoc(old(wire.outbox), DentsBytes(Listed(disk.dirs[path])), EndOfList);
      } else {
        assert [] + EndOfList == EndOfList;
      }
      wire.Writex(EndOfList);
    }

    /** The readdir loop of `do_list`. */
    method SendDents(es: seq<Dent>)
      modifies wire`outbox
      ensures wire.outbox == old(wire.outbox) + DentsBytes(Listed(es))
    {
      var i := 0;
      assert wire.outbox + [] == wire.outbox;
      while i < |es|
        invariant 0 <= i <= |es| && wire.outbox == old(wire.outbox) + DentsBytes(Listed(es[..i]))
      {
        assert es[..i + 1] == es[..i] + [es[i]];
        ListedAppend(es[..i], es[i]);
        if |es[i].name| <= NAME_MAX {
          Assoc(old(wire.outbox), DentsBytes(Listed(es[..i])), DentBytes(ID_DENT, es[i]));
          wire.Writex(DentBytes(ID_DENT, es[i]));
        }
        i := i + 1;
      }
      assert es[..i] == es;
    }

    /** `do_recv`: the file in chunks of whatever size the file system returns, then DONE. */
    method DoRecv(path: Path, reason: seq<byte>) returns (ghost reply: seq<byte>)
      requires |reason| < 0x1_0000_0000
      modifies wire`outbox
      ensures RecvReply(disk, path, reply) && wire.outbox == old(wire.outbox) + reply
    {
      if path !in disk.files {
        wire.Writex(FailReply(reason));
        return FailReply(reason);
      }
      var content := disk.files[path].content;
      ghost var chunks: seq<seq<byte>> := [];
      var i := 0;
      while i < |content|
        invariant 0 <= i <= |content| && ChunksFit(chunks) && Flatten(chunks) == content[..i]
        invariant wire.outbox == old(wire.outbox) + DataBytes(chunks)
      {
        var r :| 0 < r <= SYNC_DATA_MAX && i + r <= |content|;
        var c := content[i..i + r];
        FlattenConcat(chunks, [c]);
        FlattenOne(c);
        assert content[..i] + c == content[..i + r];
        DataBytesAppend(chunks, c);
        Assoc(old(wire.outbox), DataBytes(chunks), Framed(ID_DATA, c));
        wire.Writex(Framed(ID_DATA, c));
        chunks := chunks + [c];
        i := i + r;
      }
      assert content[..i] == content;
      Assoc(old(wire.outbox), DataBytes(chunks), Header(ID_DONE, 0));
      wire.Writex(Header(ID_DONE, 0));
      reply := DataBytes(chunks) + Header(ID_DONE, 0);
    }

    /** One header of the DATA loop; a DATA header brings its body with it. */
    method ReadChunk() returns (ok: bool, last: bool, data: seq<byte>, mtime: uint32)
      modifies wire`inbox, wire`outbox
      ensures ok && !last ==> AtData(old(wire.inbox)) && data == old(wire.inbox)[8..8 + ReadLe32(old(wire.inbox), 4)]
                              && wire.inbox == old(wire.inbox)[8 + ReadLe32(old(wire.inbox), 4)..]
      ensures ok && last ==> ReadChunks(old(wire.inbox)) == Finished([], mtime, wire.inbox)
      ensures ok ==> wire.outbox == old(wire.outbox) && |wire.inbox| < |old(wire.inbox)|
      ensures !ok ==> !ReadChunks(old(wire.inbox)).Finished? && old(wire.outbox) <= wire.outbox
    {
      var id, n;
      ghost var s := wire.inbox;
      last, data, mtime := false, [], 0;
      ok, id, n := wire.ReadHeader();
      if !ok {
        return;
      }
      if id != ID_DATA {
        if id == ID_DONE {
          last, mtime := true, n;
          return;
        }
        wire.Writex(FailReply(Ascii("invalid data message")));
        ok := false;
        return;
      }
      if n > SYNC_DATA_MAX {
        wire.Writex(FailReply(Ascii("oversize data message")));
        ok := false;
        return;
      }
      ok, data := wire.Readx(n);
      assert ok ==> data == s[8..8 + n] && wire.inbox == s[8 + n..];
    }

    /** `handle_send_file`. It returns 0 exactly when the data stream was complete, and then the
        stream stands at the next request, whether or not the file could be opened and written. */
    method HandleSendFile(t: Target, unlinks: bool, fate: Fate) returns (ok: bool)
      requires |fate.reason| < 0x1_0000_0000
      modifies wire`inbox, wire`outbox, this`disk
      ensures ok <==> ReadChunks(old(wire.inbox)).Finished?
      ensures ok ==>
        var c := ReadChunks(old(wire.inbox));
        var (files, reply) := FileEffect(old(disk.files), unlinks, t, Flatten(c.chunks), c.mtime, fate);
        wire.inbox == c.rest && disk == old(disk).(files := files) && wire.outbox == old(wire.outbox) + reply
      ensures !ok ==> disk == (if unlinks then old(disk).(files := old(disk.files) - {t.path}) else old(disk))
      ensures old(wire.outbox) <= wire.outbox
    {
      if !fate.opens {
        wire.Writex(FailReply(fate.reason));
      }
      var open, content, mtime;
      ok, open, content, mtime := CopyData(fate);
      if ok {
        Settle(t, unlinks, fate, open, content, mtime);
        if open {
          wire.Writex(OkayReply);
        }
      } else if unlinks {
        disk := disk.(files := disk.files - {t.path});
      }
    }

    /** The DATA loop of `handle_send_file`: chunks are written while the descriptor is open and
        drained after a failed write. */
    method CopyData(fate: Fate) returns (ok: bool, open: bool, content: seq<byte>, mtime: uint32)
      requires |fate.reason| < 0x1_0000_0000
      modifies wire`inbox, wire`outbox
      ensures ok <==> ReadChunks(old(wire.inbox)).Finished?
      ensures ok ==>
        var c := ReadChunks(old(wire.inbox));
        && mtime == c.mtime && wire.inbox == c.rest
        && (open, content) == Copied(fate, Flatten(c.chunks))
        && wire.outbox == old(wire.outbox) + CopyReply(fate, Flatten(c.chunks))
      ensures old(wire.outbox) <= wire.outbox
    {
      open, content, mtime := fate.opens, [], 0;
      ghost var done: seq<seq<byte>> := [];
      ghost var all, out := ReadChunks(wire.inbox), wire.outbox;
      AfterNil(all);
      var ended := false;
      while !ended
        invariant !ended ==> After(done, ReadChunks(wire.inbox)) == all
        invariant ended ==> all == Finished(done, mtime, wire.inbox)
        invariant CopyState(fate, Flatten(done), open, content, out, wire.outbox)
        decreases if ended then 0 else 1, |wire.inbox|
      {
        ok, ended, open, content, mtime, done := CopyNext(fate, open, content, done, out);
        if !ok {
          return;
        }
      }
      ok := true;
    }

    /** One turn of that loop. */
    method CopyNext(fate: Fate, wasOpen: bool, had: seq<byte>, ghost done: seq<seq<byte>>, ghost out: seq<byte>)
      returns (ok: bool, last: bool, open: bool, content: seq<byte>, mtime: uint32, ghost done': seq<seq<byte>>)
      requires |fate.reason| < 0x1_0000_0000 && CopyState(fate, Flatten(done), wasOpen, had, out, wire.outbox)
      modifies wire`inbox, wire`outbox
      ensures
        var all := After(done, ReadChunks(old(wire.inbox)));
        if !ok then !all.Finished? && old(wire.outbox) <= wire.outbox
        else
          && CopyState(fate, Flatten(done'), open, content, out, wire.outbox)
          && (if last then all == Finished(done', mtime, wire.inbox)
              else all == After(done', ReadChunks(wire.inbox)) && |wire.inbox| < |old(wire.inbox)|)
    {
      ghost var s := wire.inbox;
      var data;
      open, content, done' := wasOpen, had, done;
      ok, last, data, mtime := ReadChunk();
      if !ok {
        return;
      }
      if last {
        assert done + [] == done;
      } else {
        AfterNext(done, s);
        FlattenConcat(done, [data]);
        FlattenOne(data);
        open, content := WriteChunk(fate, open, content, data, Flatten(done), out);
        done' := done + [data];
      }
    }

    /** One chunk: written while the destination is open; a failed write closes it and is reported. */
    method WriteChunk(fate: Fate, wasOpen: bool, had: seq<byte>, data: seq<byte>, ghost before: seq<byte>, ghost out: seq<byte>)
      returns (open: bool, content: seq<byte>)
      requires |fate.reason| < 0x1_0000_0000 && CopyState(fate, before, wasOpen, had, out, wire.outbox)
      modifies wire`outbox
      ensures CopyState(fate, before + data, open, content, out, wire.outbox)
    {
      open, content := wasOpen, had;
      TakeStep(before, data, fate.room);
      if open {
        content := Take(content + data, fate.room);
        if |had| + |data| > fate.room {
          open := false;
          wire.Writex(FailReply(fate.reason));
          assert out + [] == out;
        }
      }
    }

    /** What the finished transfer leaves on the disk. */
    method Settle(t: Target, unlinks: bool, fate: Fate, open: bool, content: seq<byte>, mtime: uint32)
      modifies this`disk
      ensures
        var old0 := OldContent(old(disk.files), t.path);
        disk == old(disk).(files :=
          if !fate.opens then old(disk.files)
          else if open then old(disk.files)[t.path := File(Overwrite(old0, content), Spread(t.mode), mtime)]
          else if unlinks then old(disk.files) - {t.path}
          else old(disk.files)[t.path := File(Overwrite(old0, content), Spread(t.mode), 0)])
    {
      var old0 := OldContent(disk.files, t.path);
      if fate.opens {
        if open {
          disk := disk.(files := disk.files[t.path := File(Overwrite(old0, content), Spread(t.mode), mtime)]);
        } else if unlinks {
          disk := disk.(files := disk.files - {t.path});
        } else {
          disk := disk.(files := disk.files[t.path := File(Overwrite(old0, content), Spread(t.mode), 0)]);
        }
      }
    }

    /** `do_send`. */
    method DoSend(name: seq<byte>, fate: Fate) returns (ok: bool)
      requires |fate.reason| < 0x1_0000_0000
      modifies wire`inbox, wire`outbox, this`disk
      ensures ok <==> ReadChunks(old(wire.inbox)).Finished?
      ensures ok ==>
        var c := ReadChunks(old(wire.inbox));
        var (d, reply) := SendEffect(old(disk), SendTarget(name), c.chunks, c.mtime, fate);
        wire.inbox == c.rest && disk == d && wire.outbox == old(wire.outbox) + reply
      ensures !ok ==> disk == old(disk).(files := old(disk.files) - {SendTarget(name).path})
      ensures old(wire.outbox) <= wire.outbox
    {
      var t := SendTarget(name);
      var unlinks := Unlinks(disk, t);
      if t.plain {
        disk := disk.(files := disk.files - {t.path});
      }
      ok := HandleSendFile(t, unlinks, fate);
    }

    /** One request of the command loop after its header and name; false ends the session. */
    method Serve(id: uint32, name: Path) returns (go: bool, ghost x: Exchange)
      modifies wire`inbox, wire`outbox, this`disk
      ensures go ==>
        && ExchangeOk(x) && x.before == old(disk) && x.after == disk
        && wire.outbox == old(wire.outbox) + x.reply
        && (id == ID_STAT ==> x.req == StatReq(name) && wire.inbox == old(wire.inbox))
        && (id == ID_LIST ==> x.req == ListReq(name) && wire.inbox == old(wire.inbox))
        && (id == ID_RECV ==> x.req == RecvReq(name) && wire.inbox == old(wire.inbox))
        && (id == ID_SEND ==>
              ReadChunks(old(wire.inbox)).Finished? &&
              var c := ReadChunks(old(wire.inbox));
              x.req == SendReq(SendTarget(name), c.chunks, c.mtime) && wire.inbox == c.rest)
      ensures go <==> id == ID_STAT || id == ID_LIST || id == ID_RECV || (id == ID_SEND && ReadChunks(old(wire.inbox)).Finished?)
      ensures id != ID_SEND ==> wire.inbox == old(wire.inbox)
      ensures !go ==> disk == if id == ID_SEND then old(disk).(files := old(disk.files) - {SendTarget(name).path}) else old(disk)
      ensures !go && id == ID_SEND ==> old(wire.outbox) <= wire.outbox
      ensures !go && id != ID_SEND ==>
        wire.outbox == old(wire.outbox) + if id == ID_QUIT then [] else FailReply(Ascii("unknown command"))
    {
      go := true;
      ghost var d, reply := disk, [];
      x := Exchange(StatReq(name), [], d, d);
      if id == ID_STAT {
        DoStat(name);
        x := Exchange(StatReq(name), StatBytes(Lstat(disk, name)), d, disk);
      } else if id == ID_LIST {
        DoList(name);
        x := Exchange(ListReq(name), ListReply(disk, name), d, disk);
      } else if id == ID_SEND {
        assert |Fate(true, 0, []).reason| < 0x1_0000_0000;
        var fate: Fate :| |fate.reason| < 0x1_0000_0000;
        go := DoSend(name, fate);
        ghost var c := ReadChunks(old(wire.inbox));
        if go {
          x := Exchange(SendReq(SendTarget(name), c.chunks, c.mtime),
                        SendEffect(d, SendTarget(name), c.chunks, c.mtime, fate).1, d, disk);
        }
      } else if id == ID_RECV {
        var reason: seq<byte> :| |reason| < 0x1_0000_0000;
        reply := DoRecv(name, reason);
        x := Exchange(RecvReq(name), reply, d, disk);
      } else {
        go := false;
        if id != ID_QUIT {
          wire.Writex(FailReply(Ascii("unknown command")));
        }
      }
    }

    /** One turn of the command loop. */
    method ServeNext() returns (go: bool)
      modifies this, wire
      ensures go ==>
        && log != [] && log[..|log| - 1] == old(log)
        && Served(old(wire.inbox), wire.inbox, old(disk), disk, old(wire.outbox), wire.outbox, log[|log| - 1])
      ensures !go ==> log == old(log) && Ended(old(wire.inbox), wire.inbox, old(disk), disk, old(wire.outbox), wire.outbox)
    {
      ghost var s := wire.inbox;
      var ok, id, name := ReadCommand();
      go := false;
      if ok {
        ghost var x;
        go, x := ServeNamed(id, name, s);
        if go {
          log := log + [x];
        }
      }
    }

    /** The same, once the header and the name of the request have been read from the stream `s`. */
    method ServeNamed(id: uint32, name: Path, ghost s: seq<byte>) returns (go: bool, ghost x: Exchange)
      requires CommandAt(s, id, name, wire.inbox)
      modifies wire`inbox, wire`outbox, this`disk
      ensures go ==> Served(s, wire.inbox, old(disk), disk, old(wire.outbox), wire.outbox, x)
      ensures !go ==> Ended(s, wire.inbox, old(disk), disk, old(wire.outbox), wire.outbox)
    {
      ghost var d, out := disk, wire.outbox;
      go, x := Serve(id, name);
      if go {
        ServedBy(s, wire.inbox, d, disk, out, wire.outbox, x);
      } else {
        EndedBy(s, wire.inbox, d, disk, out, wire.outbox);
      }
    }

    /** The header and name of a request. */
    method ReadCommand() returns (ok: bool, id: uint32, name: Path)
      modifies wire`inbox, wire`outbox
      ensures ok ==> CommandAt(old(wire.inbox), id, name, wire.inbox) && wire.outbox == old(wire.outbox)
      ensures !ok ==> Ended(old(wire.inbox), wire.inbox, disk, disk, old(wire.outbox), wire.outbox)
    {
      ghost var s := wire.inbox;
      var n;
      name := [];
      ok, id, n := wire.ReadHeader();
      if !ok {
        wire.Writex(FailReply(Ascii("command read failure")));
        return;
      }
      if n > MAX_NAME {
        wire.Writex(FailReply(Ascii("invalid namelen")));
        ok := false;
        return;
      }
      ok, name := wire.Readx(n);
      if !ok {
        wire.Writex(FailReply(Ascii("filename read failure")));
        return;
      }
      assert name == s[8..8 + n] && wire.inbox == s[8 + n..];
      name := CString(name);
    }

    /** `file_sync_service`: the requests it serves are exactly the parse of the stream, and their
        replies go out in order. However the session ends, the disk is the one that the served requests
        leave, but for the file of a SEND that broke off; and after QUIT nothing more is written and the
        stream stands right behind the QUIT. `served` is the disk when the last request was served. */
    method FileSyncService() returns (ghost served: Disk)
      requires log == []
      modifies this, wire
      ensures
        var p := ParseSession(old(wire.inbox));
        && Requests(log) == p.reqs && Transcript(log, old(disk), served) && disk == AfterEnd(served, p.end)
        && (p.end == Quit ==> wire.inbox == p.rest)
        && old(wire.outbox) + Replies(log) <= wire.outbox
        && LastWord(p.end, wire.outbox[|old(wire.outbox) + Replies(log)|..])
    {
      ghost var out, all := wire.outbox, ParseSession(wire.inbox);
      served := disk;
      assert out == out + [];
      AheadNil(all);
      var go := true;
      while go
        invariant Transcript(log, old(disk), served)
        invariant go ==> served == disk && wire.outbox == out + Replies(log) && all == Ahead(Requests(log), ParseSession(wire.inbox))
        invariant !go ==> Requests(log) == all.reqs && disk == AfterEnd(served, all.end) && (all.end == Quit ==> wire.inbox == all.rest)
        invariant !go ==> out + Replies(log) <= wire.outbox && LastWord(all.end, wire.outbox[|out + Replies(log)|..])
        decreases go, |wire.inbox|
      {
        ghost var l := log;
        go := ServeNext();
        if go {
          AheadStep(Requests(l), log[|log| - 1].req, ParseSession(wire.inbox));
          Assoc(out, Replies(l), log[|log| - 1].reply);
          served := disk;
        } else {
          assert Requests(l) + [] == Requests(l);
        }
      }
    }
  }

  lemma AheadNil(s: Session)
    ensures Ahead([], s) == s
  {
    assert [] + s.reqs == s.reqs;
  }

  lemma AheadStep(reqs: seq<Request>, r: Request, s: Session)
    ensures Ahead(reqs, Prepend(r, s)) == Ahead(reqs + [r], s)
  {
    Assoc(reqs, [r], s.reqs);
  }

  /** A session seen from a point where `reqs` have been served. */
  function Ahead(reqs: seq<Request>, s: Session): Session {
    s.(reqs := reqs + s.reqs)
  }

  /** The stream after one whole request. */
  lemma ParseStep(s: seq<byte>, r: Request)
    requires |s| >= 8 && ReadLe32(s, 4) <= MAX_NAME && |s| >= 8 + ReadLe32(s, 4)
    requires
      var name, rest := CString(s[8..8 + ReadLe32(s, 4)]), s[8 + ReadLe32(s, 4)..];
      var id := ReadLe32(s, 0);
      || (id == ID_STAT && r == StatReq(name)) || (id == ID_LIST && r == ListReq(name)) || (id == ID_RECV && r == RecvReq(name))
      || (id == ID_SEND && ReadChunks(rest).Finished?
          && r == SendReq(SendTarget(name), ReadChunks(rest).chunks, ReadChunks(rest).mtime))
    ensures
      var rest := s[8 + ReadLe32(s, 4)..];
      var more := if ReadLe32(s, 0) == ID_SEND then ReadChunks(rest).rest else rest;
      |more| < |s| && more == Behind(s) && ParseSession(s) == Prepend(r, ParseSession(more))
  {
    ChunksShrink(s[8 + ReadLe32(s, 4)..]);
  }

  lemma AfterNil(c: Chunks)
    ensures After([], c) == c
  {
    if c.Finished? {
      assert [] + c.chunks == c.chunks;
    }
  }

  lemma {:induction false} ListedAppend(es: seq<Dent>, e: Dent)
    ensures Listed(es + [e]) == Listed(es) + if |e.name| > NAME_MAX then [] else [e]
    ensures |e.name| > NAME_MAX ==> DentsBytes(Listed(es + [e])) == DentsBytes(Listed(es))
    ensures |e.name| <= NAME_MAX ==> DentsBytes(Listed(es + [e])) == DentsBytes(Listed(es)) + DentBytes(ID_DENT, e)
  {
    ListedConcat(es, e);
    if |e.name| <= NAME_MAX {
      DentsAppend(Listed(es), e);
    } else {
      assert Listed(es) + [] == Listed(es);
    }
  }

  lemma {:induction false} ListedConcat(es: seq<Dent>, e: Dent)
    ensures Listed(es + [e]) == Listed(es) + if |e.name| > NAME_MAX then [] else [e]
  {
    if es == [] {
      assert es + [e] == [e] && [e][1..] == [];
    } else {
      assert (es + [e])[1..] == es[1..] + [e];
      ListedConcat(es[1..], e);
    }
  }

  lemma {:induction false} DentsAppend(es: seq<Dent>, e: Dent)
    requires (forall i :: 0 <= i < |es| ==> |es[i].name| <= NAME_MAX) && |e.name| <= NAME_MAX
    ensures DentsBytes(es + [e]) == DentsBytes(es) + DentBytes(ID_DENT, e)
  {
    if es == [] {
      assert es + [e] == [e] && [e][1..] == [];
      assert DentsBytes([e]) == DentBytes(ID_DENT, e) + [];
    } else {
      assert (es + [e])[1..] == es[1..] + [e];
      DentsAppend(es[1..], e);
      Assoc(DentBytes(ID_DENT, es[0]), DentsBytes(es[1..]), DentBytes(ID_DENT, e));
    }
  }
}
