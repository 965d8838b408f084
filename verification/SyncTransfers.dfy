/** The client's procedures, and whole transfers: client, then service, then client again. */
module SyncTransfers {
  import opened Bytes
  import opened SyncMessages
  import opened SyncService
  import opened SyncClient

  /** `S_ISREG`. */
  predicate IsRegular(mode: uint32) {
    mode / 0x1000 % 16 == 8
  }

  class Client {
    const wire: Channel

    constructor (wire: Channel)
      ensures this.wire == wire
    {
      this.wire := wire;
    }

    /** `write_data_buffer`: pieces of SYNC_DATA_MAX bytes from memory. */
    method WriteDataBuffer(file: seq<byte>) returns (ghost chunks: seq<seq<byte>>)
      modifies wire`outbox
      ensures ChunksFit(chunks) && Flatten(chunks) == file
      ensures wire.outbox == old(wire.outbox) + DataBytes(chunks)
    {
      chunks := [];
      var total := 0;
      assert file[..0] == [];
      while total < |file|
        invariant 0 <= total <= |file| && ChunksFit(chunks) && Flatten(chunks) == file[..total]
        invariant wire.outbox == old(wire.outbox) + DataBytes(chunks)
      {
        var count := |file| - total;
        if count > SYNC_DATA_MAX {
          count := SYNC_DATA_MAX;
        }
        chunks := WriteChunk(file, total, count, chunks, old(wire.outbox));
        total := total + count;
      }
      assert file[..total] == file;
    }

    /** `write_data_file`: pieces of whatever size the file system returns. */
    method WriteDataFile(file: seq<byte>) returns (ghost chunks: seq<seq<byte>>)
      modifies wire`outbox
      ensures ChunksFit(chunks) && Flatten(chunks) == file
      ensures wire.outbox == old(wire.outbox) + DataBytes(chunks)
    {
      chunks := [];
      var total := 0;
      assert file[..0] == [];
      while total < |file|
        invariant 0 <= total <= |file| && ChunksFit(chunks) && Flatten(chunks) == file[..total]
        invariant wire.outbox == old(wire.outbox) + DataBytes(chunks)
      {
        var ret :| 0 < ret <= SYNC_DATA_MAX && total + ret <= |file|;
        chunks := WriteChunk(file, total, ret, chunks, old(wire.outbox));
        total := total + ret;
      }
      assert file[..total] == file;
    }

    /** One filled `syncsendbuf` on its way out. */
    method WriteChunk(file: seq<byte>, total: nat, count: nat, ghost chunks: seq<seq<byte>>, ghost out: seq<byte>)
      returns (ghost chunks': seq<seq<byte>>)
      requires total + count <= |file| && count <= SYNC_DATA_MAX
      requires ChunksFit(chunks) && Flatten(chunks) == file[..total] && wire.outbox == out + DataBytes(chunks)
      modifies wire`outbox
      ensures ChunksFit(chunks') && Flatten(chunks') == file[..total + count] && wire.outbox == out + DataBytes(chunks')
    {
      var piece := file[total..total + count];
      chunks' := chunks + [piece];
      FlattenConcat(chunks, [piece]);
      FlattenOne(piece);
      assert file[..total] + piece == file[..total + count];
      DataBytesAppend(chunks, piece);
      Assoc(out, DataBytes(chunks), Framed(ID_DATA, piece));
      wire.Writex(Framed(ID_DATA, piece));
    }

    /** `sync_send` up to the status: request, data and DONE. `buffered` is the APK case. */
    method SyncSend(rpath: Path, mode: uint32, mtime: uint32, file: seq<byte>, buffered: bool)
      returns (ok: bool, ghost chunks: seq<seq<byte>>)
      requires 0 !in rpath
      modifies wire`outbox
      ensures ok <==> |rpath| <= MAX_NAME && (buffered || IsRegular(mode))
      ensures ok ==>
        && ChunksFit(chunks) && Flatten(chunks) == file && OpOk(SendOp(rpath, mode, chunks, mtime))
        && wire.outbox == old(wire.outbox) + OpBytes(SendOp(rpath, mode, chunks, mtime))
    {
      chunks := [];
      if |rpath| > MAX_NAME {
        return false, [];
      }
      DecimalShort(mode);
      ghost var out, head := wire.outbox, Framed(ID_SEND, SendName(rpath, mode));
      wire.Writex(Framed(ID_SEND, SendName(rpath, mode)));
      if buffered {
        chunks := WriteDataBuffer(file);
      } else if IsRegular(mode) {
        chunks := WriteDataFile(file);
      } else {
        return false, [];
      }
      wire.Writex(Header(ID_DONE, mtime));
      Assoc(out + head, DataBytes(chunks), Header(ID_DONE, mtime));
      Assoc(out, head, DataBytes(chunks) + Header(ID_DONE, mtime));
      ok := true;
    }

    /** The end of `sync_send`: 0 exactly on OKAY. */
    method SendStatus() returns (ok: bool)
      modifies wire`inbox
      ensures ok <==> |old(wire.inbox)| >= 8 && ReadLe32(old(wire.inbox), 0) == ID_OKAY
    {
      var got, id, n := wire.ReadHeader();
      ok := got && id == ID_OKAY;
      if got && id == ID_FAIL {
        var len := if n > 256 then 256 else n;
        var more, text := wire.Readx(len);
      }
    }

    /** `sync_quit`. */
    method SyncQuit()
      modifies wire`outbox
      ensures wire.outbox == old(wire.outbox) + QuitBytes
    {
      wire.Writex(Header(ID_QUIT, 0));
    }

    /** The request half of `sync_recv`, `sync_ls` and the STAT calls. */
    method Ask(op: ClientOp)
      requires OpOk(op) && !op.SendOp?
      modifies wire`outbox
      ensures wire.outbox == old(wire.outbox) + OpBytes(op)
    {
      assert OpBytes(op) == Framed(OpId(op), op.path);
      wire.Writex(Framed(OpId(op), op.path));
    }

    /** The reply half of `sync_recv`: the file, when the stream of chunks is complete. */
    method ReceiveFile() returns (file: Option<seq<byte>>)
      modifies wire`inbox
      ensures
        var c := ReadChunks(old(wire.inbox));
        && (file.Some? <==> c.Finished?)
        && (c.Finished? ==> file.value == Flatten(c.chunks) && wire.inbox == c.rest)
    {
      var content: seq<byte> := [];
      ghost var done: seq<seq<byte>> := [];
      AfterNil(ReadChunks(wire.inbox));
      while true
        invariant After(done, ReadChunks(wire.inbox)) == ReadChunks(old(wire.inbox)) && content == Flatten(done)
        decreases |wire.inbox|
      {
        ghost var s := wire.inbox;
        var ok, id, n := wire.ReadHeader();
        if !ok {
          return None;
        }
        if id == ID_DONE {
          assert done + [] == done;
          return Some(content);
        }
        if id != ID_DATA {
          if id == ID_FAIL {
            var len := if n > 256 then 256 else n;
            var more, text := wire.Readx(len);
          }
          return None;
        }
        if n > SYNC_DATA_MAX {
          return None;
        }
        var data;
        ok, data := wire.Readx(n);
        if !ok {
          return None;
        }
        assert data == s[8..8 + n] && wire.inbox == s[8 + n..];
        AfterNext(done, s);
        FlattenConcat(done, [data]);
        FlattenOne(data);
        content := content + data;
        done := done + [data];
      }
    }

    /** `sync_finish_readtime`. */
    method FinishReadtime() returns (st: Option<Stat>)
      modifies wire`inbox
      ensures
        var s := old(wire.inbox);
        if |s| >= 16 && ReadLe32(s, 0) == ID_STAT
        then st == Some(Stat(ReadLe32(s, 4), ReadLe32(s, 8), ReadLe32(s, 12))) && wire.inbox == s[16..]
        else st == None
    {
      var ok, data := wire.Readx(16);
      if !ok || ReadLe32(data, 0) != ID_STAT {
        return None;
      }
      st := Some(Stat(ReadLe32(data, 4), ReadLe32(data, 8), ReadLe32(data, 12)));
    }
  }

  lemma {:induction false} DecimalLength(n: nat, k: nat, bound: nat)
    requires k > 0 && n < bound && bound == Pow10(k)
    ensures |Decimal(n)| <= k
    decreases k
  {
    if n >= 10 {
      assert k > 1;
      DecimalLength(n / 10, k - 1, Pow10(k - 1));
    }
  }

  function Pow10(k: nat): nat {
    if k == 0 then 1 else 10 * Pow10(k - 1)
  }

  lemma DecimalShort(mode: uint32)
    ensures |Decimal(mode)| <= 10
  {
    assert Pow10(10) == 10_000_000_000 by {
      assert Pow10(5) == 100_000;
      assert Pow10(10) == 10 * (10 * (10 * (10 * (10 * Pow10(5)))));
    }
    DecimalLength(mode, 10, 10_000_000_000);
  }

  // ---- a connection that stays open ----

  /** The client and the service on one connection. */
  class Connection {
    const client: Client
    const service: Service

    /** Nothing is under way in either direction. */
    ghost predicate Idle()
      reads client.wire, service.wire
    {
      && client.wire != service.wire
      && client.wire.inbox == [] && client.wire.outbox == []
      && service.wire.inbox == [] && service.wire.outbox == []
    }

    constructor (disk: Disk)
      ensures Idle() && service.disk == disk
      ensures fresh(client.wire) && fresh(service) && fresh(service.wire)
    {
      var near := new Channel([]);
      var far := new Channel([]);
      client := new Client(near);
      service := new Service(far, disk);
    }

    /** One request, one turn of the service's command loop, and the reply on its way back. */
    method Exchange(op: ClientOp) returns (ghost x: Exchange)
      requires Idle() && OpOk(op) && !op.SendOp? && |OpName(op)| <= MAX_NAME
      modifies client.wire, service, service.wire
      ensures ExchangeOk(x) && x.req == Meant(op) && x.before == old(service.disk) && x.after == service.disk
      ensures client.wire.inbox == x.reply && client.wire != service.wire
      ensures client.wire.outbox == [] && service.wire.inbox == [] && service.wire.outbox == []
    {
      client.Ask(op);
      service.wire.inbox := client.wire.outbox;
      client.wire.outbox := [];
      ghost var s := service.wire.inbox;
      AskedAlone(op, s);
      var go := service.ServeNext();
      x := service.log[|service.log| - 1];
      assert ParseSession(s).reqs[0] == x.req;
      assert [] + x.reply == x.reply;
      client.wire.inbox := service.wire.outbox;
      service.wire.outbox := [];
    }
  }

  lemma AskedAlone(op: ClientOp, stream: seq<byte>)
    requires OpOk(op) && !op.SendOp? && |OpName(op)| <= MAX_NAME && stream == [] + OpBytes(op)
    ensures ParseSession(stream) == Session([Meant(op)], Lost, []) && Behind(stream) == []
  {
    assert stream == OpBytes(op) + [];
    OpRoundTrip(op, []);
    var rest := OpTail(op) + [];
    FramedRead(OpId(op), OpName(op), rest);
  }

  // ---- whole transfers ----

  /** What the service answers to a stream of client operations that ends in QUIT. */
  method RunService(stream: seq<byte>, disk: Disk) returns (answer: seq<byte>, disk': Disk, ghost log: seq<Exchange>)
    ensures Requests(log) == ParseSession(stream).reqs
    ensures ParseSession(stream).end == Quit ==> Transcript(log, disk, disk') && answer == Replies(log)
  {
    var wire := new Channel(stream);
    var service := new Service(wire, disk);
    ghost var served := service.FileSyncService();
    answer, disk', log := wire.outbox, service.disk, service.log;
    assert [] + Replies(log) == Replies(log);
    assert answer[|Replies(log)|..] == [] ==> answer == Replies(log);
  }

  lemma OneExchange(log: seq<Exchange>, d0: Disk, d1: Disk)
    requires |log| == 1 && Transcript(log, d0, d1)
    ensures ExchangeOk(log[0]) && log[0].before == d0 && log[0].after == d1 && Replies(log) == log[0].reply
  {
    assert log[..0] == [];
    assert Transcript(log[..0], d0, log[0].before);
    assert Replies(log) == [] + log[0].reply;
  }

  lemma OneRequest(op: ClientOp)
    requires OpOk(op) && |OpName(op)| <= MAX_NAME
    ensures ParseSession(OpBytes(op) + QuitBytes) == Session([Meant(op)], Quit, [])
  {
    OpRoundTrip(op, QuitBytes);
    FramedRead(ID_QUIT, [], []);
    assert Framed(ID_QUIT, []) + [] == QuitBytes;
  }

  /** A session of one operation. */
  lemma OneOp(op: ClientOp, log: seq<Exchange>, d0: Disk, d1: Disk)
    requires OpOk(op) && |OpName(op)| <= MAX_NAME
    requires Requests(log) == [Meant(op)] && Transcript(log, d0, d1)
    ensures |log| == 1 && log[0].req == Meant(op) && ExchangeOk(log[0])
    ensures log[0].before == d0 && log[0].after == d1 && Replies(log) == log[0].reply
  {
    RequestCount(log);
    RequestAt(log, 0);
    OneExchange(log, d0, d1);
  }

  /** Push: it succeeds exactly when the destination opens and takes every byte, and then the device
      holds the file byte for byte, with the permission bits and the modification time that were
      sent; otherwise no other file has changed. */
  method Push(path: Path, mode: uint32, mtime: uint32, file: seq<byte>, disk: Disk)
    returns (ok: bool, disk': Disk, ghost fate: Fate)
    requires 0 !in path && IsRegular(mode) && |path| + 1 + |Decimal(mode)| <= MAX_NAME
    ensures ok <==> fate.opens && |file| <= fate.room
    ensures |fate.reason| < 0x1_0000_0000
    ensures disk' == SendEffect(disk, Target(path, mode % 512, true), [file], mtime, fate).0
    ensures ok ==> disk' == disk.(files := disk.files[path := File(file, Spread(mode % 512), mtime)])
    ensures !ok ==> disk'.dirs == disk.dirs && disk'.files - {path} == disk.files - {path}
    ensures !ok && path !in disk.dirs ==> path !in disk'.files
  {
    var wire := new Channel([]);
    var client := new Client(wire);
    var sent;
    ghost var chunks;
    sent, chunks := client.SyncSend(path, mode, mtime, file, false);
    client.SyncQuit();
    ghost var op := SendOp(path, mode, chunks, mtime);
    assert wire.outbox == OpBytes(op) + QuitBytes by {
      assert [] + OpBytes(op) == OpBytes(op);
    }
    var answer;
    ghost var log;
    OneRequest(op);
    answer, disk', log := RunService(wire.outbox, disk);
    OneOp(op, log, disk, disk');
    wire.inbox := answer;
    ok := client.SendStatus();
    fate := PushOutcome(disk, Target(path, mode % 512, true), chunks, mtime, log[0]);
    FlattenOne(file);
  }

  lemma PushOutcome(d: Disk, t: Target, chunks: seq<seq<byte>>, mtime: uint32, x: Exchange) returns (f: Fate)
    requires ExchangeOk(x) && x.before == d && x.req == SendReq(t, chunks, mtime) && t.plain
    ensures |x.reply| >= 8 && |f.reason| < 0x1_0000_0000 && x.after == SendEffect(d, t, chunks, mtime, f).0
    ensures ReadLe32(x.reply, 0) == ID_OKAY <==> f.opens && |Flatten(chunks)| <= f.room
    ensures
      if ReadLe32(x.reply, 0) == ID_OKAY then
        x.after == d.(files := d.files[t.path := File(Flatten(chunks), Spread(t.mode), mtime)])
      else
        x.after.dirs == d.dirs && x.after.files - {t.path} == d.files - {t.path} && (t.path !in d.dirs ==> t.path !in x.after.files)
  {
    f :| |f.reason| < 0x1_0000_0000 && SendEffect(d, t, chunks, mtime, f) == (x.after, x.reply);
    if f.opens && |Flatten(chunks)| <= f.room {
      SendTakes(d, t, chunks, mtime, f);
      HeaderRead(ID_OKAY, 0, []);
      assert Header(ID_OKAY, 0) + [] == OkayReply;
    } else {
      SendRefuses(d, t, chunks, mtime, f);
      FramedRead(ID_FAIL, f.reason, []);
      assert FailReply(f.reason) + [] == x.reply;
    }
  }

  lemma SendTakes(d: Disk, t: Target, chunks: seq<seq<byte>>, mtime: uint32, f: Fate)
    requires |f.reason| < 0x1_0000_0000 && t.plain && f.opens && |Flatten(chunks)| <= f.room
    ensures SendEffect(d, t, chunks, mtime, f) ==
            (d.(files := d.files[t.path := File(Flatten(chunks), Spread(t.mode), mtime)]), OkayReply)
  {
    var files := Cleared(d, t);
    assert OldContent(files, t.path) == [] && Overwrite([], Flatten(chunks)) == Flatten(chunks);
    var file := File(Flatten(chunks), Spread(t.mode), mtime);
    assert files[t.path := file] == d.files[t.path := file];
  }

  lemma SendRefuses(d: Disk, t: Target, chunks: seq<seq<byte>>, mtime: uint32, f: Fate)
    requires |f.reason| < 0x1_0000_0000 && t.plain && !(f.opens && |Flatten(chunks)| <= f.room)
    ensures
      var (after, reply) := SendEffect(d, t, chunks, mtime, f);
      && reply == FailReply(f.reason) && after.dirs == d.dirs && after.files - {t.path} == d.files - {t.path}
      && (t.path !in d.dirs ==> t.path !in after.files)
  {
  }

  /** Pull: the client gets exactly the file's content, or nothing when there is no such file. */
  method Pull(path: Path, disk: Disk) returns (file: Option<seq<byte>>)
    requires 0 !in path && |path| <= MAX_NAME
    ensures path in disk.files ==> file == Some(disk.files[path].content)
    ensures path !in disk.files ==> file == None
  {
    var wire := new Channel([]);
    var client := new Client(wire);
    var op := RecvOp(path);
    client.Ask(op);
    client.SyncQuit();
    assert wire.outbox == OpBytes(op) + QuitBytes by {
      assert [] + OpBytes(op) == OpBytes(op);
    }
    var answer, disk';
    ghost var log;
    OneRequest(op);
    answer, disk', log := RunService(wire.outbox, disk);
    OneOp(op, log, disk, disk');
    wire.inbox := answer;
    RecvAnswer(disk, path, answer);
    file := client.ReceiveFile();
  }

  lemma RecvAnswer(d: Disk, path: Path, reply: seq<byte>)
    requires RecvReply(d, path, reply)
    ensures path in d.files <==> ReadChunks(reply).Finished?
    ensures path in d.files ==> Flatten(ReadChunks(reply).chunks) == d.files[path].content
  {
    if path in d.files {
      var chunks :| ChunksFit(chunks) && Flatten(chunks) == d.files[path].content
                    && reply == DataBytes(chunks) + Header(ID_DONE, 0);
      ChunksRoundTrip(chunks, 0, []);
      assert DataBytes(chunks) + Header(ID_DONE, 0) + [] == reply;
    } else {
      var reason: seq<byte> :| |reason| < 0x1_0000_0000 && reply == FailReply(reason);
      FramedRead(ID_FAIL, reason, []);
      assert FailReply(reason) + [] == reply;
    }
  }

  /** A file that was pushed successfully is pulled back unchanged. */
  method PushThenPull(path: Path, mode: uint32, mtime: uint32, file: seq<byte>, disk: Disk) returns (ok: bool, back: Option<seq<byte>>)
    requires 0 !in path && IsRegular(mode) && |path| + 1 + |Decimal(mode)| <= MAX_NAME
    ensures ok ==> back == Some(file)
  {
    var disk';
    ghost var fate;
    ok, disk', fate := Push(path, mode, mtime, file, disk);
    back := Pull(path, disk');
  }

  // ---- STAT, pipelined and one at a time ----

  /** The timestamp phase of `copy_local_dir_remote`: all requests first, then all replies. */
  method StatPipelined(paths: seq<Path>, disk: Disk) returns (stats: seq<Option<Stat>>)
    requires forall i :: 0 <= i < |paths| ==> 0 !in paths[i] && |paths[i]| <= MAX_NAME
    ensures |stats| == |paths|
    ensures forall i :: 0 <= i < |paths| ==> stats[i] == Some(Lstat(disk, paths[i]))
  {
    var wire := new Channel([]);
    var client := new Client(wire);
    ghost var ops := StatOps(paths);
    var i := 0;
    while i < |paths|
      invariant 0 <= i <= |paths| && wire.outbox == OpsBytes(ops[..i])
    {
      assert ops[..i + 1] == ops[..i] + [ops[i]];
      OpsBytesAppend(ops[..i], ops[i]);
      client.Ask(StatOp(paths[i]));
      i := i + 1;
    }
    assert ops[..i] == ops;
    client.SyncQuit();
    var answer, disk';
    ghost var log;
    SessionRoundTrip(ops, []);
    assert wire.outbox + [] == wire.outbox;
    answer, disk', log := RunService(wire.outbox, disk);
    LogOfStats(log, paths);
    StatTranscript(log, disk, disk', paths);
    wire.inbox := answer;
    stats := ReadStats(client, paths, disk);
  }

  method ReadStats(client: Client, paths: seq<Path>, ghost disk: Disk) returns (stats: seq<Option<Stat>>)
    requires client.wire.inbox == StatReplies(disk, paths)
    modifies client.wire`inbox
    ensures |stats| == |paths|
    ensures forall i :: 0 <= i < |paths| ==> stats[i] == Some(Lstat(disk, paths[i]))
  {
    stats := [];
    var i := 0;
    assert paths[0..] == paths;
    while i < |paths|
      invariant 0 <= i <= |paths| && |stats| == i && client.wire.inbox == StatReplies(disk, paths[i..])
      invariant forall j :: 0 <= j < i ==> stats[j] == Some(Lstat(disk, paths[j]))
    {
      assert paths[i..][0] == paths[i] && paths[i..][1..] == paths[i + 1..];
      StatRead(Lstat(disk, paths[i]), StatReplies(disk, paths[i + 1..]));
      var st := client.FinishReadtime();
      stats := stats + [st];
      i := i + 1;
    }
  }

  /** One STAT after another on the same connection, each waiting for its reply. */
  method StatSequential(paths: seq<Path>, disk: Disk) returns (stats: seq<Option<Stat>>)
    requires forall i :: 0 <= i < |paths| ==> 0 !in paths[i] && |paths[i]| <= MAX_NAME
    ensures |stats| == |paths|
    ensures forall i :: 0 <= i < |paths| ==> stats[i] == Some(Lstat(disk, paths[i]))
  {
    var conn := new Connection(disk);
    stats := [];
    var i := 0;
    while i < |paths|
      invariant 0 <= i <= |paths| && |stats| == i
      invariant conn.Idle() && conn.service.disk == disk
      invariant fresh(conn.client.wire) && fresh(conn.service) && fresh(conn.service.wire)
      invariant forall j :: 0 <= j < i ==> stats[j] == Some(Lstat(disk, paths[j]))
    {
      var st := StatOne(conn, paths[i]);
      stats := stats + [st];
      i := i + 1;
    }
  }

  /** `sync_start_readtime`, the service's turn, and `sync_finish_readtime`. */
  method StatOne(conn: Connection, path: Path) returns (st: Option<Stat>)
    requires conn.Idle() && 0 !in path && |path| <= MAX_NAME
    modifies conn.client.wire, conn.service, conn.service.wire
    ensures conn.Idle() && conn.service.disk == old(conn.service.disk)
    ensures st == Some(Lstat(conn.service.disk, path))
  {
    ghost var x := conn.Exchange(StatOp(path));
    StatRead(Lstat(conn.service.disk, path), []);
    assert x.reply + [] == x.reply;
    st := conn.client.FinishReadtime();
  }

  /** What STAT says about a file that was just pushed: a regular file with the spread permissions, the
      size of the content and the time that was sent; and all zeros when the push failed. */
  method PushThenStat(path: Path, mode: uint32, mtime: uint32, file: seq<byte>, disk: Disk) returns (ok: bool, st: Option<Stat>)
    requires 0 !in path && IsRegular(mode) && |path| + 1 + |Decimal(mode)| <= MAX_NAME
    ensures ok && |file| < 0x1_0000_0000 ==> st == Some(Stat(0x8000 + Spread(mode % 512), |file|, mtime))
    ensures !ok && path !in disk.dirs ==> st == Some(Stat(0, 0, 0))
  {
    var disk';
    ghost var fate;
    ok, disk', fate := Push(path, mode, mtime, file, disk);
    st := StatAlone(path, disk');
    SpreadMeans(mode % 512, Right.Read);
    if ok {
      StatOfFile(disk', path, File(file, Spread(mode % 512), mtime));
    }
  }

  method StatAlone(path: Path, disk: Disk) returns (st: Option<Stat>)
    requires 0 !in path && |path| <= MAX_NAME
    ensures st == Some(Lstat(disk, path))
  {
    var conn := new Connection(disk);
    st := StatOne(conn, path);
  }

  lemma StatOfFile(d: Disk, path: Path, file: File)
    requires path in d.files && d.files[path] == file && file.mode < 512
    ensures |file.content| < 0x1_0000_0000 ==> Lstat(d, path) == Stat(0x8000 + file.mode, |file.content|, file.mtime)
  {
  }

  /** The two ways to ask give the same answers. */
  method StatBothWays(paths: seq<Path>, disk: Disk) returns (pipelined: seq<Option<Stat>>, sequential: seq<Option<Stat>>)
    requires forall i :: 0 <= i < |paths| ==> 0 !in paths[i] && |paths[i]| <= MAX_NAME
    ensures pipelined == sequential && |pipelined| == |paths|
  {
    pipelined := StatPipelined(paths, disk);
    sequential := StatSequential(paths, disk);
  }
}
