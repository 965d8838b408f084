/** The host side of the sync protocol, and sessions in which both sides run. */
module SyncClient {
  import opened Bytes
  import opened SyncMessages
  import opened SyncService

  // ---- what the client puts on the wire ----

  datatype ClientOp =
    | StatOp(path: Path)
    | ListOp(path: Path)
    | RecvOp(path: Path)
    | SendOp(path: Path, mode: uint32, chunks: seq<seq<byte>>, mtime: uint32)

  function OpName(op: ClientOp): Path {
    if op.SendOp? then SendName(op.path, op.mode) else op.path
  }

  function OpId(op: ClientOp): uint32 {
    match op
    case StatOp(_) => ID_STAT
    case ListOp(_) => ID_LIST
    case RecvOp(_) => ID_RECV
    case SendOp(_, _, _, _) => ID_SEND
  }

  /** A C string, and chunks of a legal size; the length of the name is the service's business. */
  ghost predicate OpOk(op: ClientOp) {
    && 0 !in op.path && |OpName(op)| < 0x1_0000_0000
    && (op.SendOp? ==> ChunksFit(op.chunks))
  }

  function OpTail(op: ClientOp): seq<byte>
    requires op.SendOp? ==> ChunksFit(op.chunks)
  {
    if op.SendOp? then DataBytes(op.chunks) + Header(ID_DONE, op.mtime) else []
  }

  function OpBytes(op: ClientOp): seq<byte>
    requires OpOk(op)
  {
    Framed(OpId(op), OpName(op)) + OpTail(op)
  }

  function OpsBytes(ops: seq<ClientOp>): seq<byte>
    requires forall i :: 0 <= i < |ops| ==> OpOk(ops[i])
  {
    if ops == [] then [] else OpBytes(ops[0]) + OpsBytes(ops[1..])
  }

  /** What the service should make of an operation. */
  function Meant(op: ClientOp): Request {
    match op
    case StatOp(p) => StatReq(p)
    case ListOp(p) => ListReq(p)
    case RecvOp(p) => RecvReq(p)
    case SendOp(p, mode, chunks, mtime) => SendReq(Target(p, mode % 512, true), chunks, mtime)
  }

  function MeantAll(ops: seq<ClientOp>): seq<Request> {
    if ops == [] then [] else [Meant(ops[0])] + MeantAll(ops[1..])
  }

  const QuitBytes: seq<byte> := Header(ID_QUIT, 0)

  lemma NameNoNul(op: ClientOp)
    requires OpOk(op)
    ensures CString(OpName(op)) == OpName(op)
  {
    var name := OpName(op);
    if op.SendOp? {
      forall i | 0 <= i < |name|
        ensures name[i] != 0
      {
        if i > |op.path| {
          assert name[i] == Decimal(op.mode)[i - |op.path| - 1];
        } else if i < |op.path| {
          assert name[i] == op.path[i];
        }
      }
    }
  }

  lemma BodyRead(op: ClientOp, more: seq<byte>)
    requires OpOk(op)
    ensures op.SendOp? ==> ReadChunks(OpTail(op) + more) == Finished(op.chunks, op.mtime, more)
    ensures op.SendOp? ==> SendTarget(OpName(op)) == Target(op.path, op.mode % 512, true)
    ensures !op.SendOp? ==> OpTail(op) + more == more
  {
    if op.SendOp? {
      ChunksRoundTrip(op.chunks, op.mtime, more);
      NameRoundTrip(op.path, op.mode);
    }
  }

  /** One operation in front of a stream: the service serves exactly it and goes on behind it. */
  lemma OpRoundTrip(op: ClientOp, more: seq<byte>)
    requires OpOk(op) && |OpName(op)| <= MAX_NAME
    ensures ParseSession(OpBytes(op) + more) == Prepend(Meant(op), ParseSession(more))
  {
    var s := OpBytes(op) + more;
    var body := OpTail(op) + more;
    Assoc(Framed(OpId(op), OpName(op)), OpTail(op), more);
    FramedRead(OpId(op), OpName(op), body);
    NameNoNul(op);
    BodyRead(op, more);
    ParseStep(s, Meant(op));
  }

  /** A whole session: whatever operations the client sends, in whatever order, and however each file
      was cut into chunks, the service serves exactly those and stops right behind the QUIT. */
  lemma {:induction false} SessionRoundTrip(ops: seq<ClientOp>, rest: seq<byte>)
    requires forall i :: 0 <= i < |ops| ==> OpOk(ops[i]) && |OpName(ops[i])| <= MAX_NAME
    ensures ParseSession(OpsBytes(ops) + QuitBytes + rest) == Session(MeantAll(ops), Quit, rest)
  {
    if ops == [] {
      assert OpsBytes(ops) + QuitBytes + rest == Framed(ID_QUIT, []) + rest;
      FramedRead(ID_QUIT, [], rest);
    } else {
      var more := OpsBytes(ops[1..]) + QuitBytes + rest;
      assert OpsBytes(ops) + QuitBytes + rest == OpBytes(ops[0]) + more;
      OpRoundTrip(ops[0], more);
      SessionRoundTrip(ops[1..], rest);
    }
  }

  /** The client only bounds the path by 1024 bytes, but the mode travels in the same name: a SEND is
      understood if and only if path, comma and mode together have at most 1024 bytes. */
  lemma SendUnderstoodIff(path: Path, mode: uint32, chunks: seq<seq<byte>>, mtime: uint32, more: seq<byte>)
    requires OpOk(SendOp(path, mode, chunks, mtime))
    ensures
      var s := ParseSession(OpBytes(SendOp(path, mode, chunks, mtime)) + more);
      && (|path| + 1 + |Decimal(mode)| <= MAX_NAME <==>
            s.reqs != [] && s.reqs[0] == SendReq(Target(path, mode % 512, true), chunks, mtime))
      && (|path| + 1 + |Decimal(mode)| > MAX_NAME ==> s.reqs == [] && s.end == BadName)
  {
    var op := SendOp(path, mode, chunks, mtime);
    assert |OpName(op)| == |path| + 1 + |Decimal(mode)|;
    if |OpName(op)| <= MAX_NAME {
      OpRoundTrip(op, more);
    } else {
      LongRefused(op, more);
    }
  }

  lemma LongRefused(op: ClientOp, more: seq<byte>)
    requires OpOk(op) && |OpName(op)| > MAX_NAME
    ensures ParseSession(OpBytes(op) + more).reqs == [] && ParseSession(OpBytes(op) + more).end == BadName
  {
    var body := OpTail(op) + more;
    Assoc(Framed(OpId(op), OpName(op)), OpTail(op), more);
    FramedRead(OpId(op), OpName(op), body);
  }

  lemma FiveDigits()
    ensures |Decimal(33188)| == 5
  {
    assert |Decimal(33)| == 2;
    assert |Decimal(331)| == 3;
    assert |Decimal(3318)| == 4;
  }

  /** A path of 1019 bytes passes the client's check and is refused by the service. */
  lemma LongNameExample(path: Path, more: seq<byte>)
    requires |path| == 1019 && 0 !in path
    ensures |path| <= MAX_NAME
    ensures OpOk(SendOp(path, 33188, [], 0))
    ensures ParseSession(OpBytes(SendOp(path, 33188, [], 0)) + more).end == BadName
  {
    FiveDigits();
    SendUnderstoodIff(path, 33188, [], 0, more);
  }

  // ---- replies as the client reads them ----

  lemma StatRead(st: Stat, rest: seq<byte>)
    ensures
      var s := StatBytes(st) + rest;
      && |s| >= 16 && ReadLe32(s, 0) == ID_STAT && s[16..] == rest
      && Stat(ReadLe32(s, 4), ReadLe32(s, 8), ReadLe32(s, 12)) == st
  {
    var s := StatBytes(st) + rest;
    assert s[0..4] == Le32(ID_STAT) && s[4..8] == Le32(st.mode) && s[8..12] == Le32(st.size) && s[12..16] == Le32(st.time);
    Le32RoundTrip(s, 0, ID_STAT);
    Le32RoundTrip(s, 4, st.mode);
    Le32RoundTrip(s, 8, st.size);
    Le32RoundTrip(s, 12, st.time);
  }

  /** The replies to STATs of the given paths, in order. */
  function StatReplies(d: Disk, paths: seq<Path>): seq<byte> {
    if paths == [] then [] else StatBytes(Lstat(d, paths[0])) + StatReplies(d, paths[1..])
  }

  lemma {:induction false} StatRepliesAppend(d: Disk, paths: seq<Path>, p: Path)
    ensures StatReplies(d, paths + [p]) == StatReplies(d, paths) + StatBytes(Lstat(d, p))
  {
    if paths == [] {
      assert paths + [p] == [p] && [p][1..] == [];
      assert StatReplies(d, [p]) == StatBytes(Lstat(d, p)) + [];
    } else {
      assert (paths + [p])[1..] == paths[1..] + [p];
      StatRepliesAppend(d, paths[1..], p);
      Assoc(StatBytes(Lstat(d, paths[0])), StatReplies(d, paths[1..]), StatBytes(Lstat(d, p)));
    }
  }

  ghost predicate AllStats(log: seq<Exchange>, paths: seq<Path>) {
    |log| == |paths| && forall i :: 0 <= i < |log| ==> log[i].req == StatReq(paths[i])
  }

  /** A transcript of STATs leaves the disk alone and answers path by path. */
  lemma {:induction false} StatTranscript(log: seq<Exchange>, d0: Disk, d1: Disk, paths: seq<Path>)
    requires Transcript(log, d0, d1) && AllStats(log, paths)
    ensures d1 == d0 && Replies(log) == StatReplies(d0, paths)
  {
    if log != [] {
      var n := |log| - 1;
      StatTranscript(log[..n], d0, log[n].before, paths[..n]);
      StatRepliesAppend(d0, paths[..n], paths[n]);
      assert paths[..n] + [paths[n]] == paths;
    }
  }

  lemma {:induction false} RequestAt(log: seq<Exchange>, i: nat)
    requires i < |log|
    ensures |Requests(log)| == |log| && Requests(log)[i] == log[i].req
  {
    RequestCount(log);
    if i < |log| - 1 {
      RequestCount(log[..|log| - 1]);
      RequestAt(log[..|log| - 1], i);
    } else {
      RequestCount(log[..|log| - 1]);
    }
  }

  lemma {:induction false} RequestCount(log: seq<Exchange>)
    ensures |Requests(log)| == |log|
  {
    if log != [] {
      RequestCount(log[..|log| - 1]);
    }
  }

  function StatOps(paths: seq<Path>): (ops: seq<ClientOp>)
    ensures |ops| == |paths|
    ensures forall i :: 0 <= i < |ops| ==> ops[i] == StatOp(paths[i])
  {
    seq(|paths|, i requires 0 <= i < |paths| => StatOp(paths[i]))
  }

  lemma {:induction false} MeantAt(ops: seq<ClientOp>, i: nat)
    requires i < |ops|
    ensures |MeantAll(ops)| == |ops| && MeantAll(ops)[i] == Meant(ops[i])
  {
    MeantCount(ops);
    if i > 0 {
      MeantAt(ops[1..], i - 1);
    }
  }

  lemma {:induction false} MeantCount(ops: seq<ClientOp>)
    ensures |MeantAll(ops)| == |ops|
  {
    if ops != [] {
      MeantCount(ops[1..]);
    }
  }

  lemma LogOfStats(log: seq<Exchange>, paths: seq<Path>)
    requires Requests(log) == MeantAll(StatOps(paths))
    ensures AllStats(log, paths)
  {
    RequestCount(log);
    MeantCount(StatOps(paths));
    forall i | 0 <= i < |log|
      ensures log[i].req == StatReq(paths[i])
    {
      RequestAt(log, i);
      MeantAt(StatOps(paths), i);
    }
  }

  lemma {:induction false} OpsBytesAppend(ops: seq<ClientOp>, op: ClientOp)
    requires (forall i :: 0 <= i < |ops| ==> OpOk(ops[i])) && OpOk(op)
    ensures OpsBytes(ops + [op]) == OpsBytes(ops) + OpBytes(op)
  {
    if ops == [] {
      assert ops + [op] == [op] && [op][1..] == [];
      assert OpsBytes([op]) == OpBytes(op) + [];
    } else {
      assert (ops + [op])[1..] == ops[1..] + [op];
      OpsBytesAppend(ops[1..], op);
      Assoc(OpBytes(ops[0]), OpsBytes(ops[1..]), OpBytes(op));
    }
  }
}
