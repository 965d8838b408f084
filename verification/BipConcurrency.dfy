/** One writer, one reader and any number of lock-free closers on one bip buffer.

    A step is one access to state that another thread may write at that moment. Accesses that stand in
    one step all concern fields that only the lock holder writes, so nobody can come between them: the
    flags and regions are written under the lock alone, and a closer, which takes no lock, only reads
    the flags and sets `closed` and the events. So the runs below cover all the interleavings, and
    `bip_buffer_close` runs against half-finished locked sections. */
module BipConcurrency {
  import opened Bytes
  import opened BipBuffers

  datatype Owner = Free | Writer | Reader

  datatype WriterPc =
    | WIdle
    | WAcquire(src: seq<byte>)
    | WTest(src: seq<byte>)
    | WCheckClosed(src: seq<byte>)
    | WParked(src: seq<byte>)
    | WRecheck(src: seq<byte>)
    | WCopy(src: seq<byte>)
    | WReset
    | WMark
    | WSignal
    | WLeave

  datatype ReaderPc =
    | RIdle
    | RAcquire(len: int)
    | RTest(len: int)
    | RCheckClosed(len: int)
    | RParked(len: int)
    | RRecheck(len: int)
    | RCopy(len: int)
    | RReset
    | RMark
    | RSignal
    | RLeave

  datatype CloserPc = CStart | CTestRead | CSetRead | CTestWrite | CSetWrite | CDone

  datatype State = State(
    regions: Regions,
    canWrite: bool, canRead: bool,
    evtWrite: bool, evtRead: bool,
    closed: bool,
    lock: Owner,
    w: WriterPc, r: ReaderPc,
    closers: seq<CloserPc>,
    accepted: seq<byte>, delivered: seq<byte>)

  ghost predicate Init(s: State) {
    && s.regions.Valid() && s.regions.aEnd == 0
    && s.canWrite && !s.canRead && s.evtWrite && !s.evtRead && !s.closed
    && s.lock == Free && s.w == WIdle && s.r == RIdle
    && (forall i :: 0 <= i < |s.closers| ==> s.closers[i] == CStart)
    && s.accepted == [] && s.delivered == []
  }

  // ---- steps ----

  ghost predicate WriterStep(s: State, s': State)
    requires s.regions.Valid()
  {
    match s.w
    case WIdle => exists src: seq<byte> :: src != [] && s' == s.(w := WAcquire(src))
    case WAcquire(src) => s.lock == Free && s' == s.(lock := Writer, w := WTest(src))
    case WTest(src) =>
      s' == if s.canWrite then s.(w := WCopy(src)) else s.(lock := Free, w := WCheckClosed(src))
    case WCheckClosed(src) => s' == s.(w := if s.closed then WIdle else WParked(src))
    case WParked(src) => s.evtWrite && s' == s.(w := WRecheck(src))
    case WRecheck(src) => s' == s.(w := if s.closed then WIdle else WAcquire(src))
    case WCopy(src) =>
      var (regions, n) := WriteRegions(s.regions, src);
      && 0 <= n <= |src|
      && s' == s.(regions := regions, accepted := s.accepted + src[..n],
                  canWrite := regions.HasRoom(), w := if regions.HasRoom() then WMark else WReset)
    case WReset => s' == s.(evtWrite := false, w := WMark)
    case WMark => s' == if s.canRead then s.(w := WLeave) else s.(canRead := true, w := WSignal)
    case WSignal => s' == s.(evtRead := true, w := WLeave)
    case WLeave => s' == s.(lock := Free, w := WIdle)
  }

  ghost predicate ReaderStep(s: State, s': State)
    requires s.regions.Valid()
  {
    match s.r
    case RIdle => exists len: int :: len > 0 && s' == s.(r := RAcquire(len))
    case RAcquire(len) => s.lock == Free && s' == s.(lock := Reader, r := RTest(len))
    case RTest(len) =>
      s' == if s.canRead then s.(r := RCopy(len)) else s.(lock := Free, r := RCheckClosed(len))
    case RCheckClosed(len) => s' == s.(r := if s.closed then RIdle else RParked(len))
    case RParked(len) => s.evtRead && s' == s.(r := RRecheck(len))
    case RRecheck(len) => s' == s.(r := if s.closed then RIdle else RAcquire(len))
    case RCopy(len) =>
      len > 0 &&
      var (regions, dst) := ReadRegions(s.regions, len);
      s' == s.(regions := regions, delivered := s.delivered + dst,
               canRead := regions.HasData(), r := if regions.HasData() then RMark else RReset)
    case RReset => s' == s.(evtRead := false, r := RMark)
    case RMark => s' == if s.canWrite then s.(r := RLeave) else s.(canWrite := true, r := RSignal)
    case RSignal => s' == s.(evtWrite := true, r := RLeave)
    case RLeave => s' == s.(lock := Free, r := RIdle)
  }

  /** `bip_buffer_close` never takes the lock. */
  ghost predicate CloserStep(s: State, s': State, i: nat)
    requires i < |s.closers|
  {
    match s.closers[i]
    case CStart => s' == s.(closed := true, closers := s.closers[i := CTestRead])
    case CTestRead => s' == s.(closers := s.closers[i := if s.canRead then CTestWrite else CSetRead])
    case CSetRead => s' == s.(evtRead := true, closers := s.closers[i := CTestWrite])
    case CTestWrite => s' == s.(closers := s.closers[i := if s.canWrite then CDone else CSetWrite])
    case CSetWrite => s' == s.(evtWrite := true, closers := s.closers[i := CDone])
    case CDone => false
  }

  ghost predicate Next(s: State, s': State)
    requires s.regions.Valid()
  {
    || WriterStep(s, s')
    || ReaderStep(s, s')
    || exists i :: 0 <= i < |s.closers| && CloserStep(s, s', i)
  }

  // ---- the invariant ----

  ghost predicate WriterInside(w: WriterPc) {
    w.WTest? || w.WCopy? || w.WReset? || w.WMark? || w.WSignal? || w.WLeave?
  }

  ghost predicate ReaderInside(r: ReaderPc) {
    r.RTest? || r.RCopy? || r.RReset? || r.RMark? || r.RSignal? || r.RLeave?
  }

  ghost predicate Exclusion(s: State) {
    && (WriterInside(s.w) <==> s.lock == Writer)
    && (ReaderInside(s.r) <==> s.lock == Reader)
  }

  /** `can_write` and `can_read` tell the truth except between the copy and the flag update. */
  ghost predicate FlagsAgree(s: State) {
    && (s.canWrite == s.regions.HasRoom() || ((s.r.RReset? || s.r.RMark?) && s.regions.HasRoom()))
    && (s.canRead == s.regions.HasData() || ((s.w.WReset? || s.w.WMark?) && s.regions.HasData()))
    && (s.w.WCopy? ==> s.canWrite && s.w.src != [])
    && (s.r.RCopy? ==> s.canRead && s.r.len > 0)
    && (s.w.WReset? || s.w.WMark? ==> s.regions.HasData())
    && (s.r.RReset? || s.r.RMark? ==> s.regions.HasRoom())
    && (s.w.WReset? ==> !s.canWrite)
    && (s.r.RReset? ==> !s.canRead)
    && (s.w.WSignal? ==> s.canRead)
    && (s.r.RSignal? ==> s.canWrite)
  }

  ghost predicate PendingArgs(s: State) {
    && (s.w.WAcquire? || s.w.WTest? || s.w.WCheckClosed? || s.w.WParked? || s.w.WRecheck? ==> s.w.src != [])
    && (s.r.RAcquire? || s.r.RTest? || s.r.RCheckClosed? || s.r.RParked? || s.r.RRecheck? ==> s.r.len > 0)
  }

  ghost predicate EventsAgree(s: State) {
    && (s.canWrite ==> s.evtWrite || s.r.RSignal?)
    && (s.canRead ==> s.evtRead || s.w.WSignal?)
  }

  ghost predicate CloserWoke(s: State, c: CloserPc) {
    && (c != CStart ==> s.closed)
    && (s.r.RParked? && (c.CTestWrite? || c.CSetWrite? || c.CDone?) ==> s.evtRead || s.w.WSignal?)
    && (s.w.WParked? && c.CDone? ==> s.evtWrite || s.r.RSignal?)
  }

  ghost predicate ClosersWoke(s: State) {
    forall i :: 0 <= i < |s.closers| ==> CloserWoke(s, s.closers[i])
  }

  ghost predicate Fifo(s: State)
    requires s.regions.Valid()
  {
    s.accepted == s.delivered + s.regions.Contents()
  }

  ghost predicate Inv(s: State) {
    && s.regions.Valid()
    && Exclusion(s) && FlagsAgree(s) && PendingArgs(s) && EventsAgree(s) && ClosersWoke(s)
    && Fifo(s)
  }

  lemma InitInv(s: State)
    requires Init(s)
    ensures Inv(s)
  {
  }

  lemma WriterCopyInv(s: State, s': State)
    requires Inv(s) && s.w.WCopy? && WriterStep(s, s')
    ensures Inv(s')
  {
    var src := s.w.src;
    var (regions, n) := WriteRegions(s.regions, src);
    WriteAppends(s.regions, src);
    RoomAndData(regions);
    assert s.accepted + src[..n] == s.delivered + (s.regions.Contents() + src[..n]);
    assert forall i :: 0 <= i < |s.closers| ==> CloserWoke(s, s.closers[i]);
  }

  lemma WriterStepFrame(s: State, s': State)
    requires s.regions.Valid() && !s.w.WCopy? && WriterStep(s, s')
    ensures s'.regions == s.regions && s'.accepted == s.accepted && s'.delivered == s.delivered
  {
  }

  lemma WriterStepLock(s: State, s': State)
    requires Exclusion(s) && s.regions.Valid() && !s.w.WCopy? && WriterStep(s, s')
    ensures Exclusion(s')
  {
  }

  lemma WriterStepArgs(s: State, s': State)
    requires PendingArgs(s) && s.regions.Valid() && !s.w.WCopy? && WriterStep(s, s')
    ensures PendingArgs(s')
  {
  }

  lemma WriterStepFlags(s: State, s': State)
    requires Exclusion(s) && FlagsAgree(s) && PendingArgs(s) && s.regions.Valid() && !s.w.WCopy? && WriterStep(s, s')
    ensures FlagsAgree(s')
  {
  }

  lemma WriterStepEvents(s: State, s': State)
    requires Exclusion(s) && FlagsAgree(s) && EventsAgree(s) && s.regions.Valid() && !s.w.WCopy? && WriterStep(s, s')
    ensures EventsAgree(s')
  {
  }

  lemma WriterStepClosers(s: State, s': State, i: nat)
    requires Inv(s) && !s.w.WCopy? && WriterStep(s, s')
    requires i < |s.closers|
    ensures s'.closers == s.closers && CloserWoke(s', s.closers[i])
  {
    assert CloserWoke(s, s.closers[i]);
  }

  lemma WriterStepInv(s: State, s': State)
    requires Inv(s) && WriterStep(s, s')
    ensures Inv(s')
  {
    if s.w.WCopy? {
      WriterCopyInv(s, s');
    } else {
      WriterStepFrame(s, s');
      WriterStepLock(s, s');
      WriterStepArgs(s, s');
      WriterStepFlags(s, s');
      WriterStepEvents(s, s');
      forall i | 0 <= i < |s.closers|
        ensures s'.closers == s.closers && CloserWoke(s', s.closers[i])
      {
        WriterStepClosers(s, s', i);
      }
    }
  }

  lemma ReaderCopyInv(s: State, s': State)
    requires Inv(s) && s.r.RCopy? && ReaderStep(s, s')
    ensures Inv(s')
  {
    var (regions, dst) := ReadRegions(s.regions, s.r.len);
    ReadRemoves(s.regions, s.r.len);
    RoomAndData(regions);
    RoomAndData(s.regions);
    assert s.delivered + (dst + regions.Contents()) == (s.delivered + dst) + regions.Contents();
    assert forall i :: 0 <= i < |s.closers| ==> CloserWoke(s, s.closers[i]);
  }

  lemma ReaderStepFrame(s: State, s': State)
    requires s.regions.Valid() && !s.r.RCopy? && ReaderStep(s, s')
    ensures s'.regions == s.regions && s'.accepted == s.accepted && s'.delivered == s.delivered
  {
  }

  lemma ReaderStepLock(s: State, s': State)
    requires Exclusion(s) && s.regions.Valid() && !s.r.RCopy? && ReaderStep(s, s')
    ensures Exclusion(s')
  {
  }

  lemma ReaderStepArgs(s: State, s': State)
    requires PendingArgs(s) && s.regions.Valid() && !s.r.RCopy? && ReaderStep(s, s')
    ensures PendingArgs(s')
  {
  }

  lemma ReaderStepFlags(s: State, s': State)
    requires Exclusion(s) && FlagsAgree(s) && PendingArgs(s) && s.regions.Valid() && !s.r.RCopy? && ReaderStep(s, s')
    ensures FlagsAgree(s')
  {
  }

  lemma ReaderStepEvents(s: State, s': State)
    requires Exclusion(s) && FlagsAgree(s) && EventsAgree(s) && s.regions.Valid() && !s.r.RCopy? && ReaderStep(s, s')
    ensures EventsAgree(s')
  {
  }

  lemma ReaderStepClosers(s: State, s': State, i: nat)
    requires Inv(s) && !s.r.RCopy? && ReaderStep(s, s')
    requires i < |s.closers|
    ensures s'.closers == s.closers && CloserWoke(s', s.closers[i])
  {
    assert CloserWoke(s, s.closers[i]);
  }

  lemma ReaderStepInv(s: State, s': State)
    requires Inv(s) && ReaderStep(s, s')
    ensures Inv(s')
  {
    if s.r.RCopy? {
      ReaderCopyInv(s, s');
    } else {
      ReaderStepFrame(s, s');
      ReaderStepLock(s, s');
      ReaderStepArgs(s, s');
      ReaderStepFlags(s, s');
      ReaderStepEvents(s, s');
      forall i | 0 <= i < |s.closers|
        ensures s'.closers == s.closers && CloserWoke(s', s.closers[i])
      {
        ReaderStepClosers(s, s', i);
      }
    }
  }

  lemma CloserStepInv(s: State, s': State, i: nat)
    requires Inv(s) && i < |s.closers| && CloserStep(s, s', i)
    ensures Inv(s')
  {
    assert CloserWoke(s, s.closers[i]);
    forall j | 0 <= j < |s'.closers|
      ensures CloserWoke(s', s'.closers[j])
    {
      assert CloserWoke(s, s.closers[j]);
    }
  }

  // ---- runs ----

  ghost predicate StepAt(t: seq<State>, i: nat)
    requires i + 1 < |t|
  {
    t[i].regions.Valid() && Next(t[i], t[i + 1])
  }

  ghost predicate Run(t: seq<State>) {
    t != [] && Init(t[0]) && forall i: nat :: i + 1 < |t| ==> StepAt(t, i)
  }

  /** The steps keep the regions well formed, so `Run` asks nothing of the schedule. */
  lemma NextInv(s: State, s': State)
    requires Inv(s) && Next(s, s')
    ensures Inv(s')
  {
    if WriterStep(s, s') {
      WriterStepInv(s, s');
    } else if ReaderStep(s, s') {
      ReaderStepInv(s, s');
    } else {
      var i :| 0 <= i < |s.closers| && CloserStep(s, s', i);
      CloserStepInv(s, s', i);
    }
  }

  lemma {:induction false} RunInv(t: seq<State>, k: nat)
    requires Run(t) && k < |t|
    ensures Inv(t[k])
  {
    if k == 0 {
      InitInv(t[0]);
    } else {
      RunInv(t, k - 1);
      assert StepAt(t, k - 1);
      NextInv(t[k - 1], t[k]);
    }
  }

  /** The writer holds the lock and reaches `SetEvent(evt_read)` without waiting for anyone. */
  ghost predicate WriterWillSignal(s: State) {
    s.w.WSignal? || ((s.w.WReset? || s.w.WMark?) && !s.canRead)
  }

  ghost predicate ReaderWillSignal(s: State) {
    s.r.RSignal? || ((s.r.RReset? || s.r.RMark?) && !s.canWrite)
  }

  /** No lost wake-up: a parked thread whose condition holds, or that any close has passed, has
      its event set, or the other thread is inside its locked section with `SetEvent` ahead. */
  lemma NoLostWakeup(t: seq<State>, k: nat)
    requires Run(t) && k < |t|
    ensures
      var s := t[k];
      && (s.r.RParked? && (s.canRead || s.regions.HasData() || CDone in s.closers)
          ==> s.evtRead || WriterWillSignal(s))
      && (s.w.WParked? && (s.canWrite || s.regions.HasRoom() || CDone in s.closers)
          ==> s.evtWrite || ReaderWillSignal(s))
  {
    RunInv(t, k);
    var s := t[k];
    if CDone in s.closers {
      var i :| 0 <= i < |s.closers| && s.closers[i] == CDone;
      assert CloserWoke(s, s.closers[i]);
    }
  }

  /** The two threads never wait for each other: at most one of them is blocked. */
  lemma NeverBothBlocked(t: seq<State>, k: nat)
    requires Run(t) && k < |t|
    ensures
      var s := t[k];
      !(s.r.RParked? && !s.evtRead && s.w.WParked? && !s.evtWrite)
  {
    RunInv(t, k);
    RoomAndData(t[k].regions);
  }

  /** After a completed close no thread can stay parked: it is woken, or about to be. */
  lemma CloseReleasesBoth(t: seq<State>, k: nat)
    requires Run(t) && k < |t| && CDone in t[k].closers
    ensures t[k].closed
    ensures t[k].r.RParked? ==> t[k].evtRead || t[k].w.WSignal?
    ensures t[k].w.WParked? ==> t[k].evtWrite || t[k].r.RSignal?
  {
    RunInv(t, k);
    var i :| 0 <= i < |t[k].closers| && t[k].closers[i] == CDone;
    assert CloserWoke(t[k], t[k].closers[i]);
  }

  /** Every byte comes out once and in order: delivered is a prefix of accepted, the rest is buffered. */
  lemma DeliveredPrefix(t: seq<State>, k: nat)
    requires Run(t) && k < |t|
    ensures t[k].regions.Valid()
    ensures t[k].accepted == t[k].delivered + t[k].regions.Contents()
    ensures t[k].delivered <= t[k].accepted
    ensures |t[k].accepted| - |t[k].delivered| <= BIP_BUFFER_SIZE
  {
    RunInv(t, k);
  }

  /** The write goes on to region B: it did not end with region A, and bytes are left. */
  ghost predicate BReached(r: Regions, src: seq<byte>)
    requires r.Valid()
  {
    var n := Split(r, |src|).0;
    n < |src| && !(n > 0 && r.aEnd + n == BIP_BUFFER_SIZE && r.aStart == 0)
  }

  /** The C asserts: a copy that is about to run moves at least one byte, and a write that reaches
      region B finds room there. */
  lemma AssertsHold(t: seq<State>, k: nat)
    requires Run(t) && k < |t|
    ensures t[k].regions.Valid()
    ensures t[k].w.WCopy? ==> t[k].regions.HasRoom() && WriteRegions(t[k].regions, t[k].w.src).1 > 0
    ensures t[k].w.WCopy? ==> BReached(t[k].regions, t[k].w.src) ==> t[k].regions.aStart - t[k].regions.bEnd > 0
    ensures t[k].r.RCopy? ==> t[k].r.len > 0 && t[k].regions.HasData() && ReadRegions(t[k].regions, t[k].r.len).1 != []
  {
    RunInv(t, k);
    var s := t[k];
    if s.w.WCopy? {
      WriteAppends(s.regions, s.w.src);
    }
    if s.r.RCopy? {
      ReadRemoves(s.regions, s.r.len);
    }
  }

  // ---- the events are precise ----

  /** Until the buffer is closed an event is set only while its condition holds, or its reset is the next
      thing the lock holder does: nobody is woken for nothing. */
  ghost predicate Precise(s: State) {
    && (!s.closed && s.evtWrite ==> s.canWrite || s.w.WReset?)
    && (!s.closed && s.evtRead ==> s.canRead || s.r.RReset?)
    && (!s.closed ==> forall i :: 0 <= i < |s.closers| ==> s.closers[i] == CStart)
  }

  lemma WriterPrecise(s: State, s': State)
    requires Precise(s) && Exclusion(s) && FlagsAgree(s) && s.regions.Valid() && WriterStep(s, s')
    ensures Precise(s')
  {
    WriterKeeps(s, s');
    WriterKeepsClosed(s, s');
  }

  lemma ReaderPrecise(s: State, s': State)
    requires Precise(s) && Exclusion(s) && FlagsAgree(s) && s.regions.Valid() && ReaderStep(s, s')
    ensures Precise(s')
  {
    ReaderKeeps(s, s');
    ReaderKeepsClosed(s, s');
  }

  lemma CloserPrecise(s: State, s': State, i: nat)
    requires Precise(s) && i < |s.closers| && CloserStep(s, s', i)
    ensures Precise(s')
  {
  }

  lemma NextPrecise(s: State, s': State)
    requires Precise(s) && Core(s) && Next(s, s')
    ensures Precise(s')
  {
    if WriterStep(s, s') {
      WriterPrecise(s, s');
    } else if ReaderStep(s, s') {
      ReaderPrecise(s, s');
    } else {
      var i :| 0 <= i < |s.closers| && CloserStep(s, s', i);
      CloserPrecise(s, s', i);
    }
  }

  lemma {:induction false} EventsPrecise(t: seq<State>, k: nat)
    requires Run(t) && k < |t|
    ensures Precise(t[k])
  {
    if k > 0 {
      EventsPrecise(t, k - 1);
      RunCore(t, k - 1);
      assert StepAt(t, k - 1);
      NextPrecise(t[k - 1], t[k]);
    }
  }

  // ---- what a call does and returns ----

  /** What the reader's own steps do, in terms of the buffer's contents. The test under the lock finds
      data or it does not, whether the buffer is closed or not; a copy takes the front of the FIFO; a call
      returns after a copy, or with EPIPE when it sees the buffer closed after it found it empty or after
      it was woken. */
  ghost predicate ReadLaw(s: State, s': State)
    requires s.regions.Valid() && s'.regions.Valid()
  {
    && (s.r.RTest? && s'.r != s.r ==>
          s.lock == Reader && s'.r == if s.regions.Contents() != [] then RCopy(s.r.len) else RCheckClosed(s.r.len))
    && (s.r.RCopy? && s'.r != s.r ==>
          var n := Min(s.r.len, |s.regions.Contents()|);
          && n > 0 && s'.delivered == s.delivered + s.regions.Contents()[..n]
          && s'.regions.Contents() == s.regions.Contents()[n..])
    && (!s.r.RCopy? ==> s'.delivered == s.delivered)
    && (s.r.RCheckClosed? && s'.r != s.r ==> s'.r == if s.closed then RIdle else RParked(s.r.len))
    && (s.r.RParked? && s'.r != s.r ==> s.evtRead && s'.r == RRecheck(s.r.len))
    && (s.r.RRecheck? && s'.r != s.r ==> s'.r == if s.closed then RIdle else RAcquire(s.r.len))
    && (s'.r != s.r && s'.r.RCheckClosed? ==> s.r.RTest?)
    && (s'.r != s.r && s'.r.RParked? ==> s.r.RCheckClosed?)
    && (s'.r != s.r && s'.r.RRecheck? ==> s.r.RParked?)
    && (s.r != RIdle && s'.r == RIdle ==> s.r.RLeave? || (s.closed && (s.r.RCheckClosed? || s.r.RRecheck?)))
  }

  /** The same for the writer. */
  ghost predicate WriteLaw(s: State, s': State)
    requires s.regions.Valid() && s'.regions.Valid()
  {
    && (s.w.WTest? && s'.w != s.w ==>
          s.lock == Writer && s'.w == if |s.regions.Contents()| < BIP_BUFFER_SIZE then WCopy(s.w.src) else WCheckClosed(s.w.src))
    && (s.w.WCopy? && s'.w != s.w ==>
          var n := Min(|s.w.src|, BIP_BUFFER_SIZE - |s.regions.Contents()|);
          && n > 0 && s'.accepted == s.accepted + s.w.src[..n]
          && s'.regions.Contents() == s.regions.Contents() + s.w.src[..n])
    && (!s.w.WCopy? ==> s'.accepted == s.accepted)
    && (s.w.WCheckClosed? && s'.w != s.w ==> s'.w == if s.closed then WIdle else WParked(s.w.src))
    && (s.w.WParked? && s'.w != s.w ==> s.evtWrite && s'.w == WRecheck(s.w.src))
    && (s.w.WRecheck? && s'.w != s.w ==> s'.w == if s.closed then WIdle else WAcquire(s.w.src))
    && (s'.w != s.w && s'.w.WCheckClosed? ==> s.w.WTest?)
    && (s'.w != s.w && s'.w.WParked? ==> s.w.WCheckClosed?)
    && (s'.w != s.w && s'.w.WRecheck? ==> s.w.WParked?)
    && (s.w != WIdle && s'.w == WIdle ==> s.w.WLeave? || (s.closed && (s.w.WCheckClosed? || s.w.WRecheck?)))
  }

  /** The buffer stays closed, and only a closer closes it. */
  ghost predicate CloseLaw(s: State, s': State) {
    && (s.closed ==> s'.closed)
    && (s'.closed && !s.closed ==> exists i :: 0 <= i < |s.closers| && s.closers[i] == CStart)
  }

  /** The part of the invariant that these laws need. */
  ghost predicate Core(s: State) {
    s.regions.Valid() && Exclusion(s) && FlagsAgree(s) && PendingArgs(s)
  }

  lemma ReaderTestLaw(s: State, s': State)
    requires Core(s) && s'.regions.Valid() && ReaderStep(s, s') && !s.r.RCopy?
    ensures ReadLaw(s, s')
  {
    RoomAndData(s.regions);
  }

  lemma ReaderCopyLaw(s: State, s': State)
    requires Core(s) && s'.regions.Valid() && ReaderStep(s, s') && s.r.RCopy?
    ensures ReadLaw(s, s')
  {
    ReadRemoves(s.regions, s.r.len);
    var (regions, dst) := ReadRegions(s.regions, s.r.len);
    assert s.regions.Contents()[..|dst|] == dst && s.regions.Contents()[|dst|..] == regions.Contents();
  }

  lemma WriterTestLaw(s: State, s': State)
    requires Core(s) && s'.regions.Valid() && WriterStep(s, s') && !s.w.WCopy?
    ensures WriteLaw(s, s')
  {
    RoomAndData(s.regions);
  }

  lemma WriterCopyLaw(s: State, s': State)
    requires Core(s) && s'.regions.Valid() && WriterStep(s, s') && s.w.WCopy?
    ensures WriteLaw(s, s')
  {
    WriteAppends(s.regions, s.w.src);
  }

  lemma ReadQuiet(s: State, s': State)
    requires s.regions.Valid() && s'.regions.Valid() && s'.r == s.r && s'.delivered == s.delivered
    ensures ReadLaw(s, s')
  {
  }

  lemma WriteQuiet(s: State, s': State)
    requires s.regions.Valid() && s'.regions.Valid() && s'.w == s.w && s'.accepted == s.accepted
    ensures WriteLaw(s, s')
  {
  }

  lemma ReaderKeeps(s: State, s': State)
    requires s.regions.Valid() && ReaderStep(s, s')
    ensures s'.w == s.w && s'.accepted == s.accepted
  {
  }

  lemma ReaderKeepsClosed(s: State, s': State)
    requires s.regions.Valid() && ReaderStep(s, s')
    ensures s'.closed == s.closed
  {
  }

  lemma WriterKeeps(s: State, s': State)
    requires s.regions.Valid() && WriterStep(s, s')
    ensures s'.r == s.r && s'.delivered == s.delivered
  {
  }

  lemma WriterKeepsClosed(s: State, s': State)
    requires s.regions.Valid() && WriterStep(s, s')
    ensures s'.closed == s.closed
  {
  }

  lemma CloserKeeps(s: State, s': State, i: nat)
    requires i < |s.closers| && CloserStep(s, s', i)
    ensures s'.r == s.r && s'.delivered == s.delivered && s'.w == s.w && s'.accepted == s.accepted && CloseLaw(s, s')
  {
  }

  lemma ReaderLaws(s: State, s': State)
    requires Core(s) && s'.regions.Valid() && ReaderStep(s, s')
    ensures ReadLaw(s, s') && WriteLaw(s, s') && CloseLaw(s, s')
  {
    ReaderKeeps(s, s');
    ReaderKeepsClosed(s, s');
    WriteQuiet(s, s');
    if s.r.RCopy? {
      ReaderCopyLaw(s, s');
    } else {
      ReaderTestLaw(s, s');
    }
  }

  lemma WriterLaws(s: State, s': State)
    requires Core(s) && s'.regions.Valid() && WriterStep(s, s')
    ensures ReadLaw(s, s') && WriteLaw(s, s') && CloseLaw(s, s')
  {
    WriterKeeps(s, s');
    WriterKeepsClosed(s, s');
    ReadQuiet(s, s');
    if s.w.WCopy? {
      WriterCopyLaw(s, s');
    } else {
      WriterTestLaw(s, s');
    }
  }

  lemma CloserLaws(s: State, s': State, i: nat)
    requires s.regions.Valid() && s'.regions.Valid() && i < |s.closers| && CloserStep(s, s', i)
    ensures ReadLaw(s, s') && WriteLaw(s, s') && CloseLaw(s, s')
  {
    CloserKeeps(s, s', i);
    ReadQuiet(s, s');
    WriteQuiet(s, s');
  }

  lemma StepLaws(s: State, s': State)
    requires Core(s) && s'.regions.Valid() && Next(s, s')
    ensures ReadLaw(s, s') && WriteLaw(s, s') && CloseLaw(s, s')
  {
    if WriterStep(s, s') {
      WriterLaws(s, s');
    } else if ReaderStep(s, s') {
      ReaderLaws(s, s');
    } else {
      var i :| 0 <= i < |s.closers| && CloserStep(s, s', i);
      CloserLaws(s, s', i);
    }
  }

  lemma RunCore(t: seq<State>, k: nat)
    requires Run(t) && k < |t|
    ensures Core(t[k])
  {
    RunInv(t, k);
  }

  /** These laws hold of every step of every run. */
  lemma CallLaws(t: seq<State>, k: nat)
    requires Run(t) && k + 1 < |t|
    ensures t[k].regions.Valid() && t[k + 1].regions.Valid()
    ensures ReadLaw(t[k], t[k + 1]) && WriteLaw(t[k], t[k + 1]) && CloseLaw(t[k], t[k + 1])
  {
    RunCore(t, k);
    RunCore(t, k + 1);
    assert StepAt(t, k);
    StepLaws(t[k], t[k + 1]);
  }

  /** The reader is past a test that failed, and has not begun another. */
  predicate ReadRefused(r: ReaderPc) { r.RCheckClosed? || r.RParked? || r.RRecheck? }

  predicate WriteRefused(w: WriterPc) { w.WCheckClosed? || w.WParked? || w.WRecheck? }

  /** At time `j` the reader held the lock and found the buffer empty. */
  ghost predicate FoundEmpty(t: seq<State>, j: nat)
    requires j < |t|
  {
    t[j].regions.Valid() && t[j].r.RTest? && t[j].lock == Reader && t[j].regions.Contents() == []
  }

  ghost predicate FoundFull(t: seq<State>, j: nat)
    requires j < |t|
  {
    t[j].regions.Valid() && t[j].w.WTest? && t[j].lock == Writer && |t[j].regions.Contents()| == BIP_BUFFER_SIZE
  }

  lemma ReadRefusedStep(s: State, s': State)
    requires s.regions.Valid() && s'.regions.Valid() && ReadLaw(s, s') && ReadRefused(s'.r)
    ensures (s.r.RTest? && s.lock == Reader && s.regions.Contents() == []) || ReadRefused(s.r)
  {
    RoomAndData(s.regions);
  }

  lemma {:induction false} RefusedWhenEmpty(t: seq<State>, k: nat) returns (j: nat)
    requires Run(t) && k < |t| && ReadRefused(t[k].r)
    ensures j < k && FoundEmpty(t, j)
    ensures forall i :: j < i <= k ==> ReadRefused(t[i].r)
  {
    assert t[0].r == RIdle;
    if k > 0 {
      CallLaws(t, k - 1);
      ReadRefusedStep(t[k - 1], t[k]);
      if t[k - 1].r.RTest? {
        j := k - 1;
      } else {
        j := RefusedWhenEmpty(t, k - 1);
      }
    }
  }

  lemma WriteRefusedStep(s: State, s': State)
    requires s.regions.Valid() && s'.regions.Valid() && WriteLaw(s, s') && WriteRefused(s'.w)
    ensures (s.w.WTest? && s.lock == Writer && |s.regions.Contents()| == BIP_BUFFER_SIZE) || WriteRefused(s.w)
  {
    RoomAndData(s.regions);
  }

  lemma {:induction false} RefusedWhenFull(t: seq<State>, k: nat) returns (j: nat)
    requires Run(t) && k < |t| && WriteRefused(t[k].w)
    ensures j < k && FoundFull(t, j)
    ensures forall i :: j < i <= k ==> WriteRefused(t[i].w)
  {
    assert t[0].w == WIdle;
    if k > 0 {
      CallLaws(t, k - 1);
      WriteRefusedStep(t[k - 1], t[k]);
      if t[k - 1].w.WTest? {
        j := k - 1;
      } else {
        j := RefusedWhenFull(t, k - 1);
      }
    }
  }

  /** EPIPE over every run: a read call returns without bytes only from a closed buffer that it found
      empty under the lock, in the same call; a write call only from a closed buffer that it found full. */
  lemma EpipeOnlyWhenRefused(t: seq<State>, k: nat)
    requires Run(t) && k + 1 < |t|
    ensures t[k].r != RIdle && t[k + 1].r == RIdle && !t[k].r.RLeave? ==>
      && t[k].closed
      && exists j: nat :: j < k && FoundEmpty(t, j) && forall i :: j < i <= k ==> ReadRefused(t[i].r)
    ensures t[k].w != WIdle && t[k + 1].w == WIdle && !t[k].w.WLeave? ==>
      && t[k].closed
      && exists j: nat :: j < k && FoundFull(t, j) && forall i :: j < i <= k ==> WriteRefused(t[i].w)
  {
    CallLaws(t, k);
    if t[k].r != RIdle && t[k + 1].r == RIdle && !t[k].r.RLeave? {
      var j := RefusedWhenEmpty(t, k);
    }
    if t[k].w != WIdle && t[k + 1].w == WIdle && !t[k].w.WLeave? {
      var j := RefusedWhenFull(t, k);
    }
  }
}
