/** `_wait_for_all`: a wait on any number of handles, spread over threads of 63 handles each. */
module WaitFanout {

  const WAIT_ALL_CHUNK_SIZE := 63

  /** The part of `WaitForAllParam` that says which handles a thread waits on. */
  datatype Chunk = Chunk(first: nat, count: nat) {
    predicate Has(h: int) { first <= h < first + count }
  }

  ghost predicate Covered(chunks: seq<Chunk>, h: int) {
    exists i :: 0 <= i < |chunks| && chunks[i].Has(h)
  }

  /** Each handle belongs to exactly one chunk, and every chunk fits in one OS wait. */
  ghost predicate Partition(chunks: seq<Chunk>, handles: nat) {
    && (forall i :: 0 <= i < |chunks| ==> 0 < chunks[i].count <= WAIT_ALL_CHUNK_SIZE)
    && (forall i :: 0 <= i < |chunks| ==> chunks[i].first + chunks[i].count <= handles)
    && (forall i, j, h :: 0 <= i < |chunks| && 0 <= j < |chunks| && chunks[i].Has(h) && chunks[j].Has(h) ==> i == j)
    && (forall h :: 0 <= h < handles ==> Covered(chunks, h))
  }

  /** The two initialisation passes of `_wait_for_all`. */
  method SplitHandles(handles: nat) returns (chunks: seq<Chunk>)
    ensures Partition(chunks, handles)
    ensures |chunks| == (handles + WAIT_ALL_CHUNK_SIZE - 1) / WAIT_ALL_CHUNK_SIZE
  {
    var full := handles / WAIT_ALL_CHUNK_SIZE;
    var remains := handles % WAIT_ALL_CHUNK_SIZE;
    chunks := [];
    for c := 0 to full
      invariant |chunks| == c
      invariant forall i :: 0 <= i < c ==> chunks[i] == Chunk(WAIT_ALL_CHUNK_SIZE * i, WAIT_ALL_CHUNK_SIZE)
    {
      chunks := chunks + [Chunk(WAIT_ALL_CHUNK_SIZE * c, WAIT_ALL_CHUNK_SIZE)];
    }
    if remains != 0 {
      chunks := chunks + [Chunk(WAIT_ALL_CHUNK_SIZE * full, remains)];
    }
    forall h | 0 <= h < handles
      ensures Covered(chunks, h)
    {
      assert chunks[h / WAIT_ALL_CHUNK_SIZE].Has(h);
    }
  }

  // ---- the protocol of the waiter threads ----

  datatype WaiterPc =
    | Unborn
    | Waiting
    | Reporting(index: int)   // a handle of the chunk was signalled; the compare-and-swap is next
    | Signalling              // SetEvent(main_event) is next
    | Exited

  datatype MainPc =
    | Starting(next: nat)
    | WaitingMain(started: nat)
    | Joining(started: nat, next: nat)
    | Returned(ret: int)

  const WAIT_FAILED := -1

  /** `seen` records the handles that some waiter was told are signalled; `startFailed` and `waitFailed`
      that a thread could not be started, or that its wait failed. */
  datatype State = State(
    sigIndex: int, mainEvent: bool, waiters: seq<WaiterPc>, main: MainPc,
    seen: set<int>, startFailed: bool, waitFailed: bool)

  ghost predicate Init(chunks: seq<Chunk>, s: State) {
    && s.sigIndex == -1 && !s.mainEvent
    && |s.waiters| == |chunks| && (forall i :: 0 <= i < |chunks| ==> s.waiters[i] == Unborn)
    && s.main == Starting(0) && s.seen == {} && !s.startFailed && !s.waitFailed
  }

  /** One step of waiter `i`; `h` is the handle the OS reports, when it reports one. */
  ghost predicate WaiterStep(chunks: seq<Chunk>, s: State, s': State, i: nat, h: int)
    requires |s.waiters| == |chunks| && i < |chunks|
  {
    match s.waiters[i]
    case Waiting =>
      || (s.mainEvent && s' == s.(waiters := s.waiters[i := Signalling]))
      || s' == s.(waiters := s.waiters[i := Signalling], waitFailed := true)
      || (chunks[i].Has(h) && s' == s.(waiters := s.waiters[i := Reporting(h)], seen := s.seen + {h}))
    case Reporting(index) =>
      s' == s.(waiters := s.waiters[i := Signalling], sigIndex := if s.sigIndex == -1 then index else s.sigIndex)
    case Signalling => s' == s.(waiters := s.waiters[i := Exited], mainEvent := true)
    case Unborn => false
    case Exited => false
  }

  ghost predicate MainStep(chunks: seq<Chunk>, s: State, s': State)
    requires |s.waiters| == |chunks|
  {
    match s.main
    case Starting(c) =>
      if c < |chunks| then
        || s' == s.(waiters := s.waiters[c := Waiting], main := Starting(c + 1))
        || s' == s.(mainEvent := true, startFailed := true, main := WaitingMain(c))
      else
        s' == s.(main := WaitingMain(c))
    case WaitingMain(c) => s.mainEvent && s' == s.(main := Joining(c, 0))
    case Joining(c, k) =>
      if k < c then k < |chunks| && s.waiters[k] == Exited && s' == s.(main := Joining(c, k + 1))
      else s' == s.(main := Returned(if s.sigIndex >= 0 then s.sigIndex else WAIT_FAILED))
    case Returned(_) => false
  }

  ghost predicate Next(chunks: seq<Chunk>, s: State, s': State) {
    && |s.waiters| == |chunks|
    && (MainStep(chunks, s, s') || exists i, h :: 0 <= i < |chunks| && WaiterStep(chunks, s, s', i, h))
  }

  ghost function Started(m: MainPc): int {
    match m
    case Starting(c) => c
    case WaitingMain(c) => c
    case Joining(c, _) => c
    case Returned(_) => 0
  }

  predicate Failed(s: State) { s.startFailed || s.waitFailed }

  /** A thread is unborn exactly when its start is still to come. */
  ghost predicate Shape(chunks: seq<Chunk>, s: State) {
    && |s.waiters| == |chunks|
    && 0 <= Started(s.main) <= |chunks|
    && (!s.main.Returned? ==> forall i :: 0 <= i < |chunks| ==> (s.waiters[i] == Unborn <==> i >= Started(s.main)))
  }

  /** Every report names a handle of the reporter's own chunk that was seen signalled, and a seen
      handle is stored, or its reporter is still alive. */
  ghost predicate SeenOk(chunks: seq<Chunk>, handles: nat, s: State)
    requires |s.waiters| == |chunks|
  {
    && (forall i :: 0 <= i < |chunks| && s.waiters[i].Reporting? ==>
          s.waiters[i].index in s.seen && chunks[i].Has(s.waiters[i].index))
    && (forall h :: h in s.seen ==> 0 <= h < handles)
    && (s.sigIndex == -1 || s.sigIndex in s.seen)
    && (s.seen != {} && s.sigIndex == -1 ==> exists i :: 0 <= i < |chunks| && s.waiters[i].Reporting?)
  }

  /** The shared event is raised only after an index was stored, or after a failure. */
  ghost predicate EventOk(chunks: seq<Chunk>, s: State)
    requires |s.waiters| == |chunks|
  {
    && (s.mainEvent ==> s.sigIndex != -1 || Failed(s))
    && (forall i :: 0 <= i < |chunks| && (s.waiters[i] == Signalling || s.waiters[i] == Exited) ==>
          s.sigIndex != -1 || Failed(s))
    && (forall i :: 0 <= i < |chunks| && s.waiters[i] == Exited ==> s.mainEvent)
    && (s.startFailed ==> s.mainEvent)
  }

  ghost predicate MainOk(chunks: seq<Chunk>, s: State)
    requires |s.waiters| == |chunks|
  {
    && (s.startFailed || s.main.Starting? || s.main.Returned? || Started(s.main) == |chunks|)
    && (s.main.Joining? ==> s.mainEvent && 0 <= s.main.next <= s.main.started)
    && (s.main.Joining? ==> forall i :: 0 <= i < s.main.next && i < |chunks| ==> s.waiters[i] == Exited)
    && (s.main.Returned? ==> s.main.ret == s.sigIndex && (s.sigIndex == -1 ==> s.seen == {} && Failed(s)))
    && (s.main.Returned? ==> forall i :: 0 <= i < |chunks| ==> s.waiters[i] == Exited || s.waiters[i] == Unborn)
  }

  ghost predicate Inv(chunks: seq<Chunk>, handles: nat, s: State) {
    Partition(chunks, handles) && Shape(chunks, s) && SeenOk(chunks, handles, s) && EventOk(chunks, s) && MainOk(chunks, s)
  }

  lemma InitInv(chunks: seq<Chunk>, handles: nat, s: State)
    requires Partition(chunks, handles) && Init(chunks, s)
    ensures Inv(chunks, handles, s)
  {
  }

  lemma MainStepThreads(chunks: seq<Chunk>, handles: nat, s: State, s': State)
    requires Shape(chunks, s) && SeenOk(chunks, handles, s) && EventOk(chunks, s) && MainStep(chunks, s, s')
    ensures Shape(chunks, s') && SeenOk(chunks, handles, s') && EventOk(chunks, s')
  {
    if s.seen != {} && s.sigIndex == -1 {
      var i :| 0 <= i < |chunks| && s.waiters[i].Reporting?;
      assert s'.waiters[i].Reporting?;
    }
  }

  lemma MainStepMain(chunks: seq<Chunk>, handles: nat, s: State, s': State)
    requires Shape(chunks, s) && SeenOk(chunks, handles, s) && EventOk(chunks, s) && MainOk(chunks, s) && MainStep(chunks, s, s')
    ensures |s'.waiters| == |chunks| && MainOk(chunks, s')
  {
  }

  lemma MainStepInv(chunks: seq<Chunk>, handles: nat, s: State, s': State)
    requires Inv(chunks, handles, s) && MainStep(chunks, s, s')
    ensures Inv(chunks, handles, s')
  {
    MainStepThreads(chunks, handles, s, s');
    MainStepMain(chunks, handles, s, s');
  }

  lemma WaiterStepSeen(chunks: seq<Chunk>, handles: nat, s: State, s': State, i: nat, h: int)
    requires Partition(chunks, handles) && Shape(chunks, s) && SeenOk(chunks, handles, s)
    requires i < |chunks| && WaiterStep(chunks, s, s', i, h)
    ensures Shape(chunks, s') && SeenOk(chunks, handles, s')
  {
    if s'.seen != {} && s'.sigIndex == -1 && !s'.waiters[i].Reporting? {
      var j :| 0 <= j < |chunks| && s.waiters[j].Reporting?;
      assert s'.waiters[j].Reporting?;
    }
  }

  lemma WaiterStepMain(chunks: seq<Chunk>, handles: nat, s: State, s': State, i: nat, h: int)
    requires Shape(chunks, s) && SeenOk(chunks, handles, s) && EventOk(chunks, s) && MainOk(chunks, s)
    requires i < |chunks| && WaiterStep(chunks, s, s', i, h)
    ensures |s'.waiters| == |chunks| && EventOk(chunks, s') && MainOk(chunks, s')
  {
  }

  lemma WaiterStepInv(chunks: seq<Chunk>, handles: nat, s: State, s': State, i: nat, h: int)
    requires Inv(chunks, handles, s) && i < |chunks| && WaiterStep(chunks, s, s', i, h)
    ensures Inv(chunks, handles, s')
  {
    WaiterStepSeen(chunks, handles, s, s', i, h);
    WaiterStepMain(chunks, handles, s, s', i, h);
  }

  ghost predicate StepAt(chunks: seq<Chunk>, t: seq<State>, k: nat)
    requires k + 1 < |t|
  {
    Next(chunks, t[k], t[k + 1])
  }

  ghost predicate Run(chunks: seq<Chunk>, t: seq<State>) {
    t != [] && Init(chunks, t[0]) && forall k: nat :: k + 1 < |t| ==> StepAt(chunks, t, k)
  }

  lemma {:induction false} RunInv(chunks: seq<Chunk>, handles: nat, t: seq<State>, k: nat)
    requires Partition(chunks, handles) && Run(chunks, t) && k < |t|
    ensures Inv(chunks, handles, t[k])
  {
    if k == 0 {
      InitInv(chunks, handles, t[0]);
    } else {
      RunInv(chunks, handles, t, k - 1);
      var s, s' := t[k - 1], t[k];
      assert StepAt(chunks, t, k - 1);
      if MainStep(chunks, s, s') {
        MainStepInv(chunks, handles, s, s');
      } else {
        var i, h :| 0 <= i < |chunks| && WaiterStep(chunks, s, s', i, h);
        WaiterStepInv(chunks, handles, s, s', i, h);
      }
    }
  }

  /** Whenever the shared event is set and nothing has failed, an index has been stored. */
  lemma EventMeansIndex(chunks: seq<Chunk>, handles: nat, t: seq<State>, k: nat)
    requires Partition(chunks, handles) && Run(chunks, t) && k < |t|
    requires t[k].mainEvent && !Failed(t[k])
    ensures t[k].sigIndex in t[k].seen && 0 <= t[k].sigIndex < handles
  {
    RunInv(chunks, handles, t, k);
  }

  /** What the call returns: a handle index some waiter saw signalled, or WAIT_FAILED, and that
      exactly when no waiter saw anything, which takes a thread that could not be started or whose
      wait failed. */
  lemma ReturnValue(chunks: seq<Chunk>, handles: nat, t: seq<State>, k: nat)
    requires Partition(chunks, handles) && Run(chunks, t) && k < |t| && t[k].main.Returned?
    ensures t[k].main.ret == WAIT_FAILED <==> t[k].seen == {}
    ensures t[k].main.ret != WAIT_FAILED ==> t[k].main.ret in t[k].seen && 0 <= t[k].main.ret < handles
    ensures t[k].main.ret == WAIT_FAILED ==> Failed(t[k])
    ensures forall i :: 0 <= i < |t[k].waiters| ==> t[k].waiters[i] == Exited || t[k].waiters[i] == Unborn
  {
    RunInv(chunks, handles, t, k);
  }

  lemma StepKeepsIndex(chunks: seq<Chunk>, s: State, s': State)
    requires Next(chunks, s, s') && s.sigIndex != -1
    ensures s'.sigIndex == s.sigIndex
  {
  }

  /** The first report wins: once an index is stored it never changes, whatever other threads report. */
  lemma {:induction false} FirstReportWins(chunks: seq<Chunk>, handles: nat, t: seq<State>, j: nat, k: nat)
    requires Partition(chunks, handles) && Run(chunks, t) && j <= k < |t| && t[j].sigIndex != -1
    ensures t[k].sigIndex == t[j].sigIndex
    ensures t[k].main.Returned? ==> t[k].main.ret == t[j].sigIndex
  {
    RunInv(chunks, handles, t, k);
    if j < k {
      FirstReportWins(chunks, handles, t, j, k - 1);
      assert StepAt(chunks, t, k - 1);
      StepKeepsIndex(chunks, t[k - 1], t[k]);
    }
  }

  // ---- progress ----

  ghost function WaiterRank(w: WaiterPc): nat {
    match w
    case Unborn => 4
    case Waiting => 3
    case Reporting(_) => 2
    case Signalling => 1
    case Exited => 0
  }

  ghost function Ranks(ws: seq<WaiterPc>): nat {
    if ws == [] then 0 else WaiterRank(ws[0]) + Ranks(ws[1..])
  }

  ghost function MainRank(chunks: seq<Chunk>, m: MainPc): int {
    match m
    case Starting(c) => 3 + 2 * |chunks| - c
    case WaitingMain(c) => 2 + |chunks|
    case Joining(c, k) => 1 + |chunks| - k
    case Returned(_) => 0
  }

  lemma {:induction false} RanksUpdate(ws: seq<WaiterPc>, i: nat, w: WaiterPc)
    requires i < |ws|
    ensures Ranks(ws[i := w]) == Ranks(ws) - WaiterRank(ws[i]) + WaiterRank(w)
  {
    if i == 0 {
      assert ws[i := w][1..] == ws[1..];
    } else {
      assert ws[i := w][1..] == ws[1..][i - 1 := w];
      RanksUpdate(ws[1..], i - 1, w);
    }
  }

  lemma MainDecreases(chunks: seq<Chunk>, s: State, s': State)
    requires |s.waiters| == |chunks| && 0 <= Started(s.main) <= |chunks| && MainStep(chunks, s, s')
    requires s.main.Joining? ==> 0 <= s.main.next <= s.main.started
    requires s.main.Starting? && s.main.next < |chunks| ==> s.waiters[s.main.next] == Unborn
    ensures Budget(chunks, s') < Budget(chunks, s)
  {
    if s.main.Starting? && s.main.next < |chunks| {
      RanksUpdate(s.waiters, s.main.next, Waiting);
    }
  }

  lemma WaiterDecreases(chunks: seq<Chunk>, s: State, s': State, i: nat, h: int)
    requires |s.waiters| == |chunks| && i < |chunks| && WaiterStep(chunks, s, s', i, h)
    ensures s'.main == s.main && Ranks(s'.waiters) < Ranks(s.waiters)
  {
    RanksUpdate(s.waiters, i, s'.waiters[i]);
  }

  lemma MainReady(chunks: seq<Chunk>, handles: nat, s: State)
    requires Inv(chunks, handles, s)
    ensures 0 <= Started(s.main) <= |chunks| && MainRank(chunks, s.main) >= 0
    ensures s.main.Joining? ==> 0 <= s.main.next <= s.main.started
    ensures s.main.Starting? && s.main.next < |chunks| ==> s.waiters[s.main.next] == Unborn
  {
  }

  ghost function Budget(chunks: seq<Chunk>, s: State): int {
    Ranks(s.waiters) + MainRank(chunks, s.main)
  }

  /** Every step uses up a finite budget, so every run of the fan-out is finite. */
  lemma StepsDecrease(chunks: seq<Chunk>, handles: nat, s: State, s': State)
    requires Inv(chunks, handles, s) && Next(chunks, s, s')
    ensures Budget(chunks, s') < Budget(chunks, s) && MainRank(chunks, s.main) >= 0
  {
    MainReady(chunks, handles, s);
    EitherDecreases(chunks, s, s');
  }

  lemma EitherDecreases(chunks: seq<Chunk>, s: State, s': State)
    requires |s.waiters| == |chunks| && 0 <= Started(s.main) <= |chunks| && Next(chunks, s, s')
    requires s.main.Joining? ==> 0 <= s.main.next <= s.main.started
    requires s.main.Starting? && s.main.next < |chunks| ==> s.waiters[s.main.next] == Unborn
    ensures Budget(chunks, s') < Budget(chunks, s)
  {
    if MainStep(chunks, s, s') {
      MainDecreases(chunks, s, s');
    } else {
      var i, h :| 0 <= i < |chunks| && WaiterStep(chunks, s, s', i, h);
      WaiterDecreases(chunks, s, s', i, h);
    }
  }

  lemma {:induction false} BudgetSpent(chunks: seq<Chunk>, handles: nat, t: seq<State>, k: nat)
    requires Partition(chunks, handles) && Run(chunks, t) && k < |t|
    ensures Budget(chunks, t[k]) + k <= Budget(chunks, t[0])
    ensures MainRank(chunks, t[k].main) >= 0
  {
    RunInv(chunks, handles, t, k);
    if k > 0 {
      BudgetSpent(chunks, handles, t, k - 1);
      RunInv(chunks, handles, t, k - 1);
      assert StepAt(chunks, t, k - 1);
      StepsDecrease(chunks, handles, t[k - 1], t[k]);
    }
  }

  lemma {:induction false} UnbornRanks(ws: seq<WaiterPc>)
    requires forall i :: 0 <= i < |ws| ==> ws[i] == Unborn
    ensures Ranks(ws) == 4 * |ws|
  {
    if ws != [] {
      UnbornRanks(ws[1..]);
    }
  }

  /** Every run is finite, whatever the schedule: six steps a chunk and three more at most. */
  lemma RunsAreFinite(chunks: seq<Chunk>, handles: nat, t: seq<State>)
    requires Partition(chunks, handles) && Run(chunks, t)
    ensures |t| <= 6 * |chunks| + 4
  {
    BudgetSpent(chunks, handles, t, |t| - 1);
    UnbornRanks(t[0].waiters);
  }

  /** The caller waits for the shared event, and every started thread for its handles: the state in
      which the call rightly blocks. */
  ghost predicate Blocked(chunks: seq<Chunk>, s: State)
    requires |s.waiters| == |chunks|
  {
    && s.main.WaitingMain? && !s.mainEvent
    && forall i :: 0 <= i < |chunks| && i < s.main.started ==> s.waiters[i] == Waiting
  }

  /** In this step the OS answers a waiting thread: a handle is signalled, or the wait has failed. */
  ghost predicate Answers(s: State, s': State) {
    exists i :: 0 <= i < |s.waiters| && i < |s'.waiters| && s.waiters[i] == Waiting
                && (s'.waiters[i].Reporting? || (s'.waiters[i] == Signalling && s'.waitFailed))
  }

  /** A step that needs nothing from the OS: a waiting thread moves only because the shared event is set. */
  ghost predicate OwnStep(chunks: seq<Chunk>, s: State, s': State) {
    && Next(chunks, s, s') && s'.seen == s.seen && s'.waitFailed == s.waitFailed
    && forall i :: 0 <= i < |s.waiters| && i < |s'.waiters| && s.waiters[i] == Waiting && s'.waiters[i] != Waiting ==> s.mainEvent
  }

  /** No state but the blocked one is stuck: until the call returns, some thread can move although no
      handle is signalled. */
  lemma NeverStuck(chunks: seq<Chunk>, handles: nat, s: State)
    requires Inv(chunks, handles, s) && !s.main.Returned? && !Blocked(chunks, s)
    ensures exists s' :: OwnStep(chunks, s, s')
  {
    match s.main
    case Starting(c) =>
      MainMoves(chunks, s, if c < |chunks| then s.(waiters := s.waiters[c := Waiting], main := Starting(c + 1)) else s.(main := WaitingMain(c)));
    case WaitingMain(c) =>
      if s.mainEvent {
        MainMoves(chunks, s, s.(main := Joining(c, 0)));
      } else {
        var i :| 0 <= i < |chunks| && i < c && s.waiters[i] != Waiting;
        WaiterMoves(chunks, handles, s, i);
      }
    case Joining(c, k) =>
      if k < c && s.waiters[k] != Exited {
        WaiterMoves(chunks, handles, s, k);
      } else {
        MainMoves(chunks, s, if k < c then s.(main := Joining(c, k + 1)) else s.(main := Returned(if s.sigIndex >= 0 then s.sigIndex else WAIT_FAILED)));
      }
  }

  lemma MainMoves(chunks: seq<Chunk>, s: State, s': State)
    requires |s.waiters| == |chunks| && MainStep(chunks, s, s')
    ensures OwnStep(chunks, s, s')
  {
  }

  /** A thread that does not wait for the OS, or that sees the shared event, can move. */
  lemma WaiterMoves(chunks: seq<Chunk>, handles: nat, s: State, i: nat)
    requires Inv(chunks, handles, s) && i < |chunks|
    requires s.waiters[i] != Unborn && s.waiters[i] != Exited && (s.waiters[i] == Waiting ==> s.mainEvent)
    ensures exists s' :: OwnStep(chunks, s, s')
  {
    var s' :=
      match s.waiters[i]
      case Waiting => s.(waiters := s.waiters[i := Signalling])
      case Reporting(index) =>
        s.(waiters := s.waiters[i := Signalling], sigIndex := if s.sigIndex == -1 then index else s.sigIndex)
      case Signalling => s.(waiters := s.waiters[i := Exited], mainEvent := true);
    assert WaiterStep(chunks, s, s', i, 0);
    assert Next(chunks, s, s');
    assert OwnStep(chunks, s, s');
  }

  /** From the blocked state only a report of the OS leads on; and it may report any of the handles,
      since each has its thread waiting for it. */
  lemma OnlySignalsRelease(chunks: seq<Chunk>, handles: nat, s: State)
    requires Inv(chunks, handles, s) && Blocked(chunks, s)
    ensures forall s' :: Next(chunks, s, s') ==> Answers(s, s')
    ensures forall h :: 0 <= h < handles ==> CanReport(chunks, s, h)
  {
    forall s' | Next(chunks, s, s')
      ensures Answers(s, s')
    {
      var i, h :| 0 <= i < |chunks| && WaiterStep(chunks, s, s', i, h);
      assert s.waiters[i] == Waiting && s'.waiters[i] != Waiting;
    }
    forall h | 0 <= h < handles
      ensures CanReport(chunks, s, h)
    {
      assert Covered(chunks, h);
      var i :| 0 <= i < |chunks| && chunks[i].Has(h);
      var s' := s.(waiters := s.waiters[i := Reporting(h)], seen := s.seen + {h});
      assert WaiterStep(chunks, s, s', i, h);
      assert Next(chunks, s, s');
    }
  }

  /** The OS may report that `h` is signalled. */
  ghost predicate CanReport(chunks: seq<Chunk>, s: State, h: int) {
    exists s' :: Next(chunks, s, s') && s'.seen == s.seen + {h}
  }
}
