/** Two local sockets that are each other's peer: bytes read from one descriptor are enqueued on the
    other socket directly, and READ interest is the only back-pressure. */
module PairStream {
  import opened Bytes
  import opened SocketEngine

  datatype Status = Live | Closing | Gone

  datatype Side = Side(
    status: Status, queue: seq<seq<byte>>, wantRead: bool, wantWrite: bool,
    received: seq<byte>, written: seq<byte>, failed: bool)

  datatype Pair = Pair(x: Side, y: Side) {
    function Swap(): Pair { Pair(y, x) }
  }

  datatype Event =
    | ReadEvent(data: seq<byte>, eof: bool, k: nat)   // the far descriptor takes k bytes at once
    | WriteEvent(n: nat)
    | WriteError(n: nat)

  // ---- steps of socket x; y is its peer while both are live ----

  /** `local_socket_close_locked` once the peer link is gone. */
  function CloseSide(s: Side): Side {
    if s.status == Closing || s.queue == [] then
      s.(status := Gone, queue := [], wantRead := false, wantWrite := false)
    else s.(status := Closing, wantRead := false)
  }

  /** Closing one live socket closes its peer first; a closing socket has no peer any more. */
  function CloseFrom(p: Pair): Pair {
    Pair(CloseSide(p.x), if p.x.status == Live then CloseSide(p.y) else p.y)
  }

  function EnqueueOn(y: Side, data: seq<byte>, k: nat): (Side, bool)
    requires k <= |data|
  {
    if y.queue != [] then (y.(queue := y.queue + [data], wantWrite := true), false)
    else if k == |data| then (y.(written := y.written + data), true)
    else (y.(written := y.written + data[..k], queue := [data[k..]], wantWrite := true), false)
  }

  predicate Enabled(p: Pair, ev: Event) {
    match ev
    case ReadEvent(data, _, k) => p.x.status == Live && p.x.wantRead && k <= |data| <= MAX_PAYLOAD
    case WriteEvent(n) => p.x.wantWrite && n <= |Flatten(p.x.queue)|
    case WriteError(n) => p.x.wantWrite && n < |Flatten(p.x.queue)|
  }

  /** `local_socket_event_func` on socket x. */
  function Handle(p: Pair, ev: Event): Pair
    requires Enabled(p, ev)
  {
    match ev
    case ReadEvent(data, eof, k) =>
      var p1 :=
        if data == [] then p
        else
          var (y1, ready) := EnqueueOn(p.y, data, k);
          Pair(p.x.(received := p.x.received + data, wantRead := ready), y1);
      if eof then CloseFrom(p1) else p1
    case WriteEvent(n) =>
      var x1 := p.x.(queue := DropBytes(p.x.queue, n), written := p.x.written + Flatten(p.x.queue)[..n]);
      if x1.queue != [] then Pair(x1, p.y)
      else if x1.status == Closing then CloseFrom(Pair(x1, p.y))
      else Pair(x1.(wantWrite := false), p.y.(wantRead := true))
    case WriteError(n) =>
      CloseFrom(p.(x := p.x.(queue := DropBytes(p.x.queue, n),
                             written := p.x.written + Flatten(p.x.queue)[..n], failed := true)))
  }

  ghost predicate Step(p: Pair, p': Pair) {
    || (exists ev :: Enabled(p, ev) && p' == Handle(p, ev))
    || (exists ev :: Enabled(p.Swap(), ev) && p' == Handle(p.Swap(), ev).Swap())
  }

  // ---- the invariant ----

  function Accepted(s: Side): seq<byte> { s.written + Flatten(s.queue) }

  ghost predicate SideOk(s: Side) {
    && NoEmptyPackets(s.queue) && |s.queue| <= 1
    && (s.wantWrite <==> s.queue != [])
    && (s.status == Gone ==> s.queue == [])
    && (s.status == Closing ==> s.queue != [])
    && (s.wantRead ==> s.status == Live)
  }

  /** The direction from x to y. */
  ghost predicate Flows(x: Side, y: Side) {
    && (x.status == Live <==> y.status == Live)
    && (x.status == Live ==> (x.wantRead <==> y.queue == []))
    && Accepted(y) <= x.received
    && (!y.failed ==> Accepted(y) == x.received)
    && (y.status == Live ==> !y.failed)
  }

  ghost predicate Inv(p: Pair) {
    SideOk(p.x) && SideOk(p.y) && Flows(p.x, p.y) && Flows(p.y, p.x)
  }

  ghost predicate Init(p: Pair) {
    p.x == p.y == Side(Live, [], true, false, [], [], false)
  }

  lemma EnqueueKeeps(y: Side, data: seq<byte>, k: nat)
    requires SideOk(y) && y.queue == [] && y.status == Live && data != [] && k <= |data|
    ensures
      var (y1, ready) := EnqueueOn(y, data, k);
      && SideOk(y1) && Accepted(y1) == Accepted(y) + data && ready == (y1.queue == [])
      && y1.status == Live && y1.wantRead == y.wantRead && y1.received == y.received && y1.failed == y.failed
  {
    FlattenOne(data[k..]);
    assert data[..k] + data[k..] == data;
    assert y.written + data[..k] + data[k..] == y.written + data;
  }

  lemma CloseKeeps(p: Pair)
    requires SideOk(p.x) && SideOk(p.y)
    requires p.x.status == Live <==> p.y.status == Live
    requires Accepted(p.y) <= p.x.received && (!p.y.failed ==> Accepted(p.y) == p.x.received)
    requires Accepted(p.x) <= p.y.received && (!p.x.failed ==> Accepted(p.x) == p.y.received)
    requires p.x.status == Closing ==> p.x.failed
    ensures Inv(CloseFrom(p))
  {
  }

  /** The descriptor of x took `n` of its queued bytes. */
  function Drained(x: Side, n: nat): Side
    requires n <= |Flatten(x.queue)|
  {
    x.(queue := DropBytes(x.queue, n), written := x.written + Flatten(x.queue)[..n])
  }

  lemma DrainKeeps(x: Side, n: nat)
    requires n <= |Flatten(x.queue)| && NoEmptyPackets(x.queue)
    ensures Accepted(Drained(x, n)) == Accepted(x)
    ensures NoEmptyPackets(Drained(x, n).queue) && |Drained(x, n).queue| <= |x.queue|
    ensures Drained(x, n).queue == [] <==> n == |Flatten(x.queue)|
  {
    DropBytesFlatten(x.queue, n);
    DropBytesNonEmpty(x.queue, n);
    var f := Flatten(x.queue);
    assert f[..n] + f[n..] == f;
    assert x.written + f[..n] + f[n..] == x.written + (f[..n] + f[n..]);
  }

  lemma ReadKeeps(p: Pair, ev: Event)
    requires Inv(p) && Enabled(p, ev) && ev.ReadEvent?
    ensures Inv(Handle(p, ev))
  {
    if ev.data != [] {
      EnqueueKeeps(p.y, ev.data, ev.k);
      var (y1, ready) := EnqueueOn(p.y, ev.data, ev.k);
      var p1 := Pair(p.x.(received := p.x.received + ev.data, wantRead := ready), y1);
      assert Inv(p1);
      CloseKeeps(p1);
    } else {
      CloseKeeps(p);
    }
  }

  lemma WriteKeeps(p: Pair, ev: Event)
    requires Inv(p) && Enabled(p, ev) && !ev.ReadEvent?
    ensures Inv(Handle(p, ev))
  {
    DrainKeeps(p.x, ev.n);
    var x1 := Drained(p.x, ev.n);
    if ev.WriteError? {
      CloseKeeps(p.(x := x1.(failed := true)));
    }
  }

  lemma StepInv(p: Pair, p': Pair)
    requires Inv(p) && Step(p, p')
    ensures Inv(p')
  {
    if ev :| Enabled(p, ev) && p' == Handle(p, ev) {
      if ev.ReadEvent? { ReadKeeps(p, ev); } else { WriteKeeps(p, ev); }
    } else {
      var ev :| Enabled(p.Swap(), ev) && p' == Handle(p.Swap(), ev).Swap();
      assert Inv(p.Swap());
      if ev.ReadEvent? { ReadKeeps(p.Swap(), ev); } else { WriteKeeps(p.Swap(), ev); }
    }
  }

  ghost predicate Run(t: seq<Pair>) {
    && t != [] && Init(t[0])
    && forall i :: 0 <= i < |t| - 1 ==> Step(t[i], t[i + 1])
  }

  lemma {:induction false} RunInv(t: seq<Pair>, k: nat)
    requires Run(t) && k < |t|
    ensures Inv(t[k])
  {
    if k > 0 {
      RunInv(t, k - 1);
      assert Step(t[k - 1], t[k - 1 + 1]);
      StepInv(t[k - 1], t[k]);
    }
  }

  /** Over every run: what was read on one side is what the other wrote plus what it still queues;
      READ is wanted exactly while the other side has no backlog; at most one packet is queued; and a
      socket that is gone without a descriptor error has written everything. */
  lemma StreamLaws(t: seq<Pair>, k: nat)
    requires Run(t) && k < |t|
    ensures
      var x, y := t[k].x, t[k].y;
      && (!y.failed ==> x.received == y.written + Flatten(y.queue))
      && (!x.failed ==> y.received == x.written + Flatten(x.queue))
      && y.written <= x.received && x.written <= y.received
      && (x.status == Live ==> (x.wantRead <==> y.queue == []) && (y.wantRead <==> x.queue == []))
      && |x.queue| <= 1 && |y.queue| <= 1
      && (x.wantWrite <==> x.queue != []) && (y.wantWrite <==> y.queue != [])
      && (x.status == Gone && !x.failed ==> x.written == y.received)
      && (y.status == Gone && !y.failed ==> y.written == x.received)
  {
    RunInv(t, k);
    var x, y := t[k].x, t[k].y;
    assert x.written <= Accepted(x) && y.written <= Accepted(y);
    assert x.queue == [] ==> Accepted(x) == x.written;
    assert y.queue == [] ==> Accepted(y) == y.written;
  }

  /** What an event means: a live pair goes down exactly at end of file or on a failed write, `failed`
      records failed writes only, and the descriptors' histories grow by what was read and written. */
  lemma EventMeaning(t: seq<Pair>, k: nat, ev: Event)
    requires Run(t) && k < |t| && Enabled(t[k], ev)
    ensures
      var p, p' := t[k], Handle(t[k], ev);
      && (p.x.status == Live ==> (p'.x.status != Live <==> (ev.ReadEvent? && ev.eof) || ev.WriteError?))
      && (p'.x.failed <==> p.x.failed || ev.WriteError?) && p'.y.failed == p.y.failed
      && p'.x.received == p.x.received + (if ev.ReadEvent? then ev.data else []) && p'.y.received == p.y.received
      && (!ev.ReadEvent? ==> p'.x.written == p.x.written + Flatten(p.x.queue)[..ev.n] && p'.y.written == p.y.written)
  {
    RunInv(t, k);
    if !ev.ReadEvent? {
      DropBytesNonEmpty(t[k].x.queue, ev.n);
    }
  }
}
