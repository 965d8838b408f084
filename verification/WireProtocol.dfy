/** One stream between a host and a device: OPEN, READY (OKAY), WRITE (WRTE) and CLOSE (CLSE).

    Each end is a local socket whose peer is a remote socket; `handle_packet` delivers the
    messages of the other end. The channels are the two directions of one transport. */
module WireProtocol {
  import opened Bytes
  import opened SocketEngine

  datatype Msg = OpenMsg | Okay | Wrte(data: seq<byte>) | Clse

  /** Absent: the device has not been asked yet. Connecting: the host sent OPEN. Closing: on the
      closing list, still draining. Gone: destroyed, or refused. */
  datatype Status = Absent | Connecting | Live | Closing | Gone

  /** One end. `received` and `written` are the history of the end's own descriptor; `byPeer` and
      `failed` say that it was closed by a CLSE, and that a descriptor write failed; the counters
      count WRTEs sent, READYs received (the OPEN implies one) and CLSEs sent. */
  datatype End = End(
    status: Status,
    queue: seq<seq<byte>>,
    wantRead: bool, wantWrite: bool,
    received: seq<byte>, written: seq<byte>,
    byPeer: bool, failed: bool,
    writes: nat, readies: nat, closes: nat)

  datatype Net = Net(host: End, device: End, toDevice: seq<Msg>, toHost: seq<Msg>)

  /** What can happen at one end. The numbers are how many bytes the descriptor takes. */
  datatype Action =
    | ReadEvent(data: seq<byte>, eof: bool)
    | WriteEvent(n: nat)
    | WriteError(n: nat)
    | Receive(accept: bool, n: nat)
    | ReceiveError(n: nat)

  datatype Outcome = Outcome(e: End, out: seq<Msg>)

  // ---- one end ----

  /** `local_socket_close_locked` with a remote peer: CLSE, then destroy or drain. */
  function CloseEnd(e: End, byPeer: bool): Outcome
  {
    var out := if e.status == Live then [Clse] else [];
    var e1 := e.(wantRead := false, byPeer := e.byPeer || byPeer, closes := e.closes + |out|);
    if e.status == Closing || e.queue == [] then
      Outcome(e1.(status := Gone, queue := [], wantWrite := false), out)
    else
      Outcome(e1.(status := Closing), out)
  }

  /** `local_socket_event_func` on FDE_READ: one WRTE to the remote peer, then close at end of file. */
  function OnRead(e: End, data: seq<byte>, eof: bool): Outcome
  {
    var e1 := if data == [] then e
              else e.(received := e.received + data, wantRead := false, writes := e.writes + 1);
    var out := if data == [] then [] else [Wrte(data)];
    if eof then
      var c := CloseEnd(e1, false);
      Outcome(c.e, out + c.out)
    else
      Outcome(e1, out)
  }

  /** `local_socket_event_func` on FDE_WRITE. */
  function OnWrite(e: End, n: nat): Outcome
    requires n <= |Flatten(e.queue)|
  {
    var e1 := e.(queue := DropBytes(e.queue, n), written := e.written + Flatten(e.queue)[..n]);
    if e1.queue != [] then Outcome(e1, [])
    else if e.status == Closing then CloseEnd(e1, false)
    else Outcome(e1.(wantWrite := false), [Okay])
  }

  function OnWriteError(e: End, n: nat): Outcome
    requires n <= |Flatten(e.queue)|
  {
    CloseEnd(e.(queue := DropBytes(e.queue, n), written := e.written + Flatten(e.queue)[..n], failed := true), false)
  }

  /** `handle_packet` on WRTE: `local_socket_enqueue`, and READY at once if nothing is left over. */
  function OnWrte(e: End, data: seq<byte>, n: nat): Outcome
    requires n <= |data|
  {
    if e.status != Live then Outcome(e, [])
    else if e.queue != [] then Outcome(e.(queue := e.queue + [data], wantWrite := true), [])
    else if n == |data| then Outcome(e.(written := e.written + data), [Okay])
    else Outcome(e.(written := e.written + data[..n], queue := [data[n..]], wantWrite := true), [])
  }

  function OnWrteError(e: End, data: seq<byte>, n: nat): Outcome
    requires n <= |data|
  {
    CloseEnd(e.(written := e.written + data[..n], failed := true), false)
  }

  /** The rest of `handle_packet`. */
  function OnMsg(e: End, m: Msg, accept: bool, n: nat): Outcome
    requires m.Wrte? ==> n <= |m.data|
  {
    match m
    case OpenMsg =>
      if e.status != Absent then Outcome(e, [])
      else if accept then Outcome(e.(status := Live, wantRead := true, readies := 1), [Okay])
      else Outcome(e.(status := Gone, closes := 1), [Clse])
    case Okay =>
      if e.status == Connecting || e.status == Live then
        Outcome(e.(status := Live, wantRead := true, readies := e.readies + 1), [])
      else Outcome(e, [])
    case Clse =>
      if e.status == Connecting || e.status == Live then CloseEnd(e, true) else Outcome(e, [])
    case Wrte(data) => OnWrte(e, data, n)
  }

  /** Events are delivered only while wanted; a receive takes the oldest message. */
  predicate Enabled(e: End, inbox: seq<Msg>, a: Action) {
    match a
    case ReadEvent(data, _) => e.status == Live && e.wantRead && |data| <= MAX_PAYLOAD
    case WriteEvent(n) => e.wantWrite && n <= |Flatten(e.queue)|
    case WriteError(n) => e.wantWrite && n < |Flatten(e.queue)|
    case Receive(_, n) => inbox != [] && (inbox[0].Wrte? ==> n <= |inbox[0].data|)
    case ReceiveError(n) => inbox != [] && inbox[0].Wrte? && n < |inbox[0].data| && e.status == Live && e.queue == []
  }

  function Act(e: End, inbox: seq<Msg>, a: Action): Outcome
    requires Enabled(e, inbox, a)
  {
    match a
    case ReadEvent(data, eof) => OnRead(e, data, eof)
    case WriteEvent(n) => OnWrite(e, n)
    case WriteError(n) => OnWriteError(e, n)
    case Receive(accept, n) => OnMsg(e, inbox[0], accept, n)
    case ReceiveError(n) => OnWrteError(e, inbox[0].data, n)
  }

  function Rest(inbox: seq<Msg>, a: Action): seq<Msg> {
    if (a.Receive? || a.ReceiveError?) && inbox != [] then inbox[1..] else inbox
  }

  // ---- the network ----

  const NewEnd := End(Absent, [], false, false, [], [], false, false, 0, 0, 0)

  /** The host has sent OPEN and waits; nothing else has happened. */
  ghost predicate Init(n: Net) {
    n == Net(NewEnd.(status := Connecting), NewEnd, [OpenMsg], [])
  }

  ghost predicate HostStep(n: Net, n': Net, a: Action) {
    && Enabled(n.host, n.toHost, a)
    && var o := Act(n.host, n.toHost, a);
       n' == Net(o.e, n.device, n.toDevice + o.out, Rest(n.toHost, a))
  }

  ghost predicate DeviceStep(n: Net, n': Net, a: Action) {
    && Enabled(n.device, n.toDevice, a)
    && var o := Act(n.device, n.toDevice, a);
       n' == Net(n.host, o.e, Rest(n.toDevice, a), n.toHost + o.out)
  }

  ghost predicate Next(n: Net, n': Net) {
    exists a :: HostStep(n, n', a) || DeviceStep(n, n', a)
  }

  // ---- the invariant ----

  ghost predicate EndOk(e: End) {
    && NoEmptyPackets(e.queue) && |e.queue| <= 1
    && (e.wantWrite <==> e.queue != [])
    && (e.queue != [] ==> e.status == Live || e.status == Closing)
    && (e.status == Closing ==> e.queue != [])
    && (e.wantRead ==> e.status == Live)
    && (e.byPeer ==> e.status == Closing || e.status == Gone)
    && (e.status == Absent || e.status == Connecting ==> e == NewEnd.(status := e.status))
    && (e.status == Live ==> e.writes + (if e.wantRead then 1 else 0) == e.readies && !e.failed && e.closes == 0)
    && (e.status == Closing ==> e.closes == 1)
    && e.closes <= 1 && e.writes <= e.readies
  }

  function Wrtes(c: seq<Msg>): nat {
    if c == [] then 0 else (if c[0].Wrte? then 1 else 0) + Wrtes(c[1..])
  }

  function Okays(c: seq<Msg>): nat {
    if c == [] then 0 else (if c[0].Okay? then 1 else 0) + Okays(c[1..])
  }

  /** The bytes travelling in a channel. */
  function InFlight(c: seq<Msg>): seq<byte> {
    if c == [] then [] else (if c[0].Wrte? then c[0].data else []) + InFlight(c[1..])
  }

  /** The right to send one WRTE: held by the sender, by a WRTE under way, by a receiver that has
      not finished writing, or by an OKAY on its way back. */
  function Credit(s: End, c: seq<Msg>, r: End, back: seq<Msg>): nat {
    (if s.wantRead then 1 else 0) + Wrtes(c) + (if r.status == Live then |r.queue| else 0) + Okays(back)
  }

  predicate Up(e: End) {
    e.status == Connecting || e.status == Live
  }

  ghost predicate CloseIsLast(s: End, c: seq<Msg>) {
    && (forall i :: 0 <= i < |c| - 1 ==> c[i] != Clse)
    && (s.status == Absent || s.status == Connecting || s.status == Live ==> Clse !in c)
  }

  ghost predicate WellFormed(c: seq<Msg>) {
    forall i :: 0 <= i < |c| && c[i].Wrte? ==> c[i].data != []
  }

  ghost predicate BytesKept(s: End, c: seq<Msg>, r: End) {
    && r.written + Flatten(r.queue) <= s.received
    && (Up(r) || r.status == Absent ==>
          s.received == r.written + Flatten(r.queue) + InFlight(c))
    && (r.byPeer ==> c == [] && !Up(s))
    && (r.byPeer && !r.failed ==> s.received == r.written + Flatten(r.queue))
  }

  /** Everything about the direction from `s` to `r`. */
  ghost predicate Direction(s: End, c: seq<Msg>, r: End, back: seq<Msg>) {
    && Credit(s, c, r, back) <= 1
    && (Up(s) && Up(r) ==> Credit(s, c, r, back) == 1)
    && CloseIsLast(s, c) && WellFormed(c)
    && BytesKept(s, c, r)
  }

  ghost predicate Handshake(n: Net) {
    && n.host.status != Absent && n.device.status != Connecting
    && (n.device.status == Absent ==> n.host.status == Connecting && n.toDevice == [OpenMsg] && n.toHost == [])
    && (n.device.status != Absent ==> OpenMsg !in n.toDevice)
    && OpenMsg !in n.toHost
    && (n.host.status == Connecting && n.device.status != Absent ==>
          n.toHost != [] && (n.toHost[0] == Okay || n.toHost == [Clse]))
  }

  ghost predicate Inv(n: Net) {
    && EndOk(n.host) && EndOk(n.device)
    && Direction(n.host, n.toDevice, n.device, n.toHost)
    && Direction(n.device, n.toHost, n.host, n.toDevice)
    && Handshake(n)
  }

  // ---- counting in channels ----

  lemma {:induction false} CountsConcat(c: seq<Msg>, d: seq<Msg>)
    ensures Wrtes(c + d) == Wrtes(c) + Wrtes(d)
    ensures Okays(c + d) == Okays(c) + Okays(d)
    ensures InFlight(c + d) == InFlight(c) + InFlight(d)
  {
    if c == [] {
      assert c + d == d;
    } else {
      assert (c + d)[0] == c[0] && (c + d)[1..] == c[1..] + d;
      CountsConcat(c[1..], d);
      Assoc(if c[0].Wrte? then c[0].data else [], InFlight(c[1..]), InFlight(d));
    }
  }

  /** The messages one action can emit. */
  ghost predicate Emits(out: seq<Msg>) {
    || out == [] || out == [Okay] || out == [Clse]
    || (|out| == 1 && out[0].Wrte? && out[0].data != [])
    || (|out| == 2 && out[0].Wrte? && out[0].data != [] && out[1] == Clse)
  }

  lemma EmitsCounts(out: seq<Msg>)
    requires Emits(out)
    ensures Okays(out) == if out == [Okay] then 1 else 0
    ensures Wrtes(out) == if out != [] && out[0].Wrte? then 1 else 0
    ensures InFlight(out) == if out != [] && out[0].Wrte? then out[0].data else []
  {
    if |out| == 2 {
      assert out == [out[0]] + [out[1]];
      assert out[1..] == [out[1]];
    } else if |out| == 1 {
      assert out[1..] == [];
    }
  }

  // ---- an action at one end ----

  /** What any action does to the end that performs it, apart from the bytes. */
  lemma ActShape(e: End, inbox: seq<Msg>, a: Action)
    requires EndOk(e) && Enabled(e, inbox, a)
    requires a.Receive? && inbox[0].Wrte? && e.status == Live ==> e.queue == []
    requires a.Receive? && inbox[0].Okay? ==> !e.wantRead
    ensures
      var o := Act(e, inbox, a);
      && Emits(o.out)
      && EndOk(o.e)
      && (!Up(e) && e.status != Absent ==> o.out == [] && !Up(o.e))
  {
    if a.WriteEvent? || a.WriteError? {
      DropBytesFlatten(e.queue, a.n);
      DropBytesNonEmpty(e.queue, a.n);
    }
  }

  /** Credit decides what a receive can find: no backlog under a WRTE, no READ interest under an OKAY. */
  lemma CreditBlocks(e: End, inbox: seq<Msg>, a: Action, s: End, back: seq<Msg>)
    requires Enabled(e, inbox, a)
    requires Credit(s, inbox, e, back) <= 1 && Credit(e, back, s, inbox) <= 1
    ensures a.Receive? && inbox[0].Wrte? && e.status == Live ==> e.queue == []
    ensures a.Receive? && inbox[0].Okay? ==> !e.wantRead
  {
  }

  function Bit(b: bool): nat { if b then 1 else 0 }

  /** What an action means for the direction in which the acting end is the sender. */
  ghost predicate SenderEffect(e: End, inbox: seq<Msg>, e': End, out: seq<Msg>, inbox': seq<Msg>) {
    && Emits(out)
    && e'.received == e.received + InFlight(out)
    && (Clse in out || out == [] || Up(e'))
    && (Clse in out ==> !Up(e'))
    && (Up(e) || e.status == Absent || (out == [] && !Up(e')))
    && e'.status != Absent
    && (e.status != Absent ==>
          && Bit(e'.wantRead) + Wrtes(out) + Okays(inbox') <= Bit(e.wantRead) + Okays(inbox)
          && (Up(e') ==> Bit(e'.wantRead) + Wrtes(out) + Okays(inbox') == Bit(e.wantRead) + Okays(inbox)))
    && (e.status == Absent ==> out == [Okay] || out == [Clse])
    && (e.status == Absent ==> Bit(e'.wantRead) == Bit(Up(e')) && Okays(inbox') == 0)
  }

  /** The acting end's own conditions, taken from the invariant of the network. */
  ghost predicate CanAct(e: End, inbox: seq<Msg>, a: Action) {
    && EndOk(e) && Enabled(e, inbox, a)
    && (a.Receive? && inbox[0].Wrte? && e.status == Live ==> e.queue == [])
    && (a.Receive? && inbox[0].Okay? ==> !e.wantRead)
    && (e.status == Absent ==> inbox == [OpenMsg])
    && (e.status != Absent ==> OpenMsg !in inbox)
    && (a.Receive? && e.status == Connecting ==> inbox[0] == Okay || inbox[0] == Clse)
  }

  lemma RestOkays(inbox: seq<Msg>, a: Action)
    requires inbox != [] && (a.Receive? || a.ReceiveError?)
    ensures Okays(inbox) == Okays(Rest(inbox, a)) + Bit(inbox[0] == Okay)
    ensures Wrtes(inbox) == Wrtes(Rest(inbox, a)) + Bit(inbox[0].Wrte?)
    ensures InFlight(inbox) == (if inbox[0].Wrte? then inbox[0].data else []) + InFlight(Rest(inbox, a))
  {
  }

  lemma ReadSends(e: End, inbox: seq<Msg>, a: Action)
    requires CanAct(e, inbox, a) && a.ReadEvent?
    ensures SenderEffect(e, inbox, Act(e, inbox, a).e, Act(e, inbox, a).out, Rest(inbox, a))
  {
    ActShape(e, inbox, a);
    EmitsCounts(Act(e, inbox, a).out);
  }

  lemma WriteSends(e: End, inbox: seq<Msg>, a: Action)
    requires CanAct(e, inbox, a) && (a.WriteEvent? || a.WriteError?)
    ensures SenderEffect(e, inbox, Act(e, inbox, a).e, Act(e, inbox, a).out, Rest(inbox, a))
  {
    ActShape(e, inbox, a);
    EmitsCounts(Act(e, inbox, a).out);
  }

  lemma ReceiptSends(e: End, inbox: seq<Msg>, a: Action)
    requires CanAct(e, inbox, a) && (a.Receive? || a.ReceiveError?)
    ensures SenderEffect(e, inbox, Act(e, inbox, a).e, Act(e, inbox, a).out, Rest(inbox, a))
  {
    ActShape(e, inbox, a);
    EmitsCounts(Act(e, inbox, a).out);
    RestOkays(inbox, a);
  }

  lemma ActSends(e: End, inbox: seq<Msg>, a: Action)
    requires CanAct(e, inbox, a)
    ensures SenderEffect(e, inbox, Act(e, inbox, a).e, Act(e, inbox, a).out, Rest(inbox, a))
  {
    if a.Receive? || a.ReceiveError? {
      ReceiptSends(e, inbox, a);
    } else if a.ReadEvent? {
      ReadSends(e, inbox, a);
    } else {
      WriteSends(e, inbox, a);
    }
  }

  lemma SenderSide(e: End, inbox: seq<Msg>, e': End, out: seq<Msg>, inbox': seq<Msg>, c: seq<Msg>, r: End)
    requires Direction(e, c, r, inbox) && SenderEffect(e, inbox, e', out, inbox')
    requires e.status == Absent ==> c == [] && r == NewEnd.(status := Connecting)
    ensures Direction(e', c + out, r, inbox')
  {
    EmitsCounts(out);
    CountsConcat(c, out);
    if r.byPeer {
      assert out == [] && c + out == [];
    }
    assert r.written + Flatten(r.queue) + InFlight(c) + InFlight(out)
        == r.written + Flatten(r.queue) + (InFlight(c) + InFlight(out));
  }

  function Held(e: End): nat { if e.status == Live then |e.queue| else 0 }

  /** The bytes an end has accepted: written to its descriptor or queued for it. */
  function Accepted(e: End): seq<byte> { e.written + Flatten(e.queue) }

  /** What an action means for the direction in which the acting end is the receiver. */
  ghost predicate ReceiverEffect(e: End, inbox: seq<Msg>, e': End, out: seq<Msg>, inbox': seq<Msg>) {
    && Emits(out)
    && (inbox' == inbox || (inbox != [] && inbox' == inbox[1..]))
    && e'.status != Absent
    && (Up(e') ==> Up(e) || e.status == Absent)
    && (e.status == Absent ==>
          && Accepted(e') == [] && inbox' == [] && Held(e') == 0
          && Okays(out) == Bit(Up(e')) && !e'.byPeer)
    && (e.status != Absent ==>
          && Wrtes(inbox') + Held(e') + Okays(out) <= Wrtes(inbox) + Held(e)
          && (Up(e') ==> Wrtes(inbox') + Held(e') + Okays(out) == Wrtes(inbox) + Held(e)))
    && (Up(e) && Up(e') ==> Accepted(e') + InFlight(inbox') == Accepted(e) + InFlight(inbox))
    && (Up(e) && !Up(e') ==> Accepted(e') <= Accepted(e) + InFlight(inbox))
    && (Up(e) && e'.byPeer ==> inbox != [] && inbox[0] == Clse && inbox' == inbox[1..] && Accepted(e') == Accepted(e))
    && (!Up(e) && e.status != Absent ==>
          && e'.byPeer == e.byPeer && (e.failed ==> e'.failed)
          && Accepted(e') <= Accepted(e) && (!e'.failed ==> Accepted(e') == Accepted(e)))
    && (Up(e') ==> !e'.byPeer)
  }

  lemma DrainKeeps(e: End, n: nat)
    requires n <= |Flatten(e.queue)|
    ensures e.written + Flatten(e.queue)[..n] + Flatten(DropBytes(e.queue, n)) == Accepted(e)
    ensures |DropBytes(e.queue, n)| <= |e.queue|
  {
    DropBytesFlatten(e.queue, n);
    assert Flatten(e.queue)[..n] + Flatten(e.queue)[n..] == Flatten(e.queue);
    assert e.written + (Flatten(e.queue)[..n] + Flatten(e.queue)[n..]) == e.written + Flatten(e.queue)[..n] + Flatten(e.queue)[n..];
  }

  lemma WriteReceives(e: End, inbox: seq<Msg>, a: Action)
    requires CanAct(e, inbox, a) && (a.WriteEvent? || a.WriteError?)
    ensures ReceiverEffect(e, inbox, Act(e, inbox, a).e, Act(e, inbox, a).out, Rest(inbox, a))
  {
    ActShape(e, inbox, a);
    EmitsCounts(Act(e, inbox, a).out);
    DrainKeeps(e, a.n);
    DropBytesNonEmpty(e.queue, a.n);
  }

  lemma ReadReceives(e: End, inbox: seq<Msg>, a: Action)
    requires CanAct(e, inbox, a) && a.ReadEvent?
    ensures ReceiverEffect(e, inbox, Act(e, inbox, a).e, Act(e, inbox, a).out, Rest(inbox, a))
  {
    ActShape(e, inbox, a);
    EmitsCounts(Act(e, inbox, a).out);
  }

  /** The bytes of a WRTE at a live end: written, queued, or cut short by an error. */
  lemma WrteBytes(e: End, data: seq<byte>, n: nat, later: seq<byte>)
    requires n <= |data| && e.status == Live && e.queue == []
    ensures Accepted(OnWrte(e, data, n).e) + later == Accepted(e) + (data + later)
    ensures Accepted(OnWrteError(e, data, n).e) <= Accepted(e) + (data + later)
  {
    FlattenOne(data[n..]);
    assert data[..n] + data[n..] == data;
    assert e.written + data[..n] + data[n..] == e.written + data;
    assert Accepted(OnWrte(e, data, n).e) == e.written + data;
    assert Accepted(OnWrteError(e, data, n).e) == e.written + data[..n];
  }

  lemma WrteReceives(e: End, inbox: seq<Msg>, a: Action)
    requires CanAct(e, inbox, a) && (a.Receive? || a.ReceiveError?) && inbox[0].Wrte?
    ensures ReceiverEffect(e, inbox, Act(e, inbox, a).e, Act(e, inbox, a).out, Rest(inbox, a))
  {
    RestOkays(inbox, a);
    var o := Act(e, inbox, a);
    if e.status == Live {
      WrteBytes(e, inbox[0].data, a.n, InFlight(inbox[1..]));
      EmitsCounts(o.out);
    } else {
      assert o == Outcome(e, []);
    }
  }

  lemma SignalReceives(e: End, inbox: seq<Msg>, a: Action)
    requires CanAct(e, inbox, a) && a.Receive? && !inbox[0].Wrte?
    ensures ReceiverEffect(e, inbox, Act(e, inbox, a).e, Act(e, inbox, a).out, Rest(inbox, a))
  {
    ActShape(e, inbox, a);
    EmitsCounts(Act(e, inbox, a).out);
    RestOkays(inbox, a);
  }

  lemma ActReceives(e: End, inbox: seq<Msg>, a: Action)
    requires CanAct(e, inbox, a)
    ensures ReceiverEffect(e, inbox, Act(e, inbox, a).e, Act(e, inbox, a).out, Rest(inbox, a))
  {
    if a.WriteEvent? || a.WriteError? {
      WriteReceives(e, inbox, a);
    } else if a.ReadEvent? {
      ReadReceives(e, inbox, a);
    } else if inbox[0].Wrte? {
      WrteReceives(e, inbox, a);
    } else {
      SignalReceives(e, inbox, a);
    }
  }

  lemma ReceiverSide(e: End, inbox: seq<Msg>, e': End, out: seq<Msg>, inbox': seq<Msg>, s: End, back: seq<Msg>)
    requires Direction(s, inbox, e, back) && ReceiverEffect(e, inbox, e', out, inbox')
    requires e.status == Absent ==> back == [] && s == NewEnd.(status := Connecting)
    ensures Direction(s, inbox', e', back + out)
  {
    EmitsCounts(out);
    CountsConcat(back, out);
    if Up(e) && e'.byPeer {
      assert |inbox| == 1;
      assert inbox[1..] == [];
      assert InFlight(inbox) == [];
    }
  }

  // ---- runs ----

  /** An action at `e` keeps both directions; `x` is the other end, `c` the channel towards it. */
  lemma ActKeeps(e: End, inbox: seq<Msg>, a: Action, x: End, c: seq<Msg>)
    requires CanAct(e, inbox, a)
    requires Direction(e, c, x, inbox) && Direction(x, inbox, e, c)
    requires e.status == Absent ==> c == [] && x == NewEnd.(status := Connecting)
    ensures
      var o := Act(e, inbox, a);
      && EndOk(o.e)
      && Direction(o.e, c + o.out, x, Rest(inbox, a))
      && Direction(x, Rest(inbox, a), o.e, c + o.out)
  {
    var o := Act(e, inbox, a);
    ActShape(e, inbox, a);
    ActSends(e, inbox, a);
    ActReceives(e, inbox, a);
    SenderSide(e, inbox, o.e, o.out, Rest(inbox, a), c, x);
    ReceiverSide(e, inbox, o.e, o.out, Rest(inbox, a), x, c);
  }

  lemma HostHandshake(n: Net, n': Net, a: Action)
    requires Handshake(n) && HostStep(n, n', a) && EndOk(n.host) && CloseIsLast(n.device, n.toHost)
    ensures Handshake(n')
  {
  }

  lemma DeviceHandshake(n: Net, n': Net, a: Action)
    requires Handshake(n) && DeviceStep(n, n', a) && EndOk(n.device) && CloseIsLast(n.device, n.toHost)
    ensures Handshake(n')
  {
  }

  lemma HostInv(n: Net, n': Net, a: Action)
    requires Inv(n) && HostStep(n, n', a)
    ensures Inv(n')
  {
    HostHandshake(n, n', a);
    CreditBlocks(n.host, n.toHost, a, n.device, n.toDevice);
    ActKeeps(n.host, n.toHost, a, n.device, n.toDevice);
  }

  lemma DeviceInv(n: Net, n': Net, a: Action)
    requires Inv(n) && DeviceStep(n, n', a)
    ensures Inv(n')
  {
    DeviceHandshake(n, n', a);
    CreditBlocks(n.device, n.toDevice, a, n.host, n.toHost);
    ActKeeps(n.device, n.toDevice, a, n.host, n.toHost);
  }

  lemma NextInv(n: Net, n': Net)
    requires Inv(n) && Next(n, n')
    ensures Inv(n')
  {
    var a :| HostStep(n, n', a) || DeviceStep(n, n', a);
    if HostStep(n, n', a) {
      HostInv(n, n', a);
    } else {
      DeviceInv(n, n', a);
    }
  }

  lemma InitInv(n: Net)
    requires Init(n)
    ensures Inv(n)
  {
    assert [OpenMsg][1..] == [];
  }

  ghost predicate StepAt(t: seq<Net>, i: nat)
    requires i + 1 < |t|
  {
    Next(t[i], t[i + 1])
  }

  ghost predicate Run(t: seq<Net>) {
    t != [] && Init(t[0]) && forall i: nat :: i + 1 < |t| ==> StepAt(t, i)
  }

  lemma {:induction false} RunInv(t: seq<Net>, k: nat)
    requires Run(t) && k < |t|
    ensures Inv(t[k])
  {
    if k == 0 {
      InitInv(t[0]);
    } else {
      RunInv(t, k - 1);
      assert StepAt(t, k - 1);
      NextInv(t[k - 1], t[k]);
    }
  }

  /** Flow control over every run: between the two live ends there is exactly one credit per
      direction, so READ is wanted only when nothing is queued or under way, at most one packet is
      ever queued, and the stream cannot stall with empty channels and an empty queue. */
  lemma FlowControl(t: seq<Net>, k: nat)
    requires Run(t) && k < |t|
    ensures
      var n := t[k];
      && |n.host.queue| <= 1 && |n.device.queue| <= 1
      && Wrtes(n.toDevice) <= 1 && Wrtes(n.toHost) <= 1
      && (n.host.status == Live && n.device.status == Live ==>
            && Credit(n.host, n.toDevice, n.device, n.toHost) == 1
            && Credit(n.device, n.toHost, n.host, n.toDevice) == 1
            && (n.toDevice == [] && n.toHost == [] && n.device.queue == [] ==> n.host.wantRead)
            && (n.toDevice == [] && n.toHost == [] && n.host.queue == [] ==> n.device.wantRead))
      && (n.host.wantRead && n.device.status == Live ==> n.device.queue == [] && Wrtes(n.toDevice) == 0)
      && (n.device.wantRead && n.host.status == Live ==> n.host.queue == [] && Wrtes(n.toHost) == 0)
      && (n.host.wantWrite <==> n.host.queue != []) && (n.device.wantWrite <==> n.device.queue != [])
  {
    RunInv(t, k);
  }

  /** An end never sends more WRITEs than it has received READYs, and it sends one CLOSE at most. */
  lemma OneWritePerReady(t: seq<Net>, k: nat)
    requires Run(t) && k < |t|
    ensures t[k].host.writes <= t[k].host.readies && t[k].device.writes <= t[k].device.readies
    ensures t[k].host.closes <= 1 && t[k].device.closes <= 1
    ensures t[k].host.status == Live && !t[k].host.wantRead ==> t[k].host.writes == t[k].host.readies
    ensures t[k].device.status == Live && !t[k].device.wantRead ==> t[k].device.writes == t[k].device.readies
  {
    RunInv(t, k);
  }

  /** No byte is invented, lost or reordered between live ends; the far side always has a prefix. */
  lemma BytesConserved(t: seq<Net>, k: nat)
    requires Run(t) && k < |t|
    ensures
      var n := t[k];
      && Accepted(n.device) <= n.host.received
      && Accepted(n.host) <= n.device.received
      && (n.device.status == Live ==> n.host.received == Accepted(n.device) + InFlight(n.toDevice))
      && (n.host.status == Live ==> n.device.received == Accepted(n.host) + InFlight(n.toHost))
  {
    RunInv(t, k);
  }

  /** Graceful close: an end that was closed by its peer's CLSE and is gone without a descriptor
      error has written every byte the peer ever read, backlog included. */
  lemma GracefulClose(t: seq<Net>, k: nat)
    requires Run(t) && k < |t|
    ensures t[k].device.byPeer && t[k].device.status == Gone && !t[k].device.failed ==> t[k].device.written == t[k].host.received
    ensures t[k].host.byPeer && t[k].host.status == Gone && !t[k].host.failed ==> t[k].host.written == t[k].device.received
  {
    RunInv(t, k);
    var n := t[k];
    assert n.device.status == Gone ==> Accepted(n.device) == n.device.written;
    assert n.host.status == Gone ==> Accepted(n.host) == n.host.written;
  }

  // ---- CLOSE ----

  /** protocol.txt says that the recipient of a CLOSE does not respond. The code does, and exactly
      when the recipient is live. `e` is the recipient, `x` the end that sent the CLOSE. */
  ghost predicate Answered(e: End, inbox: seq<Msg>, x: End, a: Action)
    requires Enabled(e, inbox, a)
  {
    && Act(e, inbox, a).out == (if e.status == Live then [Clse] else [])
    && inbox == [Clse] && !Up(x)
    && forall accept, n: nat :: OnMsg(x, Clse, accept, n) == Outcome(x, [])
  }

  lemma AnswersClose(e: End, inbox: seq<Msg>, x: End, a: Action)
    requires Enabled(e, inbox, a) && a.Receive? && inbox[0] == Clse && CloseIsLast(x, inbox)
    ensures Answered(e, inbox, x, a)
  {
    assert Clse in inbox;
    assert |inbox| == 1 && inbox == [inbox[0]];
  }

  /** In every run: a CLOSE is answered with a CLOSE if and only if it finds a live end. It is the last
      message under way to that end, the end that sent it is down, and the answer changes nothing
      there. */
  lemma CloseAnswered(t: seq<Net>, k: nat, a: Action)
    requires Run(t) && k < |t| && a.Receive?
    ensures
      var n := t[k];
      && (Enabled(n.host, n.toHost, a) && n.toHost[0] == Clse ==> Answered(n.host, n.toHost, n.device, a))
      && (Enabled(n.device, n.toDevice, a) && n.toDevice[0] == Clse ==> Answered(n.device, n.toDevice, n.host, a))
  {
    RunInv(t, k);
    var n := t[k];
    if Enabled(n.host, n.toHost, a) && n.toHost[0] == Clse {
      AnswersClose(n.host, n.toHost, n.device, a);
    }
    if Enabled(n.device, n.toDevice, a) && n.toDevice[0] == Clse {
      AnswersClose(n.device, n.toDevice, n.host, a);
    }
  }

  // The stages of a run in which it happens.
  const LiveDevice := NewEnd.(status := Live, wantRead := true, readies := 1)
  const DownDevice := NewEnd.(status := Gone, readies := 1, closes := 1)
  const ConnectingHost := NewEnd.(status := Connecting)
  const LiveHost := NewEnd.(status := Live, wantRead := true, readies := 1)
  const DownHost := NewEnd.(status := Gone, byPeer := true, readies := 1, closes := 1)

  lemma RunExtends(t: seq<Net>, n: Net)
    requires Run(t) && Next(t[|t| - 1], n)
    ensures Run(t + [n])
  {
    var u := t + [n];
    forall i: nat | i + 1 < |u|
      ensures StepAt(u, i)
    {
      if i + 1 < |t| {
        assert StepAt(t, i);
        assert u[i] == t[i] && u[i + 1] == t[i + 1];
      }
    }
  }

  lemma DeviceDoes(t: seq<Net>, n: Net, a: Action)
    requires Run(t) && DeviceStep(t[|t| - 1], n, a)
    ensures Run(t + [n])
  {
    RunExtends(t, n);
  }

  lemma HostDoes(t: seq<Net>, n: Net, a: Action)
    requires Run(t) && HostStep(t[|t| - 1], n, a)
    ensures Run(t + [n])
  {
    RunExtends(t, n);
  }

  /** The device accepts, and its descriptor is at end of file. */
  lemma ExampleOpens() returns (t: seq<Net>)
    ensures Run(t) && |t| == 3 && t[2] == Net(ConnectingHost, DownDevice, [], [Okay, Clse])
  {
    assert [OpenMsg][1..] == [];
    t := [Net(ConnectingHost, NewEnd, [OpenMsg], [])];
    DeviceDoes(t, Net(ConnectingHost, LiveDevice, [], [Okay]), Receive(true, 0));
    t := t + [Net(ConnectingHost, LiveDevice, [], [Okay])];
    DeviceDoes(t, Net(ConnectingHost, DownDevice, [], [Okay, Clse]), ReadEvent([], true));
    t := t + [Net(ConnectingHost, DownDevice, [], [Okay, Clse])];
  }

  /** The host gets the READY and then the CLOSE, which it answers. */
  lemma ExampleAnswers(t0: seq<Net>) returns (t: seq<Net>)
    requires Run(t0) && |t0| == 3 && t0[2] == Net(ConnectingHost, DownDevice, [], [Okay, Clse])
    ensures Run(t) && |t| == 5
    ensures t[3] == Net(LiveHost, DownDevice, [], [Clse]) && t[4] == Net(DownHost, DownDevice, [Clse], [])
  {
    assert [Clse][1..] == [] && [Okay, Clse][1..] == [Clse];
    HostDoes(t0, Net(LiveHost, DownDevice, [], [Clse]), Receive(true, 0));
    t := t0 + [Net(LiveHost, DownDevice, [], [Clse])];
    HostDoes(t, Net(DownHost, DownDevice, [Clse], []), Receive(true, 0));
    t := t + [Net(DownHost, DownDevice, [Clse], [])];
  }

  /** A run in which a CLOSE is answered; the device ignores the answer. */
  lemma CloseAnsweredExample() returns (t: seq<Net>)
    ensures Run(t) && |t| == 6
    ensures t[3].host.status == Live && t[3].toHost == [Clse]
    ensures t[4].toDevice == [Clse] && t[4].host.status == Gone
    ensures t[5].device == t[4].device && t[5].toDevice == [] && t[5].toHost == []
  {
    t := ExampleOpens();
    t := ExampleAnswers(t);
    assert [Clse][1..] == [];
    DeviceDoes(t, Net(DownHost, DownDevice, [], []), Receive(true, 0));
    t := t + [Net(DownHost, DownDevice, [], [])];
  }

  // ---- what an action means for the end that performs it ----

  /** What takes an end down: end of file or an error on its descriptor, or a CLSE. */
  predicate GoesDown(e: End, inbox: seq<Msg>, a: Action) {
    match a
    case ReadEvent(_, eof) => eof
    case WriteEvent(_) => false
    case WriteError(_) => true
    case Receive(_, _) => inbox != [] && inbox[0] == Clse
    case ReceiveError(_) => true
  }

  /** An end that is up goes down exactly then, and tells its peer if it was live; `failed` records
      descriptor errors and `byPeer` a CLSE, nothing else; and no byte that it has accepted is dropped
      unless the descriptor fails. */
  ghost predicate ActMeans(e: End, inbox: seq<Msg>, a: Action, o: Outcome)
    requires Enabled(e, inbox, a)
  {
    && (Up(e) ==> (!Up(o.e) <==> GoesDown(e, inbox, a)))
    && (e.status == Live && !Up(o.e) ==> o.out != [] && o.out[|o.out| - 1] == Clse)
    && (o.e.failed <==> e.failed || a.WriteError? || a.ReceiveError?)
    && (o.e.byPeer <==> e.byPeer || (Up(e) && a.Receive? && inbox[0] == Clse))
    && (!a.WriteError? && !a.ReceiveError? ==> Accepted(e) <= Accepted(o.e))
    && (e.status == Live && a.Receive? && inbox[0].Wrte? ==> Accepted(o.e) == Accepted(e) + inbox[0].data)
    && (a.ReadEvent? ==> o.e.received == e.received + a.data)
    && (!a.ReadEvent? ==> o.e.received == e.received)
    && (e.status == Absent && a.Receive? ==> (o.e.status == Live <==> a.accept))
  }

  lemma DrainMeans(e: End, inbox: seq<Msg>, a: Action)
    requires CanAct(e, inbox, a) && (a.WriteEvent? || a.WriteError?)
    ensures ActMeans(e, inbox, a, Act(e, inbox, a))
  {
    DrainKeeps(e, a.n);
    DropBytesNonEmpty(e.queue, a.n);
  }

  lemma ReadMeans(e: End, inbox: seq<Msg>, a: Action)
    requires CanAct(e, inbox, a) && a.ReadEvent?
    ensures ActMeans(e, inbox, a, Act(e, inbox, a))
  {
  }

  lemma WrteMeans(e: End, inbox: seq<Msg>, a: Action)
    requires CanAct(e, inbox, a) && (a.Receive? || a.ReceiveError?) && inbox[0].Wrte?
    ensures ActMeans(e, inbox, a, Act(e, inbox, a))
  {
    if e.status == Live {
      var data := inbox[0].data;
      WrteBytes(e, data, a.n, []);
      assert data + [] == data;
      assert Accepted(OnWrte(e, data, a.n).e) + [] == Accepted(OnWrte(e, data, a.n).e);
    }
  }

  lemma SignalMeans(e: End, inbox: seq<Msg>, a: Action)
    requires CanAct(e, inbox, a) && a.Receive? && !inbox[0].Wrte?
    ensures ActMeans(e, inbox, a, Act(e, inbox, a))
  {
  }

  lemma ActMeaning(e: End, inbox: seq<Msg>, a: Action)
    requires CanAct(e, inbox, a)
    ensures ActMeans(e, inbox, a, Act(e, inbox, a))
  {
    if a.WriteEvent? || a.WriteError? {
      DrainMeans(e, inbox, a);
    } else if a.ReadEvent? {
      ReadMeans(e, inbox, a);
    } else if inbox[0].Wrte? {
      WrteMeans(e, inbox, a);
    } else {
      SignalMeans(e, inbox, a);
    }
  }

  /** Every end of every run can act as `CanAct` asks. */
  lemma RunCanAct(n: Net, a: Action)
    requires Inv(n)
    ensures Enabled(n.host, n.toHost, a) ==> CanAct(n.host, n.toHost, a)
    ensures Enabled(n.device, n.toDevice, a) ==> CanAct(n.device, n.toDevice, a)
  {
    if Enabled(n.host, n.toHost, a) {
      CreditBlocks(n.host, n.toHost, a, n.device, n.toDevice);
    }
    if Enabled(n.device, n.toDevice, a) {
      CreditBlocks(n.device, n.toDevice, a, n.host, n.toHost);
    }
  }

  /** Nothing accepted is dropped from one state to the next, at either end, unless it fails. */
  ghost predicate Keeps(e: End, e': End) {
    (e.failed ==> e'.failed) && (!e'.failed ==> Accepted(e) <= Accepted(e'))
  }

  lemma NextKeeps(n: Net, n': Net)
    requires Inv(n) && Next(n, n')
    ensures Keeps(n.host, n'.host) && Keeps(n.device, n'.device)
  {
    var a :| HostStep(n, n', a) || DeviceStep(n, n', a);
    RunCanAct(n, a);
    if HostStep(n, n', a) {
      ActMeaning(n.host, n.toHost, a);
    } else {
      ActMeaning(n.device, n.toDevice, a);
    }
  }

  lemma KeepsOn(e: End, e1: End, e2: End)
    requires Keeps(e, e1) && Keeps(e1, e2)
    ensures Keeps(e, e2)
  {
  }

  lemma {:induction false} RunKeeps(t: seq<Net>, j: nat, k: nat)
    requires Run(t) && j <= k < |t|
    ensures Keeps(t[j].host, t[k].host) && Keeps(t[j].device, t[k].device)
  {
    if j < k {
      RunKeeps(t, j, k - 1);
      RunInv(t, k - 1);
      assert StepAt(t, k - 1);
      NextKeeps(t[k - 1], t[k]);
      KeepsOn(t[j].host, t[k - 1].host, t[k].host);
      KeepsOn(t[j].device, t[k - 1].device, t[k].device);
    }
  }

  /** Whoever closes: an end that is gone without a descriptor error has written every byte that it had
      accepted at any time. */
  lemma NothingDropped(t: seq<Net>, j: nat, k: nat)
    requires Run(t) && j <= k < |t|
    ensures t[k].host.status == Gone && !t[k].host.failed ==> Accepted(t[j].host) <= t[k].host.written
    ensures t[k].device.status == Gone && !t[k].device.failed ==> Accepted(t[j].device) <= t[k].device.written
  {
    RunKeeps(t, j, k);
    RunInv(t, k);
    assert t[k].host.status == Gone ==> Accepted(t[k].host) == t[k].host.written;
    assert t[k].device.status == Gone ==> Accepted(t[k].device) == t[k].device.written;
  }

  /** What every enabled action means, in every state of every run. */
  lemma RunActions(t: seq<Net>, k: nat, a: Action)
    requires Run(t) && k < |t|
    ensures
      var n := t[k];
      && (Enabled(n.host, n.toHost, a) ==> ActMeans(n.host, n.toHost, a, Act(n.host, n.toHost, a)))
      && (Enabled(n.device, n.toDevice, a) ==> ActMeans(n.device, n.toDevice, a, Act(n.device, n.toDevice, a)))
  {
    RunInv(t, k);
    var n := t[k];
    RunCanAct(n, a);
    if Enabled(n.host, n.toHost, a) {
      ActMeaning(n.host, n.toHost, a);
    }
    if Enabled(n.device, n.toDevice, a) {
      ActMeaning(n.device, n.toDevice, a);
    }
  }

  /** An end that is down has its peer down too, or a CLSE on the way to it. */
  ghost predicate Told(e: End, c: seq<Msg>, x: End) {
    e.status == Closing || e.status == Gone ==> !Up(x) || Clse in c
  }

  /** The acting end `e` tells `x`, and learns from `x`. */
  lemma ToldKept(e: End, inbox: seq<Msg>, a: Action, x: End, c: seq<Msg>)
    requires EndOk(e) && Enabled(e, inbox, a) && CloseIsLast(x, inbox) && Told(e, c, x) && Told(x, inbox, e)
    requires e.status == Absent ==> Up(x) && inbox == [OpenMsg]
    ensures
      var o := Act(e, inbox, a);
      Told(o.e, c + o.out, x) && Told(x, Rest(inbox, a), o.e)
  {
    if Clse in c {
      assert forall out: seq<Msg> :: Clse in c + out;
    }
    if a.Receive? && Clse in inbox {
      assert inbox == [inbox[0]] + inbox[1..];
    }
  }

  lemma NextTold(n: Net, n': Net)
    requires Inv(n) && Next(n, n') && Told(n.host, n.toDevice, n.device) && Told(n.device, n.toHost, n.host)
    ensures Told(n'.host, n'.toDevice, n'.device) && Told(n'.device, n'.toHost, n'.host)
  {
    var a :| HostStep(n, n', a) || DeviceStep(n, n', a);
    if HostStep(n, n', a) {
      ToldKept(n.host, n.toHost, a, n.device, n.toDevice);
    } else {
      ToldKept(n.device, n.toDevice, a, n.host, n.toHost);
    }
  }

  lemma {:induction false} RunTold(t: seq<Net>, k: nat)
    requires Run(t) && k < |t|
    ensures Told(t[k].host, t[k].toDevice, t[k].device) && Told(t[k].device, t[k].toHost, t[k].host)
  {
    if k > 0 {
      RunTold(t, k - 1);
      RunInv(t, k - 1);
      assert StepAt(t, k - 1);
      NextTold(t[k - 1], t[k]);
    }
  }

  /** A close always reaches the other end: with nothing under way the two ends are up or down
      together. */
  lemma ClosesReach(t: seq<Net>, k: nat)
    requires Run(t) && k < |t|
    ensures
      var n := t[k];
      && Told(n.host, n.toDevice, n.device) && Told(n.device, n.toHost, n.host)
      && (n.toDevice == [] && n.toHost == [] ==> (Up(n.host) <==> Up(n.device)))
  {
    RunTold(t, k);
    RunInv(t, k);
  }
}
