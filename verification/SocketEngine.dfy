/** The packet queue of a local socket and the loops that move bytes between it and its descriptor. */
module SocketEngine {
  import opened Bytes

  const MAX_PAYLOAD := 4096

  /** What one `adb_read` or `adb_write` reports. `Broken` is end of file or any other error. */
  datatype IoResult = Moved(n: nat) | Again | Interrupted | Broken

  ghost predicate NoEmptyPackets(q: seq<seq<byte>>) {
    forall i :: 0 <= i < |q| ==> q[i] != []
  }

  /** A queue after its first `n` bytes were written: finished packets go, the next is advanced. */
  function DropBytes(q: seq<seq<byte>>, n: nat): seq<seq<byte>>
    requires n <= |Flatten(q)|
  {
    if q == [] then []
    else if n >= |q[0]| then DropBytes(q[1..], n - |q[0]|)
    else [q[0][n..]] + q[1..]
  }

  lemma {:induction false} DropBytesFlatten(q: seq<seq<byte>>, n: nat)
    requires n <= |Flatten(q)|
    ensures Flatten(DropBytes(q, n)) == Flatten(q)[n..]
    ensures |DropBytes(q, n)| <= |q|
  {
    if q == [] {
    } else if n >= |q[0]| {
      DropBytesFlatten(q[1..], n - |q[0]|);
      assert Flatten(q)[n..] == Flatten(q[1..])[n - |q[0]|..];
    } else {
      var d := [q[0][n..]] + q[1..];
      assert d[1..] == q[1..];
      assert Flatten(q)[n..] == q[0][n..] + Flatten(q[1..]);
    }
  }

  lemma {:induction false} DropBytesNonEmpty(q: seq<seq<byte>>, n: nat)
    requires n <= |Flatten(q)| && NoEmptyPackets(q)
    ensures NoEmptyPackets(DropBytes(q, n))
    ensures DropBytes(q, n) == [] <==> n == |Flatten(q)|
  {
    if q == [] {
    } else if n >= |q[0]| {
      DropBytesNonEmpty(q[1..], n - |q[0]|);
    }
  }

  /** Dropping in two goes is dropping in one. */
  lemma {:induction false} DropBytesTwice(q: seq<seq<byte>>, n: nat, m: nat)
    requires n + m <= |Flatten(q)| && NoEmptyPackets(q)
    ensures |Flatten(DropBytes(q, n))| == |Flatten(q)| - n
    ensures DropBytes(DropBytes(q, n), m) == DropBytes(q, n + m)
  {
    DropBytesFlatten(q, n);
    if q == [] {
    } else if n >= |q[0]| {
      DropBytesTwice(q[1..], n - |q[0]|, m);
    } else {
      var d := DropBytes(q, n);
      assert d[0] == q[0][n..] && d[1..] == q[1..];
      if m < |d[0]| {
        assert d[0][m..] == q[0][n + m..];
      }
    }
  }

  datatype EnqueueResult = Ready | Backlog | WriteFailed
  /** Dropping no more than the first packet. */
  lemma FrontDropped(q: seq<seq<byte>>, m: nat)
    requires NoEmptyPackets(q) && q != [] && 0 < m <= |q[0]|
    ensures m <= |Flatten(q)|
    ensures DropBytes(q, m) == if m == |q[0]| then q[1..] else [q[0][m..]] + q[1..]
  {
    if m == |q[0]| && |q| > 1 {
      var t := q[1..];
      assert t[0] != [] && [t[0][0..]] + t[1..] == t;
    }
  }

  lemma SliceTwice(s: seq<byte>, n: nat, m: nat)
    requires n + m <= |s|
    ensures s[..n] + s[n..][..m] == s[..n + m]
  {
  }

  datatype DrainResult = Drained | Blocked | DrainFailed

  /** The stream half of an `asocket`: queue, interest in READ and WRITE, and the descriptor's history.
      `interruptions` bounds how often the OS may answer EINTR, `last` is the descriptor's last answer. */
  class LocalSocket {
    var queue: seq<seq<byte>>
    var wantRead: bool
    var wantWrite: bool
    var received: seq<byte>
    var written: seq<byte>
    var interruptions: nat
    ghost var last: IoResult

    constructor (interruptions: nat)
      ensures queue == [] && !wantRead && !wantWrite && received == [] && written == []
    {
      queue, wantRead, wantWrite := [], false, false;
      received, written, this.interruptions := [], [], interruptions;
      last := Again;
    }

    /** `adb_write`: the descriptor takes any non-empty prefix, or refuses. */
    method AdbWrite(data: seq<byte>) returns (r: IoResult)
      requires data != []
      modifies this`written, this`interruptions, this`last
      ensures r.Moved? ==> 0 < r.n <= |data| && written == old(written) + data[..r.n]
      ensures !r.Moved? ==> written == old(written)
      ensures if r.Interrupted? then interruptions < old(interruptions) else interruptions == old(interruptions)
      ensures last == r
    {
      if * {
        var n :| 0 < n <= |data|;
        written := written + data[..n];
        r := Moved(n);
      } else if * {
        r := Broken;
      } else if interruptions > 0 {
        interruptions := interruptions - 1;
        r := Interrupted;
      } else {
        r := Again;
      }
      last := r;
    }

    /** `adb_read`: some bytes of the environment's choosing, at most `avail`. */
    method AdbRead(avail: nat) returns (r: IoResult, data: seq<byte>)
      requires avail > 0
      modifies this`received, this`interruptions, this`last
      ensures r.Moved? ==> 0 < r.n <= avail && |data| == r.n && received == old(received) + data
      ensures !r.Moved? ==> data == [] && received == old(received)
      ensures if r.Interrupted? then interruptions < old(interruptions) else interruptions == old(interruptions)
      ensures last == r
    {
      r, data := Again, [];
      if * {
        var one: byte := 0;
        assert 0 < |[one]| <= avail;
        data :| 0 < |data| <= avail;
        received := received + data;
        r := Moved(|data|);
      } else if * {
        r := Broken;
      } else if interruptions > 0 {
        interruptions := interruptions - 1;
        r := Interrupted;
      }
      last := r;
    }

    /** `local_socket_enqueue`; `k` is how much of `p` the descriptor took at once. */
    method Enqueue(p: seq<byte>) returns (r: EnqueueResult, ghost k: nat)
      modifies this`queue, this`wantWrite, this`written, this`interruptions, this`last
      ensures k <= |p| && written == old(written) + p[..k]
      ensures old(queue) != [] ==> k == 0 && r == Backlog
      ensures r == Ready ==> old(queue) == [] && k == |p| && queue == [] && wantWrite == old(wantWrite)
      ensures r == Backlog ==> wantWrite && queue == old(queue) + [p[k..]]
      ensures r == Backlog && old(queue) == [] ==> k < |p|
      ensures r == WriteFailed ==> k < |p| && queue == old(queue) && wantWrite == old(wantWrite)
      ensures r == Backlog && old(queue) == [] ==> last == Again
      ensures r == WriteFailed ==> last == Broken || last == Interrupted
    {
      var rest := p;
      k := 0;
      if queue == [] {
        while |rest| > 0
          invariant k <= |p| && rest == p[k..] && written == old(written) + p[..k]
          invariant queue == old(queue) && wantWrite == old(wantWrite)
        {
          var io := AdbWrite(rest);
          match io {
            case Moved(n) =>
              assert p[..k] + rest[..n] == p[..k + n];
              rest := rest[n..];
              k := k + n;
            case Again => break;
            case _ => return WriteFailed, k;
          }
        }
        if |rest| == 0 {
          return Ready, k;
        }
      }
      queue := queue + [rest];
      wantWrite := true;
      r := Backlog;
    }

    /** The FDE_WRITE half of `local_socket_event_func`, up to the point where the queue is empty
        or the descriptor stops; `n` is how many queued bytes went out. */
    method Drain() returns (r: DrainResult, ghost n: nat)
      requires NoEmptyPackets(queue)
      modifies this`queue, this`written, this`interruptions, this`last
      ensures n <= |Flatten(old(queue))|
      ensures queue == DropBytes(old(queue), n)
      ensures written == old(written) + Flatten(old(queue))[..n]
      ensures r == Drained <==> queue == []
      ensures r == Blocked ==> last == Again
      ensures r == DrainFailed ==> last == Broken
    {
      ghost var q0 := queue;
      n := 0;
      assert DropBytes(q0, 0) == q0 && Flatten(q0)[..0] == [];
      while queue != []
        invariant n <= |Flatten(q0)| && queue == DropBytes(q0, n) && NoEmptyPackets(queue)
        invariant written == old(written) + Flatten(q0)[..n]
        decreases |Flatten(q0)| - n, interruptions
      {
        DropBytesFlatten(q0, n);
        var io := WriteFront();
        match io {
          case Moved(m) =>
            DropBytesTwice(q0, n, m);
            SliceTwice(Flatten(q0), n, m);
            n := n + m;
          case Again => return Blocked, n;
          case Interrupted =>
          case Broken => return DrainFailed, n;
        }
      }
      r := Drained;
    }

    /** One write of the first packet, which is advanced or, when it is finished, freed. */
    method WriteFront() returns (io: IoResult)
      requires NoEmptyPackets(queue) && queue != []
      modifies this`queue, this`written, this`interruptions, this`last
      ensures io == last && NoEmptyPackets(queue)
      ensures io.Moved? ==>
        && 0 < io.n <= |Flatten(old(queue))| && queue == DropBytes(old(queue), io.n)
        && written == old(written) + Flatten(old(queue))[..io.n]
      ensures !io.Moved? ==> queue == old(queue) && written == old(written)
      ensures if io.Interrupted? then interruptions < old(interruptions) else interruptions == old(interruptions)
    {
      io := AdbWrite(queue[0]);
      if io.Moved? {
        ghost var q := queue;
        var m := io.n;
        assert q[0][..m] == Flatten(q)[..m];
        DropBytesNonEmpty(q, m);
        if m == |queue[0]| {
          queue := queue[1..];
        } else {
          queue := [queue[0][m..]] + queue[1..];
        }
        FrontDropped(q, m);
      }
    }

    /** The FDE_READ half of `local_socket_event_func`: at most one payload is read. */
    method Fill() returns (data: seq<byte>, eof: bool)
      modifies this`received, this`interruptions, this`last
      ensures |data| <= MAX_PAYLOAD && received == old(received) + data
      ensures |data| == MAX_PAYLOAD ==> !eof
      ensures |data| < MAX_PAYLOAD ==> last == if eof then Broken else Again
    {
      data, eof := [], false;
      while |data| < MAX_PAYLOAD
        invariant |data| <= MAX_PAYLOAD && received == old(received) + data && !eof
        decreases MAX_PAYLOAD - |data|, interruptions
      {
        var r, chunk := AdbRead(MAX_PAYLOAD - |data|);
        match r {
          case Moved(_) => data := data + chunk;
          case Again => break;
          case Interrupted =>
          case Broken =>
            eof := true;
            break;
        }
      }
    }
  }
}
