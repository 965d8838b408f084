/** The imperative side of one wire endpoint: a local socket with a remote peer. Each method is one
    source callback and performs exactly one action of the protocol in `WireProtocol`. */
module SocketEndpoint {
  import opened Bytes
  import opened SocketEngine
  import opened WireProtocol

  class Endpoint {
    const sock: LocalSocket
    var status: Status
    var sent: seq<Msg>
    ghost var byPeer: bool
    ghost var failed: bool
    ghost var writes: nat
    ghost var readies: nat
    ghost var closes: nat

    ghost function View(): End
      reads this, sock
    {
      End(status, sock.queue, sock.wantRead, sock.wantWrite, sock.received, sock.written,
          byPeer, failed, writes, readies, closes)
    }

    constructor (status: Status, interruptions: nat)
      requires status == Absent || status == Connecting
      ensures View() == NewEnd.(status := status) && sent == []
      ensures fresh(sock)
    {
      sock := new LocalSocket(interruptions);
      this.status, sent := status, [];
      byPeer, failed, writes, readies, closes := false, false, 0, 0, 0;
    }

    /** `send_packet` on the endpoint's transport. */
    method Send(m: Msg)
      modifies this`sent
      ensures sent == old(sent) + [m]
    {
      sent := sent + [m];
    }

    /** `local_socket_close_locked`: shut the remote peer down, then destroy or move to the closing list. */
    method Close(ghost peerAsked: bool)
      modifies this, sock
      ensures View() == CloseEnd(old(View()), peerAsked).e
      ensures sent == old(sent) + CloseEnd(old(View()), peerAsked).out
    {
      byPeer := byPeer || peerAsked;
      if status == Live {
        Send(Clse);
        closes := closes + 1;
      }
      sock.wantRead := false;
      if status == Closing || sock.queue == [] {
        status := Gone;
        sock.queue, sock.wantWrite := [], false;
      } else {
        status := Closing;
      }
    }

    /** `local_socket_event_func` on FDE_WRITE. */
    method OnWritable() returns (ghost a: Action)
      requires EndOk(View()) && sock.wantWrite
      modifies this, sock
      ensures Enabled(old(View()), [], a) && (a.WriteEvent? || a.WriteError?)
      ensures View() == Act(old(View()), [], a).e
      ensures sent == old(sent) + Act(old(View()), [], a).out
    {
      ghost var e0 := View();
      var r;
      ghost var n;
      r, n := sock.Drain();
      DropBytesNonEmpty(e0.queue, n);
      match r {
        case Blocked =>
          a := WriteEvent(n);
        case DrainFailed =>
          a := WriteError(n);
          failed := true;
          Close(false);
        case Drained =>
          a := WriteEvent(n);
          if status == Closing {
            Close(false);
          } else {
            sock.wantWrite := false;
            Send(Okay);
          }
      }
    }

    /** `local_socket_event_func` on FDE_READ: the payload goes to `remote_socket_enqueue`, which
        always answers "not ready". */
    method OnReadable() returns (ghost a: Action)
      requires EndOk(View()) && status == Live && sock.wantRead
      modifies this, sock
      ensures Enabled(old(View()), [], a) && a.ReadEvent?
      ensures View() == Act(old(View()), [], a).e
      ensures sent == old(sent) + Act(old(View()), [], a).out
    {
      var data, eof := sock.Fill();
      a := ReadEvent(data, eof);
      if data != [] {
        Send(Wrte(data));
        writes := writes + 1;
        sock.wantRead := false;
      }
      if eof {
        Close(false);
      }
    }

    /** `handle_packet` for the message at the head of `inbox`. */
    method HandlePacket(inbox: seq<Msg>, accept: bool) returns (ghost a: Action)
      requires EndOk(View()) && inbox != []
      modifies this, sock
      ensures Enabled(old(View()), inbox, a) && (a.Receive? || a.ReceiveError?)
      ensures View() == Act(old(View()), inbox, a).e
      ensures sent == old(sent) + Act(old(View()), inbox, a).out
    {
      a := Receive(accept, 0);
      match inbox[0] {
        case OpenMsg =>
          if status == Absent {
            if accept {
              status, readies := Live, 1;
              sock.wantRead := true;
              Send(Okay);
            } else {
              status, closes := Gone, 1;
              Send(Clse);
            }
          }
        case Okay =>
          if status == Connecting || status == Live {
            status, readies := Live, readies + 1;
            sock.wantRead := true;
          }
        case Clse =>
          if status == Connecting || status == Live {
            Close(true);
          }
        case Wrte(data) =>
          if status == Live {
            a := EnqueueData(inbox, data, accept);
          }
      }
    }

    method EnqueueData(inbox: seq<Msg>, data: seq<byte>, accept: bool) returns (ghost a: Action)
      requires EndOk(View()) && status == Live && inbox != [] && inbox[0] == Wrte(data)
      modifies this, sock
      ensures Enabled(old(View()), inbox, a) && (a.Receive? || a.ReceiveError?)
      ensures View() == Act(old(View()), inbox, a).e
      ensures sent == old(sent) + Act(old(View()), inbox, a).out
    {
      var r;
      ghost var k;
      r, k := sock.Enqueue(data);
      match r {
        case Ready =>
          a := Receive(accept, k);
          assert data[..k] == data;
          Send(Okay);
        case Backlog =>
          a := Receive(accept, k);
          assert data[0..] == data;
        case WriteFailed =>
          a := ReceiveError(k);
          failed := true;
          Close(false);
      }
    }
  }
}
