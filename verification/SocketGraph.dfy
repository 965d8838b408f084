/** The peer graph of local and remote sockets and the close cascade.

    Sockets live in a heap; a freed socket leaves it, so every dereference in the methods below is
    checked to reach a socket that has not been freed. */
module SocketGraph {
  import opened Bytes
  import opened Lists

  type Ptr = nat
  type Transport = nat

  datatype Kind = Local | Remote

  /** The fields of `asocket` that closing reads or writes; `backlog` is `pkt_first != NULL`. */
  datatype ASocket = ASocket(
    kind: Kind, id: nat, peer: Option<Ptr>, transport: Option<Transport>,
    closing: bool, backlog: bool, wantRead: bool)

  /** A CLSE packet handed to `send_packet`. */
  datatype Clse = Clse(arg0: nat, arg1: nat, transport: Option<Transport>)

  datatype Table = Table(
    heap: map<Ptr, ASocket>, list: seq<Ptr>, closing: seq<Ptr>, sent: seq<Clse>, freed: seq<Ptr>)

  // ---- well-formedness ----

  /** The two lists hold exactly the local sockets, each once, and agree with the closing flag. */
  ghost predicate ListsOk(t: Table) {
    && NoDup(t.list) && NoDup(t.closing) && NoDup(t.freed)
    && (forall p :: p in t.list ==> p in t.heap && t.heap[p].kind == Local && !t.heap[p].closing)
    && (forall p :: p in t.closing ==>
          p in t.heap && t.heap[p].kind == Local && t.heap[p].closing && t.heap[p].backlog && t.heap[p].peer == None)
    && (forall p :: p in t.heap && t.heap[p].kind == Local ==> p in t.list || p in t.closing)
    && (forall p :: p in t.freed ==> p !in t.heap)
  }

  ghost predicate Linked(t: Table, p: Ptr) {
    p in t.heap && t.heap[p].peer.Some? ==>
      var q := t.heap[p].peer.value;
      q != p && q in t.heap && t.heap[q].peer == Some(p)
  }

  /** Peers are mutual. */
  ghost predicate Symmetric(t: Table) {
    forall p :: p in t.heap ==> Linked(t, p)
  }

  ghost predicate Valid(t: Table) {
    ListsOk(t) && Symmetric(t)
  }

  // ---- what closing does to the table ----

  /** `local_socket_destroy` followed by `free`. */
  function Destroy(t: Table, s: Ptr): Table {
    t.(heap := t.heap - {s}, list := Without(t.list, s), closing := Without(t.closing, s), freed := t.freed + [s])
  }

  /** A socket that goes to the closing list loses its id, its READ interest and its peer. */
  function Retired(a: ASocket): ASocket {
    a.(closing := true, wantRead := false, id := 0, peer := None)
  }

  /** Closing a socket that has no peer any more. */
  function CloseAlone(t: Table, s: Ptr): Table
    requires s in t.heap
  {
    var a := t.heap[s];
    if a.kind == Remote then t.(heap := t.heap - {s}, freed := t.freed + [s])
    else if a.closing || !a.backlog then Destroy(t, s)
    else t.(heap := t.heap[s := Retired(a)], list := Without(t.list, s), closing := t.closing + [s])
  }

  function Unlink(t: Table, s: Ptr): Table
    requires s in t.heap
  {
    t.(heap := t.heap[s := t.heap[s].(peer := None)])
  }

  /** The CLSE that shutting down remote socket `p` on behalf of local socket `s` sends. */
  function ShutdownPacket(t: Table, s: Ptr, p: Ptr): seq<Clse>
    requires s in t.heap && p in t.heap
  {
    if t.heap[p].kind == Remote then [Clse(t.heap[s].id, t.heap[p].id, t.heap[p].transport)] else []
  }

  /** Closing socket `s`: its peer is shut down, unlinked and closed first. */
  function ClosePair(t: Table, s: Ptr): Table
    requires s in t.heap && Linked(t, s)
  {
    match t.heap[s].peer
    case None => CloseAlone(t, s)
    case Some(p) =>
      var t1 := t.(sent := t.sent + ShutdownPacket(t, s, p));
      var t2 := CloseAlone(Unlink(t1, p), p);
      CloseAlone(Unlink(t2, s), s)
  }

  /** What becomes of a closed socket: freed, or on the closing list with its backlog and no peer. */
  ghost predicate Fate(a: ASocket, t: Table, s: Ptr) {
    if a.kind == Local && a.backlog && !a.closing then
      && s in t.heap && t.heap[s] == a.(closing := true, wantRead := false, id := 0, peer := None)
      && s in t.closing && s !in t.freed
    else
      s !in t.heap && s in t.freed
  }

  lemma DestroyLists(t: Table, s: Ptr)
    requires ListsOk(t) && s in t.heap
    ensures ListsOk(Destroy(t, s))
  {
    WithoutFacts(t.list, s);
    WithoutFacts(t.closing, s);
    WithoutNoDup(t.list, s);
    WithoutNoDup(t.closing, s);
    AppendNoDup(t.freed, s);
  }

  lemma RetireLists(t: Table, s: Ptr)
    requires ListsOk(t) && s in t.heap && t.heap[s].kind == Local && !t.heap[s].closing && t.heap[s].backlog
    ensures ListsOk(t.(heap := t.heap[s := Retired(t.heap[s])], list := Without(t.list, s), closing := t.closing + [s]))
  {
    WithoutFacts(t.list, s);
    WithoutNoDup(t.list, s);
    AppendNoDup(t.closing, s);
  }

  lemma CloseAloneLists(t: Table, s: Ptr)
    requires ListsOk(t) && s in t.heap
    ensures ListsOk(CloseAlone(t, s))
  {
    var a := t.heap[s];
    if a.kind == Remote {
      AppendNoDup(t.freed, s);
    } else if a.closing || !a.backlog {
      DestroyLists(t, s);
    } else {
      RetireLists(t, s);
    }
  }

  /** Everything except `s` is left alone, and nothing freed comes back. */
  ghost predicate Spares(t: Table, t': Table, s: Ptr) {
    && (forall q :: q in t.heap && q != s ==> q in t'.heap && t'.heap[q] == t.heap[q])
    && t'.heap.Keys <= t.heap.Keys
    && (forall q :: q in t.freed ==> q in t'.freed)
    && (forall q :: q != s && q in t.closing ==> q in t'.closing)
  }

  lemma CloseAloneEffect(t: Table, s: Ptr)
    requires ListsOk(t) && s in t.heap
    ensures Spares(t, CloseAlone(t, s), s)
    ensures CloseAlone(t, s).list == Without(t.list, s)
    ensures CloseAlone(t, s).sent == t.sent
    ensures Fate(t.heap[s], CloseAlone(t, s), s)
  {
    WithoutFacts(t.list, s);
    WithoutFacts(t.closing, s);
    assert s in t.freed + [s] && s in t.closing + [s];
  }

  /** All that matters about closing `s` once its peer link is cut. */
  ghost predicate Closed(t: Table, t': Table, s: Ptr) {
    && s in t.heap
    && ListsOk(t') && Spares(t, t', s) && Fate(t.heap[s], t', s)
    && t'.list == Without(t.list, s) && t'.sent == t.sent
  }

  lemma CloseUnlinked(t: Table, s: Ptr)
    requires ListsOk(t) && s in t.heap
    ensures Closed(t, CloseAlone(Unlink(t, s), s), s)
  {
    var u := Unlink(t, s);
    assert ListsOk(u);
    CloseAloneLists(u, s);
    CloseAloneEffect(u, s);
  }

  /** The effect of closing `s` and, when it has one, its peer. */
  ghost predicate PairClosed(t: Table, t': Table, s: Ptr)
    requires s in t.heap && Linked(t, s)
  {
    var a := t.heap[s];
    && Fate(a, t', s)
    && (a.peer.Some? ==> Fate(t.heap[a.peer.value], t', a.peer.value))
    && (forall q :: q in t.heap && q != s && Some(q) != a.peer ==> q in t'.heap && t'.heap[q] == t.heap[q])
    && t'.heap.Keys <= t.heap.Keys
    && (forall q :: q in t.freed ==> q in t'.freed)
    && (forall q :: q in t.closing && q != s && Some(q) != a.peer ==> q in t'.closing)
    && t'.list == (if a.peer.Some? then Without(Without(t.list, a.peer.value), s) else Without(t.list, s))
    && t'.sent == t.sent + (if a.peer.Some? && t.heap[a.peer.value].kind == Remote
                            then [Clse(a.id, t.heap[a.peer.value].id, t.heap[a.peer.value].transport)] else [])
  }

  lemma BothClosed(t: Table, t1: Table, t2: Table, s: Ptr, p: Ptr)
    requires Valid(t) && s in t.heap && t.heap[s].peer == Some(p) && Linked(t, s)
    requires Closed(t.(sent := t.sent + ShutdownPacket(t, s, p)), t1, p)
    requires Closed(t1, t2, s)
    ensures PairClosed(t, t2, s)
  {
    assert t1.heap[s] == t.heap[s];
  }

  lemma PairClosedSymmetric(t: Table, t': Table, s: Ptr)
    requires Valid(t) && s in t.heap && Linked(t, s) && PairClosed(t, t', s)
    ensures Symmetric(t')
  {
    forall q | q in t'.heap
      ensures Linked(t', q)
    {
      assert Linked(t, q);
      var a := t.heap[s];
      if q != s && Some(q) != a.peer {
        if t.heap[q].peer.Some? {
          var r := t.heap[q].peer.value;
          assert r != s && Some(r) != a.peer;
        }
      }
    }
  }

  /** Closing one socket of a valid table: the table stays valid, exactly the socket and its peer are
      gone from the list, every other socket is as before, and one CLSE with both ids goes to a
      remote peer. */
  lemma ClosePairEffect(t: Table, s: Ptr)
    requires Valid(t) && s in t.heap
    ensures Linked(t, s) && PairClosed(t, ClosePair(t, s), s) && Valid(ClosePair(t, s))
  {
    assert Linked(t, s);
    match t.heap[s].peer {
      case None =>
        CloseAloneLists(t, s);
        CloseAloneEffect(t, s);
      case Some(p) =>
        var t0 := t.(sent := t.sent + ShutdownPacket(t, s, p));
        CloseUnlinked(t0, p);
        var t1 := CloseAlone(Unlink(t0, p), p);
        CloseUnlinked(t1, s);
        BothClosed(t, t1, CloseAlone(Unlink(t1, s), s), s, p);
    }
    PairClosedSymmetric(t, ClosePair(t, s), s);
  }

  // ---- close_all_sockets ----

  /** The test of `close_all_sockets`: the socket or its peer is on transport `tr`. */
  predicate Doomed(t: Table, tr: Transport, s: Ptr) {
    && s in t.heap && s in t.list
    && (t.heap[s].transport == Some(tr)
        || (t.heap[s].peer.Some? && t.heap[s].peer.value in t.heap
            && t.heap[t.heap[s].peer.value].transport == Some(tr)))
  }

  function FirstDoomed(t: Table, tr: Transport, i: nat): (k: nat)
    requires i <= |t.list|
    ensures i <= k <= |t.list|
    ensures forall j :: i <= j < k ==> !Doomed(t, tr, t.list[j])
    ensures k < |t.list| ==> Doomed(t, tr, t.list[k])
    decreases |t.list| - i
  {
    if i == |t.list| || Doomed(t, tr, t.list[i]) then i else FirstDoomed(t, tr, i + 1)
  }

  /** The restart loop: close the first doomed socket, start again from the head of the list. */
  function CloseAll(t: Table, tr: Transport): Table
    requires Valid(t)
    decreases |t.list|
  {
    var i := FirstDoomed(t, tr, 0);
    if i == |t.list| then t
    else
      CloseShrinks(t, t.list[i]);
      CloseAll(ClosePair(t, t.list[i]), tr)
  }

  lemma CloseShrinks(t: Table, s: Ptr)
    requires Valid(t) && s in t.list
    ensures Linked(t, s) && Valid(ClosePair(t, s)) && |ClosePair(t, s).list| < |t.list|
  {
    ClosePairEffect(t, s);
    var a := t.heap[s];
    WithoutFacts(t.list, s);
    if a.peer.Some? {
      WithoutFacts(t.list, a.peer.value);
      WithoutFacts(Without(t.list, a.peer.value), s);
    }
  }

  function Survivors(t: Table, tr: Transport, l: seq<Ptr>): seq<Ptr> {
    if l == [] then [] else (if Doomed(t, tr, l[0]) then [] else [l[0]]) + Survivors(t, tr, l[1..])
  }

  /** One CLSE for each doomed socket with a remote peer, in list order. */
  function Clses(t: Table, tr: Transport, l: seq<Ptr>): seq<Clse> {
    if l == [] then [] else ClseOf(t, tr, l[0]) + Clses(t, tr, l[1..])
  }

  function ClseOf(t: Table, tr: Transport, s: Ptr): seq<Clse> {
    if Doomed(t, tr, s) && t.heap[s].peer.Some? && t.heap[s].peer.value in t.heap
    then ShutdownPacket(t, s, t.heap[s].peer.value) else []
  }

  /** A doomed local socket, or a remote socket whose local peer is doomed. */
  ghost predicate Touched(t: Table, tr: Transport, q: Ptr)
    requires q in t.heap
  {
    Doomed(t, tr, q) || (t.heap[q].kind == Remote && t.heap[q].peer.Some? && Doomed(t, tr, t.heap[q].peer.value))
  }

  /** One round of the loop changes nobody's verdict but the pair's. */
  lemma VerdictKept(t: Table, tr: Transport, s: Ptr, x: Ptr)
    requires Valid(t) && Doomed(t, tr, s)
    ensures
      Linked(t, s) &&
      var t1 := ClosePair(t, s);
      if x == s || Some(x) == t.heap[s].peer then
        !Doomed(t1, tr, x) && (x in t.list ==> Doomed(t, tr, x)) && (x != s && x in t.list ==> ClseOf(t, tr, x) == [])
      else
        && (Doomed(t1, tr, x) <==> Doomed(t, tr, x))
        && ClseOf(t1, tr, x) == ClseOf(t, tr, x)
  {
    ClosePairEffect(t, s);
    var a := t.heap[s];
    var t1 := ClosePair(t, s);
    WithoutFacts(t.list, s);
    if a.peer.Some? {
      WithoutFacts(t.list, a.peer.value);
      WithoutFacts(Without(t.list, a.peer.value), s);
    }
    if x in t.heap {
      assert Linked(t, x);
      if x != s && Some(x) != a.peer && t.heap[x].peer.Some? {
        var r := t.heap[x].peer.value;
        assert r != s && Some(r) != a.peer;
        assert r in t1.heap && t1.heap[r] == t.heap[r] && t1.heap[x] == t.heap[x];
      }
    }
  }

  /** The part of a list that a round of the loop leaves. */
  function Left(t: Table, s: Ptr, l: seq<Ptr>): seq<Ptr>
    requires s in t.heap
  {
    if t.heap[s].peer.Some? then Without(Without(l, t.heap[s].peer.value), s) else Without(l, s)
  }

  lemma LeftUnfold(t: Table, s: Ptr, l: seq<Ptr>)
    requires s in t.heap && l != []
    ensures Left(t, s, l) == (if l[0] == s || Some(l[0]) == t.heap[s].peer then [] else [l[0]]) + Left(t, s, l[1..])
  {
    if t.heap[s].peer.Some? {
      var p := t.heap[s].peer.value;
      var w := Without(l, p);
      if l[0] != p {
        assert w[0] == l[0] && w[1..] == Without(l[1..], p);
      } else {
        assert w == Without(l[1..], p);
      }
    }
  }

  lemma {:induction false} SurvivorsKept(t: Table, tr: Transport, s: Ptr, l: seq<Ptr>)
    requires Valid(t) && Doomed(t, tr, s) && forall x :: x in l ==> x in t.list
    ensures Linked(t, s)
    ensures Survivors(ClosePair(t, s), tr, Left(t, s, l)) == Survivors(t, tr, l)
  {
    VerdictKept(t, tr, s, s);
    if l != [] {
      VerdictKept(t, tr, s, l[0]);
      SurvivorsKept(t, tr, s, l[1..]);
      LeftUnfold(t, s, l);
      var rest := Left(t, s, l[1..]);
      if l[0] == s || Some(l[0]) == t.heap[s].peer {
        assert Left(t, s, l) == rest;
      } else {
        assert Left(t, s, l)[0] == l[0] && Left(t, s, l)[1..] == rest;
      }
    }
  }

  lemma {:induction false} ClsesKept(t: Table, tr: Transport, s: Ptr, l: seq<Ptr>)
    requires Valid(t) && Doomed(t, tr, s) && (forall x :: x in l ==> x in t.list) && s !in l
    ensures Linked(t, s)
    ensures Clses(ClosePair(t, s), tr, Left(t, s, l)) == Clses(t, tr, l)
  {
    VerdictKept(t, tr, s, s);
    if l != [] {
      VerdictKept(t, tr, s, l[0]);
      ClsesKept(t, tr, s, l[1..]);
      LeftUnfold(t, s, l);
      var rest := Left(t, s, l[1..]);
      if l[0] == s || Some(l[0]) == t.heap[s].peer {
        assert Left(t, s, l) == rest;
      } else {
        assert Left(t, s, l)[0] == l[0] && Left(t, s, l)[1..] == rest;
      }
    }
  }

  /** The first doomed socket's CLSE comes first. */
  lemma {:induction false} ClsesStep(t: Table, tr: Transport, l: seq<Ptr>, i: nat)
    requires Valid(t) && i < |l| && Doomed(t, tr, l[i]) && (forall x :: x in l ==> x in t.list) && NoDup(l)
    requires forall j :: 0 <= j < i ==> !Doomed(t, tr, l[j])
    ensures Linked(t, l[i])
    ensures Clses(t, tr, l) == ClseOf(t, tr, l[i]) + Clses(ClosePair(t, l[i]), tr, Left(t, l[i], l))
  {
    var s := l[i];
    VerdictKept(t, tr, s, l[0]);
    LeftUnfold(t, s, l);
    var rest := Left(t, s, l[1..]);
    if i == 0 {
      assert s !in l[1..];
      ClsesKept(t, tr, s, l[1..]);
      assert Left(t, s, l) == rest;
    } else {
      ClsesStep(t, tr, l[1..], i - 1);
      assert Some(l[0]) != t.heap[s].peer;
      assert Left(t, s, l) == [l[0]] + rest;
      ClsesCons(ClosePair(t, s), tr, l[0], rest);
    }
  }

  lemma ClsesCons(t: Table, tr: Transport, s: Ptr, l: seq<Ptr>)
    ensures Clses(t, tr, [s] + l) == ClseOf(t, tr, s) + Clses(t, tr, l)
  {
    assert ([s] + l)[1..] == l;
  }

  /** What `close_all_sockets` leaves of socket `q` of the table it was given. */
  ghost predicate Outcome(t: Table, tr: Transport, t': Table, q: Ptr)
    requires q in t.heap
  {
    if Touched(t, tr, q) then Fate(t.heap[q], t', q)
    else q in t'.heap && t'.heap[q] == t.heap[q]
  }

  ghost predicate OnlyShrinks(t: Table, t': Table) {
    && t'.heap.Keys <= t.heap.Keys
    && (forall q :: q in t.freed ==> q in t'.freed)
    && (forall q :: q in t.closing ==> q in t'.closing)
  }

  /** A round settles its pair and passes every other socket's outcome on. */
  lemma OutcomeStep(t: Table, tr: Transport, s: Ptr, t': Table, q: Ptr)
    requires Valid(t) && Doomed(t, tr, s) && Linked(t, s) && q in t.heap
    requires ListsOk(t') && OnlyShrinks(ClosePair(t, s), t')
    requires forall x :: x in ClosePair(t, s).heap ==> Outcome(ClosePair(t, s), tr, t', x)
    ensures Outcome(t, tr, t', q)
  {
    var t1 := ClosePair(t, s);
    ClosePairEffect(t, s);
    VerdictKept(t, tr, s, q);
    assert Linked(t, q);
    if q == s || Some(q) == t.heap[s].peer {
      assert Touched(t, tr, q);
      assert Fate(t.heap[q], t1, q);
      if q in t1.heap {
        assert Outcome(t1, tr, t', q);
      }
    } else {
      assert q in t1.heap && t1.heap[q] == t.heap[q];
      assert Outcome(t1, tr, t', q);
      if t.heap[q].peer.Some? {
        VerdictKept(t, tr, s, t.heap[q].peer.value);
      }
    }
  }

  /** The restart loop in terms of its own test; `CloseAllLaws` says what it comes to. */
  lemma {:induction false} CloseAllRounds(t: Table, tr: Transport)
    requires Valid(t)
    ensures
      var t' := CloseAll(t, tr);
      && Valid(t') && OnlyShrinks(t, t')
      && (forall s :: s in t'.list ==> !Doomed(t', tr, s))
      && t'.list == Survivors(t, tr, t.list)
      && t'.sent == t.sent + Clses(t, tr, t.list)
      && (forall q :: q in t.heap ==> Outcome(t, tr, t', q))
    decreases |t.list|
  {
    var i := FirstDoomed(t, tr, 0);
    if i == |t.list| {
      NoneDoomed(t, tr, t.list);
      forall q | q in t.heap
        ensures Outcome(t, tr, t, q)
      {
        if Touched(t, tr, q) {
          assert false;
        }
      }
    } else {
      var s := t.list[i];
      CloseShrinks(t, s);
      ClosePairEffect(t, s);
      var t1 := ClosePair(t, s);
      CloseAllRounds(t1, tr);
      var t' := CloseAll(t1, tr);
      assert t' == CloseAll(t, tr);
      RoundLists(t, tr, i);
      assert OnlyShrinks(t, t') by { RoundShrinks(t, tr, s, t'); }
      forall q | q in t.heap
        ensures Outcome(t, tr, t', q)
      {
        OutcomeStep(t, tr, s, t', q);
      }
    }
  }

  lemma {:induction false} NoneDoomed(t: Table, tr: Transport, l: seq<Ptr>)
    requires forall j :: 0 <= j < |l| ==> !Doomed(t, tr, l[j])
    ensures Survivors(t, tr, l) == l && Clses(t, tr, l) == []
  {
    if l != [] {
      NoneDoomed(t, tr, l[1..]);
    }
  }

  lemma RoundPackets(t: Table, tr: Transport, i: nat)
    requires Valid(t) && i < |t.list| && Doomed(t, tr, t.list[i]) && Linked(t, t.list[i])
    requires forall j :: 0 <= j < i ==> !Doomed(t, tr, t.list[j])
    requires ClosePair(t, t.list[i]).list == Left(t, t.list[i], t.list)
    requires ClosePair(t, t.list[i]).sent == t.sent + ClseOf(t, tr, t.list[i])
    ensures
      var t1 := ClosePair(t, t.list[i]);
      t1.sent + Clses(t1, tr, t1.list) == t.sent + Clses(t, tr, t.list)
  {
    ClsesStep(t, tr, t.list, i);
    var t1 := ClosePair(t, t.list[i]);
    Assoc(t.sent, ClseOf(t, tr, t.list[i]), Clses(t1, tr, t1.list));
  }

  lemma RoundLists(t: Table, tr: Transport, i: nat)
    requires Valid(t) && i < |t.list| && i == FirstDoomed(t, tr, 0)
    ensures Linked(t, t.list[i])
    ensures
      var t1 := ClosePair(t, t.list[i]);
      && Survivors(t1, tr, t1.list) == Survivors(t, tr, t.list)
      && t1.sent + Clses(t1, tr, t1.list) == t.sent + Clses(t, tr, t.list)
  {
    var s := t.list[i];
    ClosePairEffect(t, s);
    assert PairClosed(t, ClosePair(t, s), s);
    RoundPackets(t, tr, i);
    SurvivorsKept(t, tr, s, t.list);
  }

  lemma RoundShrinks(t: Table, tr: Transport, s: Ptr, t': Table)
    requires Valid(t) && s in t.list && Linked(t, s) && OnlyShrinks(ClosePair(t, s), t')
    ensures OnlyShrinks(t, t')
  {
    ClosePairEffect(t, s);
    assert forall q :: q in t.closing ==> t.heap[q].closing && t.heap[q].peer == None;
    assert Linked(t, s);
  }

  // ---- what close_all_sockets comes to ----

  /** The socket, or its peer, is on transport `tr`. */
  ghost predicate Uses(t: Table, tr: Transport, s: Ptr)
    requires s in t.heap && Linked(t, s)
  {
    t.heap[s].transport == Some(tr) || (t.heap[s].peer.Some? && t.heap[t.heap[s].peer.value].transport == Some(tr))
  }

  ghost predicate RemotePeer(t: Table, s: Ptr)
    requires s in t.heap && Linked(t, s)
  {
    t.heap[s].peer.Some? && t.heap[t.heap[s].peer.value].kind == Remote
  }

  /** `a` is `b` with some elements left out. */
  predicate Subsequence(a: seq<Ptr>, b: seq<Ptr>) {
    if a == [] then true
    else b != [] && (if a[0] == b[0] then Subsequence(a[1..], b[1..]) else Subsequence(a, b[1..]))
  }

  lemma {:induction false} SurvivorsAre(t: Table, tr: Transport, l: seq<Ptr>)
    requires NoDup(l)
    ensures forall x :: x in Survivors(t, tr, l) <==> x in l && !Doomed(t, tr, x)
    ensures Subsequence(Survivors(t, tr, l), l)
  {
    if l != [] {
      SurvivorsAre(t, tr, l[1..]);
      var rest := Survivors(t, tr, l[1..]);
      assert forall x :: x in l <==> x == l[0] || x in l[1..];
      if Doomed(t, tr, l[0]) {
        assert Survivors(t, tr, l) == rest;
        if rest != [] {
          assert rest[0] in rest && rest[0] != l[0];
        }
      } else {
        assert ([l[0]] + rest)[1..] == rest;
      }
    }
  }

  /** The sockets of a list that are to send a CLSE. */
  ghost function Senders(t: Table, tr: Transport, l: seq<Ptr>): set<Ptr> {
    set x | x in l && Doomed(t, tr, x) && t.heap[x].peer.Some? && t.heap[x].peer.value in t.heap
            && t.heap[t.heap[x].peer.value].kind == Remote
  }

  lemma SendersCons(t: Table, tr: Transport, l: seq<Ptr>)
    requires l != [] && NoDup(l)
    ensures
      var rest := Senders(t, tr, l[1..]);
      l[0] !in rest && Senders(t, tr, l) == if ClseOf(t, tr, l[0]) != [] then rest + {l[0]} else rest
  {
    assert forall x :: x in l <==> x == l[0] || x in l[1..];
    assert l[0] !in l[1..];
  }

  lemma {:induction false} ClsesAre(t: Table, tr: Transport, l: seq<Ptr>)
    requires NoDup(l)
    ensures |Clses(t, tr, l)| == |Senders(t, tr, l)|
    ensures forall c :: c in Clses(t, tr, l) <==>
      exists x :: x in Senders(t, tr, l) && c == Clse(t.heap[x].id, t.heap[t.heap[x].peer.value].id, t.heap[t.heap[x].peer.value].transport)
  {
    if l != [] {
      ClsesAre(t, tr, l[1..]);
      SendersCons(t, tr, l);
    }
  }

  /** What becomes of socket `q`, said field by field. */
  ghost predicate Ends(t: Table, tr: Transport, t': Table, q: Ptr)
    requires q in t.heap && Symmetric(t)
  {
    assert Linked(t, q);
    var a := t.heap[q];
    var hit := if a.kind == Local then q in t.list && Uses(t, tr, q)
               else a.peer.Some? && a.peer.value in t.list && Uses(t, tr, q);
    if !hit then q in t'.heap && t'.heap[q] == a
    else if a.kind == Local && a.backlog then
      && q in t'.heap && q in t'.closing && q !in t'.list && q !in t'.freed
      && t'.heap[q].closing && !t'.heap[q].wantRead && t'.heap[q].peer == None && t'.heap[q].backlog && t'.heap[q].id == 0
    else q !in t'.heap && q in t'.freed && q !in t'.list && q !in t'.closing
  }

  lemma DoomedUses(t: Table, tr: Transport, s: Ptr)
    requires Valid(t) && s in t.heap && Linked(t, s)
    ensures Doomed(t, tr, s) <==> s in t.list && Uses(t, tr, s)
    ensures t.heap[s].peer.Some? ==> Linked(t, t.heap[s].peer.value) && (Uses(t, tr, s) <==> Uses(t, tr, t.heap[s].peer.value))
  {
    if t.heap[s].peer.Some? {
      assert Linked(t, t.heap[s].peer.value);
    }
  }

  lemma EndsBy(t: Table, tr: Transport, t': Table, q: Ptr)
    requires Valid(t) && Valid(t') && q in t.heap && Outcome(t, tr, t', q)
    ensures Ends(t, tr, t', q)
  {
    assert Linked(t, q);
    DoomedUses(t, tr, q);
    if t.heap[q].peer.Some? {
      var p := t.heap[q].peer.value;
      assert Linked(t, p);
      DoomedUses(t, tr, p);
    }
  }

  /** `close_all_sockets` ends in a valid table in which no live socket and no live socket's peer is on
      the transport. A socket stays on the list, with its state and in its order, if and only if neither
      it nor its peer was on the transport; every other one, and its remote peer, is freed or left
      draining on the closing list without a peer, an id or READ interest. One CLSE with both ids goes
      out for each closed socket with a remote peer, and nothing else. */
  lemma CloseAllLaws(t: Table, tr: Transport)
    requires Valid(t)
    ensures
      var t' := CloseAll(t, tr);
      && Valid(t') && t'.heap.Keys <= t.heap.Keys && Subsequence(t'.list, t.list) && t.sent <= t'.sent
      && (forall s :: s in t'.list ==> Linked(t', s) && !Uses(t', tr, s))
      && (forall s :: s in t.list ==> Linked(t, s) && (s in t'.list <==> !Uses(t, tr, s)))
      && (forall q :: q in t.heap ==> Ends(t, tr, t', q))
      && (forall c :: c in t'.sent[|t.sent|..] <==> SentFor(t, tr, c))
      && |t'.sent| - |t.sent| == |Closers(t, tr)|
  {
    var t' := CloseAll(t, tr);
    CloseAllRounds(t, tr);
    SurvivorsAre(t, tr, t.list);
    ClsesAre(t, tr, t.list);
    assert t'.sent[|t.sent|..] == Clses(t, tr, t.list);
    forall s | s in t'.list
      ensures Linked(t', s) && !Uses(t', tr, s)
    {
      assert Linked(t', s);
      DoomedUses(t', tr, s);
    }
    forall s | s in t.list
      ensures Linked(t, s) && (Doomed(t, tr, s) <==> Uses(t, tr, s))
    {
      assert Linked(t, s);
      DoomedUses(t, tr, s);
    }
    forall q | q in t.heap
      ensures Ends(t, tr, t', q)
    {
      EndsBy(t, tr, t', q);
    }
    SendersAre(t, tr);
  }

  /** The live sockets on the transport, directly or through a peer, that have a remote peer. */
  ghost function Closers(t: Table, tr: Transport): set<Ptr>
    requires Valid(t)
  {
    set s | s in t.list && Linked(t, s) && Uses(t, tr, s) && RemotePeer(t, s)
  }

  ghost predicate SentFor(t: Table, tr: Transport, c: Clse)
    requires Valid(t)
  {
    exists s :: s in Closers(t, tr) && c == Clse(t.heap[s].id, t.heap[t.heap[s].peer.value].id, t.heap[t.heap[s].peer.value].transport)
  }

  lemma SendersAre(t: Table, tr: Transport)
    requires Valid(t)
    ensures Senders(t, tr, t.list) == Closers(t, tr)
  {
    forall s | s in t.list
      ensures Linked(t, s) && (Doomed(t, tr, s) <==> Uses(t, tr, s))
    {
      assert Linked(t, s);
      DoomedUses(t, tr, s);
    }
  }

  // ---- the source's procedures ----

  class SocketTable {
    var heap: map<Ptr, ASocket>
    var list: seq<Ptr>
    var closingList: seq<Ptr>
    var sent: seq<Clse>
    var freed: seq<Ptr>

    function View(): Table
      reads this
    {
      Table(heap, list, closingList, sent, freed)
    }

    constructor ()
      ensures Valid(View()) && View() == Table(map[], [], [], [], [])
    {
      heap, list, closingList, sent, freed := map[], [], [], [], [];
    }

    /** `local_socket_destroy`. */
    method LocalSocketDestroy(s: Ptr)
      requires s in heap
      modifies this
      ensures View() == Destroy(old(View()), s)
    {
      list, closingList := Without(list, s), Without(closingList, s);
      heap := heap - {s};
      freed := freed + [s];
    }

    /** `remote_socket_shutdown`. */
    method RemoteSocketShutdown(s: Ptr)
      requires s in heap && (heap[s].peer.Some? ==> heap[s].peer.value in heap)
      modifies this`sent
      ensures sent == old(sent) + [Clse(if heap[s].peer.Some? then heap[heap[s].peer.value].id else 0, heap[s].id, heap[s].transport)]
    {
      var arg0 := 0;
      if heap[s].peer.Some? {
        arg0 := heap[heap[s].peer.value].id;
      }
      sent := sent + [Clse(arg0, heap[s].id, heap[s].transport)];
    }

    /** `remote_socket_close`. A live peer is unlinked and closed first. */
    method RemoteSocketClose(s: Ptr)
      requires ListsOk(View()) && s in heap && heap[s].kind == Remote && Linked(View(), s)
      requires heap[s].peer.Some? ==> heap[heap[s].peer.value].kind == Local
      modifies this
      ensures old(heap[s].peer.None?) ==> View() == CloseAlone(old(View()), s)
      ensures old(heap[s].peer.Some?) ==>
        View() == CloseAlone(CloseAlone(Unlink(old(View()), old(heap[s].peer.value)), old(heap[s].peer.value)), s)
      decreases if heap[s].peer.Some? then 1 else 0, 0
    {
      if heap[s].peer.Some? {
        var p := heap[s].peer.value;
        ghost var t := View();
        heap := heap[p := heap[p].(peer := None)];
        assert View() == Unlink(t, p) && ListsOk(View());
        CloseAloneEffect(View(), p);
        LocalSocketCloseLocked(p);
      }
      heap := heap - {s};
      freed := freed + [s];
    }

    /** The first half of `local_socket_close_locked`: shut the peer down, unlink it, close it. */
    method ClosePeer(s: Ptr)
      requires ListsOk(View()) && s in heap && heap[s].peer.Some? && Linked(View(), s)
      modifies this
      ensures
        var t := old(View());
        var p := t.heap[s].peer.value;
        var t1 := CloseAlone(Unlink(t.(sent := t.sent + ShutdownPacket(t, s, p)), p), p);
        s in t1.heap && View() == Unlink(t1, s)
      decreases 1, 0
    {
      ghost var t := View();
      var p := heap[s].peer.value;
      if heap[p].kind == Remote {
        RemoteSocketShutdown(p);
      }
      heap := heap[p := heap[p].(peer := None)];
      ghost var t1 := View();
      assert t1 == Unlink(t.(sent := t.sent + ShutdownPacket(t, s, p)), p);
      assert ListsOk(t1);
      CloseAloneEffect(t1, p);
      if heap[p].kind == Local {
        LocalSocketCloseLocked(p);
      } else {
        RemoteSocketClose(p);
      }
      assert View() == CloseAlone(t1, p);
      heap := heap[s := heap[s].(peer := None)];
    }

    /** `local_socket_close_locked`. */
    method LocalSocketCloseLocked(s: Ptr)
      requires ListsOk(View()) && s in heap && heap[s].kind == Local && Linked(View(), s)
      modifies this
      ensures View() == ClosePair(old(View()), s)
      decreases if heap[s].peer.Some? then 1 else 0, 1
    {
      if heap[s].peer.Some? {
        ClosePeer(s);
      }
      if heap[s].closing || !heap[s].backlog {
        LocalSocketDestroy(s);
      } else {
        heap := heap[s := heap[s].(closing := true, wantRead := false)];
        list := Without(list, s);
        heap := heap[s := heap[s].(id := 0)];
        closingList := closingList + [s];
      }
    }

    /** `close_all_sockets`. */
    method CloseAllSockets(tr: Transport)
      requires Valid(View())
      modifies this
      ensures View() == CloseAll(old(View()), tr)
    {
      var i := 0;
      while i < |list|
        invariant Valid(View()) && 0 <= i <= |list|
        invariant CloseAll(View(), tr) == CloseAll(old(View()), tr)
        invariant FirstDoomed(View(), tr, 0) == FirstDoomed(View(), tr, i)
        decreases |list|, |list| - i
      {
        var s := list[i];
        if heap[s].transport == Some(tr) || (heap[s].peer.Some? && PeerTransport(s) == Some(tr)) {
          assert Linked(View(), s);
          CloseShrinks(View(), s);
          LocalSocketCloseLocked(s);
          i := 0;
        } else {
          assert Linked(View(), s);
          i := i + 1;
        }
      }
    }

    function PeerTransport(s: Ptr): Option<Transport>
      requires Valid(View()) && s in heap && heap[s].peer.Some?
      reads this
    {
      assert Linked(View(), s);
      heap[heap[s].peer.value].transport
    }
  }
}
