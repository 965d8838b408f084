/** The fdevent loop over select(): descriptors, wanted events, and the circular list of pending events. */
module FdEvents {
  import opened Lists

  const FDE_READ: bv8 := 0x01
  const FDE_WRITE: bv8 := 0x02
  const FDE_ERROR: bv8 := 0x04
  const FDE_DONT_CLOSE: bv8 := 0x80

  /** The fields of `struct fdevent` other than its links: `mask` is the event half of `state`,
      the booleans are FDE_ACTIVE and FDE_PENDING. */
  datatype Fde = Fde(fd: int, mask: bv8, active: bool, pending: bool, events: bv8)

  const ZeroFde := Fde(0, 0, false, false, 0)

  class FdEvent {
    var next: FdEvent?
    var prev: FdEvent?
    var st: Fde

    constructor ()
      ensures st == ZeroFde
    {
      next, prev, st := null, null, ZeroFde;
    }
  }

  /** Position `i` of the circle that starts and ends at `head`. */
  ghost function At(head: FdEvent, nodes: seq<FdEvent>, i: int): FdEvent {
    if 0 < i <= |nodes| then nodes[i - 1] else head
  }

  /** `nodes` hang on `head` as a circular doubly linked list. */
  ghost predicate Ring(head: FdEvent, nodes: seq<FdEvent>)
    reads head`next, head`prev, nodes`next, nodes`prev
  {
    && head !in nodes && NoDup(nodes)
    && (forall i, j :: 0 <= i <= |nodes| && j == i + 1 ==>
          At(head, nodes, i).next == At(head, nodes, j) && At(head, nodes, j).prev == At(head, nodes, i))
  }

  /** `list_pending` and its three operations. */
  class PendingList {
    const head: FdEvent
    ghost var nodes: seq<FdEvent>

    ghost predicate Valid()
      reads this, head`next, head`prev, nodes`next, nodes`prev
    {
      Ring(head, nodes)
    }

    constructor ()
      ensures Valid() && nodes == [] && fresh(head)
    {
      head := new FdEvent();
      nodes := [];
      new;
      head.next, head.prev := head, head;
    }

    /** `fdevent_plist_enqueue`. */
    method Enqueue(node: FdEvent)
      requires Valid() && node !in nodes && node != head
      modifies this`nodes, head`next, head`prev, node`next, node`prev, nodes`next
      ensures Valid() && nodes == old(nodes) + [node]
    {
      ghost var n := |nodes|;
      assert At(head, nodes, n + 1).prev == At(head, nodes, n);
      node.next := head;
      node.prev := head.prev;
      node.prev.next := node;
      head.prev := node;
      nodes := nodes + [node];
      assert forall i :: 0 <= i <= n ==> At(head, nodes, i) == At(head, old(nodes), i);
    }

    /** `fdevent_plist_remove`; `k` is where the node is. */
    method Remove(node: FdEvent, ghost k: nat)
      requires Valid() && k < |nodes| && nodes[k] == node
      modifies this`nodes, head`next, head`prev, nodes`next, nodes`prev
      ensures Valid() && nodes == old(nodes)[..k] + old(nodes)[k + 1..]
      ensures node !in nodes && node.next == null && node.prev == null
    {
      assert At(head, nodes, k + 1) == node;
      assert At(head, nodes, k + 1).next == At(head, nodes, k + 2) && At(head, nodes, k + 1).prev == At(head, nodes, k);
      node.prev.next := node.next;
      node.next.prev := node.prev;
      node.next := null;
      node.prev := null;
      nodes := nodes[..k] + nodes[k + 1..];
      assert forall i :: 0 <= i <= k ==> At(head, nodes, i) == At(head, old(nodes), i);
      assert forall i :: k < i <= |nodes| + 1 ==> At(head, nodes, i) == At(head, old(nodes), i + 1);
    }

    /** `fdevent_plist_dequeue`. */
    method Dequeue() returns (node: FdEvent?)
      requires Valid()
      modifies this`nodes, head`next, head`prev, nodes`next, nodes`prev
      ensures Valid()
      ensures node == null <==> old(nodes) == []
      ensures node == null ==> nodes == []
      ensures node != null ==> old(nodes) == [node] + nodes
    {
      assert At(head, nodes, 0).next == At(head, nodes, 1);
      node := head.next;
      if node == head {
        node := null;
        return;
      }
      assert At(head, nodes, 1).next == At(head, nodes, 2);
      head.next := node.next;
      head.next.prev := head;
      node.next := null;
      node.prev := null;
      nodes := nodes[1..];
      assert forall i :: 0 < i <= |nodes| + 1 ==> At(head, nodes, i) == At(head, old(nodes), i + 1);
    }
  }

  // ---- the history of a loop ----

  datatype Entry = Installed(f: FdEvent) | Removed(f: FdEvent) | Dispatched(f: FdEvent, events: bv8)

  /** The last install or remove of `f` in the history is an install. */
  ghost predicate InstalledIn(log: seq<Entry>, f: FdEvent) {
    if log == [] then false
    else
      var e, before := log[|log| - 1], log[..|log| - 1];
      if e.Dispatched? || e.f != f then InstalledIn(before, f) else e.Installed?
  }

  /** Every dispatch hits an fdevent that is installed at that moment, and carries some event. */
  ghost predicate DispatchesInstalled(log: seq<Entry>) {
    forall k :: 0 <= k < |log| && log[k].Dispatched? ==> log[k].events != 0 && InstalledIn(log[..k], log[k].f)
  }

  lemma LogGrows(log: seq<Entry>, e: Entry)
    requires DispatchesInstalled(log)
    requires e.Dispatched? ==> e.events != 0 && InstalledIn(log, e.f)
    ensures DispatchesInstalled(log + [e])
    ensures forall f :: InstalledIn(log + [e], f) <==> if e.Dispatched? || e.f != f then InstalledIn(log, f) else e.Installed?
  {
    var log' := log + [e];
    assert log'[..|log|] == log;
    forall k | 0 <= k < |log'| && log'[k].Dispatched?
      ensures log'[k].events != 0 && InstalledIn(log'[..k], log'[k].f)
    {
      assert log'[..k] == log[..k];
    }
  }

  // ---- the loop as a value ----

  datatype Loop = Loop(
    fdes: map<FdEvent, Fde>,
    nodes: seq<FdEvent>,                 // the pending list
    table: seq<FdEvent?>, selectN: int,  // fd_table and select_n
    readFds: set<int>, writeFds: set<int>, errorFds: set<int>,
    closed: seq<int>,                    // descriptors handed to adb_close
    log: seq<Entry>)

  const EmptyLoop := Loop(map[], [], [], 0, {}, {}, {}, [], [])

  /** FDE_PENDING is set exactly on the nodes of the pending list, each there once. */
  ghost predicate FlagsOk(s: Loop) {
    && NoDup(s.nodes)
    && (forall i :: 0 <= i < |s.nodes| ==> s.nodes[i] in s.fdes)
    && (forall f :: f in s.fdes ==>
          && (s.fdes[f].pending <==> f in s.nodes)
          && (s.fdes[f].pending <==> s.fdes[f].events != 0)
          && (s.fdes[f].pending ==> s.fdes[f].active))
  }

  /** The table holds exactly the active fdevents, each at its descriptor, all below select_n. */
  ghost predicate TableOk(s: Loop) {
    && 0 <= s.selectN <= |s.table| && (|s.table| == 0 || |s.table| >= 256)
    && (forall f :: f in s.fdes && s.fdes[f].active ==> 0 <= s.fdes[f].fd < |s.table| && s.table[s.fdes[f].fd] == f)
    && (forall i :: 0 <= i < |s.table| && s.table[i] != null ==>
          s.table[i] in s.fdes && s.fdes[s.table[i]].active && s.fdes[s.table[i]].fd == i && i < s.selectN)
  }

  /** Descriptor `i` is registered and its fdevent wants the event `bit`. */
  predicate Wants(s: Loop, i: int, bit: bv8) {
    0 <= i < |s.table| && s.table[i] != null && s.table[i] in s.fdes && s.fdes[s.table[i]].mask & bit != 0
  }

  /** The fd_sets handed to select() are the wanted events of the registered descriptors. */
  ghost predicate SetsOk(s: Loop) {
    && (forall i :: i in s.readFds <==> Wants(s, i, FDE_READ))
    && (forall i :: i in s.writeFds <==> Wants(s, i, FDE_WRITE))
    && (forall i :: i in s.errorFds <==> Wants(s, i, FDE_ERROR))
  }

  ghost predicate LogOk(s: Loop) {
    DispatchesInstalled(s.log) && forall f :: f in s.fdes ==> (s.fdes[f].active <==> InstalledIn(s.log, f))
  }

  ghost predicate Inv(s: Loop) {
    FlagsOk(s) && TableOk(s) && SetsOk(s) && LogOk(s)
  }

  // ---- operations on the value ----

  function Bits(b: bool, bit: bv8): bv8 { if b then bit else 0 }

  function SetBit(fds: set<int>, i: int, on: bool): set<int> {
    if on then fds + {i} else fds - {i}
  }

  function Grow(max: nat, fd: int): (m: nat)
    requires max >= 256
    ensures m >= max && m > fd
    decreases fd - max
  {
    if max > fd then max else Grow(max * 2, fd)
  }

  function Slots(s: Loop, fd: int): nat {
    if fd < |s.table| then |s.table| else Grow(if |s.table| < 256 then 256 else |s.table|, fd)
  }

  /** `fdevent_install`, where it does not abort. */
  function InstallFn(s: Loop, f: FdEvent, fd: int): Loop
    requires 0 <= fd
  {
    var n := Slots(s, fd);
    var wide := s.table + seq(if n > |s.table| then n - |s.table| else 0, _ => null);
    s.(fdes := s.fdes[f := Fde(fd, 0, true, false, 0)],
       table := if fd < |wide| then wide[fd := f] else wide,
       selectN := if fd >= s.selectN then fd + 1 else s.selectN,
       log := s.log + [Installed(f)])
  }

  /** The highest registered descriptor below `i`, or 0. */
  function Highest(table: seq<FdEvent?>, i: nat): (n: nat)
    requires i <= |table|
    ensures i > 0 ==> n < i
    ensures i == 0 ==> n == 0
    ensures forall j :: 0 <= j < i && table[j] != null ==> j <= n
  {
    if i == 0 then 0 else if table[i - 1] != null then i - 1 else Highest(table, i - 1)
  }

  /** The first part of `fdevent_remove`: off the pending list, the table and the fd_sets. */
  function Withdrawn(s: Loop, f: FdEvent): Loop
    requires f in s.fdes && 0 <= s.selectN <= |s.table|
  {
    var e := s.fdes[f];
    var s1 := s.(nodes := if e.pending then Without(s.nodes, f) else s.nodes);
    if !e.active || !(0 <= e.fd < |s.table|) then s1
    else
      s1.(readFds := s.readFds - {e.fd}, writeFds := s.writeFds - {e.fd}, errorFds := s.errorFds - {e.fd},
          selectN := Highest(s.table, s.selectN) + 1,
          table := s.table[e.fd := null],
          closed := s.closed + if e.mask & FDE_DONT_CLOSE == 0 then [e.fd] else [])
  }

  /** `fdevent_remove`. */
  function RemoveFn(s: Loop, f: FdEvent): Loop
    requires f in s.fdes && 0 <= s.selectN <= |s.table|
  {
    Withdrawn(s, f).(fdes := s.fdes[f := s.fdes[f].(mask := 0, active := false, pending := false, events := 0)],
                     log := s.log + [Removed(f)])
  }

  /** A pending fdevent forgets exactly the pending events that are now wanted. */
  function Masked(e: Fde, mask: bv8): Fde {
    var left := if e.pending then e.events & !mask else e.events;
    e.(mask := mask, events := left, pending := e.pending && left != 0)
  }

  /** `fdevent_update` on the three fd_sets. */
  function Update(s: Loop, fd: int, mask: bv8): Loop {
    s.(readFds := SetBit(s.readFds, fd, mask & FDE_READ != 0),
       writeFds := SetBit(s.writeFds, fd, mask & FDE_WRITE != 0),
       errorFds := SetBit(s.errorFds, fd, mask & FDE_ERROR != 0))
  }

  /** `fdevent_set`. */
  function SetFn(s: Loop, f: FdEvent, mask: bv8): Loop
    requires f in s.fdes
  {
    var e := s.fdes[f];
    if e.mask == mask then s
    else
      var s1 := if e.active then Update(s, e.fd, mask) else s;
      s1.(fdes := s.fdes[f := Masked(e, mask)],
          nodes := if e.pending && !Masked(e, mask).pending then Without(s.nodes, f) else s.nodes)
  }

  function Joined(e: Fde, ev: bv8): Fde { e.(events := e.events | ev, pending := true) }

  /** One descriptor of `fdevent_process`. */
  function Fire(s: Loop, i: int, ev: bv8): Loop {
    if ev == 0 || !(0 <= i < |s.table|) || s.table[i] == null || s.table[i] !in s.fdes then s
    else
      var f: FdEvent := s.table[i];
      var e := s.fdes[f];
      s.(fdes := s.fdes[f := Joined(e, ev)],
         nodes := if e.pending then s.nodes else s.nodes + [f])
  }

  function ReadyBits(r: set<int>, w: set<int>, x: set<int>, i: int): bv8 {
    Bits(i in r, FDE_READ) | Bits(i in w, FDE_WRITE) | Bits(i in x, FDE_ERROR)
  }

  /** `fdevent_process` after select(): every ready descriptor, in order, none skipped. */
  function ProcessFn(s: Loop, r: set<int>, w: set<int>, x: set<int>, n: nat): Loop
  {
    if n == 0 then s
    else Fire(ProcessFn(s, r, w, x, n - 1), n - 1, ReadyBits(r, w, x, n - 1))
  }

  /** The dequeue of `fdevent_loop` and `fdevent_call_fdfunc` up to the callback. */
  function DispatchFn(s: Loop): Loop
  {
    if s.nodes == [] || s.nodes[0] !in s.fdes then s
    else
      var f := s.nodes[0];
      s.(nodes := s.nodes[1..],
         fdes := s.fdes[f := s.fdes[f].(events := 0, pending := false)],
         log := s.log + [Dispatched(f, s.fdes[f].events)])
  }

  // ---- every operation keeps the invariant ----

  lemma UnlistFacts(nodes: seq<FdEvent>, f: FdEvent)
    requires NoDup(nodes)
    ensures forall i :: 0 <= i < |Without(nodes, f)| ==> Without(nodes, f)[i] in nodes && Without(nodes, f)[i] != f
    ensures forall g :: g in nodes && g != f ==> g in Without(nodes, f)
    ensures f !in nodes ==> Without(nodes, f) == nodes
    ensures NoDup(Without(nodes, f))
  {
    WithoutFacts(nodes, f);
    WithoutNoDup(nodes, f);
    forall i | 0 <= i < |Without(nodes, f)|
      ensures Without(nodes, f)[i] in nodes && Without(nodes, f)[i] != f
    {
      assert Without(nodes, f)[i] in Without(nodes, f);
    }
  }

  lemma InstallTable(s: Loop, f: FdEvent, fd: int)
    requires TableOk(s) && SetsOk(s) && 0 <= fd
    requires f in s.fdes ==> !s.fdes[f].active
    requires fd < |s.table| ==> s.table[fd] == null
    ensures TableOk(InstallFn(s, f, fd)) && SetsOk(InstallFn(s, f, fd))
  {
    InstallShape(s, f, fd);
    InstalledTable(s, InstallFn(s, f, fd), f, fd);
    InstalledSets(s, InstallFn(s, f, fd), f, fd);
  }

  /** What an install leaves of the table and the fdevents. */
  ghost predicate OneInstalled(s: Loop, s': Loop, f: FdEvent, fd: int) {
    && |s'.table| >= |s.table| && 0 <= fd < |s'.table| && |s'.table| >= 256 && s'.table[fd] == f
    && (forall i :: 0 <= i < |s'.table| && i != fd ==> s'.table[i] == if i < |s.table| then s.table[i] else null)
    && s'.fdes == s.fdes[f := Fde(fd, 0, true, false, 0)]
    && s'.selectN == (if fd >= s.selectN then fd + 1 else s.selectN)
    && s'.readFds == s.readFds && s'.writeFds == s.writeFds && s'.errorFds == s.errorFds
  }

  lemma InstallShape(s: Loop, f: FdEvent, fd: int)
    requires 0 <= fd && (|s.table| == 0 || |s.table| >= 256)
    ensures OneInstalled(s, InstallFn(s, f, fd), f, fd)
  {
  }

  lemma InstalledTable(s: Loop, s': Loop, f: FdEvent, fd: int)
    requires TableOk(s) && OneInstalled(s, s', f, fd)
    requires f in s.fdes ==> !s.fdes[f].active
    requires fd < |s.table| ==> s.table[fd] == null
    ensures TableOk(s')
  {
  }

  lemma InstalledWants(s: Loop, s': Loop, f: FdEvent, fd: int, i: int, bit: bv8)
    requires TableOk(s) && OneInstalled(s, s', f, fd)
    requires f in s.fdes ==> !s.fdes[f].active
    requires fd < |s.table| ==> s.table[fd] == null
    ensures Wants(s', i, bit) <==> Wants(s, i, bit)
  {
  }

  lemma InstalledSets(s: Loop, s': Loop, f: FdEvent, fd: int)
    requires TableOk(s) && SetsOk(s) && OneInstalled(s, s', f, fd)
    requires f in s.fdes ==> !s.fdes[f].active
    requires fd < |s.table| ==> s.table[fd] == null
    ensures SetsOk(s')
  {
    forall i, bit: bv8
      ensures Wants(s', i, bit) <==> Wants(s, i, bit)
    {
      InstalledWants(s, s', f, fd, i, bit);
    }
  }

  lemma InstallInv(s: Loop, f: FdEvent, fd: int)
    requires Inv(s) && 0 <= fd
    requires f in s.fdes ==> !s.fdes[f].active
    requires fd < |s.table| ==> s.table[fd] == null
    ensures Inv(InstallFn(s, f, fd))
  {
    InstallTable(s, f, fd);
    LogGrows(s.log, Installed(f));
  }

  lemma RemoveTable(s: Loop, f: FdEvent)
    requires TableOk(s) && f in s.fdes
    ensures TableOk(RemoveFn(s, f))
  {
  }

  lemma RemoveSets(s: Loop, f: FdEvent)
    requires TableOk(s) && SetsOk(s) && f in s.fdes
    ensures SetsOk(RemoveFn(s, f))
  {
    var s' := RemoveFn(s, f);
    var e := s.fdes[f];
    assert forall i, bit: bv8 :: Wants(s', i, bit) <==> Wants(s, i, bit) && !(e.active && i == e.fd);
  }

  lemma RemoveFlags(s: Loop, f: FdEvent)
    requires FlagsOk(s) && f in s.fdes && 0 <= s.selectN <= |s.table|
    ensures FlagsOk(RemoveFn(s, f))
  {
    UnlistFacts(s.nodes, f);
  }

  lemma RemoveInv(s: Loop, f: FdEvent)
    requires Inv(s) && f in s.fdes
    ensures Inv(RemoveFn(s, f))
  {
    LogGrows(s.log, Removed(f));
    RemoveFlags(s, f);
    RemoveTable(s, f);
    RemoveSets(s, f);
  }

  lemma SetFlags(s: Loop, f: FdEvent, mask: bv8)
    requires FlagsOk(s) && f in s.fdes
    ensures FlagsOk(SetFn(s, f, mask))
  {
    UnlistFacts(s.nodes, f);
  }

  /** `fdevent_set` as far as the wanted events go. */
  ghost predicate OneMask(s: Loop, s': Loop, f: FdEvent, mask: bv8)
    requires f in s.fdes
  {
    && s'.table == s.table && s'.fdes.Keys == s.fdes.Keys && s'.fdes[f].mask == mask
    && forall g :: g in s.fdes && g != f ==> s'.fdes[g].mask == s.fdes[g].mask
  }

  lemma SetMasks(s: Loop, f: FdEvent, mask: bv8)
    requires f in s.fdes && s.fdes[f].mask != mask
    ensures OneMask(s, SetFn(s, f, mask), f, mask)
  {
  }

  /** The events that descriptor `i` wants; none when it is not registered. */
  ghost function MaskAt(s: Loop, i: int): bv8 {
    if 0 <= i < |s.table| && s.table[i] != null && s.table[i] in s.fdes then s.fdes[s.table[i]].mask else 0
  }

  lemma WantsMask(s: Loop, i: int, bit: bv8)
    ensures Wants(s, i, bit) <==> MaskAt(s, i) & bit != 0
  {
    NoBits(bit);
  }

  lemma NoBits(bit: bv8)
    ensures 0 & bit == 0
  {
  }

  lemma MaskSet(s: Loop, s': Loop, f: FdEvent, mask: bv8, i: int)
    requires TableOk(s) && f in s.fdes && OneMask(s, s', f, mask)
    ensures MaskAt(s', i) == if s.fdes[f].active && i == s.fdes[f].fd then mask else MaskAt(s, i)
  {
  }

  lemma MaskWants(s: Loop, s': Loop, f: FdEvent, mask: bv8, i: int, bit: bv8)
    requires TableOk(s) && f in s.fdes && OneMask(s, s', f, mask)
    ensures Wants(s', i, bit) <==>
            if s.fdes[f].active && i == s.fdes[f].fd then mask & bit != 0 else Wants(s, i, bit)
  {
    MaskSet(s, s', f, mask, i);
    WantsMask(s, i, bit);
    WantsMask(s', i, bit);
  }

  /** One fd_set follows the change of one mask. */
  lemma OneSet(s: Loop, s': Loop, f: FdEvent, mask: bv8, fds: set<int>, bit: bv8)
    requires TableOk(s) && f in s.fdes && OneMask(s, s', f, mask)
    requires forall i :: i in fds <==> Wants(s, i, bit)
    ensures
      var fds' := if s.fdes[f].active then SetBit(fds, s.fdes[f].fd, mask & bit != 0) else fds;
      forall i :: i in fds' <==> Wants(s', i, bit)
  {
    forall i
      ensures Wants(s', i, bit) <==> if s.fdes[f].active && i == s.fdes[f].fd then mask & bit != 0 else Wants(s, i, bit)
    {
      MaskWants(s, s', f, mask, i, bit);
    }
  }

  lemma SetSets(s: Loop, f: FdEvent, mask: bv8)
    requires TableOk(s) && SetsOk(s) && f in s.fdes
    ensures SetsOk(SetFn(s, f, mask))
  {
    if s.fdes[f].mask != mask {
      var s' := SetFn(s, f, mask);
      SetMasks(s, f, mask);
      OneSet(s, s', f, mask, s.readFds, FDE_READ);
      OneSet(s, s', f, mask, s.writeFds, FDE_WRITE);
      OneSet(s, s', f, mask, s.errorFds, FDE_ERROR);
    }
  }

  lemma SetInv(s: Loop, f: FdEvent, mask: bv8)
    requires Inv(s) && f in s.fdes
    ensures Inv(SetFn(s, f, mask))
  {
    SetFlags(s, f, mask);
    SetSets(s, f, mask);
  }

  lemma FireFlags(s: Loop, i: int, ev: bv8)
    requires FlagsOk(s) && TableOk(s)
    ensures FlagsOk(Fire(s, i, ev))
  {
  }

  lemma FireInv(s: Loop, i: int, ev: bv8)
    requires Inv(s)
    ensures Inv(Fire(s, i, ev))
  {
    FireFlags(s, i, ev);
    assert forall j, bit: bv8 :: Wants(Fire(s, i, ev), j, bit) <==> Wants(s, j, bit);
  }

  lemma DispatchInv(s: Loop)
    requires Inv(s)
    ensures Inv(DispatchFn(s))
  {
    if s.nodes != [] {
      LogGrows(s.log, Dispatched(s.nodes[0], s.fdes[s.nodes[0]].events));
    }
  }

  // ---- what one round of select() does ----

  /** The fdevent of a ready descriptor after `fdevent_process`; every other one is untouched. */
  function Fired(e: Fde, r: set<int>, w: set<int>, x: set<int>, n: nat): Fde {
    if e.active && 0 <= e.fd < n && ReadyBits(r, w, x, e.fd) != 0
    then Joined(e, ReadyBits(r, w, x, e.fd))
    else e
  }

  /** Only the pending list, the pending flags and the pending events differ. */
  ghost predicate SameShape(s: Loop, s': Loop) {
    && s'.table == s.table && s'.selectN == s.selectN && s'.log == s.log && s'.closed == s.closed
    && s'.readFds == s.readFds && s'.writeFds == s.writeFds && s'.errorFds == s.errorFds
    && s'.fdes.Keys == s.fdes.Keys && s.nodes <= s'.nodes
  }

  ghost predicate AllFired(s: Loop, s': Loop, r: set<int>, w: set<int>, x: set<int>, n: nat)
    requires s'.fdes.Keys == s.fdes.Keys
  {
    forall f :: f in s.fdes ==> s'.fdes[f] == Fired(s.fdes[f], r, w, x, n)
  }

  ghost predicate OneFired(s1: Loop, s2: Loop, i: nat, ev: bv8) {
    && SameShape(s1, s2)
    && forall f :: f in s1.fdes ==>
         s2.fdes[f] == if ev != 0 && s1.fdes[f].active && s1.fdes[f].fd == i then Joined(s1.fdes[f], ev) else s1.fdes[f]
  }

  lemma FireShape(s: Loop, i: nat, ev: bv8)
    requires TableOk(s) && i < |s.table|
    ensures OneFired(s, Fire(s, i, ev), i, ev)
  {
  }

  lemma FireEffect(s: Loop, s1: Loop, s2: Loop, r: set<int>, w: set<int>, x: set<int>, i: nat)
    requires SameShape(s, s1) && AllFired(s, s1, r, w, x, i) && OneFired(s1, s2, i, ReadyBits(r, w, x, i))
    ensures SameShape(s, s2) && AllFired(s, s2, r, w, x, i + 1)
  {
  }

  lemma FiredInv(s: Loop, i: int, ev: bv8, s': Loop)
    requires Inv(s) && s' == Fire(s, i, ev)
    ensures Inv(s')
  {
    FireInv(s, i, ev);
  }

  lemma {:induction false} ProcessInv(s: Loop, r: set<int>, w: set<int>, x: set<int>, n: nat)
    requires Inv(s)
    ensures Inv(ProcessFn(s, r, w, x, n))
  {
    if n > 0 {
      ProcessInv(s, r, w, x, n - 1);
      FiredInv(ProcessFn(s, r, w, x, n - 1), n - 1, ReadyBits(r, w, x, n - 1), ProcessFn(s, r, w, x, n));
    }
  }

  lemma {:induction false} ProcessFired(s: Loop, r: set<int>, w: set<int>, x: set<int>, n: nat)
    requires Inv(s) && n <= |s.table|
    ensures
      var s' := ProcessFn(s, r, w, x, n);
      Inv(s') && SameShape(s, s') && AllFired(s, s', r, w, x, n)
  {
    ProcessInv(s, r, w, x, n);
    if n > 0 {
      ProcessFired(s, r, w, x, n - 1);
      var s1, ev := ProcessFn(s, r, w, x, n - 1), ReadyBits(r, w, x, n - 1);
      FireShape(s1, n - 1, ev);
      FireEffect(s, s1, Fire(s1, n - 1, ev), r, w, x, n - 1);
    }
  }

  /** An fdevent before and after a round, bit by bit: it is pending with the events it had and those
      that were reported for its descriptor. */
  ghost predicate Delivered(e: Fde, e': Fde, r: bool, w: bool, x: bool) {
    && e'.fd == e.fd && e'.mask == e.mask && e'.active == e.active
    && (e'.events & FDE_READ != 0 <==> e.events & FDE_READ != 0 || r)
    && (e'.events & FDE_WRITE != 0 <==> e.events & FDE_WRITE != 0 || w)
    && (e'.events & FDE_ERROR != 0 <==> e.events & FDE_ERROR != 0 || x)
    && e'.events & 0xf8 == e.events & 0xf8
    && (e'.pending <==> e.pending || r || w || x)
  }

  ghost predicate AllDelivered(s: Loop, s': Loop, r: set<int>, w: set<int>, x: set<int>) {
    && s'.fdes.Keys == s.fdes.Keys
    && forall f :: f in s.fdes ==>
         if s.fdes[f].active then Delivered(s.fdes[f], s'.fdes[f], s.fdes[f].fd in r, s.fdes[f].fd in w, s.fdes[f].fd in x)
         else s'.fdes[f] == s.fdes[f]
  }

  function ThreeBits(r: bool, w: bool, x: bool): bv8 {
    Bits(r, FDE_READ) | Bits(w, FDE_WRITE) | Bits(x, FDE_ERROR)
  }

  lemma BitsJoin(v: bv8, r: bool, w: bool, x: bool)
    ensures
      var u := v | ThreeBits(r, w, x);
      && (u & FDE_READ != 0 <==> v & FDE_READ != 0 || r)
      && (u & FDE_WRITE != 0 <==> v & FDE_WRITE != 0 || w)
      && (u & FDE_ERROR != 0 <==> v & FDE_ERROR != 0 || x)
      && u & 0xf8 == v & 0xf8
    ensures ThreeBits(r, w, x) == 0 <==> !r && !w && !x
  {
  }

  lemma FiredDelivers(e: Fde, r: set<int>, w: set<int>, x: set<int>, n: nat)
    requires e.active && 0 <= e.fd < n
    ensures Delivered(e, Fired(e, r, w, x, n), e.fd in r, e.fd in w, e.fd in x)
  {
    BitsJoin(e.events, e.fd in r, e.fd in w, e.fd in x);
    assert ReadyBits(r, w, x, e.fd) == ThreeBits(e.fd in r, e.fd in w, e.fd in x);
  }

  /** One round of the loop: each registered fdevent becomes pending with exactly the events that were
      reported for its descriptor, READ, WRITE and ERROR each from its own set; the others and the rest
      of the loop stay as they were, and nobody loses a place on the pending list. */
  lemma ProcessEffect(s: Loop, r: set<int>, w: set<int>, x: set<int>)
    requires Inv(s)
    ensures
      var s' := ProcessFn(s, r, w, x, s.selectN);
      Inv(s') && SameShape(s, s') && AllDelivered(s, s', r, w, x)
  {
    var s' := ProcessFn(s, r, w, x, s.selectN);
    ProcessFired(s, r, w, x, s.selectN);
    forall f | f in s.fdes
      ensures if s.fdes[f].active then Delivered(s.fdes[f], s'.fdes[f], s.fdes[f].fd in r, s.fdes[f].fd in w, s.fdes[f].fd in x)
              else s'.fdes[f] == s.fdes[f]
    {
      if s.fdes[f].active {
        FiredDelivers(s.fdes[f], r, w, x, s.selectN);
      }
    }
  }

  /** The bad-descriptor path reports READ on the registered descriptors that are bad. */
  lemma DeadDelivered(s: Loop, s': Loop, bad: set<int>)
    requires TableOk(s) && AllDelivered(s, s', Dead(s.table, s.selectN, bad), {}, {})
    ensures AllDelivered(s, s', bad, {}, {})
  {
    assert forall f :: f in s.fdes && s.fdes[f].active ==> (s.fdes[f].fd in Dead(s.table, s.selectN, bad) <==> s.fdes[f].fd in bad);
  }

  /** Descriptors without a ready bit contribute nothing, so the loop may stop early. */
  lemma {:induction false} ProcessIdle(s: Loop, r: set<int>, w: set<int>, x: set<int>, i: nat, n: nat)
    requires i <= n && forall j :: i <= j < n ==> j !in r && j !in w && j !in x
    ensures ProcessFn(s, r, w, x, n) == ProcessFn(s, r, w, x, i)
  {
    if i < n {
      ProcessIdle(s, r, w, x, i, n - 1);
      assert n - 1 !in r && n - 1 !in w && n - 1 !in x;
    }
  }

  /** How many members of a set are at or above `i`. */
  ghost function CountFrom(fds: set<int>, i: int): nat {
    |set y | y in fds && y >= i|
  }

  lemma CountStep(fds: set<int>, i: int)
    ensures CountFrom(fds, i) == CountFrom(fds, i + 1) + if i in fds then 1 else 0
  {
    var above := set y | y in fds && y >= i + 1;
    assert (set y | y in fds && y >= i) == above + if i in fds then {i} else {};
  }

  lemma CountZero(fds: set<int>, i: int)
    requires CountFrom(fds, i) == 0
    ensures forall y :: y in fds ==> y < i
  {
    var above := set z | z in fds && z >= i;
    assert |above| == 0;
    forall y | y in fds
      ensures y < i
    {
      assert y !in above;
    }
  }

  lemma CountAll(fds: set<int>)
    requires forall y :: y in fds ==> y >= 0
    ensures CountFrom(fds, 0) == |fds|
  {
    assert (set y | y in fds && y >= 0) == fds;
  }

  // ---- runs ----

  datatype Op =
    | Install(f: FdEvent, fd: int)
    | Set(f: FdEvent, mask: bv8)
    | Add(f: FdEvent, mask: bv8)
    | Del(f: FdEvent, mask: bv8)
    | Remove(f: FdEvent)
    | Process(r: set<int>, w: set<int>, x: set<int>)
    | Dispatch
    | ForceEof(f: FdEvent)

  /** What the source asks of its callers, and of select(): ready descriptors are ones it was given,
      or, on the bad-descriptor path, registered ones. A callback is any further operations. */
  ghost predicate Enabled(s: Loop, op: Op) {
    match op
    case Install(f, fd) =>
      && 0 <= fd && (fd < |s.table| || fd <= 32000)
      && (f in s.fdes ==> !s.fdes[f].active) && (fd < |s.table| ==> s.table[fd] == null)
    case Set(f, _) => f in s.fdes
    case Add(f, _) => f in s.fdes
    case Del(f, _) => f in s.fdes
    case Remove(f) => f in s.fdes
    case Process(r, w, x) =>
      && 0 <= s.selectN <= |s.table|
      && (forall i :: i in r ==> 0 <= i < s.selectN && s.table[i] != null)
      && w <= s.writeFds && x <= s.errorFds
    case Dispatch => true
    case ForceEof(f) => f in s.fdes && s.fdes[f].active
  }

  /** `fdevent_subproc_event_func` on a subprocess descriptor with nothing left to read: a pending
      fdevent gains FDE_READ, any other is called at once. */
  function ForceEofFn(s: Loop, f: FdEvent): Loop
    requires f in s.fdes
  {
    var e := s.fdes[f];
    if e.pending then s.(fdes := s.fdes[f := e.(events := e.events | FDE_READ)])
    else s.(fdes := s.fdes[f := e.(events := 0, pending := false)],
            log := s.log + [Dispatched(f, e.events | FDE_READ)])
  }

  /** The mask that `fdevent_set`, `fdevent_add` and `fdevent_del` ask for. */
  function NewMask(s: Loop, op: Op): bv8
    requires (op.Set? || op.Add? || op.Del?) && op.f in s.fdes
  {
    var mask := s.fdes[op.f].mask;
    if op.Set? then op.mask else if op.Add? then mask | op.mask else mask & !op.mask
  }

  ghost function Apply(s: Loop, op: Op): Loop
    requires Enabled(s, op) && 0 <= s.selectN <= |s.table|
  {
    match op
    case Install(f, fd) => InstallFn(s, f, fd)
    case Set(f, _) => SetFn(s, f, NewMask(s, op))
    case Add(f, _) => SetFn(s, f, NewMask(s, op))
    case Del(f, _) => SetFn(s, f, NewMask(s, op))
    case Remove(f) => RemoveFn(s, f)
    case Process(r, w, x) => ProcessFn(s, r, w, x, s.selectN)
    case Dispatch => DispatchFn(s)
    case ForceEof(f) => ForceEofFn(s, f)
  }

  lemma ForceEofInv(s: Loop, f: FdEvent)
    requires Inv(s) && f in s.fdes && s.fdes[f].active
    ensures Inv(ForceEofFn(s, f))
  {
    var s' := ForceEofFn(s, f);
    assert s.fdes[f].events | FDE_READ != 0;
    if !s.fdes[f].pending {
      LogGrows(s.log, Dispatched(f, s.fdes[f].events | FDE_READ));
      assert s'.fdes == s.fdes;
      SameWants(s, s');
    } else {
      SameWants(s, s');
    }
  }

  /** The fd_sets stay right while tables and masks stay the same. */
  lemma SameWants(s: Loop, s': Loop)
    requires s'.table == s.table && s'.fdes.Keys == s.fdes.Keys && SetsOk(s)
    requires forall g :: g in s.fdes ==> s'.fdes[g].mask == s.fdes[g].mask
    requires s'.readFds == s.readFds && s'.writeFds == s.writeFds && s'.errorFds == s.errorFds
    ensures SetsOk(s')
  {
    assert forall i, bit: bv8 :: Wants(s', i, bit) <==> Wants(s, i, bit);
  }

  lemma ApplyInv(s: Loop, op: Op)
    requires Inv(s) && Enabled(s, op)
    ensures Inv(Apply(s, op))
  {
    if op.Set? || op.Add? || op.Del? {
      SetInv(s, op.f, NewMask(s, op));
    } else {
      match op
      case Install(f, fd) => InstallInv(s, f, fd);
      case Remove(f) => RemoveInv(s, f);
      case Process(r, w, x) => ProcessFired(s, r, w, x, s.selectN);
      case Dispatch => DispatchInv(s);
      case ForceEof(f) => ForceEofInv(s, f);
    }
  }

  ghost predicate Step(s: Loop, op: Op, s': Loop) {
    0 <= s.selectN <= |s.table| && Enabled(s, op) && s' == Apply(s, op)
  }

  ghost predicate Run(ops: seq<Op>, t: seq<Loop>) {
    && |t| == |ops| + 1 && t[0] == EmptyLoop
    && forall i, j :: 0 <= i < |ops| && j == i + 1 ==> Step(t[i], ops[i], t[j])
  }

  lemma {:induction false} RunInv(ops: seq<Op>, t: seq<Loop>, k: nat)
    requires Run(ops, t) && k < |t|
    ensures Inv(t[k])
  {
    if k > 0 {
      RunInv(ops, t, k - 1);
      assert Step(t[k - 1], ops[k - 1], t[k]);
      ApplyInv(t[k - 1], ops[k - 1]);
    }
  }

  /** Through any sequence of operations, FDE_PENDING holds exactly for the nodes on the pending
      list, each of which is there once and active. */
  lemma PendingExactly(ops: seq<Op>, t: seq<Loop>, k: nat, f: FdEvent)
    requires Run(ops, t) && k < |t| && f in t[k].fdes
    ensures t[k].fdes[f].pending <==> multiset(t[k].nodes)[f] == 1
    ensures !t[k].fdes[f].pending <==> multiset(t[k].nodes)[f] == 0
    ensures t[k].fdes[f].pending ==> t[k].fdes[f].active && t[k].fdes[f].events != 0
  {
    RunInv(ops, t, k);
    OnceIfNoDup(t[k].nodes, f);
  }

  /** A removed fdevent is never called back before it is installed again. */
  lemma RemovedNeverDispatched(ops: seq<Op>, t: seq<Loop>, k: nat, i: nat, j: nat)
    requires Run(ops, t) && k < |t|
    requires i < j < |t[k].log| && t[k].log[i].Removed? && t[k].log[j].Dispatched? && t[k].log[i].f == t[k].log[j].f
    ensures exists m :: i < m < j && t[k].log[m] == Installed(t[k].log[i].f)
  {
    RunInv(ops, t, k);
    var log := t[k].log;
    assert InstalledIn(log[..j], log[j].f);
    InstalledSince(log[..j], i, log[j].f);
  }

  lemma {:induction false} InstalledSince(log: seq<Entry>, i: nat, f: FdEvent)
    requires i < |log| && log[i] == Removed(f) && InstalledIn(log, f)
    ensures exists m :: i < m < |log| && log[m] == Installed(f)
  {
    var n := |log| - 1;
    if log[n] == Installed(f) {
      assert i < n;
    } else {
      assert i < n;
      InstalledSince(log[..n], i, f);
      var m :| i < m < n && log[..n][m] == Installed(f);
      assert log[m] == Installed(f);
    }
  }

  /** In every reachable state the fd_sets name exactly the wanted events of registered descriptors,
      all of them below select_n, so a descriptor that select() reports always has its fdevent. */
  lemma ReadyIsRegistered(ops: seq<Op>, t: seq<Loop>, k: nat, i: int)
    requires Run(ops, t) && k < |t|
    ensures i in t[k].readFds <==> Wants(t[k], i, FDE_READ)
    ensures i in t[k].writeFds <==> Wants(t[k], i, FDE_WRITE)
    ensures i in t[k].errorFds <==> Wants(t[k], i, FDE_ERROR)
    ensures i in t[k].readFds + t[k].writeFds + t[k].errorFds ==> 0 <= i < t[k].selectN <= |t[k].table| && t[k].table[i] != null
  {
    RunInv(ops, t, k);
  }

  lemma MaskOfBits(mask: bv8, m: bv8)
    ensures (mask | m) & m == m && (mask | m) & !m == mask & !m
    ensures (mask & !m) & m == 0 && (mask & !m) & !m == mask & !m
  {
  }

  /** What the three ways to change a mask leave: set replaces it, add adds the given events and keeps the
      others, del removes the given events and keeps the others. */
  lemma MaskAfter(s: Loop, op: Op)
    requires (op.Set? || op.Add? || op.Del?) && Enabled(s, op) && 0 <= s.selectN <= |s.table|
    ensures op.f in Apply(s, op).fdes
    ensures
      var was, now := s.fdes[op.f].mask, Apply(s, op).fdes[op.f].mask;
      && (op.Set? ==> now == op.mask)
      && (op.Add? ==> now & op.mask == op.mask && now & !op.mask == was & !op.mask)
      && (op.Del? ==> now & op.mask == 0 && now & !op.mask == was & !op.mask)
    ensures forall g :: g in s.fdes && g != op.f ==> g in Apply(s, op).fdes && Apply(s, op).fdes[g] == s.fdes[g]
  {
    MaskOfBits(s.fdes[op.f].mask, op.mask);
    MaskSetTo(s, op.f, NewMask(s, op));
  }

  lemma MaskSetTo(s: Loop, f: FdEvent, mask: bv8)
    requires f in s.fdes
    ensures f in SetFn(s, f, mask).fdes && SetFn(s, f, mask).fdes[f].mask == mask
    ensures forall g :: g in s.fdes && g != f ==> g in SetFn(s, f, mask).fdes && SetFn(s, f, mask).fdes[g] == s.fdes[g]
  {
  }

  /** A remove closes the descriptor of an active fdevent, unless it is marked not to be closed, and
      leaves the fdevent inactive, with no events; the others stay as they were. */
  lemma RemoveEffect(s: Loop, f: FdEvent)
    requires Inv(s) && f in s.fdes
    ensures
      var e, s' := s.fdes[f], RemoveFn(s, f);
      && s'.closed == s.closed + (if e.active && e.mask & 0x80 == 0 then [e.fd] else [])
      && s'.fdes[f] == Fde(e.fd, 0, false, false, 0) && f !in s'.nodes
      && (forall g :: g in s.fdes && g != f ==> g in s'.fdes && s'.fdes[g] == s.fdes[g] && (g in s'.nodes <==> g in s.nodes))
  {
    UnlistFacts(s.nodes, f);
  }

  /** A dispatch takes the fdevent that has been pending longest, delivers the events it was pending
      with, and leaves it with none; the others keep their order. */
  lemma DispatchEffect(s: Loop)
    requires Inv(s) && s.nodes != []
    ensures
      var f, s' := s.nodes[0], DispatchFn(s);
      && f in s.fdes && s.nodes == [f] + s'.nodes
      && s'.log == s.log + [Dispatched(f, s.fdes[f].events)]
      && s'.fdes[f] == Fde(s.fdes[f].fd, s.fdes[f].mask, s.fdes[f].active, false, 0)
      && (forall g :: g in s.fdes && g != f ==> g in s'.fdes && s'.fdes[g] == s.fdes[g])
  {
  }

  lemma ReadJoin(v: bv8)
    ensures (v | FDE_READ) & FDE_READ != 0 && (v | FDE_READ) & 0xfe == v & 0xfe
  {
  }

  /** A forced end of file reaches the fdevent as READ: with its pending events if it has any, else by a
      call at once. */
  lemma ForceEofEffect(s: Loop, f: FdEvent)
    requires Inv(s) && f in s.fdes && s.fdes[f].active
    ensures
      var s', was := ForceEofFn(s, f), s.fdes[f].events;
      && s'.nodes == s.nodes
      && (s.fdes[f].pending ==>
            && s'.log == s.log && s'.fdes[f].pending
            && s'.fdes[f].events & FDE_READ != 0 && s'.fdes[f].events & 0xfe == was & 0xfe)
      && (!s.fdes[f].pending ==>
            && |s'.log| == |s.log| + 1 && s.log <= s'.log
            && s'.log[|s.log|] == Dispatched(f, FDE_READ) && !s'.fdes[f].pending)
  {
    ReadJoin(s.fdes[f].events);
    assert s.fdes[f].events == 0 ==> s.fdes[f].events | FDE_READ == FDE_READ;
  }

  /** The comment in `fdevent_set` promises that a pending fdevent keeps no event that is no longer
      wanted. The code drops the wanted ones instead, so the promise holds exactly when every
      pending event is still wanted, and then nothing is left to deliver. */
  lemma SetKeepsUnwanted(s: Loop, f: FdEvent, mask: bv8)
    requires Inv(s) && f in s.fdes && s.fdes[f].pending && s.fdes[f].mask != mask
    ensures
      var left := SetFn(s, f, mask).fdes[f].events;
      && left & mask == 0 && left & !mask == s.fdes[f].events & !mask
      && (left & !mask == 0 <==> s.fdes[f].events & !mask == 0)
      && (s.fdes[f].events & !mask == 0 ==> left == 0 && f !in SetFn(s, f, mask).nodes)
  {
    UnlistFacts(s.nodes, f);
    SetInv(s, f, mask);
  }

  /** The loop after descriptor 0 was installed and asked for READ. */
  lemma ExampleWanted(f: FdEvent) returns (s1: Loop, s2: Loop)
    ensures Step(EmptyLoop, Install(f, 0), s1) && Step(s1, Set(f, FDE_READ), s2)
    ensures s2.fdes == map[f := Fde(0, FDE_READ, true, false, 0)] && s2.nodes == []
    ensures s2.selectN == 1 <= |s2.table| && s2.table[0] == f && s2.log == [Installed(f)]
  {
    s1 := InstallFn(EmptyLoop, f, 0);
    assert |s1.table| == 256 && s1.table[0] == f && s1.fdes == map[f := Fde(0, 0, true, false, 0)];
    s2 := SetFn(s1, f, FDE_READ);
  }

  /** select() reports descriptor 0 readable, and then the mask changes to WRITE. */
  lemma ExamplePending(f: FdEvent, s2: Loop) returns (s3: Loop, s4: Loop)
    requires s2.fdes == map[f := Fde(0, FDE_READ, true, false, 0)] && s2.nodes == []
    requires s2.selectN == 1 <= |s2.table| && s2.table[0] == f
    ensures Step(s2, Process({0}, {}, {}), s3) && Step(s3, Set(f, FDE_WRITE), s4)
    ensures s4.fdes == map[f := Fde(0, FDE_WRITE, true, true, FDE_READ)] && s4.nodes == [f]
    ensures 0 <= s4.selectN <= |s4.table| && s4.log == s2.log
  {
    assert ProcessFn(s2, {0}, {}, {}, 0) == s2;
    assert ReadyBits({0}, {}, {}, 0) == FDE_READ;
    s3 := Fire(s2, 0, FDE_READ);
    assert s3 == ProcessFn(s2, {0}, {}, {}, 1);
    assert s3.fdes == map[f := Fde(0, FDE_READ, true, true, FDE_READ)] && s3.nodes == [f];
    s4 := SetFn(s3, f, FDE_WRITE);
    assert FDE_READ & !FDE_WRITE == FDE_READ;
  }

  /** A run that breaks the comment's promise: a READ that is pending when the mask changes to WRITE
      is delivered although it is no longer wanted. */
  lemma SetKeepsUnwantedExample(f: FdEvent) returns (ops: seq<Op>, t: seq<Loop>)
    ensures Run(ops, t) && |t| == 6 && f in t[5].fdes
    ensures t[5].fdes[f].mask == FDE_WRITE && t[5].log == [Installed(f), Dispatched(f, FDE_READ)]
  {
    var s1, s2 := ExampleWanted(f);
    var s3, s4 := ExamplePending(f, s2);
    var s5 := DispatchFn(s4);
    ops := [Install(f, 0), Set(f, FDE_READ), Process({0}, {}, {}), Set(f, FDE_WRITE), Dispatch];
    t := [EmptyLoop, s1, s2, s3, s4, s5];
    assert Step(s4, Dispatch, s5);
    assert Step(t[0], ops[0], t[1]) && Step(t[1], ops[1], t[2]) && Step(t[2], ops[2], t[3]);
    assert Step(t[3], ops[3], t[4]) && Step(t[4], ops[4], t[5]);
  }

  /** The registered descriptors below `n` that are in `bad`. */
  function Dead(table: seq<FdEvent?>, n: int, bad: set<int>): set<int>
    requires n <= |table|
  {
    set i | i in bad && 0 <= i < n && table[i] != null
  }

  // ---- the source's procedures ----

  /** The outcome of one call of select(). */
  datatype SelectResult = Ready(r: set<int>, w: set<int>, x: set<int>) | Interrupted | BadDescriptor | OtherError

  class FdLoop {
    const pending: PendingList
    var table: seq<FdEvent?>
    var selectN: int
    var readFds: set<int>
    var writeFds: set<int>
    var errorFds: set<int>
    var closed: seq<int>
    ghost var known: set<FdEvent>
    ghost var log: seq<Entry>

    ghost function View(): Loop
      reads this, pending, known
    {
      Loop(map f | f in known :: f.st, pending.nodes, table, selectN, readFds, writeFds, errorFds, closed, log)
    }

    /** The list is well formed and holds known fdevents; with `Inv(View())`, which every operation
        keeps, this is the whole invariant of the loop. */
    ghost predicate Linked()
      reads this`known, pending, pending.head`next, pending.head`prev, pending.nodes`next, pending.nodes`prev
    {
      && pending.Valid() && pending.head !in known
      && forall i :: 0 <= i < |pending.nodes| ==> pending.nodes[i] in known
    }

    /** What `Inv` says about one fdevent. */
    ghost predicate Consistent(f: FdEvent)
      reads this, pending, f
    {
      && (f.st.pending ==> f in pending.nodes)
      && 0 <= selectN <= |table|
      && (f.st.active ==> 0 <= f.st.fd < |table| && table[f.st.fd] == f)
    }

    constructor ()
      ensures Linked() && View() == EmptyLoop
      ensures fresh(pending) && fresh(pending.head)
    {
      pending := new PendingList();
      table, selectN, closed := [], 0, [];
      readFds, writeFds, errorFds := {}, {}, {};
      known, log := {}, [];
    }

    /** `fdevent_install`. The caller owns `f`, which is not installed, and the descriptor has no
        other fdevent; `ok` is false where the source aborts on a bad descriptor. */
    method Install(f: FdEvent, fd: int) returns (ok: bool)
      requires Linked() && f != pending.head && f !in pending.nodes
      requires |table| == 0 || |table| >= 256
      modifies this, f
      ensures Linked()
      ensures ok <==> 0 <= fd && (fd < |old(table)| || fd <= 32000)
      ensures View() == if ok then InstallFn(old(View()), f, fd) else old(View())
    {
      if fd < 0 || (fd >= |table| && fd > 32000) {
        return false;
      }
      ghost var s := View();
      Adopt(f, fd);
      Register(f, fd);
      if fd >= selectN {
        selectN := fd + 1;
      }
      log := log + [Installed(f)];
      assert View().fdes == s.fdes[f := f.st];
      ok := true;
    }

    /** The memset of `fdevent_install` and the fields it fills in. */
    method Adopt(f: FdEvent, fd: int)
      requires Linked() && f != pending.head && f !in pending.nodes
      modifies this`known, f
      ensures Linked() && known == old(known) + {f} && f.st == Fde(fd, 0, true, false, 0)
    {
      f.next, f.prev := null, null;
      f.st := Fde(fd, 0, true, false, 0);
      known := known + {f};
    }

    /** `fdevent_register`, when it does not abort: grow by doubling from 256, then fill the slot. */
    method Register(f: FdEvent, fd: int)
      requires 0 <= fd && (|table| == 0 || |table| >= 256)
      modifies this`table
      ensures table == InstallFn(EmptyLoop.(table := old(table)), f, fd).table
    {
      ghost var s := EmptyLoop.(table := table);
      var max := |table|;
      if fd >= max {
        if max == 0 {
          max := 256;
        }
        while max <= fd
          invariant max >= 256 && max >= |table|
          invariant Grow(max, fd) == Slots(s, fd)
          decreases fd - max
        {
          max := max * 2;
        }
        table := table + seq(max - |table|, _ => null);
      } else {
        assert table + seq(0, _ => null) == table;
      }
      table := table[fd := f];
    }

    /** `fdevent_plist_remove` on a listed fdevent. */
    method Unlist(f: FdEvent)
      requires Linked() && f in pending.nodes
      modifies pending`nodes, pending.head`next, pending.head`prev, known`next, known`prev
      ensures Linked() && pending.nodes == Without(old(pending.nodes), f)
    {
      ghost var k :| 0 <= k < |pending.nodes| && pending.nodes[k] == f;
      WithoutAt(pending.nodes, f, k);
      pending.Remove(f, k);
    }

    /** `fdevent_disconnect`. */
    method Disconnect(f: FdEvent)
      requires 0 <= selectN <= |table|
      modifies this`readFds, this`writeFds, this`errorFds, this`selectN
      ensures readFds == old(readFds) - {f.st.fd} && writeFds == old(writeFds) - {f.st.fd} && errorFds == old(errorFds) - {f.st.fd}
      ensures selectN == Highest(table, old(selectN)) + 1
    {
      readFds := readFds - {f.st.fd};
      writeFds := writeFds - {f.st.fd};
      errorFds := errorFds - {f.st.fd};
      var n, i := 0, 0;
      while i < selectN
        invariant 0 <= i <= selectN && selectN == old(selectN)
        invariant n == Highest(table, i)
      {
        if table[i] != null {
          n := i;
        }
        i := i + 1;
      }
      selectN := n + 1;
    }

    /** `fdevent_remove`; the two aborts of `fdevent_unregister` are unreachable. */
    method Remove(f: FdEvent)
      requires Linked() && f in known && Consistent(f)
      modifies this`table, this`selectN, this`readFds, this`writeFds, this`errorFds, this`closed, this`log
      modifies pending`nodes, pending.head`next, pending.head`prev, known`next, known`prev, f`st
      ensures Linked()
      ensures View() == RemoveFn(old(View()), f)
    {
      Withdraw(f);
      Retire(f);
    }

    method Withdraw(f: FdEvent)
      requires Linked() && f in known && Consistent(f)
      modifies this`table, this`selectN, this`readFds, this`writeFds, this`errorFds, this`closed
      modifies pending`nodes, pending.head`next, pending.head`prev, known`next, known`prev
      ensures Linked()
      ensures View() == Withdrawn(old(View()), f)
    {
      ghost var s := View();
      if f.st.pending {
        Unlist(f);
      }
      if f.st.active {
        Detach(f);
      }
      assert View().fdes == s.fdes;
    }

    /** The end of `fdevent_remove`: the state and the pending events are cleared. */
    method Retire(f: FdEvent)
      requires Linked() && f in known
      modifies this`log, f`st
      ensures Linked()
      ensures
        var s := old(View());
        View() == s.(fdes := s.fdes[f := s.fdes[f].(mask := 0, active := false, pending := false, events := 0)],
                     log := s.log + [Removed(f)])
    {
      ghost var s := View();
      f.st := f.st.(mask := 0, active := false, pending := false, events := 0);
      log := log + [Removed(f)];
      assert View().fdes == s.fdes[f := f.st];
    }

    /** `fdevent_disconnect`, then `fdevent_unregister`. */
    method Detach(f: FdEvent)
      requires 0 <= selectN <= |table| && 0 <= f.st.fd < |table| && table[f.st.fd] == f
      modifies this`table, this`selectN, this`readFds, this`writeFds, this`errorFds, this`closed
      ensures
        var fd := f.st.fd;
        && readFds == old(readFds) - {fd} && writeFds == old(writeFds) - {fd} && errorFds == old(errorFds) - {fd}
        && selectN == Highest(old(table), old(selectN)) + 1
        && table == old(table)[fd := null]
        && closed == old(closed) + if f.st.mask & FDE_DONT_CLOSE == 0 then [fd] else []
    {
      Disconnect(f);
      Unregister(f);
    }

    /** `fdevent_unregister`; its two aborts are the preconditions. */
    method Unregister(f: FdEvent)
      requires 0 <= f.st.fd < |table| && table[f.st.fd] == f
      modifies this`table, this`closed
      ensures table == old(table)[f.st.fd := null]
      ensures closed == old(closed) + if f.st.mask & FDE_DONT_CLOSE == 0 then [f.st.fd] else []
    {
      table := table[f.st.fd := null];
      if f.st.mask & FDE_DONT_CLOSE == 0 {
        closed := closed + [f.st.fd];
      }
    }

    /** `fdevent_update`. */
    method UpdateFds(fd: int, mask: bv8)
      modifies this`readFds, this`writeFds, this`errorFds
      ensures readFds == SetBit(old(readFds), fd, mask & FDE_READ != 0)
      ensures writeFds == SetBit(old(writeFds), fd, mask & FDE_WRITE != 0)
      ensures errorFds == SetBit(old(errorFds), fd, mask & FDE_ERROR != 0)
    {
      readFds := SetBit(readFds, fd, mask & FDE_READ != 0);
      writeFds := SetBit(writeFds, fd, mask & FDE_WRITE != 0);
      errorFds := SetBit(errorFds, fd, mask & FDE_ERROR != 0);
    }

    /** The second half of `fdevent_set`: the new mask, and the pending events it clears. */
    method SetMask(f: FdEvent, mask: bv8)
      requires Linked() && f in known && (f.st.pending ==> f in pending.nodes)
      modifies pending`nodes, pending.head`next, pending.head`prev, known`next, known`prev, f`st
      ensures Linked() && f.st == Masked(old(f.st), mask)
      ensures pending.nodes == if old(f.st.pending) && !f.st.pending then Without(old(pending.nodes), f) else old(pending.nodes)
    {
      f.st := f.st.(mask := mask);
      if f.st.pending {
        f.st := f.st.(events := f.st.events & !mask);
        if f.st.events == 0 {
          Unlist(f);
          f.st := f.st.(pending := false);
        }
      }
    }

    /** `fdevent_set`. */
    method Set(f: FdEvent, mask: bv8)
      requires Linked() && f in known && Consistent(f)
      modifies this`readFds, this`writeFds, this`errorFds
      modifies pending`nodes, pending.head`next, pending.head`prev, known`next, known`prev, f`st
      ensures Linked()
      ensures View() == SetFn(old(View()), f, mask)
    {
      ghost var s := View();
      if f.st.mask != mask {
        if f.st.active {
          UpdateFds(f.st.fd, mask);
        }
        SetMask(f, mask);
        assert View().fdes == s.fdes[f := f.st];
      }
    }

    /** `fdevent_add`. */
    method Add(f: FdEvent, events: bv8)
      requires Linked() && f in known && Consistent(f)
      modifies this`readFds, this`writeFds, this`errorFds
      modifies pending`nodes, pending.head`next, pending.head`prev, known`next, known`prev, f`st
      ensures Linked() && View() == SetFn(old(View()), f, NewMask(old(View()), Op.Add(f, events)))
    {
      Set(f, f.st.mask | events);
    }

    /** `fdevent_del`. */
    method Del(f: FdEvent, events: bv8)
      requires Linked() && f in known && Consistent(f)
      modifies this`readFds, this`writeFds, this`errorFds
      modifies pending`nodes, pending.head`next, pending.head`prev, known`next, known`prev, f`st
      ensures Linked() && View() == SetFn(old(View()), f, NewMask(old(View()), Op.Del(f, events)))
    {
      Set(f, f.st.mask & !events);
    }

    /** The dequeue in `fdevent_loop` and `fdevent_call_fdfunc` up to the callback. */
    method Dispatch() returns (f: FdEvent?, events: bv8)
      requires Linked()
      modifies this`log, pending`nodes, pending.head`next, pending.head`prev, known
      ensures Linked() && known == old(known)
      ensures View() == DispatchFn(old(View()))
      ensures f == null <==> old(pending.nodes) == []
      ensures f != null ==> f == old(pending.nodes)[0] && f in known && events == old(View()).fdes[f].events
    {
      ghost var s := View();
      events := 0;
      f := pending.Dequeue();
      if f != null {
        assert s.nodes[0] == f && s.fdes[f] == f.st && pending.nodes == s.nodes[1..];
        events := f.st.events;
        f.st := f.st.(events := 0, pending := false);
        log := log + [Dispatched(f, events)];
        assert View().fdes == s.fdes[f := f.st];
      }
    }

    /** One ready descriptor in `fdevent_process`. The source aborts when it has no fdevent. */
    method FireOne(i: int, ev: bv8)
      requires Linked() && ev != 0
      requires 0 <= i < |table| && table[i] != null && table[i] in known
      requires !table[i].st.pending ==> table[i] !in pending.nodes
      modifies pending`nodes, pending.head`next, pending.head`prev, known
      ensures Linked() && View() == Fire(old(View()), i, ev)
    {
      ghost var s := View();
      var f: FdEvent := table[i];
      f.st := f.st.(events := f.st.events | ev);
      if !f.st.pending {
        f.st := f.st.(pending := true);
        pending.Enqueue(f);
      }
      assert View().fdes == s.fdes[f := f.st];
    }

    /** `fdevent_fd_check`: the registered descriptors that fcntl() says are bad. */
    method FdCheck(bad: set<int>) returns (fds: set<int>, n: nat)
      requires 0 <= selectN <= |table|
      ensures fds == Dead(table, selectN, bad) && n == |fds|
    {
      fds, n := {}, 0;
      for i := 0 to selectN
        invariant fds == Dead(table, i, bad) && n == |fds|
      {
        assert Dead(table, i + 1, bad) == Dead(table, i, bad) + if table[i] != null && i in bad then {i} else {};
        if table[i] != null && i in bad {
          fds := fds + {i};
          n := n + 1;
        }
      }
    }

    /** Descriptor `i` of the scan; `bits` is how many of its ready bits were used up. */
    method ScanOne(r: set<int>, w: set<int>, x: set<int>, i: nat, ghost s: Loop) returns (bits: nat)
      requires Linked() && Inv(s) && i < |s.table| && View() == ProcessFn(s, r, w, x, i)
      requires i in r || i in w || i in x ==> s.table[i] != null
      modifies pending`nodes, pending.head`next, pending.head`prev, known
      ensures Linked() && View() == ProcessFn(s, r, w, x, i + 1)
      ensures bits == (if i in r then 1 else 0) + (if i in w then 1 else 0) + (if i in x then 1 else 0)
    {
      var ev: bv8 := 0;
      bits := 0;
      if i in r { ev, bits := ev | FDE_READ, bits + 1; }
      if i in w { ev, bits := ev | FDE_WRITE, bits + 1; }
      if i in x { ev, bits := ev | FDE_ERROR, bits + 1; }
      assert ev == ReadyBits(r, w, x, i);
      ScanReady(s, r, w, x, i);
      if ev != 0 {
        FireOne(i, ev);
      }
    }

    /** The scan at the end of `fdevent_process`, which stops after `n` ready bits: the result is
        that of a scan over every descriptor. */
    method Scan(r: set<int>, w: set<int>, x: set<int>, count: nat)
      requires Linked() && Inv(View()) && count == |r| + |w| + |x|
      requires forall i :: i in r || i in w || i in x ==> 0 <= i < selectN && table[i] != null
      modifies pending`nodes, pending.head`next, pending.head`prev, known
      ensures Linked() && View() == ProcessFn(old(View()), r, w, x, selectN)
    {
      ghost var s := View();
      CountAll(r);
      CountAll(w);
      CountAll(x);
      var n: int := count;
      var i := 0;
      while i < selectN && n > 0
        invariant 0 <= i <= selectN && Linked() && View() == ProcessFn(s, r, w, x, i)
        invariant n == CountFrom(r, i) + CountFrom(w, i) + CountFrom(x, i)
      {
        CountStep(r, i);
        CountStep(w, i);
        CountStep(x, i);
        var bits := ScanOne(r, w, x, i, s);
        n := n - bits;
        i := i + 1;
      }
      if i < selectN {
        CountZero(r, i);
        CountZero(w, i);
        CountZero(x, i);
        ProcessIdle(s, r, w, x, i, selectN);
      }
    }

    /** `fdevent_process`; `sel` and `bad` are what select() and fcntl() answer. */
    method Process(sel: SelectResult, bad: set<int>)
      requires Linked() && Inv(View())
      requires sel.Ready? ==> sel.r <= readFds && sel.w <= writeFds && sel.x <= errorFds
      modifies pending`nodes, pending.head`next, pending.head`prev, known
      ensures Linked()
      ensures Processed(old(View()), View(), sel, bad)
    {
      if sel.Interrupted? || sel.OtherError? {
        return;
      }
      ghost var s := View();
      var r, w, x := {}, {}, {};
      if sel.Ready? {
        r, w, x := sel.r, sel.w, sel.x;
      }
      var n := |r| + |w| + |x|;
      if n == 0 {
        r, n := FdCheck(bad);
        assert w == {} && x == {};
      }
      ReadyRegistered(s, sel, bad, r, w, x);
      Scan(r, w, x, n);
      ProcessedBy(s, View(), sel, bad, r, w, x);
    }
  }

  /** What a round leaves, for every answer of select(). */
  ghost predicate Processed(s: Loop, s': Loop, sel: SelectResult, bad: set<int>)
    requires 0 <= s.selectN <= |s.table|
  {
    if sel.Interrupted? || sel.OtherError? then s' == s
    else if sel.Ready? && sel.r + sel.w + sel.x != {} then
      && s' == ProcessFn(s, sel.r, sel.w, sel.x, s.selectN)
      && Inv(s') && SameShape(s, s') && AllDelivered(s, s', sel.r, sel.w, sel.x)
    else
      && s' == ProcessFn(s, Dead(s.table, s.selectN, bad), {}, {}, s.selectN)
      && Inv(s') && SameShape(s, s') && AllDelivered(s, s', bad, {}, {})
  }

  /** The sets that the scan works on: those of select(), or the bad descriptors. */
  ghost predicate Scanned(s: Loop, sel: SelectResult, bad: set<int>, r: set<int>, w: set<int>, x: set<int>)
    requires s.selectN <= |s.table|
  {
    if sel.Ready? && sel.r + sel.w + sel.x != {} then r == sel.r && w == sel.w && x == sel.x
    else r == Dead(s.table, s.selectN, bad) && w == {} && x == {}
  }

  lemma ReadyRegistered(s: Loop, sel: SelectResult, bad: set<int>, r: set<int>, w: set<int>, x: set<int>)
    requires Inv(s) && Scanned(s, sel, bad, r, w, x)
    requires sel.Ready? ==> sel.r <= s.readFds && sel.w <= s.writeFds && sel.x <= s.errorFds
    ensures forall i :: i in r || i in w || i in x ==> 0 <= i < s.selectN && s.table[i] != null
  {
    assert forall i :: i in s.readFds <==> Wants(s, i, FDE_READ);
    assert forall i :: i in s.writeFds <==> Wants(s, i, FDE_WRITE);
    assert forall i :: i in s.errorFds <==> Wants(s, i, FDE_ERROR);
  }

  lemma ProcessedBy(s: Loop, s': Loop, sel: SelectResult, bad: set<int>, r: set<int>, w: set<int>, x: set<int>)
    requires Inv(s) && !sel.Interrupted? && !sel.OtherError? && Scanned(s, sel, bad, r, w, x)
    requires s' == ProcessFn(s, r, w, x, s.selectN)
    ensures Processed(s, s', sel, bad)
  {
    ProcessEffect(s, r, w, x);
    if !(sel.Ready? && sel.r + sel.w + sel.x != {}) {
      DeadDelivered(s, s', bad);
    }
  }

  /** Before descriptor `i` is scanned its fdevent is still as the scan found it. */
  lemma ScanReady(s: Loop, r: set<int>, w: set<int>, x: set<int>, i: nat)
    requires Inv(s) && i < |s.table|
    ensures
      var s1 := ProcessFn(s, r, w, x, i);
      && Inv(s1) && s1.table == s.table
      && (ReadyBits(r, w, x, i) != 0 <==> i in r || i in w || i in x)
      && ProcessFn(s, r, w, x, i + 1) == Fire(s1, i, ReadyBits(r, w, x, i))
  {
    ProcessFired(s, r, w, x, i);
  }
}
