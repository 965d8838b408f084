/** The Win32 event looper: a singly linked list of hooks, one per watched descriptor, and the pool
    that recycles them. */
module HookLooper {
  import opened Lists

  /** The fields of `EventHookRec` that the looper's own logic uses. */
  datatype Entry = Entry(fh: int, wanted: bv8)

  class Hook {
    var next: Hook?
    var e: Entry

    constructor (e: Entry)
      ensures next == null && this.e == e
    {
      next, this.e := null, e;
    }
  }

  ghost function NodeAt(s: seq<Hook>, i: int): Hook? {
    if 0 <= i < |s| then s[i] else null
  }

  /** `s` is the chain of hooks that starts at `head`. */
  ghost predicate Chain(head: Hook?, s: seq<Hook>)
    reads s`next
  {
    && NoDup(s) && head == NodeAt(s, 0)
    && forall i, j :: 0 <= i < |s| && j == i + 1 ==> s[i].next == NodeAt(s, j)
  }

  ghost predicate Has(es: seq<Entry>, fd: int) {
    exists i :: 0 <= i < |es| && es[i].fh == fd
  }

  /** There is exactly one hook for each watched descriptor, it wants the watched events, and there
      are no other hooks. */
  ghost predicate Agree(es: seq<Entry>, m: map<int, bv8>) {
    && (forall i, j :: 0 <= i < j < |es| ==> es[i].fh != es[j].fh)
    && (forall i :: 0 <= i < |es| ==> es[i].fh in m && m[es[i].fh] == es[i].wanted != 0)
    && (forall fd :: fd in m ==> Has(es, fd))
  }

  /** The update of `wanted` in `event_looper_hook`. */
  function Widen(wanted: bv8, ev: bv8): (w: bv8)
    ensures w == wanted | ev
  {
    if wanted & ev != ev then wanted | ev else wanted
  }

  /** The update of `wanted` in `event_looper_unhook`. */
  function Narrow(wanted: bv8, ev: bv8): (w: bv8)
    ensures w == wanted & !ev
  {
    wanted & !(ev & wanted)
  }

  lemma AgreeAppend(es: seq<Entry>, m: map<int, bv8>, fd: int, ev: bv8)
    requires Agree(es, m) && !Has(es, fd) && ev != 0
    ensures fd !in m && Agree(es + [Entry(fd, ev)], Hooked(m, fd, ev))
  {
    var es', m' := es + [Entry(fd, ev)], Hooked(m, fd, ev);
    assert es'[|es|] == Entry(fd, ev);
    forall x | x in m'
      ensures Has(es', x)
    {
      if x != fd {
        assert Has(es, x);
        var i :| 0 <= i < |es| && es[i].fh == x;
        assert es'[i].fh == x;
      }
    }
  }

  lemma AgreeUpdate(es: seq<Entry>, m: map<int, bv8>, k: nat, wanted: bv8)
    requires Agree(es, m) && k < |es| && wanted != 0
    ensures Agree(es[k := Entry(es[k].fh, wanted)], m[es[k].fh := wanted])
  {
    var es' := es[k := Entry(es[k].fh, wanted)];
    forall x | x in m[es[k].fh := wanted]
      ensures Has(es', x)
    {
      assert Has(es, x);
      var i :| 0 <= i < |es| && es[i].fh == x;
      assert es'[i].fh == x;
    }
  }

  lemma AgreeRemove(es: seq<Entry>, m: map<int, bv8>, k: nat)
    requires Agree(es, m) && k < |es|
    ensures Agree(es[..k] + es[k + 1..], m - {es[k].fh})
  {
    var es' := es[..k] + es[k + 1..];
    forall x | x in m - {es[k].fh}
      ensures Has(es', x)
    {
      assert Has(es, x);
      var i :| 0 <= i < |es| && es[i].fh == x;
      assert es'[if i < k then i else i - 1].fh == x;
    }
  }

  // ---- what hooking and unhooking mean for the watched events ----

  function Get(m: map<int, bv8>, fd: int): bv8 {
    if fd in m then m[fd] else 0
  }

  /** A map entry as an event mask: no entry for the empty mask. */
  function Put(m: map<int, bv8>, fd: int, e: bv8): map<int, bv8> {
    if e == 0 then m - {fd} else m[fd := e]
  }

  function Hooked(m: map<int, bv8>, fd: int, ev: bv8): map<int, bv8> {
    m[fd := Get(m, fd) | ev]
  }

  function Unhooked(m: map<int, bv8>, fd: int, ev: bv8): map<int, bv8> {
    if fd !in m then m else Put(m, fd, m[fd] & !ev)
  }

  class Looper {
    var hooks: Hook?
    var freeHooks: Hook?
    ghost var list: seq<Hook>
    ghost var pool: seq<Hook>
    ghost var entries: seq<Entry>
    ghost var watch: map<int, bv8>

    /** Every allocated hook is on exactly one of the two chains, and on it once. */
    ghost predicate Linked()
      reads this`hooks, this`freeHooks, this`list, this`pool, list`next, pool`next
    {
      && Chain(hooks, list) && Chain(freeHooks, pool)
      && (forall i, j :: 0 <= i < |list| && 0 <= j < |pool| ==> list[i] != pool[j])
    }

    /** All the hooks ever allocated: no operation loses one. */
    ghost function Hooks(): set<Hook>
      reads this`list, this`pool
    {
      (set h | h in list) + (set h | h in pool)
    }

    /** `entries` are the hooks of the list, as values. */
    ghost predicate Mirrors()
      reads this`list, this`entries, list`e
    {
      |entries| == |list| && forall i :: 0 <= i < |list| ==> list[i].e == entries[i]
    }

    ghost predicate Valid()
      reads this, list`next, pool`next, list`e
    {
      Linked() && Mirrors() && Agree(entries, watch)
    }

    constructor ()
      ensures Valid() && list == [] && pool == [] && watch == map[]
    {
      hooks, freeHooks, list, pool, entries, watch := null, null, [], [], [], map[];
    }

    /** `event_looper_find_p`: the hook of `fh`, or null, and the hook before it. */
    method Find(fh: int) returns (prev: Hook?, node: Hook?, ghost k: nat)
      requires Linked()
      ensures k <= |list| && node == NodeAt(list, k) && prev == NodeAt(list, k - 1)
      ensures k < |list| ==> list[k].e.fh == fh
      ensures forall i :: 0 <= i < k ==> list[i].e.fh != fh
    {
      prev, node, k := null, hooks, 0;
      while node != null && node.e.fh != fh
        invariant k <= |list| && node == NodeAt(list, k) && prev == NodeAt(list, k - 1)
        invariant forall i :: 0 <= i < k ==> list[i].e.fh != fh
        decreases |list| - k
      {
        assert list[k].next == NodeAt(list, k + 1);
        prev, node, k := node, node.next, k + 1;
      }
    }

    /** `event_hook_alloc`: take a hook from the pool, or make a new one. */
    method Alloc(fh: int) returns (hook: Hook)
      requires Linked()
      modifies this`freeHooks, this`pool, (if freeHooks != null then {freeHooks} else {})
      ensures Linked() && hook !in list && hook !in pool
      ensures old(pool) == [] ==> fresh(hook) && pool == []
      ensures old(pool) != [] ==> old(pool) == [hook] + pool
      ensures hook.next == null && hook.e == Entry(fh, 0)
    {
      if freeHooks != null {
        hook := freeHooks;
        assert pool[0].next == NodeAt(pool, 1);
        freeHooks := hook.next;
        pool := pool[1..];
        assert forall i :: 0 <= i <= |pool| ==> NodeAt(pool, i) == NodeAt(old(pool), i + 1);
      } else {
        hook := new Hook(Entry(fh, 0));
      }
      hook.next, hook.e := null, Entry(fh, 0);
    }

    /** The insertion in `event_looper_hook`: the new hook goes where the search ended, at the tail. */
    method Append(prev: Hook?, hook: Hook)
      requires Linked() && hook !in list && hook !in pool && hook.next == null
      requires prev == NodeAt(list, |list| - 1)
      modifies this`hooks, this`list, list`next
      ensures Linked() && list == old(list) + [hook]
    {
      if prev == null {
        hooks := hook;
      } else {
        prev.next := hook;
      }
      list := list + [hook];
      assert forall i :: 0 <= i < |old(list)| ==> NodeAt(list, i) == NodeAt(old(list), i);
    }

    /** The removal in `event_looper_unhook` and `event_hook_free`. */
    method Release(prev: Hook?, node: Hook, ghost k: nat)
      requires Linked() && k < |list| && node == list[k] && prev == NodeAt(list, k - 1)
      modifies this`hooks, this`list, this`freeHooks, this`pool, list`next, node
      ensures Linked()
      ensures list == old(list)[..k] + old(list)[k + 1..] && pool == [node] + old(pool)
    {
      assert list[k].next == NodeAt(list, k + 1);
      if prev == null {
        hooks := node.next;
      } else {
        prev.next := node.next;
      }
      list := list[..k] + list[k + 1..];
      assert forall i :: 0 <= i < k ==> NodeAt(list, i) == NodeAt(old(list), i);
      assert forall i :: k <= i <= |list| ==> NodeAt(list, i) == NodeAt(old(list), i + 1);
      node.e := Entry(0, 0);
      node.next := freeHooks;
      freeHooks := node;
      pool := [node] + pool;
      assert forall i :: 0 < i <= |pool| ==> NodeAt(pool, i) == NodeAt(old(pool), i - 1);
    }

    /** A new hook for `fd`, which wants `events`, at the tail of the list. */
    method AddHook(prev: Hook?, fd: int, events: bv8)
      requires Linked() && Mirrors() && prev == NodeAt(list, |list| - 1)
      modifies this`hooks, this`freeHooks, this`list, this`pool, this`entries, list`next, pool
      ensures Linked() && Mirrors() && entries == old(entries) + [Entry(fd, events)]
      ensures old(Hooks()) <= Hooks() && fresh(Hooks() - old(Hooks()))
    {
      var hook := Alloc(fd);
      assert Mirrors();
      hook.e := Entry(fd, Widen(hook.e.wanted, events));
      assert hook.e == Entry(fd, events);
      Append(prev, hook);
      entries := entries + [hook.e];
    }

    method SetWanted(node: Hook, wanted: bv8, ghost k: nat)
      requires Linked() && Mirrors() && k < |list| && node == list[k]
      modifies this`entries, node`e
      ensures Linked() && Mirrors() && entries == old(entries)[k := Entry(old(entries)[k].fh, wanted)]
    {
      node.e := node.e.(wanted := wanted);
      entries := entries[k := node.e];
    }

    method DropHook(prev: Hook?, node: Hook, ghost k: nat)
      requires Linked() && Mirrors() && k < |list| && node == list[k] && prev == NodeAt(list, k - 1)
      modifies this`hooks, this`list, this`freeHooks, this`pool, this`entries, list`next, node
      ensures Linked() && Mirrors() && entries == old(entries)[..k] + old(entries)[k + 1..]
      ensures Hooks() == old(Hooks())
    {
      Release(prev, node, k);
      entries := entries[..k] + entries[k + 1..];
    }

    /** The list part of `event_looper_hook`. */
    method HookEntry(fd: int, events: bv8) returns (ghost k: nat)
      requires Linked() && Mirrors()
      modifies this`hooks, this`freeHooks, this`list, this`pool, this`entries, list, pool
      ensures Linked() && Mirrors() && k <= |old(entries)|
      ensures old(Hooks()) <= Hooks() && fresh(Hooks() - old(Hooks()))
      ensures forall i :: 0 <= i < k ==> old(entries)[i].fh != fd
      ensures k == |old(entries)| ==> entries == old(entries) + [Entry(fd, events)]
      ensures k < |old(entries)| ==>
        old(entries)[k].fh == fd && entries == old(entries)[k := Entry(fd, old(entries)[k].wanted | events)]
    {
      var prev, node;
      prev, node, k := Find(fd);
      assert forall i :: 0 <= i < k ==> entries[i] == list[i].e;
      if node == null {
        AddHook(prev, fd, events);
      } else {
        assert node.e == entries[k];
        SetWanted(node, Widen(node.e.wanted, events), k);
      }
    }

    /** `event_looper_hook` on an open descriptor. */
    method HookFd(fd: int, events: bv8)
      requires Valid() && events != 0
      modifies this, Hooks()
      ensures Valid() && watch == Hooked(old(watch), fd, events)
      ensures old(Hooks()) <= Hooks() && fresh(Hooks() - old(Hooks()))
    {
      ghost var es := entries;
      ghost var k := HookEntry(fd, events);
      if k < |es| {
        AgreeHook(es, watch, k, events);
      } else {
        AgreeAppend(es, watch, fd, events);
      }
      watch := Hooked(watch, fd, events);
      assert Agree(entries, watch);
    }

    /** The list part of `event_looper_unhook`. */
    method UnhookEntry(fd: int, events: bv8) returns (ghost k: nat)
      requires Linked() && Mirrors()
      modifies this`hooks, this`freeHooks, this`list, this`pool, this`entries, list, pool
      ensures Linked() && Mirrors() && k <= |old(entries)| && Hooks() == old(Hooks())
      ensures forall i :: 0 <= i < k ==> old(entries)[i].fh != fd
      ensures k == |old(entries)| ==> entries == old(entries)
      ensures k < |old(entries)| ==>
        var e := old(entries)[k];
        e.fh == fd && (e.wanted != 0 ==> entries == Shrunk(old(entries), k, e.wanted & !events))
    {
      var prev, node;
      prev, node, k := Find(fd);
      assert forall i :: 0 <= i < k ==> entries[i] == list[i].e;
      if node != null {
        assert node.e == entries[k];
        var left := Narrow(node.e.wanted, events);
        if left == node.e.wanted {
          return;
        }
        if left == 0 {
          DropHook(prev, node, k);
        } else {
          SetWanted(node, left, k);
        }
      }
    }

    /** `event_looper_unhook`. */
    method Unhook(fd: int, events: bv8)
      requires Valid()
      modifies this, Hooks()
      ensures Valid() && watch == Unhooked(old(watch), fd, events) && Hooks() == old(Hooks())
    {
      ghost var es := entries;
      ghost var k := UnhookEntry(fd, events);
      UnhookAgrees(es, entries, watch, fd, events, k);
      watch := Unhooked(watch, fd, events);
    }

    /** `fdevent_update`. */
    method Update(fd: int, e0: bv8, e1: bv8)
      requires Valid()
      modifies this, Hooks()
      ensures Valid() && watch == Updated(old(watch), fd, e0, e1)
      ensures old(Hooks()) <= Hooks() && fresh(Hooks() - old(Hooks()))
    {
      var removes, adds := e0 & !e1, e1 & !e0;
      if removes != 0 {
        Unhook(fd, removes);
      }
      if adds != 0 {
        HookFd(fd, adds);
      }
    }
  }

  /** Hooking more events on a descriptor that has its hook at `k`. */
  lemma AgreeHook(es: seq<Entry>, m: map<int, bv8>, k: nat, ev: bv8)
    requires Agree(es, m) && k < |es|
    ensures es[k].wanted | ev != 0
    ensures Agree(es[k := Entry(es[k].fh, es[k].wanted | ev)], Hooked(m, es[k].fh, ev))
  {
    assert es[k].wanted != 0;
    assert es[k].wanted | ev != 0;
    AgreeUpdate(es, m, k, es[k].wanted | ev);
    assert Hooked(m, es[k].fh, ev) == m[es[k].fh := es[k].wanted | ev];
  }

  /** The hook at `k` is left with `left`; without anything left it goes. */
  function Shrunk(es: seq<Entry>, k: nat, left: bv8): seq<Entry>
    requires k < |es|
  {
    if left == 0 then es[..k] + es[k + 1..] else es[k := Entry(es[k].fh, left)]
  }

  lemma AgreePut(es: seq<Entry>, m: map<int, bv8>, k: nat, left: bv8)
    requires Agree(es, m) && k < |es|
    ensures Agree(Shrunk(es, k, left), Put(m, es[k].fh, left))
  {
    if left == 0 {
      AgreeRemove(es, m, k);
    } else {
      AgreeUpdate(es, m, k, left);
    }
  }

  lemma UnhookAgrees(es: seq<Entry>, es': seq<Entry>, m: map<int, bv8>, fd: int, events: bv8, k: nat)
    requires Agree(es, m) && k <= |es| && forall i :: 0 <= i < k ==> es[i].fh != fd
    requires k == |es| ==> es' == es
    requires k < |es| ==> es[k].fh == fd && (es[k].wanted != 0 ==> es' == Shrunk(es, k, es[k].wanted & !events))
    ensures Agree(es', Unhooked(m, fd, events))
  {
    if k < |es| {
      AgreePut(es, m, k, es[k].wanted & !events);
    } else {
      Absent(es, m, fd);
    }
  }

  lemma Absent(es: seq<Entry>, m: map<int, bv8>, fd: int)
    requires Agree(es, m) && forall i :: 0 <= i < |es| ==> es[i].fh != fd
    ensures fd !in m
  {
    assert !Has(es, fd);
  }

  // ---- the fdevent operations on top of the looper ----

  /** The descriptors that want something, with what they want. */
  function Wanting(m: map<int, bv8>): map<int, bv8> {
    map fd | fd in m && m[fd] != 0 :: m[fd]
  }

  /** `fdevent_update`: unhook what is no longer wanted, then hook what is new. */
  function Updated(m: map<int, bv8>, fd: int, old0: bv8, new0: bv8): map<int, bv8> {
    var removes, adds := old0 & !new0, new0 & !old0;
    var m1 := if removes != 0 then Unhooked(m, fd, removes) else m;
    if adds != 0 then Hooked(m1, fd, adds) else m1
  }

  /** What the masks say after the two halves: old events that stay, then the new ones. */
  lemma MaskArithmetic(e0: bv8, e1: bv8)
    ensures e0 & !(e0 & !e1) == e0 & e1
    ensures (e0 & e1) | (e1 & !e0) == e1
    ensures e0 & !e1 == 0 && e1 & !e0 == 0 ==> e0 == e1
    ensures e0 & !e1 == 0 ==> e0 & e1 == e0
    ensures e1 & !e0 == 0 ==> e0 & e1 == e1
    ensures e0 & !e0 == 0
    ensures (0 as bv8) | (e1 & !e0) == e1 & !e0
    ensures e0 & e1 == 0 ==> e1 & !e0 == e1
    ensures e0 == 0 ==> e0 & !e1 == 0
  {
  }

  lemma PutPut(m: map<int, bv8>, fd: int, e: bv8, e': bv8)
    ensures Put(Put(m, fd, e), fd, e') == Put(m, fd, e') && Get(Put(m, fd, e), fd) == e
  {
  }

  lemma UnhookPut(m: map<int, bv8>, fd: int, e0: bv8, e1: bv8)
    requires m == Put(m, fd, e0)
    ensures (if e0 & !e1 != 0 then Unhooked(m, fd, e0 & !e1) else m) == Put(m, fd, e0 & e1)
  {
    MaskArithmetic(e0, e1);
    PutPut(m, fd, e0, e0);
  }

  lemma HookPut(m: map<int, bv8>, fd: int, e: bv8, adds: bv8)
    requires m == Put(m, fd, e)
    ensures (if adds != 0 then Hooked(m, fd, adds) else m) == Put(m, fd, e | adds)
  {
    PutPut(m, fd, e, e);
    OrZero(e, adds);
  }

  lemma OrZero(e: bv8, adds: bv8)
    ensures adds == 0 ==> e | adds == e
    ensures adds != 0 ==> e | adds != 0
  {
  }

  lemma UpdatedValue(m: map<int, bv8>, fd: int, e0: bv8, e1: bv8)
    requires m == Put(m, fd, e0)
    ensures Updated(m, fd, e0, e1) == Put(m, fd, e1)
  {
    MaskArithmetic(e0, e1);
    UnhookPut(m, fd, e0, e1);
    var m1 := Put(m, fd, e0 & e1);
    PutPut(m, fd, e0 & e1, e0 & e1);
    HookPut(m1, fd, e0 & e1, e1 & !e0);
    PutPut(m, fd, e0 & e1, e1);
  }

  datatype Op = Install(fd: int) | SetMask(fd: int, mask: bv8) | Remove(fd: int)

  /** The registered fdevents, by descriptor, after one operation. */
  function After(fds: map<int, bv8>, op: Op): map<int, bv8> {
    match op
    case Install(fd) => fds[fd := 0]
    case SetMask(fd, mask) => if fd in fds then fds[fd := mask] else fds
    case Remove(fd) => fds - {fd}
  }

  function AfterAll(fds: map<int, bv8>, ops: seq<Op>): map<int, bv8> {
    if ops == [] then fds else After(AfterAll(fds, ops[..|ops| - 1]), ops[|ops| - 1])
  }

  /** After any sequence the last operation on a descriptor decides: an install leaves it without events,
      a set with exactly the given mask, a remove takes it away; no other operation touches it. */
  lemma {:induction false} LastCounts(fds: map<int, bv8>, ops: seq<Op>, k: nat, fd: int)
    requires k < |ops| && ops[k].fd == fd && forall j :: k < j < |ops| ==> ops[j].fd != fd
    ensures
      var was, now := AfterAll(fds, ops[..k]), AfterAll(fds, ops);
      match ops[k]
      case Install(_) => fd in now && now[fd] == 0
      case SetMask(_, mask) => (fd in now <==> fd in was) && (fd in now ==> now[fd] == mask)
      case Remove(_) => fd !in now
    decreases |ops|
  {
    var n := |ops| - 1;
    if k < n {
      LastCounts(fds, ops[..n], k, fd);
      assert ops[..n][..k] == ops[..k];
    }
  }

  lemma {:induction false} UntouchedStays(fds: map<int, bv8>, ops: seq<Op>, fd: int)
    requires forall j :: 0 <= j < |ops| ==> ops[j].fd != fd
    ensures fd in AfterAll(fds, ops) <==> fd in fds
    ensures fd in fds ==> AfterAll(fds, ops)[fd] == fds[fd]
  {
    if ops != [] {
      UntouchedStays(fds, ops[..|ops| - 1], fd);
    }
  }

  lemma WantingPut(fds: map<int, bv8>, fd: int, mask: bv8)
    ensures Put(Wanting(fds), fd, mask) == Wanting(fds[fd := mask])
    ensures fd in fds ==> Wanting(fds) == Put(Wanting(fds), fd, fds[fd])
  {
  }

  class EventTable {
    const looper: Looper
    var fds: map<int, bv8>

    /** One hook for each active fdevent with a non-empty mask, wanting that mask, and no others. */
    ghost predicate Valid()
      reads this, looper, looper.list, looper.pool
    {
      looper.Valid() && looper.watch == Wanting(fds)
    }

    constructor ()
      ensures Valid() && fds == map[]
      ensures fresh(looper) && looper.list == [] && looper.pool == []
    {
      looper := new Looper();
      fds := map[];
    }

    /** `fdevent_install` on an open descriptor that has no fdevent: an empty mask hooks nothing. */
    method InstallFd(fd: int)
      requires Valid() && fd !in fds
      modifies this
      ensures Valid() && fds == After(old(fds), Install(fd))
    {
      fds := fds[fd := 0];
      assert Wanting(fds) == Wanting(old(fds));
    }

    /** `fdevent_set` on an active fdevent. */
    method SetFd(fd: int, mask: bv8)
      requires Valid() && fd in fds
      modifies this, looper, looper.Hooks()
      ensures Valid() && fds == After(old(fds), SetMask(fd, mask))
      ensures old(looper.Hooks()) <= looper.Hooks() && fresh(looper.Hooks() - old(looper.Hooks()))
    {
      var e0 := fds[fd];
      if e0 == mask {
        assert fds[fd := mask] == fds;
        return;
      }
      WantingPut(fds, fd, mask);
      UpdatedValue(looper.watch, fd, e0, mask);
      ghost var m := fds;
      looper.Update(fd, e0, mask);
      assert looper.watch == Put(Wanting(m), fd, mask);
      fds := fds[fd := mask];
    }

    /** `fdevent_remove` on an active fdevent. */
    method RemoveFd(fd: int)
      requires Valid() && fd in fds
      modifies this, looper, looper.Hooks()
      ensures Valid() && fds == After(old(fds), Remove(fd))
      ensures looper.Hooks() == old(looper.Hooks())
    {
      var events := fds[fd];
      MaskArithmetic(events, events);
      if events != 0 {
        looper.Unhook(fd, events);
      }
      fds := fds - {fd};
      assert looper.watch == Wanting(fds);
    }

    /** Any sequence of operations; those whose caller conditions fail are skipped. */
    method Perform(ops: seq<Op>)
      requires Valid() && forall i :: 0 <= i < |ops| && ops[i].Install? ==> ops[i].fd !in AfterAll(fds, ops[..i])
      modifies this, looper, looper.Hooks()
      ensures Valid() && fds == AfterAll(old(fds), ops)
      ensures old(looper.Hooks()) <= looper.Hooks() && fresh(looper.Hooks() - old(looper.Hooks()))
    {
      for k := 0 to |ops|
        invariant Valid() && fds == AfterAll(old(fds), ops[..k])
        invariant old(looper.Hooks()) <= looper.Hooks() && fresh(looper.Hooks() - old(looper.Hooks()))
      {
        assert ops[..k + 1][..k] == ops[..k];
        PerformOne(ops[k]);
      }
      assert ops[..|ops|] == ops;
    }

    method PerformOne(op: Op)
      requires Valid() && (op.Install? ==> op.fd !in fds)
      modifies this, looper, looper.Hooks()
      ensures Valid() && fds == After(old(fds), op)
      ensures old(looper.Hooks()) <= looper.Hooks() && fresh(looper.Hooks() - old(looper.Hooks()))
    {
      match op {
        case Install(fd) => InstallFd(fd);
        case SetMask(fd, mask) => if fd in fds { SetFd(fd, mask); }
        case Remove(fd) => if fd in fds { RemoveFd(fd); } else { assert fds - {fd} == fds; }
      }
    }
  }
}
