/** The smart socket: the server's side of a client connection until its first request, four
    hexadecimal digits of length and a service name, has arrived in full. */
module SmartSocket {
  import opened Bytes
  import opened SocketEngine

  const MAX_SERVICE: nat := 1024
  const BAD_HEX: uint32 := 0xffff_ffff

  // ---- hexadecimal numbers ----

  /** The value of a hexadecimal digit of either case. */
  function HexDigitValue(c: byte): Option<nat> {
    if DigitValue(c) < 16 then Some(DigitValue(c)) else None
  }

  ghost predicate AllHex(s: seq<byte>) {
    forall i :: 0 <= i < |s| ==> HexDigitValue(s[i]).Some?
  }

  function HexValue(s: seq<byte>): nat
    requires AllHex(s)
  {
    if s == [] then 0 else 16 * HexValue(s[..|s| - 1]) + HexDigitValue(s[|s| - 1]).value
  }

  function HexDigit(d: nat): byte
    requires d < 16
  {
    if d < 10 then 48 + d else 87 + d
  }

  /** The printer: `width` lower-case digits. */
  function PrintHex(n: nat, width: nat): (s: seq<byte>)
    ensures |s| == width
  {
    if width == 0 then [] else PrintHex(n / 16, width - 1) + [HexDigit(n % 16)]
  }

  function Pow16(k: nat): nat { if k == 0 then 1 else 16 * Pow16(k - 1) }

  /** A letter in lower case. */
  function Lower(c: byte): byte { if 65 <= c <= 90 then c + 32 else c }

  function LowerAll(s: seq<byte>): (r: seq<byte>)
    ensures |r| == |s| && forall i :: 0 <= i < |s| ==> r[i] == Lower(s[i])
  {
    if s == [] then [] else LowerAll(s[..|s| - 1]) + [Lower(s[|s| - 1])]
  }

  /** Reading what the printer wrote gives the number back. */
  lemma {:induction false} PrintThenRead(n: nat, width: nat)
    requires n < Pow16(width)
    ensures AllHex(PrintHex(n, width)) && HexValue(PrintHex(n, width)) == n
  {
    if width > 0 {
      PrintThenRead(n / 16, width - 1);
      var s, d := PrintHex(n, width), n % 16;
      assert s[..width - 1] == PrintHex(n / 16, width - 1);
      assert HexDigitValue(HexDigit(d)) == Some(d);
    }
  }

  lemma LowerDigit(c: byte)
    requires HexDigitValue(c).Some?
    ensures HexDigitValue(c).value < 16 && HexDigit(HexDigitValue(c).value) == Lower(c)
  {
  }

  lemma PrintDigit(n: nat, d: nat, width: nat)
    requires d < 16
    ensures PrintHex(16 * n + d, width + 1) == PrintHex(n, width) + [HexDigit(d)]
  {
    assert (16 * n + d) / 16 == n && (16 * n + d) % 16 == d;
  }

  /** Only the printed digits, up to the case of letters, are read as that number. */
  lemma {:induction false} ReadThenPrint(s: seq<byte>)
    requires AllHex(s)
    ensures HexValue(s) < Pow16(|s|) && LowerAll(s) == PrintHex(HexValue(s), |s|)
  {
    if s != [] {
      var n := |s| - 1;
      ReadThenPrint(s[..n]);
      LowerDigit(s[n]);
      PrintDigit(HexValue(s[..n]), HexDigitValue(s[n]).value, n);
    }
  }

  /** `unhex`: the number mod 2^32, or all ones when some byte is not a digit. */
  method Unhex(s: seq<byte>) returns (n: uint32)
    ensures AllHex(s) ==> n == HexValue(s) % 0x1_0000_0000
    ensures !AllHex(s) ==> n == BAD_HEX
  {
    n := 0;
    var i := 0;
    while i < |s|
      invariant 0 <= i <= |s| && AllHex(s[..i])
      invariant n == HexValue(s[..i]) % 0x1_0000_0000
    {
      var c := HexDigitValue(s[i]);
      if c.None? {
        return BAD_HEX;
      }
      ShiftIn(HexValue(s[..i]), c.value);
      assert s[..i + 1][..i] == s[..i];
      n := (n * 16 + c.value) % 0x1_0000_0000;
      i := i + 1;
    }
    assert s[..i] == s;
  }

  lemma {:induction false} AddMultiple(x: nat, k: nat)
    ensures (x + 0x1_0000_0000 * k) % 0x1_0000_0000 == x % 0x1_0000_0000
  {
    if k > 0 {
      AddMultiple(x, k - 1);
    }
  }

  lemma ShiftIn(v: nat, d: nat)
    requires d < 16
    ensures (16 * (v % 0x1_0000_0000) + d) % 0x1_0000_0000 == (16 * v + d) % 0x1_0000_0000
  {
    var q, r := v / 0x1_0000_0000, v % 0x1_0000_0000;
    AddMultiple(16 * r + d, 16 * q);
  }

  // ---- reassembly ----

  datatype Outcome = Pending | Failed | Dispatched(service: seq<byte>)

  /** The length that the first four bytes announce. */
  function Announced(s: seq<byte>): Option<nat>
    requires |s| >= 4
  {
    if !(forall i :: 0 <= i < 4 ==> HexDigitValue(s[i]).Some?) then None
    else
      assert AllHex(s[..4]);
      var n := HexValue(s[..4]);
      if 1 <= n <= MAX_SERVICE then Some(n) else None
  }

  /** What a client that has sent exactly `s` is owed. */
  function Decide(s: seq<byte>): Outcome {
    if |s| < 4 then Pending
    else
      match Announced(s)
      case None => Failed
      case Some(n) => if |s| < n + 4 then Pending else Dispatched(CString(s[4..n + 4]))
  }

  /** The first four bytes are the number `n` as the client prints it, up to the case of letters. */
  ghost predicate Announces(s: seq<byte>, n: nat) {
    |s| >= 4 && LowerAll(s[..4]) == PrintHex(n, 4)
  }

  lemma LowerSame(c: byte)
    ensures HexDigitValue(Lower(c)) == HexDigitValue(c)
  {
  }

  lemma {:induction false} LowerHex(s: seq<byte>)
    requires AllHex(LowerAll(s))
    ensures AllHex(s) && HexValue(LowerAll(s)) == HexValue(s)
  {
    if s != [] {
      var n, t := |s| - 1, LowerAll(s);
      assert t[..n] == LowerAll(s[..n]);
      LowerHex(s[..n]);
      LowerSame(s[n]);
      forall i | 0 <= i < |s|
        ensures HexDigitValue(s[i]).Some?
      {
        LowerSame(s[i]);
      }
    }
  }

  /** Exactly the lengths from 1 to 1024 are announced, each by its printed digits. */
  lemma AnnouncedIs(s: seq<byte>, n: nat)
    requires |s| >= 4 && n < 0x1_0000
    ensures Announced(s) == Some(n) <==> 1 <= n <= 1024 && Announces(s, n)
  {
    var digits := s[..4];
    assert forall i :: 0 <= i < 4 ==> digits[i] == s[i];
    if Announces(s, n) {
      assert Pow16(4) == 16 * Pow16(3) == 256 * Pow16(2) == 4096 * Pow16(1);
      PrintThenRead(n, 4);
      LowerHex(digits);
    }
    if AllHex(digits) {
      ReadThenPrint(digits);
    }
  }

  /** The decision on what a client has sent: it fails exactly when four bytes are there and announce no
      length from 1 to 1024; it dispatches exactly when they announce one and that many bytes follow, and
      then the string in them; otherwise it waits. */
  lemma DecisionMeans(s: seq<byte>)
    ensures Decide(s) == Failed <==> |s| >= 4 && forall n: nat :: 1 <= n <= 1024 ==> !Announces(s, n)
    ensures forall n: nat :: 1 <= n <= 1024 && Announces(s, n) ==>
      Decide(s) == if |s| >= n + 4 then Dispatched(CString(s[4..n + 4])) else Pending
    ensures |s| < 4 ==> Decide(s) == Pending
  {
    if |s| >= 4 {
      forall n: nat | 1 <= n <= 1024
        ensures Announced(s) == Some(n) <==> Announces(s, n)
      {
        AnnouncedIs(s, n);
      }
    }
  }

  /** More bytes never change a decision. */
  lemma DecisionStands(s: seq<byte>, more: seq<byte>)
    ensures Decide(s) != Pending ==> Decide(s + more) == Decide(s)
    ensures Decide(s) == Pending ==> |s| < MAX_SERVICE + 4
  {
    if |s| >= 4 {
      assert (s + more)[..4] == s[..4];
      assert Announced(s + more) == Announced(s) by {
        assert forall i :: 0 <= i < 4 ==> (s + more)[i] == s[i];
      }
      var a := Announced(s);
      if a.Some? && |s| >= a.value + 4 {
        assert (s + more)[4..a.value + 4] == s[4..a.value + 4];
      }
    }
  }

  class Socket {
    /** `pkt_first`: the bytes kept so far, if any packet has come. */
    var pkt: Option<seq<byte>>

    ghost predicate Valid()
      reads this
    {
      pkt.Some? ==> |pkt.value| <= MAX_PAYLOAD
    }

    constructor ()
      ensures Valid() && pkt == None
    {
      pkt := None;
    }

    /** `smart_socket_enqueue`, up to the point where the service is known. */
    method Enqueue(p: seq<byte>) returns (o: Outcome)
      requires Valid() && |p| <= MAX_PAYLOAD
      modifies this
      ensures Valid()
      ensures
        var kept := if old(pkt).Some? then old(pkt).value else [];
        if old(pkt).Some? && |kept| + |p| > MAX_PAYLOAD then o == Failed && pkt == old(pkt)
        else o == Decide(kept + p) && pkt == Some(kept + p)
    {
      if pkt.None? {
        assert [] + p == p;
        pkt := Some(p);
      } else {
        if |pkt.value| + |p| > MAX_PAYLOAD {
          return Failed;
        }
        pkt := Some(pkt.value + p);
      }
      o := Examine(pkt.value);
    }
  }

  /** The tests on the bytes gathered so far. */
  method Examine(data: seq<byte>) returns (o: Outcome)
    ensures o == Decide(data)
  {
    if |data| < 4 {
      return Pending;
    }
    var len := Unhex(data[..4]);
    LengthRead(data, len);
    if len < 1 || len > MAX_SERVICE {
      return Failed;
    }
    if len + 4 > |data| {
      return Pending;
    }
    o := Dispatched(CString(data[4..len + 4]));
  }

  /** A length in range comes out of `unhex` only for four digits. */
  lemma LengthRead(data: seq<byte>, len: uint32)
    requires |data| >= 4
    requires AllHex(data[..4]) ==> len == HexValue(data[..4]) % 0x1_0000_0000
    requires !AllHex(data[..4]) ==> len == BAD_HEX
    ensures Announced(data) == if 1 <= len <= MAX_SERVICE then Some(len) else None
  {
    var digits := data[..4];
    assert forall i :: 0 <= i < 4 ==> digits[i] == data[i];
    if AllHex(digits) {
      FourDigits(digits);
    }
  }

  lemma FourDigits(s: seq<byte>)
    requires |s| == 4 && AllHex(s)
    ensures HexValue(s) < 0x1_0000
  {
    ReadThenPrint(s);
    assert Pow16(4) == 16 * Pow16(3) == 256 * Pow16(2) == 4096 * Pow16(1);
  }

  /** Some packet after the first overflows the buffer while the request is still incomplete. */
  ghost predicate OverflowsAt(chunks: seq<seq<byte>>, i: nat) {
    && 0 < i < |chunks|
    && Decide(Flatten(chunks[..i])) == Pending
    && |Flatten(chunks[..i])| + |chunks[i]| > MAX_PAYLOAD
  }

  ghost predicate Overflows(chunks: seq<seq<byte>>) {
    exists i: nat :: OverflowsAt(chunks, i)
  }

  lemma FlattenNext(chunks: seq<seq<byte>>, i: nat)
    requires i < |chunks|
    ensures Flatten(chunks[..i + 1]) == Flatten(chunks[..i]) + chunks[i]
  {
    assert chunks[..i + 1] == chunks[..i] + [chunks[i]];
    FlattenConcat(chunks[..i], [chunks[i]]);
    FlattenOne(chunks[i]);
  }

  lemma FlattenSplit(chunks: seq<seq<byte>>, i: nat)
    requires i <= |chunks|
    ensures Flatten(chunks) == Flatten(chunks[..i]) + Flatten(chunks[i..])
  {
    assert chunks == chunks[..i] + chunks[i..];
    FlattenConcat(chunks[..i], chunks[i..]);
  }

  lemma ChunkWithin(chunks: seq<seq<byte>>, i: nat)
    requires i < |chunks|
    ensures |chunks[i]| <= |Flatten(chunks)|
  {
    FlattenNext(chunks, i);
    FlattenSplit(chunks, i + 1);
  }

  /** Nothing overflows behind a decision. */
  lemma DecidedNoOverflow(chunks: seq<seq<byte>>, n: nat)
    requires n <= |chunks| && Decide(Flatten(chunks[..n])) != Pending
    requires forall i: nat | i < n :: !OverflowsAt(chunks, i)
    ensures !Overflows(chunks)
  {
    forall i: nat | n <= i < |chunks|
      ensures !OverflowsAt(chunks, i)
    {
      FlattenSplit(chunks[..i], n);
      assert chunks[..i][..n] == chunks[..n];
      DecisionStands(Flatten(chunks[..n]), Flatten(chunks[..i][n..]));
    }
  }

  /** Packets are enqueued until one of them settles the request. However the client's bytes are cut
      up, the outcome is the one for all of them together, unless a packet overflows the buffer. */
  method Reassemble(chunks: seq<seq<byte>>) returns (o: Outcome)
    requires forall i :: 0 <= i < |chunks| ==> |chunks[i]| <= MAX_PAYLOAD
    ensures o == if Overflows(chunks) then Failed else Decide(Flatten(chunks))
  {
    var s := new Socket();
    o := Pending;
    var i := 0;
    assert Flatten(chunks[..0]) == [];
    while i < |chunks|
      invariant 0 <= i <= |chunks| && s.Valid() && o == Pending == Decide(Flatten(chunks[..i]))
      invariant s.pkt == if i == 0 then None else Some(Flatten(chunks[..i]))
      invariant forall j: nat | j < i :: !OverflowsAt(chunks, j)
    {
      o := s.Enqueue(chunks[i]);
      FlattenNext(chunks, i);
      if o != Pending {
        if !OverflowsAt(chunks, i) {
          Settled(chunks, i);
        }
        return;
      }
      i := i + 1;
    }
    assert chunks[..i] == chunks;
  }

  lemma Settled(chunks: seq<seq<byte>>, i: nat)
    requires i < |chunks| && Decide(Flatten(chunks[..i + 1])) != Pending
    requires forall j: nat | j <= i :: !OverflowsAt(chunks, j)
    ensures !Overflows(chunks) && Decide(Flatten(chunks)) == Decide(Flatten(chunks[..i + 1]))
  {
    DecidedNoOverflow(chunks, i + 1);
    FlattenSplit(chunks, i + 1);
    DecisionStands(Flatten(chunks[..i + 1]), Flatten(chunks[i + 1..]));
  }

  /** Packets of at most 3069 bytes never overflow. */
  lemma SmallPacketsFit(chunks: seq<seq<byte>>)
    requires forall i :: 0 < i < |chunks| ==> |chunks[i]| <= MAX_PAYLOAD - MAX_SERVICE - 3
    ensures !Overflows(chunks)
  {
    forall i: nat | 0 < i < |chunks|
      ensures !OverflowsAt(chunks, i)
    {
      DecisionStands(Flatten(chunks[..i]), []);
    }
  }

  /** The overflow is real: a length of one and then a full packet fail, though together they hold a
      complete request. */
  lemma OverflowExample(full: seq<byte>)
    requires |full| == MAX_PAYLOAD
    ensures var chunks := [PrintHex(1, 4), full]; Overflows(chunks) && Decide(Flatten(chunks)).Dispatched?
  {
    var head := PrintHex(1, 4);
    var chunks := [head, full];
    assert chunks[..1] == [head];
    FlattenOne(head);
    FlattenNext(chunks, 1);
    assert chunks[..2] == chunks;
    PrefixAnnounces([0], head);
    PrefixAnnounces([0], head + full);
    assert OverflowsAt(chunks, 1);
  }

  // ---- the client's request ----

  /** `_adb_connect`: what the client writes, or nothing when it refuses the name. */
  function Request(service: seq<byte>): Option<seq<byte>> {
    if |service| < 1 || |service| > MAX_SERVICE then None else Some(PrintHex(|service|, 4) + service)
  }

  /** The client writes a request exactly for names of 1 to 1024 bytes: the printed length and the name. */
  lemma RequestMeans(service: seq<byte>)
    ensures Request(service).Some? <==> 1 <= |service| <= 1024
    ensures Request(service).Some? ==>
      var s := Request(service).value;
      s == PrintHex(|service|, 4) + service && |s| == 4 + |service| && Announces(s, |service|)
  {
    if Request(service).Some? {
      var s, digits := Request(service).value, PrintHex(|service|, 4);
      assert s[..4] == digits;
      PrintedLower(|service|, 4);
    }
  }

  lemma {:induction false} PrintedLower(n: nat, width: nat)
    ensures LowerAll(PrintHex(n, width)) == PrintHex(n, width)
  {
    if width > 0 {
      PrintedLower(n / 16, width - 1);
      assert PrintHex(n, width)[..width - 1] == PrintHex(n / 16, width - 1);
    }
  }

  lemma RequestDecided(service: seq<byte>)
    requires 0 !in service && Request(service).Some?
    ensures Decide(Request(service).value) == Dispatched(service)
  {
    var s := Request(service).value;
    PrefixAnnounces(service, s);
    assert s[4..|service| + 4] == service;
  }

  lemma PrefixAnnounces(service: seq<byte>, s: seq<byte>)
    requires Request(service).Some? && |s| >= 4 && s[..4] == PrintHex(|service|, 4)
    ensures Announced(s) == Some(|service|)
  {
    assert Pow16(4) == 16 * Pow16(3) == 256 * Pow16(2) == 4096 * Pow16(1);
    PrintThenRead(|service|, 4);
    assert forall i :: 0 <= i < 4 ==> s[..4][i] == s[i];
  }

  /** A request cut into packets in any way stays pending until its last byte has come, and then
      dispatches exactly its service. */
  lemma AnySplitDispatches(service: seq<byte>, chunks: seq<seq<byte>>)
    requires 0 !in service && Request(service) == Some(Flatten(chunks))
    ensures !Overflows(chunks) && Decide(Flatten(chunks)) == Dispatched(service)
    ensures forall i :: 0 <= i <= |chunks| && |Flatten(chunks[..i])| < |Flatten(chunks)| ==> Decide(Flatten(chunks[..i])) == Pending
  {
    RequestDecided(service);
    var s := Flatten(chunks);
    forall i | 0 <= i <= |chunks| && |Flatten(chunks[..i])| < |s|
      ensures Decide(Flatten(chunks[..i])) == Pending
    {
      FlattenSplit(chunks, i);
      var front := Flatten(chunks[..i]);
      if |front| >= 4 {
        assert front[..4] == s[..4] == PrintHex(|service|, 4);
        PrefixAnnounces(service, front);
      }
    }
    forall i: nat | 0 < i < |chunks|
      ensures !OverflowsAt(chunks, i)
    {
      FlattenNext(chunks, i);
      FlattenSplit(chunks, i + 1);
    }
  }
}
