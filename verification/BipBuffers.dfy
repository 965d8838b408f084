/** The two-region circular buffer behind the emulated socketpair. */
module BipBuffers {
  import opened Bytes

  const BIP_BUFFER_SIZE := 4096

  /** Region A is `buff[aStart..aEnd]`, region B is `buff[..bEnd]`; A is read first. */
  datatype Regions = Regions(aStart: int, aEnd: int, bEnd: int, buff: seq<byte>) {

    ghost predicate Valid() {
      && |buff| == BIP_BUFFER_SIZE
      && 0 <= bEnd <= aStart <= aEnd <= BIP_BUFFER_SIZE
      && (bEnd > 0 ==> aEnd == BIP_BUFFER_SIZE)
      && (aStart == aEnd ==> aEnd == 0)
    }

    ghost function Contents(): seq<byte>
      requires Valid()
    {
      buff[aStart..aEnd] + buff[..bEnd]
    }

    /** The source's "there is room" condition. */
    predicate HasRoom() {
      bEnd < aStart || aEnd < BIP_BUFFER_SIZE
    }

    predicate HasData() {
      aStart < aEnd
    }
  }

  function Splice(buff: seq<byte>, at: int, data: seq<byte>): (r: seq<byte>)
    requires 0 <= at && at + |data| <= |buff|
    ensures |r| == |buff|
  {
    seq(|buff|, i requires 0 <= i < |buff| => if at <= i < at + |data| then data[i - at] else buff[i])
  }

  /** Append to region A, as far as the array reaches. */
  function FillA(r: Regions, src: seq<byte>): Regions
    requires r.Valid() && |src| <= BIP_BUFFER_SIZE - r.aEnd
  {
    r.(buff := Splice(r.buff, r.aEnd, src), aEnd := r.aEnd + |src|)
  }

  /** Append to region B, as far as region A. */
  function FillB(r: Regions, src: seq<byte>): Regions
    requires r.Valid() && |src| <= r.aStart - r.bEnd
  {
    r.(buff := Splice(r.buff, r.bEnd, src), bEnd := r.bEnd + |src|)
  }

  /** How many of `len` bytes `bip_buffer_write` puts in region A, and how many in region B. */
  function Split(r: Regions, len: nat): (n: (nat, nat))
    requires r.Valid()
    ensures n.0 <= BIP_BUFFER_SIZE - r.aEnd && n.1 <= r.aStart - r.bEnd && n.0 + n.1 <= len
    ensures n.1 > 0 ==> r.aEnd + n.0 == BIP_BUFFER_SIZE
    ensures n.0 + n.1 == Min(len, BIP_BUFFER_SIZE - (r.aEnd - r.aStart + r.bEnd))
  {
    var n := Min(BIP_BUFFER_SIZE - r.aEnd, len);
    if n > 0 && r.aEnd + n == BIP_BUFFER_SIZE && r.aStart == 0 then (n, 0)
    else (n, Min(r.aStart - r.bEnd, len - n))
  }

  /** The copying part of `bip_buffer_write`: fill region A, then region B. */
  function WriteRegions(r: Regions, src: seq<byte>): (Regions, int)
    requires r.Valid()
  {
    var (n, m) := Split(r, |src|);
    FillAValid(r, src[..n]);
    (FillB(FillA(r, src[..n]), src[n..n + m]), n + m)
  }

  /** The copying part of `bip_buffer_read`: drain region A, promote B to A, drain again. */
  function ReadRegions(r: Regions, len: int): (Regions, seq<byte>)
    requires r.Valid() && len >= 0
  {
    var n := Min(r.aEnd - r.aStart, len);
    var got := r.buff[r.aStart..r.aStart + n];
    if r.aStart + n < r.aEnd then (r.(aStart := r.aStart + n), got)
    else
      var r1 := r.(aStart := 0, aEnd := r.bEnd, bEnd := 0);
      var m := Min(r1.aEnd, len - n);
      if m < r1.aEnd then (r1.(aStart := m), got + r1.buff[..m])
      else (r1.(aStart := 0, aEnd := 0), got + r1.buff[..m])
  }

  /** Room and data are what the FIFO reading of the regions says they are. */
  lemma RoomAndData(r: Regions)
    requires r.Valid()
    ensures r.HasRoom() <==> |r.Contents()| < BIP_BUFFER_SIZE
    ensures r.HasData() <==> r.Contents() != []
    ensures |r.Contents()| == r.aEnd - r.aStart + r.bEnd
  {
    assert |r.Contents()| == r.aEnd - r.aStart + r.bEnd;
  }

  lemma FillAValid(r: Regions, src: seq<byte>)
    requires r.Valid() && |src| <= BIP_BUFFER_SIZE - r.aEnd
    ensures FillA(r, src).Valid()
  {
  }

  lemma FillNothing(r: Regions)
    requires r.Valid()
    ensures FillB(r, []) == r
  {
    assert Splice(r.buff, r.bEnd, []) == r.buff;
  }

  lemma FillAAppends(r: Regions, src: seq<byte>)
    requires r.Valid() && |src| <= BIP_BUFFER_SIZE - r.aEnd
    ensures FillA(r, src).Valid() && FillA(r, src).Contents() == r.Contents() + src
  {
    var r' := FillA(r, src);
    assert r'.buff[r'.aStart..r'.aEnd] == r.buff[r.aStart..r.aEnd] + src;
    if src == [] {
      assert r'.buff == r.buff;
    } else {
      assert r.buff[..r.bEnd] == [] == r'.buff[..r'.bEnd];
    }
  }

  lemma FillBAppends(r: Regions, src: seq<byte>)
    requires r.Valid() && |src| <= r.aStart - r.bEnd && (src != [] ==> r.aEnd == BIP_BUFFER_SIZE)
    ensures FillB(r, src).Valid() && FillB(r, src).Contents() == r.Contents() + src
  {
    var r' := FillB(r, src);
    assert r'.buff[r'.aStart..r'.aEnd] == r.buff[r.aStart..r.aEnd];
    assert r'.buff[..r'.bEnd] == r.buff[..r.bEnd] + src;
  }

  /** Writing appends exactly as many bytes as fit, and at least one when there is room. */
  lemma WriteAppends(r: Regions, src: seq<byte>)
    requires r.Valid() && r.HasRoom() && src != []
    ensures
      var (r', count) := WriteRegions(r, src);
      && r'.Valid()
      && count == Min(|src|, BIP_BUFFER_SIZE - |r.Contents()|) > 0
      && r'.Contents() == r.Contents() + src[..count]
  {
    var (n, m) := Split(r, |src|);
    FillAAppends(r, src[..n]);
    FillBAppends(FillA(r, src[..n]), src[n..n + m]);
    TwoParts(r.Contents(), src, n, m);
    RoomAndData(r);
  }

  lemma TwoParts(had: seq<byte>, src: seq<byte>, n: nat, m: nat)
    requires n + m <= |src|
    ensures (had + src[..n]) + src[n..n + m] == had + src[..n + m]
  {
  }

  /** Reading removes exactly as many bytes as are there, and at least one when there is data. */
  lemma ReadRemoves(r: Regions, len: int)
    requires r.Valid() && r.HasData() && len > 0
    ensures
      var (r', got) := ReadRegions(r, len);
      && r'.Valid()
      && |got| == Min(len, |r.Contents()|) > 0
      && r.Contents() == got + r'.Contents()
  {
    var n := Min(r.aEnd - r.aStart, len);
    var r' := ReadRegions(r, len).0;
    if r.aStart + n < r.aEnd {
      assert r.buff[r.aStart..r.aEnd] == r.buff[r.aStart..r.aStart + n] + r.buff[r.aStart + n..r.aEnd];
      assert r.Contents() == ReadRegions(r, len).1 + r'.Contents();
    } else {
      var m := Min(r.bEnd, len - n);
      assert r'.Contents() == r.buff[m..r.bEnd];
      ThreeParts(r.buff, r.aStart, r.aEnd, m, r.bEnd);
    }
  }

  lemma ThreeParts(buff: seq<byte>, a: nat, b: nat, m: nat, c: nat)
    requires a <= b <= |buff| && m <= c <= |buff|
    ensures buff[a..b] + buff[..c] == (buff[a..b] + buff[..m]) + buff[m..c]
  {
  }

  /** `BipBufferRec`; the two events are manual-reset events. */
  class BipBuffer {
    var aStart: int
    var aEnd: int
    var bEnd: int
    var canWrite: bool
    var canRead: bool
    var evtWrite: bool
    var evtRead: bool
    var closed: bool
    const buff: array<byte>

    function View(): Regions
      reads this, buff
    {
      Regions(aStart, aEnd, bEnd, buff[..])
    }

    ghost predicate Valid()
      reads this, buff
    {
      && View().Valid()
      && canWrite == View().HasRoom()
      && canRead == View().HasData()
    }

    ghost function Contents(): seq<byte>
      requires View().Valid()
      reads this, buff
    {
      View().Contents()
    }

    constructor ()
      ensures Valid() && Contents() == []
      ensures evtWrite && !evtRead && !closed && fresh(buff)
    {
      aStart, aEnd, bEnd := 0, 0, 0;
      canWrite, canRead := true, false;
      evtWrite, evtRead, closed := true, false, false;
      buff := new byte[BIP_BUFFER_SIZE](_ => 0);
    }

    method CopyIn(at: int, data: seq<byte>)
      requires 0 <= at && at + |data| <= buff.Length
      modifies buff
      ensures buff[..] == Splice(old(buff[..]), at, data)
    {
      forall i | 0 <= i < |data| {
        buff[at + i] := data[i];
      }
    }

    /** The first copy of `bip_buffer_write`: region A takes what it can. */
    method AppendA(src: seq<byte>) returns (n: nat)
      requires View().Valid()
      modifies this`aEnd, buff
      ensures n == Split(old(View()), |src|).0
      ensures View() == FillA(old(View()), src[..n])
    {
      var avail := BIP_BUFFER_SIZE - aEnd;
      if avail > |src| { avail := |src|; }
      CopyIn(aEnd, src[..avail]);
      aEnd := aEnd + avail;
      n := avail;
    }

    /** The locked part of `bip_buffer_write`, entered with `can_write` set. */
    method WriteLocked(src: seq<byte>) returns (count: int)
      requires Valid() && canWrite && src != []
      modifies this`aEnd, this`bEnd, this`canWrite, this`canRead, this`evtWrite, this`evtRead, buff
      ensures (View(), count) == WriteRegions(old(View()), src)
      ensures canWrite == View().HasRoom() && canRead
      ensures evtRead == (old(evtRead) || old(!canRead))
      ensures evtWrite == (old(evtWrite) && canWrite)
    {
      ghost var r := View();
      ghost var (n, m) := Split(r, |src|);
      count := AppendA(src);
      assert View() == FillA(r, src[..n]);
      var exit := false;
      if count > 0 && aEnd == BIP_BUFFER_SIZE && aStart == 0 {
        canWrite := false;
        evtWrite := false;
        exit := true;
      }
      if !exit && count < |src| {
        var avail := aStart - bEnd;
        assert avail > 0;
        if avail > |src| - count { avail := |src| - count; }
        CopyIn(bEnd, src[count..count + avail]);
        count := count + avail;
        bEnd := bEnd + avail;
        if bEnd == aStart {
          canWrite := false;
          evtWrite := false;
        }
      } else {
        assert m == 0;
        FillNothing(View());
      }
      assert View() == FillB(FillA(r, src[..n]), src[n..n + m]);
      assert count > 0;
      if !canRead {
        canRead := true;
        evtRead := true;
      }
    }

    /** The locked part of `bip_buffer_read`, entered with `can_read` set. */
    method ReadLocked(len: int) returns (dst: seq<byte>)
      requires Valid() && canRead && len > 0
      modifies this`aStart, this`aEnd, this`bEnd, this`canWrite, this`canRead, this`evtWrite, this`evtRead
      ensures (View(), dst) == ReadRegions(old(View()), len)
      ensures canRead == View().HasData() && canWrite
      ensures evtWrite == (old(evtWrite) || old(!canWrite))
      ensures evtRead == (old(evtRead) && canRead)
    {
      var left := len;
      var avail := aEnd - aStart;
      assert avail > 0;
      if avail > left { avail := left; }
      dst := buff[aStart..aStart + avail];
      left := left - avail;
      aStart := aStart + avail;
      if aStart >= aEnd {
        aStart := 0;
        aEnd := bEnd;
        bEnd := 0;
        avail := aEnd;
        var drained := true;
        if avail > 0 {
          if avail > left { avail := left; }
          dst := dst + buff[..avail];
          aStart := aStart + avail;
          if aStart < aEnd {
            drained := false;
          } else {
            aStart, aEnd := 0, 0;
          }
        } else {
          assert dst + buff[..avail] == dst;
        }
        if drained {
          canRead := false;
          evtRead := false;
        }
      }
      assert |dst| > 0;
      if !canWrite {
        canWrite := true;
        evtWrite := true;
      }
    }

    /** `bip_buffer_close`: whoever may be waiting is woken. */
    method Close()
      requires Valid()
      modifies this`closed, this`evtRead, this`evtWrite
      ensures Valid() && closed && Contents() == old(Contents())
      ensures evtRead == (old(evtRead) || !canRead) && evtWrite == (old(evtWrite) || !canWrite)
    {
      closed := true;
      if !canRead {
        evtRead := true;
      }
      if !canWrite {
        evtWrite := true;
      }
    }

    /** `bip_buffer_write` as a FIFO operation. It blocks exactly on a full buffer that is open; on a
        full buffer that is closed it fails with EPIPE. */
    method Write(src: seq<byte>) returns (r: PipeResult<nat>)
      requires Valid()
      modifies this`aEnd, this`bEnd, this`canWrite, this`canRead, this`evtWrite, this`evtRead, buff
      ensures Valid()
      ensures
        var full := src != [] && |old(Contents())| == BIP_BUFFER_SIZE;
        if full then r == (if closed then BrokenPipe else WouldBlock) && Contents() == old(Contents())
        else r == Moved(Min(|src|, BIP_BUFFER_SIZE - |old(Contents())|)) && Contents() == old(Contents()) + src[..r.value]
    {
      RoomAndData(View());
      if src == [] {
        assert Contents() == Contents() + [];
        return Moved(0);
      }
      if !canWrite {
        return if closed then BrokenPipe else WouldBlock;
      }
      WriteAppends(View(), src);
      var n := WriteLocked(src);
      RoomAndData(View());
      r := Moved(n);
    }

    /** `bip_buffer_read` as a FIFO operation. It blocks exactly on an empty buffer that is open; on an
        empty buffer that is closed it fails with EPIPE. */
    method Read(len: int) returns (r: PipeResult<seq<byte>>)
      requires Valid()
      modifies this`aStart, this`aEnd, this`bEnd, this`canWrite, this`canRead, this`evtWrite, this`evtRead
      ensures Valid()
      ensures
        var empty := len > 0 && old(Contents()) == [];
        if empty then r == (if closed then BrokenPipe else WouldBlock) && Contents() == old(Contents())
        else r.Moved? && |r.value| == Min(if len > 0 then len else 0, |old(Contents())|) && old(Contents()) == r.value + Contents()
    {
      RoomAndData(View());
      if len <= 0 {
        assert Contents() == [] + Contents();
        return Moved([]);
      }
      if !canRead {
        return if closed then BrokenPipe else WouldBlock;
      }
      ReadRemoves(View(), len);
      var got := ReadLocked(len);
      RoomAndData(View());
      r := Moved(got);
    }
  }

  /** What a read or write comes to: the C function waits on `WouldBlock`. */
  datatype PipeResult<T> = Moved(value: T) | WouldBlock | BrokenPipe
}
