/** Requests for the server itself: how a device's serial and a command are written into one string
    and taken apart again, although both may contain the separator. */
module HostSerial {
  import opened Bytes
  import opened SmartSocket

  const COLON: byte := 58

  const USB: seq<byte> := [117, 115, 98, 58]                          // "usb:"
  const PRODUCT: seq<byte> := [112, 114, 111, 100, 117, 99, 116, 58]  // "product:"
  const MODEL: seq<byte> := [109, 111, 100, 101, 108, 58]             // "model:"
  const DEVICE: seq<byte> := [100, 101, 118, 105, 99, 101, 58]        // "device:"
  const PREFIXES: seq<seq<byte>> := [USB, PRODUCT, MODEL, DEVICE]

  const HOST: seq<byte> := [104, 111, 115, 116, 58]                                             // "host:"
  const HOST_USB: seq<byte> := [104, 111, 115, 116, 45, 117, 115, 98, 58]                       // "host-usb:"
  const HOST_LOCAL: seq<byte> := [104, 111, 115, 116, 45, 108, 111, 99, 97, 108, 58]            // "host-local:"
  const HOST_SERIAL: seq<byte> := [104, 111, 115, 116, 45, 115, 101, 114, 105, 97, 108, 58]     // "host-serial:"

  /** The prefixes, spelled out. */
  lemma Spelling()
    ensures USB == Ascii("usb:") && PRODUCT == Ascii("product:") && MODEL == Ascii("model:") && DEVICE == Ascii("device:")
    ensures HOST == Ascii("host:") && HOST_USB == Ascii("host-usb:") && HOST_LOCAL == Ascii("host-local:")
    ensures HOST_SERIAL == Ascii("host-serial:")
  {
    assert Ascii("usb:") == USB;
    assert Ascii("product:") == PRODUCT;
    assert Ascii("model:") == MODEL;
    assert Ascii("device:") == DEVICE;
  }

  predicate StartsWith(s: seq<byte>, p: seq<byte>) { |p| <= |s| && s[..|p|] == p }

  // ---- skip_host_serial ----

  /** `end` is the first colon at or after `from`, if there is one. */
  ghost predicate FirstColon(s: seq<byte>, from: nat, end: Option<nat>)
    requires from <= |s|
  {
    match end
    case None => forall k :: from <= k < |s| ==> s[k] != COLON
    case Some(e) => from <= e < |s| && s[e] == COLON && forall k :: from <= k < e ==> s[k] != COLON
  }

  /** Behind `c` stand digits, at least one, and then a colon at `e`. */
  ghost predicate PortEnds(s: seq<byte>, c: nat, e: nat) {
    && c + 1 < e < |s| && s[e] == COLON
    && forall k :: c < k < e ==> IsDigit(s[k])
  }

  /** Where the serial ends: for a prefixed serial the next colon; otherwise the first colon, or the
      one behind a port number that follows it. */
  ghost predicate SerialEnds(s: seq<byte>, end: Option<nat>) {
    && (forall p :: p in PREFIXES && StartsWith(s, p) ==> FirstColon(s, |p|, end))
    && ((forall p :: p in PREFIXES ==> !StartsWith(s, p)) ==>
          match end
          case None => FirstColon(s, 0, None)
          case Some(e) => Unprefixed(s, e))
  }

  ghost predicate Unprefixed(s: seq<byte>, e: nat) {
    exists c: nat | c < |s| :: FirstColon(s, 0, Some(c)) && if e == c then (forall d :: !PortEnds(s, c, d)) else PortEnds(s, c, e)
  }

  method Strchr(s: seq<byte>, from: nat) returns (end: Option<nat>)
    requires from <= |s|
    ensures FirstColon(s, from, end)
  {
    var i := from;
    while i < |s|
      invariant from <= i <= |s|
      invariant forall k :: from <= k < i ==> s[k] != COLON
    {
      if s[i] == COLON {
        return Some(i);
      }
      i := i + 1;
    }
    end := None;
  }

  /** `skip_host_serial` on a string without NUL. */
  method SkipHostSerial(s: seq<byte>) returns (end: Option<nat>)
    ensures SerialEnds(s, end)
  {
    var i := 0;
    while i < |PREFIXES|
      invariant 0 <= i <= |PREFIXES|
      invariant forall k :: 0 <= k < i ==> !StartsWith(s, PREFIXES[k])
    {
      if StartsWith(s, PREFIXES[i]) {
        end := Strchr(s, |PREFIXES[i]|);
        OnePrefix(s, PREFIXES[i]);
        return;
      }
      i := i + 1;
    }
    var first := Strchr(s, 0);
    if first.None? {
      return None;
    }
    var e := first.value;
    e := SkipPort(s, first.value);
    assert Unprefixed(s, e);
    end := Some(e);
  }

  lemma OnePrefix(s: seq<byte>, p: seq<byte>)
    requires p in PREFIXES && StartsWith(s, p)
    ensures forall q :: q in PREFIXES && StartsWith(s, q) ==> q == p
  {
    assert s[0] == s[..|p|][0];
    forall q | q in PREFIXES && StartsWith(s, q)
      ensures q == p
    {
      assert s[0] == s[..|q|][0];
    }
  }

  /** The end of a serial whose first colon is at `c`. */
  method SkipPort(s: seq<byte>, c: nat) returns (e: nat)
    requires c < |s| && s[c] == COLON
    ensures if e == c then (forall d :: !PortEnds(s, c, d)) else PortEnds(s, c, e)
  {
    if c + 1 >= |s| || !IsDigit(s[c + 1]) {
      return c;
    }
    e := c + 1;
    while e < |s| && IsDigit(s[e])
      invariant c + 1 <= e <= |s|
      invariant forall k :: c < k < e ==> IsDigit(s[k])
    {
      e := e + 1;
    }
    if e == |s| || s[e] != COLON {
      return c;
    }
  }

  /** The rule leaves no choice. */
  lemma SerialEndUnique(s: seq<byte>, e: Option<nat>, e': Option<nat>)
    requires SerialEnds(s, e) && SerialEnds(s, e')
    ensures e == e'
  {
    if p :| p in PREFIXES && StartsWith(s, p) {
      assert FirstColon(s, |p|, e) && FirstColon(s, |p|, e');
      ColonUnique(s, |p|, e, e');
    } else if e.Some? && e'.Some? {
      var c: nat :| c < |s| && FirstColon(s, 0, Some(c)) && if e.value == c then (forall d :: !PortEnds(s, c, d)) else PortEnds(s, c, e.value);
      var c': nat :| c' < |s| && FirstColon(s, 0, Some(c')) && if e'.value == c' then (forall d :: !PortEnds(s, c', d)) else PortEnds(s, c', e'.value);
      ColonUnique(s, 0, Some(c), Some(c'));
    }
  }

  lemma ColonUnique(s: seq<byte>, from: nat, e: Option<nat>, e': Option<nat>)
    requires from <= |s| && FirstColon(s, from, e) && FirstColon(s, from, e')
    ensures e == e'
  {
  }

  // ---- print and parse ----

  /** The serial and command as `format_host_command` joins them. */
  function Join(serial: seq<byte>, command: seq<byte>): seq<byte> { serial + [COLON] + command }

  /** A port number begins the command. */
  ghost predicate PortAtFront(command: seq<byte>) {
    exists e: nat :: 0 < e < |command| && command[e] == COLON && forall k :: 0 <= k < e ==> IsDigit(command[k])
  }

  /** A serial and a command that survive being joined: a prefixed serial with no further colon, a
      host with a port, or a word other than the four prefixes with a command that does not begin
      like a port. */
  ghost predicate Separable(serial: seq<byte>, command: seq<byte>) {
    if exists p :: p in PREFIXES && StartsWith(serial, p) then
      forall p :: p in PREFIXES && StartsWith(serial, p) ==> COLON !in serial[|p|..]
    else if serial + [COLON] in PREFIXES then false
    else if COLON in serial then HostPort(serial)
    else !PortAtFront(command)
  }

  /** host:digits */
  ghost predicate HostPort(serial: seq<byte>) {
    exists c: nat :: c + 1 < |serial| && FirstColon(serial, 0, Some(c)) && forall k :: c < k < |serial| ==> IsDigit(serial[k])
  }

  /** Joined strings come apart in the right place exactly when serial and command are separable. */
  lemma JoinSplits(serial: seq<byte>, command: seq<byte>, end: Option<nat>)
    requires SerialEnds(Join(serial, command), end)
    ensures end == Some(|serial|) <==> Separable(serial, command)
  {
    var s := Join(serial, command);
    if p :| p in PREFIXES && StartsWith(serial, p) {
      assert s[..|p|] == serial[..|p|];
      PrefixedSplit(serial, command, p, end);
    } else if serial + [COLON] in PREFIXES {
      var p := serial + [COLON];
      assert s[..|p|] == p;
      assert FirstColon(s, |p|, end);
    } else {
      NoPrefix(serial, command);
      PlainSplit(serial, command, end);
    }
  }

  /** A serial with a colon that is not followed by a port is cut at that colon, whatever the command:
      the serial "a:b". */
  lemma ColonExample(command: seq<byte>, end: Option<nat>)
    requires SerialEnds(Join([97, COLON, 98], command), end)
    ensures !Separable([97, COLON, 98], command) && end != Some(3)
  {
    var serial: seq<byte> := [97, COLON, 98];
    assert serial[1] == COLON && !IsDigit(serial[2]);
    forall p | p in PREFIXES
      ensures !StartsWith(serial, p)
    {
      assert |p| > |serial|;
    }
    assert serial + [COLON] !in PREFIXES by {
      assert (serial + [COLON])[0] == 97;
    }
    assert !HostPort(serial);
    JoinSplits(serial, command, end);
  }

  /** A plain serial loses a command that begins like a port: the command "5:x". */
  lemma PortExample(serial: seq<byte>, end: Option<nat>)
    requires COLON !in serial && serial + [COLON] !in PREFIXES && SerialEnds(Join(serial, [53, COLON, 120]), end)
    ensures !Separable(serial, [53, COLON, 120]) && end != Some(|serial|)
  {
    var command: seq<byte> := [53, COLON, 120];
    assert command[1] == COLON && IsDigit(command[0]);
    forall p | p in PREFIXES && StartsWith(serial, p)
      ensures false
    {
      PrefixHasColon(serial, p);
    }
    JoinSplits(serial, command, end);
  }

  lemma PrefixHasColon(serial: seq<byte>, p: seq<byte>)
    requires p in PREFIXES && StartsWith(serial, p)
    ensures COLON in serial
  {
    assert serial[|p| - 1] == serial[..|p|][|p| - 1] == p[|p| - 1] == COLON;
  }

  lemma PrefixedSplit(serial: seq<byte>, command: seq<byte>, p: seq<byte>, end: Option<nat>)
    requires p in PREFIXES && StartsWith(serial, p) && FirstColon(Join(serial, command), |p|, end)
    ensures end == Some(|serial|) <==> Separable(serial, command)
  {
    var s := Join(serial, command);
    OnePrefix(serial, p);
    assert s[|serial|] == COLON;
    assert forall k :: |p| <= k < |serial| ==> s[k] == serial[k] == serial[|p|..][k - |p|];
  }

  /** A joined string begins with a prefix only if the serial does, or is one. */
  lemma PrefixMeans(serial: seq<byte>, command: seq<byte>, p: seq<byte>)
    requires p in PREFIXES && StartsWith(Join(serial, command), p)
    ensures StartsWith(serial, p) || serial + [COLON] == p
  {
    var s := Join(serial, command);
    assert p[|p| - 1] == COLON && forall k :: 0 <= k < |p| - 1 ==> p[k] != COLON;
    assert forall k :: 0 <= k < |p| ==> s[k] == s[..|p|][k] == p[k];
    if |p| <= |serial| {
      assert serial[..|p|] == p;
    } else {
      assert s[|serial|] == COLON;
      assert p == serial + [COLON];
    }
  }

  lemma NoPrefix(serial: seq<byte>, command: seq<byte>)
    requires (forall p :: p in PREFIXES ==> !StartsWith(serial, p)) && serial + [COLON] !in PREFIXES
    ensures forall p :: p in PREFIXES ==> !StartsWith(Join(serial, command), p)
  {
    forall p | p in PREFIXES && StartsWith(Join(serial, command), p)
      ensures false
    {
      PrefixMeans(serial, command, p);
    }
  }

  lemma PlainSplit(serial: seq<byte>, command: seq<byte>, end: Option<nat>)
    requires (forall p :: p in PREFIXES ==> !StartsWith(serial, p)) && serial + [COLON] !in PREFIXES
    requires forall p :: p in PREFIXES ==> !StartsWith(Join(serial, command), p)
    requires SerialEnds(Join(serial, command), end)
    ensures end == Some(|serial|) <==> Separable(serial, command)
  {
    var s := Join(serial, command);
    assert s[|serial|] == COLON;
    assert end.Some?;
    var e := end.value;
    var c: nat :| c < |s| && FirstColon(s, 0, Some(c)) && if e == c then (forall d :: !PortEnds(s, c, d)) else PortEnds(s, c, e);
    if COLON in serial {
      ColonInside(serial, command, c, e);
    } else {
      assert c == |serial|;
      WordSplit(serial, command);
    }
  }

  lemma ColonInside(serial: seq<byte>, command: seq<byte>, c: nat, e: nat)
    requires COLON in serial && c < |Join(serial, command)| && FirstColon(Join(serial, command), 0, Some(c))
    requires if e == c then (forall d :: !PortEnds(Join(serial, command), c, d)) else PortEnds(Join(serial, command), c, e)
    ensures e == |serial| <==> HostPort(serial)
  {
    var s := Join(serial, command);
    assert forall k :: 0 <= k < |serial| ==> s[k] == serial[k];
    var j :| 0 <= j < |serial| && serial[j] == COLON;
    assert c < |serial| && FirstColon(serial, 0, Some(c));
    if e == |serial| {
      assert PortEnds(s, c, e);
      assert HostPort(serial);
    }
    if HostPort(serial) {
      var c': nat :| c' + 1 < |serial| && FirstColon(serial, 0, Some(c')) && forall k :: c' < k < |serial| ==> IsDigit(serial[k]);
      ColonUnique(serial, 0, Some(c), Some(c'));
      assert PortEnds(s, c, |serial|);
      PortUnique(s, c, e, |serial|);
    }
  }

  lemma PortUnique(s: seq<byte>, c: nat, e: nat, d: nat)
    requires PortEnds(s, c, d) && if e == c then (forall x :: !PortEnds(s, c, x)) else PortEnds(s, c, e)
    ensures e == d
  {
  }

  lemma WordSplit(serial: seq<byte>, command: seq<byte>)
    ensures PortAtFront(command) <==> exists d: nat :: PortEnds(Join(serial, command), |serial|, d)
  {
    var s, n := Join(serial, command), |serial| + 1;
    assert forall k :: 0 <= k < |command| ==> s[n + k] == command[k];
    if PortAtFront(command) {
      var e: nat :| 0 < e < |command| && command[e] == COLON && forall k :: 0 <= k < e ==> IsDigit(command[k]);
      forall k | |serial| < k < n + e
        ensures IsDigit(s[k])
      {
        assert s[k] == command[k - n];
      }
      assert PortEnds(s, |serial|, n + e);
    }
    if d: nat :| PortEnds(s, |serial|, d) {
      assert command[d - n] == COLON;
      forall k | 0 <= k < d - n
        ensures IsDigit(command[k])
      {
        assert s[n + k] == command[k];
      }
    }
  }

  // ---- the whole path of a request ----

  datatype TransportType = Usb | Local | Any

  /** What the request asks for: an optional serial, a kind of transport, and the service; or
      nothing for the server itself. */
  datatype Route = HostRequest(serial: Option<seq<byte>>, ttype: TransportType, service: seq<byte>) | NotHost

  /** `format_host_command`. */
  function FormatHostCommand(command: seq<byte>, ttype: TransportType, serial: Option<seq<byte>>): seq<byte> {
    match serial
    case Some(sn) => HOST_SERIAL + Join(sn, command)
    case None =>
      match ttype
      case Usb => HOST_USB + command
      case Local => HOST_LOCAL + command
      case Any => HOST + command
  }

  /** The first part of `smart_socket_enqueue` behind the reassembly. */
  method ParseRequest(request: seq<byte>) returns (r: Route)
    ensures
      if StartsWith(request, HOST_SERIAL) then
        var s := request[|HOST_SERIAL|..];
        exists end: Option<nat> :: SerialEnds(s, end) && r == SplitAt(s, end)
      else if StartsWith(request, HOST_USB) then r == HostRequest(None, Usb, request[|HOST_USB|..])
      else if StartsWith(request, HOST_LOCAL) then r == HostRequest(None, Local, request[|HOST_LOCAL|..])
      else if StartsWith(request, HOST) then r == HostRequest(None, Any, request[|HOST|..])
      else r == NotHost
  {
    if StartsWith(request, HOST_SERIAL) {
      var service := request[|HOST_SERIAL|..];
      var end := SkipHostSerial(service);
      r := SplitAt(service, end);
    } else if StartsWith(request, HOST_USB) {
      r := HostRequest(None, Usb, request[|HOST_USB|..]);
    } else if StartsWith(request, HOST_LOCAL) {
      r := HostRequest(None, Local, request[|HOST_LOCAL|..]);
    } else if StartsWith(request, HOST) {
      r := HostRequest(None, Any, request[|HOST|..]);
    } else {
      r := NotHost;
    }
  }

  function SplitAt(s: seq<byte>, end: Option<nat>): Route {
    if end.Some? && end.value < |s| then HostRequest(Some(s[..end.value]), Any, s[end.value + 1..]) else HostRequest(None, Any, s)
  }

  /** A serial and a command come through formatting and parsing unchanged exactly when they are
      separable; without a serial the command and the kind of transport always do. */
  method FormatThenParse(command: seq<byte>, ttype: TransportType, serial: Option<seq<byte>>) returns (r: Route)
    ensures serial.None? ==> r == HostRequest(None, ttype, command)
    ensures serial.Some? ==> (r == HostRequest(serial, Any, command) <==> Separable(serial.value, command))
  {
    var request := FormatHostCommand(command, ttype, serial);
    r := ParseRequest(request);
    match serial {
      case None =>
        FormattedPlain(command, ttype);
      case Some(sn) =>
        var s := Join(sn, command);
        assert request[..|HOST_SERIAL|] == HOST_SERIAL && request[|HOST_SERIAL|..] == s;
        ghost var end :| SerialEnds(s, end) && r == SplitAt(s, end);
        JoinSplits(sn, command, end);
        SplitBack(sn, command, end);
    }
  }

  lemma SplitBack(serial: seq<byte>, command: seq<byte>, end: Option<nat>)
    ensures SplitAt(Join(serial, command), end) == HostRequest(Some(serial), Any, command) <==> end == Some(|serial|)
  {
    var s := Join(serial, command);
    assert s[..|serial|] == serial && s[|serial| + 1..] == command;
    if end.Some? && end.value < |s| {
      assert |s[..end.value]| == end.value;
    }
  }

  lemma FormattedPlain(command: seq<byte>, ttype: TransportType)
    ensures
      var r := FormatHostCommand(command, ttype, None);
      match ttype
      case Usb => !StartsWith(r, HOST_SERIAL) && StartsWith(r, HOST_USB) && r[|HOST_USB|..] == command
      case Local => !StartsWith(r, HOST_SERIAL) && !StartsWith(r, HOST_USB) && StartsWith(r, HOST_LOCAL) && r[|HOST_LOCAL|..] == command
      case Any => !StartsWith(r, HOST_SERIAL) && !StartsWith(r, HOST_USB) && !StartsWith(r, HOST_LOCAL) && StartsWith(r, HOST) && r[|HOST|..] == command
  {
    var r := FormatHostCommand(command, ttype, None);
    Differ(r, HOST_SERIAL);
    Differ(r, HOST_USB);
    Differ(r, HOST_LOCAL);
    match ttype {
      case Usb => assert r[5] == HOST_USB[5] == 117 && r[..|HOST_USB|] == HOST_USB;
      case Local => assert r[5] == HOST_LOCAL[5] == 108 && r[..|HOST_LOCAL|] == HOST_LOCAL;
      case Any => assert r[4] == HOST[4] == 58 && r[..|HOST|] == HOST;
    }
    assert HOST_SERIAL[4] == HOST_USB[4] == HOST_LOCAL[4] == 45 && HOST_SERIAL[5] == 115;
  }

  lemma Differ(r: seq<byte>, p: seq<byte>)
    ensures StartsWith(r, p) ==> forall k :: 0 <= k < |p| ==> r[k] == p[k]
  {
    if StartsWith(r, p) {
      assert forall k :: 0 <= k < |p| ==> r[k] == r[..|p|][k];
    }
  }

  /** The command line's request all the way to the server's parser, cut into any packets. */
  method RequestEndToEnd(command: seq<byte>, serial: seq<byte>, chunks: seq<seq<byte>>) returns (r: Route)
    requires 0 !in command && 0 !in serial
    requires Request(FormatHostCommand(command, Any, Some(serial))) == Some(Flatten(chunks))
    ensures r == HostRequest(Some(serial), Any, command) <==> Separable(serial, command)
  {
    ghost var request := FormatHostCommand(command, Any, Some(serial));
    AnySplitDispatches(request, chunks);
    forall i | 0 <= i < |chunks|
      ensures |chunks[i]| <= MAX_SERVICE + 4
    {
      ChunkWithin(chunks, i);
    }
    var o := Reassemble(chunks);
    r := ParseRequest(o.service);
    ghost var s := Join(serial, command);
    assert request[..|HOST_SERIAL|] == HOST_SERIAL && request[|HOST_SERIAL|..] == s;
    ghost var end :| SerialEnds(s, end) && r == SplitAt(s, end);
    JoinSplits(serial, command, end);
    SplitBack(serial, command, end);
  }
}
