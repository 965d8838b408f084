/** Bytes and the little-endian integers used by the sync and ZIP formats. */
module Bytes {

  type byte = x: int | 0 <= x < 256
  type uint16 = x: int | 0 <= x < 0x1_0000
  type uint32 = x: int | 0 <= x < 0x1_0000_0000

  datatype Option<+T> = None | Some(value: T)

  function Min(a: int, b: int): int {
    if a < b then a else b
  }

  function Le16(n: uint16): (s: seq<byte>)
    ensures |s| == 2
  {
    [n % 256, n / 256]
  }

  function Le32(n: uint32): (s: seq<byte>)
    ensures |s| == 4
  {
    [n % 256, n / 256 % 256, n / 256 / 256 % 256, n / 256 / 256 / 256]
  }

  /** `read_le_short` at offset `at`. */
  function ReadLe16(s: seq<byte>, at: int): uint16
    requires 0 <= at && at + 2 <= |s|
  {
    s[at] as int + 256 * (s[at + 1] as int)
  }

  /** `read_le_int` at offset `at`. */
  function ReadLe32(s: seq<byte>, at: int): uint32
    requires 0 <= at && at + 4 <= |s|
  {
    s[at] as int + 0x100 * (s[at + 1] as int) + 0x1_0000 * (s[at + 2] as int) + 0x100_0000 * (s[at + 3] as int)
  }

  /** A field written inside a larger buffer is read back unchanged. */
  lemma Le16RoundTrip(s: seq<byte>, at: int, n: uint16)
    requires 0 <= at && at + 2 <= |s|
    requires s[at..at + 2] == Le16(n)
    ensures ReadLe16(s, at) == n
  {
    assert s[at] == s[at..at + 2][0] && s[at + 1] == s[at..at + 2][1];
  }

  lemma Le32Digits(n: uint32)
    ensures n % 256 + 0x100 * (n / 256 % 256) + 0x1_0000 * (n / 256 / 256 % 256) + 0x100_0000 * (n / 256 / 256 / 256) == n
  {
  }

  lemma Le32RoundTrip(s: seq<byte>, at: int, n: uint32)
    requires 0 <= at && at + 4 <= |s|
    requires s[at..at + 4] == Le32(n)
    ensures ReadLe32(s, at) == n
  {
    assert s[at] == s[at..at + 4][0] && s[at + 1] == s[at..at + 4][1];
    assert s[at + 2] == s[at..at + 4][2] && s[at + 3] == s[at..at + 4][3];
    Le32Digits(n);
  }

  lemma Assoc<T>(a: seq<T>, b: seq<T>, c: seq<T>)
    ensures (a + b) + c == a + (b + c)
  {
  }

  /** The bytes of a sequence of packets, in order. */
  function Flatten(ps: seq<seq<byte>>): seq<byte> {
    if ps == [] then [] else ps[0] + Flatten(ps[1..])
  }

  lemma {:induction false} FlattenConcat(a: seq<seq<byte>>, b: seq<seq<byte>>)
    ensures Flatten(a + b) == Flatten(a) + Flatten(b)
  {
    if a == [] {
      assert a + b == b;
    } else {
      assert (a + b)[0] == a[0] && (a + b)[1..] == a[1..] + b;
      FlattenConcat(a[1..], b);
    }
  }

  lemma FlattenOne(p: seq<byte>)
    ensures Flatten([p]) == p
  {
    assert [p][1..] == [];
  }

  // ---- characters and C strings ----

  const DIGIT_ZERO: byte := 48

  predicate IsDigit(c: byte) {
    DIGIT_ZERO <= c <= DIGIT_ZERO + 9
  }

  /** The value of a digit or letter of either case; 36 for anything else. */
  function DigitValue(c: byte): nat {
    if IsDigit(c) then c - DIGIT_ZERO
    else if 97 <= c <= 122 then c - 97 + 10
    else if 65 <= c <= 90 then c - 65 + 10
    else 36
  }

  /** The bytes of a string of ASCII characters. */
  function Ascii(s: string): seq<byte> {
    seq(|s|, i requires 0 <= i < |s| => (s[i] as int) % 256)
  }

  /** The string at the front of the bytes, up to a NUL if there is one. */
  function CString(s: seq<byte>): (r: seq<byte>)
    ensures 0 !in r && (0 !in s ==> r == s)
    ensures r <= s && (|r| < |s| ==> s[|r|] == 0)
  {
    if s == [] || s[0] == 0 then [] else [s[0]] + CString(s[1..])
  }
}
