/** NUL-terminated strings, as the C library sees them. */
module CStrings {
  const NUL: char := '\0'

  /** The string a buffer holds: everything before its first NUL. */
  function CStr(buf: seq<char>): (s: string)
    ensures s <= buf && NUL !in s
    ensures s == buf || (|s| < |buf| && buf[|s|] == NUL)
  {
    if buf == [] || buf[0] == NUL then "" else [buf[0]] + CStr(buf[1..])
  }

  lemma {:induction false} CStrIs(buf: seq<char>, s: string)
    requires s <= buf && NUL !in s
    requires s == buf || buf[|s|] == NUL
    ensures CStr(buf) == s
  {
    if s != [] {
      assert buf[0] == s[0] && s[0] in s;
      CStrIs(buf[1..], s[1..]);
      assert s == [s[0]] + s[1..];
    }
  }

  lemma {:induction false} CStrPadded(s: string, z: string)
    requires forall i :: 0 <= i < |z| ==> z[i] == NUL
    ensures CStr(s + z) == CStr(s)
  {
    if s == "" {
      assert s + z == z;
    } else {
      assert (s + z)[1..] == s[1..] + z;
      CStrPadded(s[1..], z);
    }
  }

  /** The buffer holds acc and is zero after it. */
  ghost predicate Holds(buf: seq<char>, acc: string) {
    acc <= buf && forall i :: |acc| <= i < |buf| ==> buf[i] == NUL
  }

  lemma BufferHolds(buf: seq<char>, acc: string)
    requires Holds(buf, acc)
    ensures CStr(buf) == CStr(acc)
  {
    assert buf == acc + buf[|acc|..];
    CStrPadded(acc, buf[|acc|..]);
  }
}

/** util.c: readable digests. */
module Util {
  import opened CTypes
  import opened CStrings

  /** An MD5 digest; the hash itself is a parameter everywhere. */
  type Digest = d: seq<byte> | |d| == 16 witness seq(16, _ => 0)

  const BIG_ENOUGH: nat := 1024

  function Table(num: byte): (c: char) {
    match num
    case 1 => '1'
    case 2 => '2'
    case 3 => '3'
    case 4 => '4'
    case 5 => '5'
    case 6 => '6'
    case 7 => '7'
    case 8 => '8'
    case 9 => '9'
    case 10 => 'A'
    case 11 => 'B'
    case 12 => 'C'
    case 13 => 'D'
    case 14 => 'E'
    case 15 => 'F'
    case _ => '0'
  }

  function Nibbles(ch: char): byte {
    match ch
    case '1' => 1
    case '2' => 2
    case '3' => 3
    case '4' => 4
    case '5' => 5
    case '6' => 6
    case '7' => 7
    case '8' => 8
    case '9' => 9
    case 'A' => 10
    case 'B' => 11
    case 'C' => 12
    case 'D' => 13
    case 'E' => 14
    case 'F' => 15
    case _ => 0
  }

  predicate HexDigit(c: char) {
    '0' <= c <= '9' || 'A' <= c <= 'F'
  }

  function Hex(b: seq<byte>): (s: string)
    ensures |s| == 2 * |b|
    ensures forall i :: 0 <= i < |s| ==> HexDigit(s[i])
  {
    if b == [] then "" else [Table((b[0] >> 4) & 0x0F), Table(b[0] & 0x0F)] + Hex(b[1..])
  }

  /** Two characters back to a byte, one nibble each. */
  function Unhex(s: string): seq<byte>
    requires |s| % 2 == 0
  {
    if s == "" then [] else [(Nibbles(s[0]) << 4) | Nibbles(s[1])] + Unhex(s[2..])
  }

  lemma NibbleRoundTrip(n: byte)
    requires n <= 15
    ensures Nibbles(Table(n)) == n
  {
  }

  lemma ByteFromNibbles(x: byte)
    ensures (x >> 4) & 0x0F <= 15 && x & 0x0F <= 15
    ensures (((x >> 4) & 0x0F) << 4) | (x & 0x0F) == x
  {
  }

  lemma {:induction false} HexRoundTrip(b: seq<byte>)
    ensures Unhex(Hex(b)) == b
  {
    if b != [] {
      ByteFromNibbles(b[0]);
      NibbleRoundTrip((b[0] >> 4) & 0x0F);
      NibbleRoundTrip(b[0] & 0x0F);
      HexRoundTrip(b[1..]);
      assert Hex(b)[2..] == Hex(b[1..]);
      assert b == [b[0]] + b[1..];
    }
  }

  /** Different digests print differently, and only they do. */
  lemma HexInjective(a: seq<byte>, b: seq<byte>)
    ensures Hex(a) == Hex(b) <==> a == b
  {
    HexRoundTrip(a);
    HexRoundTrip(b);
  }

  lemma {:induction false} HexAt(b: seq<byte>, i: nat)
    requires i < |b|
    ensures Hex(b)[2 * i] == Table((b[i] >> 4) & 0x0F)
    ensures Hex(b)[2 * i + 1] == Table(b[i] & 0x0F)
  {
    if i > 0 {
      HexAt(b[1..], i - 1);
    }
  }

  /** toDec: the asserted bound rlen > j holds throughout when rlen exceeds twice the length. */
  method ToDec(b: seq<byte>, r: array<char>, rlen: cint)
    requires 2 * |b| < rlen <= r.Length
    modifies r
    ensures CStr(r[..]) == Hex(b)
    ensures r[..] == Hex(b) + [NUL] + old(r[..])[2 * |b| + 1..]
  {
    ghost var r0 := r[..];
    var j := 0;
    for i := 0 to |b|
      invariant j == 2 * i
      invariant forall k :: 0 <= k < j ==> r[k] == Hex(b)[k]
      invariant forall k :: j <= k < r.Length ==> r[k] == r0[k]
    {
      HexAt(b, i);
      assert rlen > j;
      r[j] := Table((b[i] >> 4) & 0x0F);
      j := j + 1;
      assert rlen > j;
      r[j] := Table(b[i] & 0x0F);
      j := j + 1;
    }
    r[j] := NUL;
    assert rlen > j;
    CStrIs(r[..], Hex(b));
  }

  /** readable_hash */
  method ReadableHash(md5: seq<byte> -> Digest, s: seq<byte>, d: array<char>, dlen: cint)
    requires 32 < dlen <= d.Length
    modifies d
    ensures CStr(d[..]) == Hex(md5(s))
  {
    ToDec(md5(s), d, dlen);
  }

  /** does_string_intact: strcmp compares the strings the two buffers hold. */
  method DoesStringIntact(md5: seq<byte> -> Digest, s: seq<byte>, d: seq<char>) returns (intact: bool)
    ensures intact <==> CStr(d) == Hex(md5(s))
    ensures forall t :: CStr(d) == Hex(md5(t)) ==> (intact <==> md5(s) == md5(t))
  {
    var sd := new char[BIG_ENOUGH](_ => NUL);
    ReadableHash(md5, s, sd, BIG_ENOUGH - 1);
    intact := CStr(sd[..]) == CStr(d);
    forall t | CStr(d) == Hex(md5(t)) ensures intact <==> md5(s) == md5(t) {
      HexInjective(md5(s), md5(t));
    }
  }

  // ---------------------------------------------------------------- the digits themselves

  /** The character of a hexadecimal digit. */
  function HexChar(n: int): char
    requires 0 <= n < 16
  {
    if n < 10 then '0' + n as char else 'A' + (n - 10) as char
  }

  lemma TableIs(n: byte)
    requires n < 16
    ensures Table(n) == HexChar(n as int)
  {
    if n < 8 {
      LowDigits(n);
    } else {
      HighDigits(n);
    }
  }

  lemma LowDigits(n: byte)
    requires n < 8
    ensures Table(n) == HexChar(n as int)
  {
    assert n == 0 || n == 1 || n == 2 || n == 3 || n == 4 || n == 5 || n == 6 || n == 7;
  }

  lemma HighDigits(n: byte)
    requires 8 <= n < 16
    ensures Table(n) == HexChar(n as int)
  {
    assert n == 8 || n == 9 || n == 10 || n == 11 || n == 12 || n == 13 || n == 14 || n == 15;
  }

  lemma NibblesAreDigits(x: byte)
    ensures ((x >> 4) & 0x0F) as int == x as int / 16 && (x & 0x0F) as int == x as int % 16
  {
  }

  /** Each byte prints as its two hexadecimal digits, the higher one first, in capitals. */
  lemma HexIs(b: seq<byte>, i: nat)
    requires i < |b|
    ensures Hex(b)[2 * i] == HexChar(b[i] as int / 16) && Hex(b)[2 * i + 1] == HexChar(b[i] as int % 16)
  {
    HexAt(b, i);
    NibblesAreDigits(b[i]);
    TableIs((b[i] >> 4) & 0x0F);
    TableIs(b[i] & 0x0F);
  }
}
