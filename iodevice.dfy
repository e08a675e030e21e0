/**
  The binary serialiser of src/mlearn/util/iodevice.cpp.

  An IODevice writes the raw in-memory bytes of a value and reads them back.
  The device is modelled as the sequence of bytes written so far plus a read
  cursor. The platform is taken to be the usual one: a one-byte bool, and a
  four-byte little-endian two's-complement int and a four-byte float. A float
  is represented by its 32-bit pattern, which the device copies unchanged.
 */
module IO {
  import opened Dense

  newtype byte = x: int | 0 <= x < 0x100

  /** A C++ int. */
  newtype int32 = x: int | -0x8000_0000 <= x < 0x8000_0000

  /** The bit pattern of a C++ float. */
  newtype bits32 = x: int | 0 <= x < 0x1_0000_0000

  function Pow256(n: nat): (r: nat)
    ensures r > 0
  {
    if n == 0 then 1 else 0x100 * Pow256(n - 1)
  }

  /** The n least significant base-256 digits of u, least significant first. */
  function LittleEndian(u: nat, n: nat): (r: seq<byte>)
    ensures |r| == n
  {
    if n == 0 then [] else [(u % 0x100) as byte] + LittleEndian(u / 0x100, n - 1)
  }

  /** The number whose base-256 digits, least significant first, are b. */
  function Unsigned(b: seq<byte>): nat {
    if b == [] then 0 else b[0] as nat + 0x100 * Unsigned(b[1..])
  }

  lemma {:induction false} UnsignedBound(b: seq<byte>)
    ensures Unsigned(b) < Pow256(|b|)
  {
    if b != [] {
      UnsignedBound(b[1..]);
    }
  }

  /** Reading back n digits gives the number, when it has at most n digits. */
  lemma {:induction false} UnsignedOfLittleEndian(u: nat, n: nat)
    requires u < Pow256(n)
    ensures Unsigned(LittleEndian(u, n)) == u
  {
    if n > 0 {
      var q := u / 0x100;
      assert u == u % 0x100 + 0x100 * q;
      assert q < Pow256(n - 1);
      UnsignedOfLittleEndian(q, n - 1);
      assert LittleEndian(u, n)[1..] == LittleEndian(q, n - 1);
    }
  }

  /** Writing out the number a byte sequence denotes gives the bytes back. */
  lemma {:induction false} LittleEndianOfUnsigned(b: seq<byte>)
    ensures LittleEndian(Unsigned(b), |b|) == b
  {
    if b != [] {
      var u := Unsigned(b);
      var q := Unsigned(b[1..]);
      assert u == b[0] as nat + 0x100 * q;
      assert u % 0x100 == b[0] as nat && u / 0x100 == q;
      LittleEndianOfUnsigned(b[1..]);
    }
  }

  /** The bytes `<<` writes for an int: its two's-complement pattern, least significant byte first. */
  function IntBytes(v: int32): (r: seq<byte>)
    ensures |r| == 4
  {
    LittleEndian(if v < 0 then v as int + 0x1_0000_0000 else v as int, 4)
  }

  /** The int `>>` reads from four bytes. */
  function IntOf(b: seq<byte>): int32
    requires |b| == 4
  {
    UnsignedBound(b);
    var u := Unsigned(b);
    if u < 0x8000_0000 then u as int32 else (u - 0x1_0000_0000) as int32
  }

  /** Reading an int gives back the int written. */
  lemma IntRoundTrip(v: int32)
    ensures IntOf(IntBytes(v)) == v
  {
    UnsignedOfLittleEndian(if v < 0 then v as int + 0x1_0000_0000 else v as int, 4);
  }

  /** Every four bytes are the encoding of the int read from them: the encoding is a bijection. */
  lemma BytesRoundTrip(b: seq<byte>)
    requires |b| == 4
    ensures IntBytes(IntOf(b)) == b
  {
    UnsignedBound(b);
    LittleEndianOfUnsigned(b);
  }

  /** The bytes `<<` writes for a float: its bit pattern, least significant byte first. */
  function FloatBytes(f: bits32): (r: seq<byte>)
    ensures |r| == 4
  {
    LittleEndian(f as nat, 4)
  }

  /** The float `>>` reads from four bytes. */
  function FloatOf(b: seq<byte>): bits32
    requires |b| == 4
  {
    UnsignedBound(b);
    Unsigned(b) as bits32
  }

  /** Reading a float gives back the bit pattern written. */
  lemma FloatRoundTrip(f: bits32)
    ensures FloatOf(FloatBytes(f)) == f
  {
    UnsignedOfLittleEndian(f as nat, 4);
  }

  /** The byte `<<` writes for a bool: 1 for true and 0 for false. */
  function BoolBytes(v: bool): (r: seq<byte>)
    ensures |r| == 1 && (r[0] != 0 <==> v)
  {
    [if v then 1 else 0]
  }

  /** The bool `>>` reads from one byte: any byte other than 0 is true. */
  function BoolOf(b: byte): bool {
    b != 0
  }

  /** The characters std::string(buffer) takes from a NUL-terminated buffer: those before the first NUL. */
  function CString(buffer: seq<byte>): (r: seq<byte>)
    requires 0 in buffer
    ensures |r| < |buffer| && r == buffer[..|r|] && buffer[|r|] == 0 && 0 !in r
  {
    if buffer[0] == 0 then [] else [buffer[0]] + CString(buffer[1..])
  }

  /** The bytes `<<` writes for a string s: the int |s| + 1, the characters of s and a NUL. */
  function StringBytes(s: seq<byte>): (r: seq<byte>)
    requires |s| + 1 < 0x8000_0000
    ensures |r| == 4 + |s| + 1 && r[..4] == IntBytes((|s| + 1) as int32)
    ensures r[4..4 + |s|] == s && r[4 + |s|] == 0
  {
    IntBytes((|s| + 1) as int32) + s + [0]
  }

  /** `>>` of an int at position pos: the int and the next position, or None where fewer than four bytes remain. */
  function IntAt(bytes: seq<byte>, pos: nat): (r: Option<(int32, nat)>)
    ensures r.Some? <==> pos + 4 <= |bytes|
    ensures r.Some? ==> r.value == (IntOf(bytes[pos..pos + 4]), pos + 4)
  {
    if pos + 4 <= |bytes| then Some((IntOf(bytes[pos..pos + 4]), pos + 4)) else None
  }

  /** `>>` of a float at position pos. */
  function FloatAt(bytes: seq<byte>, pos: nat): (r: Option<(bits32, nat)>)
    ensures r.Some? <==> pos + 4 <= |bytes|
    ensures r.Some? ==> r.value == (FloatOf(bytes[pos..pos + 4]), pos + 4)
  {
    if pos + 4 <= |bytes| then Some((FloatOf(bytes[pos..pos + 4]), pos + 4)) else None
  }

  /** `>>` of a bool at position pos. */
  function BoolAt(bytes: seq<byte>, pos: nat): (r: Option<(bool, nat)>)
    ensures r.Some? <==> pos + 1 <= |bytes|
    ensures r.Some? ==> r.value == (BoolOf(bytes[pos]), pos + 1)
  {
    if pos + 1 <= |bytes| then Some((BoolOf(bytes[pos]), pos + 1)) else None
  }

  /**
    `>>` of a string at position pos: the length prefix len, then len bytes,
    of which the characters before the first NUL are the string. None where
    the source's behaviour is undefined: a prefix that is not positive (the
    buffer new char[len] cannot be made), fewer than len bytes left, or no
    NUL in the buffer (std::string reads past its end).
   */
  function StringAt(bytes: seq<byte>, pos: nat): (r: Option<(seq<byte>, nat)>)
    ensures r.Some? <==>
      pos + 4 <= |bytes| && 1 <= IntOf(bytes[pos..pos + 4]) as int &&
      pos + 4 + IntOf(bytes[pos..pos + 4]) as int <= |bytes| &&
      0 in bytes[pos + 4..pos + 4 + IntOf(bytes[pos..pos + 4]) as int]
    ensures r.Some? ==>
      r.value.1 == pos + 4 + IntOf(bytes[pos..pos + 4]) as int &&
      r.value.0 == CString(bytes[pos + 4..r.value.1])
  {
    match IntAt(bytes, pos)
    case None => None
    case Some((len, p)) =>
      if len < 1 || p + len as int > |bytes| || 0 !in bytes[p..p + len as int] then None
      else Some((CString(bytes[p..p + len as int]), p + len as int))
  }

  /** An int written between any other bytes reads back at its position. */
  lemma IntAtWritten(pre: seq<byte>, v: int32, post: seq<byte>)
    ensures IntAt(pre + IntBytes(v) + post, |pre|) == Some((v, |pre| + 4))
  {
    assert (pre + IntBytes(v) + post)[|pre|..|pre| + 4] == IntBytes(v);
    IntRoundTrip(v);
  }

  /** A float written between any other bytes reads back at its position. */
  lemma FloatAtWritten(pre: seq<byte>, f: bits32, post: seq<byte>)
    ensures FloatAt(pre + FloatBytes(f) + post, |pre|) == Some((f, |pre| + 4))
  {
    assert (pre + FloatBytes(f) + post)[|pre|..|pre| + 4] == FloatBytes(f);
    FloatRoundTrip(f);
  }

  /** A bool written between any other bytes reads back at its position. */
  lemma BoolAtWritten(pre: seq<byte>, v: bool, post: seq<byte>)
    ensures BoolAt(pre + BoolBytes(v) + post, |pre|) == Some((v, |pre| + 1))
  {
    assert (pre + BoolBytes(v) + post)[|pre|] == BoolBytes(v)[0];
  }

  /**
    A string written between any other bytes reads back at its position as
    its characters before the first NUL (all of them when it has none), and
    the read consumes exactly what was written.
   */
  lemma StringAtWritten(pre: seq<byte>, s: seq<byte>, post: seq<byte>)
    requires |s| + 1 < 0x8000_0000
    ensures StringAt(pre + StringBytes(s) + post, |pre|) == Some((CString(s + [0]), |pre| + |StringBytes(s)|))
  {
    var bytes := pre + StringBytes(s) + post;
    var p := |pre|;
    assert bytes[p..p + 4] == IntBytes((|s| + 1) as int32);
    IntRoundTrip((|s| + 1) as int32);
    assert bytes[p + 4..p + 4 + |s| + 1] == s + [0];
  }

  /** A string without a NUL reads back unchanged. */
  lemma StringRoundTrip(pre: seq<byte>, s: seq<byte>, post: seq<byte>)
    requires |s| + 1 < 0x8000_0000 && 0 !in s
    ensures StringAt(pre + StringBytes(s) + post, |pre|) == Some((s, |pre| + |StringBytes(s)|))
  {
    StringAtWritten(pre, s, post);
    CStringOfTerminated(s);
  }

  /** A string with a NUL reads back as its prefix before the first NUL. */
  lemma StringWithNulReadsPrefix(pre: seq<byte>, s: seq<byte>, post: seq<byte>)
    requires |s| + 1 < 0x8000_0000 && 0 in s
    ensures StringAt(pre + StringBytes(s) + post, |pre|) == Some((CString(s), |pre| + |StringBytes(s)|))
  {
    StringAtWritten(pre, s, post);
    CStringOfExtended(s, [0]);
  }

  lemma {:induction false} CStringOfTerminated(s: seq<byte>)
    requires 0 !in s
    ensures CString(s + [0]) == s
  {
    if s != [] {
      assert (s + [0])[1..] == s[1..] + [0];
      CStringOfTerminated(s[1..]);
    }
  }

  lemma {:induction false} CStringOfExtended(s: seq<byte>, t: seq<byte>)
    requires 0 in s
    ensures CString(s + t) == CString(s)
  {
    if s[0] != 0 {
      assert (s + t)[1..] == s[1..] + t;
      CStringOfExtended(s[1..], t);
    }
  }

  /** An I/O device: the bytes it holds and the position the next read starts at. */
  class Device {
    var bytes: seq<byte>
    var pos: nat

    /** A device holding the given bytes, to be read from the start. */
    constructor (bytes: seq<byte>)
      ensures this.bytes == bytes && pos == 0
    {
      this.bytes := bytes;
      pos := 0;
    }

    /** operator<<(bool). */
    method WriteBool(v: bool) returns (dev: Device)
      modifies this
      ensures dev == this && bytes == old(bytes) + BoolBytes(v) && pos == old(pos)
    {
      bytes := bytes + BoolBytes(v);
      dev := this;
    }

    /** operator<<(float). */
    method WriteFloat(f: bits32) returns (dev: Device)
      modifies this
      ensures dev == this && bytes == old(bytes) + FloatBytes(f) && pos == old(pos)
    {
      bytes := bytes + FloatBytes(f);
      dev := this;
    }

    /** operator<<(int). */
    method WriteInt(v: int32) returns (dev: Device)
      modifies this
      ensures dev == this && bytes == old(bytes) + IntBytes(v) && pos == old(pos)
    {
      bytes := bytes + IntBytes(v);
      dev := this;
    }

    /** operator<<(std::string): the length prefix through operator<<(int), then the characters and the NUL. */
    method WriteString(s: seq<byte>) returns (dev: Device)
      requires |s| + 1 < 0x8000_0000
      modifies this
      ensures dev == this && bytes == old(bytes) + StringBytes(s) && pos == old(pos)
    {
      var len := (|s| + 1) as int32;
      dev := WriteInt(len);
      bytes := bytes + s + [0];
    }

    /** operator>>(bool). */
    method ReadBool() returns (v: bool, dev: Device)
      requires pos + 1 <= |bytes|
      modifies this
      ensures dev == this && bytes == old(bytes)
      ensures BoolAt(bytes, old(pos)) == Some((v, pos))
    {
      v := BoolOf(bytes[pos]);
      pos := pos + 1;
      dev := this;
    }

    /** operator>>(float). */
    method ReadFloat() returns (f: bits32, dev: Device)
      requires pos + 4 <= |bytes|
      modifies this
      ensures dev == this && bytes == old(bytes)
      ensures FloatAt(bytes, old(pos)) == Some((f, pos))
    {
      f := FloatOf(bytes[pos..pos + 4]);
      pos := pos + 4;
      dev := this;
    }

    /** operator>>(int). */
    method ReadInt() returns (v: int32, dev: Device)
      requires pos + 4 <= |bytes|
      modifies this
      ensures dev == this && bytes == old(bytes)
      ensures IntAt(bytes, old(pos)) == Some((v, pos))
    {
      v := IntOf(bytes[pos..pos + 4]);
      pos := pos + 4;
      dev := this;
    }

    /** operator>>(std::string): the length through operator>>(int), then a buffer of that many bytes. */
    method ReadString() returns (s: seq<byte>, dev: Device)
      requires StringAt(bytes, pos).Some?
      modifies this
      ensures dev == this && bytes == old(bytes)
      ensures StringAt(bytes, old(pos)) == Some((s, pos))
    {
      var len;
      len, dev := ReadInt();
      var buffer := bytes[pos..pos + len as int];
      pos := pos + len as int;
      s := CString(buffer);
    }
  }
}
