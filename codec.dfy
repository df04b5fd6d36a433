/** The wire codec of the TFTP server: a byte cursor over one received
    datagram (TftpReader, which decodes the 16-bit big-endian fields and the
    zero-terminated strings of section 5 of RFC 1350) and the encoders of
    the DATA and ACK packets the server sends. */
module Codec {

  newtype byte = b: int | 0 <= b < 256

  datatype Option<T> = None | Some(value: T)

  /** A decoded field together with the cursor position just after it. */
  datatype Decoded<T> = Decoded(value: T, next: nat)

  // Opcodes (section 5 of RFC 1350).
  const RRQ := 1
  const WRQ := 2
  const DATA := 3
  const ACK := 4

  /** Largest payload of one DATA packet; a shorter one ends a transfer. */
  const BlockSize := 512

  /** Largest value of a 16-bit field, plus one. */
  const FieldRange := 65536

  // ---------------------------------------------------------------------
  // Specification of the reader: what each field decodes to.
  // ---------------------------------------------------------------------

  /** The 16-bit big-endian field starting at `pos`, or None when fewer
      than two bytes remain. */
  function Int16At(data: seq<byte>, pos: nat): (r: Option<Decoded<int>>)
    ensures r.Some? <==> pos + 2 <= |data|
    ensures r.Some? ==> 0 <= r.value.value < FieldRange && r.value.next == pos + 2
  {
    if pos + 2 <= |data| then
      Some(Decoded(data[pos] as int * 256 + data[pos + 1] as int, pos + 2))
    else
      None
  }

  /** Each byte becomes the character with that code point. */
  function Chars(bytes: seq<byte>): (s: string)
    ensures |s| == |bytes|
    ensures forall i :: 0 <= i < |bytes| ==> s[i] as int == bytes[i] as int
  {
    seq(|bytes|, i requires 0 <= i < |bytes| => (bytes[i] as int) as char)
  }

  /** Index of the first zero byte at or after `pos`. */
  function NextZero(data: seq<byte>, pos: nat): (r: Option<nat>)
    decreases |data| - pos
    ensures r.None? <==> forall i :: pos <= i < |data| ==> data[i] != 0
    ensures r.Some? ==> pos <= r.value < |data| && data[r.value] == 0
    ensures r.Some? ==> forall i :: pos <= i < r.value ==> data[i] != 0
  {
    if pos >= |data| then None
    else if data[pos] == 0 then Some(pos)
    else NextZero(data, pos + 1)
  }

  /** The zero-terminated string field starting at `pos`: the characters
      before the first zero byte, and the position just past that zero; None
      when no zero byte remains. */
  function StringAt(data: seq<byte>, pos: nat): (r: Option<Decoded<string>>)
    ensures r.None? <==> forall i :: pos <= i < |data| ==> data[i] != 0
    ensures r.Some? ==>
      pos < r.value.next <= |data| && data[r.value.next - 1] == 0 &&
      (forall i :: pos <= i < r.value.next - 1 ==> data[i] != 0) &&
      r.value.value == Chars(data[pos..r.value.next - 1])
  {
    match NextZero(data, pos)
    case None => None
    case Some(z) => Some(Decoded(Chars(data[pos..z]), z + 1))
  }

  /** A zero byte with no zero before it ends the string field. */
  lemma FirstZero(data: seq<byte>, pos: nat, z: nat)
    requires pos <= z < |data| && data[z] == 0
    requires forall i :: pos <= i < z ==> data[i] != 0
    ensures NextZero(data, pos) == Some(z)
    ensures StringAt(data, pos) == Some(Decoded(Chars(data[pos..z]), z + 1))
  {
  }

  lemma CharsAppend(a: seq<byte>, b: seq<byte>)
    ensures Chars(a + b) == Chars(a) + Chars(b)
  {
  }

  // ---------------------------------------------------------------------
  // The reader (TftpReader, a bytes.Reader with two extra decoders).
  // ---------------------------------------------------------------------

  class TftpReader {
    /** The received datagram. */
    const data: seq<byte>
    /** The read cursor. */
    var pos: nat

    ghost predicate Valid()
      reads this
    {
      pos <= |data|
    }

    /** NewTftpReader: a cursor at the start of `b`. */
    constructor (b: seq<byte>)
      ensures Valid() && data == b && pos == 0
    {
      data := b;
      pos := 0;
    }

    /** The next byte, or None (and no movement) at the end of the data. */
    method ReadByte() returns (r: Option<byte>)
      requires Valid()
      modifies this
      ensures Valid()
      ensures old(pos) < |data| ==> r == Some(data[old(pos)]) && pos == old(pos) + 1
      ensures old(pos) == |data| ==> r == None && pos == old(pos)
    {
      if pos < |data| {
        r := Some(data[pos]);
        pos := pos + 1;
      } else {
        r := None;
      }
    }

    /** Read into a buffer of `n` bytes: None (end of data) when nothing is
        left, even for n == 0; otherwise the next min(n, remaining) bytes. */
    method Read(n: nat) returns (r: Option<seq<byte>>)
      requires Valid()
      modifies this
      ensures Valid()
      ensures old(pos) == |data| ==> r == None && pos == old(pos)
      ensures old(pos) < |data| ==>
        var k := if n < |data| - old(pos) then n else |data| - old(pos);
        r == Some(data[old(pos)..old(pos) + k]) && pos == old(pos) + k
    {
      if pos >= |data| {
        r := None;
      } else {
        var k := if n < |data| - pos then n else |data| - pos;
        r := Some(data[pos..pos + k]);
        pos := pos + k;
      }
    }

    /** A 16-bit big-endian field; on failure the cursor is at the end. */
    method ReadInt16() returns (r: Option<int>)
      requires Valid()
      modifies this
      ensures Valid()
      ensures Int16At(data, old(pos)).None? ==> r == None && pos == |data|
      ensures Int16At(data, old(pos)).Some? ==>
        r == Some(Int16At(data, old(pos)).value.value) && pos == old(pos) + 2
    {
      var upper := ReadByte();
      if upper.None? {
        return None;
      }
      var lower := ReadByte();
      if lower.None? {
        return None;
      }
      r := Some(upper.value as int * 256 + lower.value as int);
    }

    /** A zero-terminated string field; on failure the cursor is at the end
        and no string is returned. */
    method ReadNullTerminatedString() returns (r: Option<string>)
      requires Valid()
      modifies this
      ensures Valid()
      ensures StringAt(data, old(pos)).None? ==> r == None && pos == |data|
      ensures StringAt(data, old(pos)).Some? ==>
        r == Some(StringAt(data, old(pos)).value.value) &&
        pos == StringAt(data, old(pos)).value.next
    {
      ghost var start := pos;
      var s: string := "";
      while true
        invariant Valid() && start <= pos
        invariant forall i :: start <= i < pos ==> data[i] != 0
        invariant s == Chars(data[start..pos])
        decreases |data| - pos
      {
        var b := ReadByte();
        if b.None? {
          return None;
        }
        if b.value == 0 {
          break;
        }
        ghost var before := data[start..pos - 1];
        CharsAppend(before, [b.value]);
        assert data[start..pos] == before + [b.value];
        s := s + Chars([b.value]);
      }
      FirstZero(data, start, pos - 1);
      r := Some(s);
    }
  }

  // ---------------------------------------------------------------------
  // Encoders of the packets the server sends.
  // ---------------------------------------------------------------------

  /** Cutting n into bytes and truncating it to 16 bits commute. */
  lemma ByteSplit(n: nat)
    ensures (n / 256) % 256 == (n % FieldRange) / 256
    ensures n % 256 == (n % FieldRange) % 256
  {
    var q := n / 256;
    assert n == 256 * q + n % 256;
    assert q == 256 * (q / 256) + q % 256;
    assert n == FieldRange * (q / 256) + (256 * (q % 256) + n % 256);
    assert n % FieldRange == 256 * (q % 256) + n % 256;
  }

  /** byte(n >> 8): the high byte of the 16-bit block field. */
  function Hi(n: nat): (b: byte)
    ensures b as int == (n % FieldRange) / 256
  {
    ByteSplit(n);
    ((n / 256) % 256) as byte
  }

  /** byte(n): the low byte of the 16-bit block field. */
  function Lo(n: nat): (b: byte)
    ensures b as int == (n % FieldRange) % 256
  {
    ByteSplit(n);
    (n % 256) as byte
  }

  lemma HiLo(n: nat)
    ensures Hi(n) as int * 256 + Lo(n) as int == n % FieldRange
  {
    var q := n / 256;
    assert n == 256 * q + n % 256;
    assert q == 256 * (q / 256) + q % 256;
    assert n == FieldRange * (q / 256) + (256 * (q % 256) + n % 256);
  }

  /** An ACK packet: opcode 4 and the block number truncated to 16 bits.
      Decoding it gives back opcode 4 and the block number modulo 65536. */
  function AckPacket(blockNumber: nat): (p: seq<byte>)
    ensures |p| == 4
    ensures Int16At(p, 0) == Some(Decoded(ACK, 2))
    ensures Int16At(p, 2) == Some(Decoded(blockNumber % FieldRange, 4))
  {
    HiLo(blockNumber);
    [0, 4, Hi(blockNumber), Lo(blockNumber)]
  }

  /** A DATA packet: opcode 3, the block number truncated to 16 bits, then
      the payload. Decoding it gives back opcode 3, the block number modulo
      65536 and the payload. */
  function DataPacket(blockNumber: nat, payload: seq<byte>): (p: seq<byte>)
    ensures |p| == 4 + |payload| && p[4..] == payload
    ensures Int16At(p, 0) == Some(Decoded(DATA, 2))
    ensures Int16At(p, 2) == Some(Decoded(blockNumber % FieldRange, 4))
  {
    HiLo(blockNumber);
    [0, 3, Hi(blockNumber), Lo(blockNumber)] + payload
  }

  /** Re-encoding a decoded ACK reproduces the original packet. */
  lemma AckReencode(n: nat)
    ensures AckPacket(Int16At(AckPacket(n), 2).value.value) == AckPacket(n)
  {
    var m := n % FieldRange;
    HiLo(n);
    HiLo(m);
    assert Hi(m) == Hi(n) && Lo(m) == Lo(n);
  }

  // ---------------------------------------------------------------------
  // Request packets, as a client builds them: the reference against which
  // the string decoder is checked.
  // ---------------------------------------------------------------------

  /** A string whose characters are all byte values other than zero. */
  predicate IsField(s: string)
  {
    forall i :: 0 <= i < |s| ==> 0 < s[i] as int < 256
  }

  /** The bytes of a string field, terminator included. */
  function FieldBytes(s: string): (b: seq<byte>)
    requires IsField(s)
    ensures |b| == |s| + 1 && b[|s|] == 0
    ensures forall i :: 0 <= i < |s| ==> b[i] as int == s[i] as int
  {
    seq(|s|, i requires 0 <= i < |s| => s[i] as int as byte) + [0]
  }

  /** The characters of a field's bytes, terminator excluded, are the field. */
  lemma CharsOfField(s: string)
    requires IsField(s)
    ensures Chars(FieldBytes(s)[..|s|]) == s
  {
    var c := Chars(FieldBytes(s)[..|s|]);
    forall i | 0 <= i < |s| ensures c[i] == s[i] {
      assert FieldBytes(s)[..|s|][i] == FieldBytes(s)[i];
    }
  }

  /** An RRQ or WRQ packet: opcode, filename, mode (RFC 1350, section 5). */
  function RequestPacket(opcode: byte, filename: string, mode: string): (p: seq<byte>)
    requires IsField(filename) && IsField(mode)
    ensures Int16At(p, 0) == Some(Decoded(opcode as int, 2))
  {
    [0, opcode] + FieldBytes(filename) + FieldBytes(mode)
  }

  /** Decoding an encoded string field, whatever surrounds it, gives back
      the string and moves past its terminator. */
  lemma StringFieldRoundTrip(data: seq<byte>, pos: nat, s: string)
    requires IsField(s)
    requires pos + |s| < |data| && data[pos..pos + |s| + 1] == FieldBytes(s)
    ensures StringAt(data, pos) == Some(Decoded(s, pos + |s| + 1))
  {
    var fb := FieldBytes(s);
    var z := pos + |s|;
    forall i | pos <= i < z ensures data[i] != 0 {
      assert data[i] == fb[i - pos];
    }
    assert data[z] == fb[|s|];
    FirstZero(data, pos, z);
    assert data[pos..z] == fb[..|s|];
    CharsOfField(s);
  }

  /** Both fields of a request decode to what was encoded. */
  lemma RequestRoundTrip(opcode: byte, filename: string, mode: string, rest: seq<byte>)
    requires IsField(filename) && IsField(mode)
    ensures var p := RequestPacket(opcode, filename, mode) + rest;
      StringAt(p, 2) == Some(Decoded(filename, 3 + |filename|)) &&
      StringAt(p, 3 + |filename|) == Some(Decoded(mode, 4 + |filename| + |mode|))
  {
    var p := RequestPacket(opcode, filename, mode) + rest;
    var m := 3 + |filename|;
    assert p[2..m] == FieldBytes(filename);
    StringFieldRoundTrip(p, 2, filename);
    assert p[m..m + |mode| + 1] == FieldBytes(mode);
    StringFieldRoundTrip(p, m, mode);
  }
}
