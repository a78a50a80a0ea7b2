/** MIDI variable-length quantities (VLQ), as used for delta-times in a
    Standard MIDI File: seven data bits per byte, most significant group
    first, bit 0x80 set on every byte except the last. */
module Vlq {
  import opened Wrappers

  /** Largest value that fits in four VLQ bytes. */
  const MaxVlq: int := 0x0FFF_FFFF

  /** The reference encoding: the 7-bit groups of `v`, most significant
      first, the last one plain and every earlier one flagged with 0x80. */
  function Encode(v: nat): seq<int>
    decreases v
  {
    if v < 128 then [v] else Flagged(v / 128) + [v % 128]
  }

  /** The groups of `v` (at least one), every one of them flagged with 0x80. */
  function Flagged(v: nat): seq<int>
    decreases v
  {
    if v < 128 then [v + 128] else Flagged(v / 128) + [v % 128 + 128]
  }

  /** Big-endian value of the low seven bits of each byte. */
  function Decode(bytes: seq<int>): int
  {
    DecodeFrom(0, bytes)
  }

  /** The value of `bytes` read after an already accumulated `acc`. */
  function DecodeFrom(acc: int, bytes: seq<int>): int
    decreases |bytes|
  {
    if bytes == [] then acc else DecodeFrom(acc * 128 + bytes[0] % 128, bytes[1..])
  }

  lemma {:induction false} DecodeSnoc(acc: int, a: seq<int>, b: int)
    ensures DecodeFrom(acc, a + [b]) == DecodeFrom(acc, a) * 128 + b % 128
    decreases |a|
  {
    if a == [] {
      assert a + [b] == [b];
    } else {
      assert (a + [b])[1..] == a[1..] + [b];
      DecodeSnoc(acc * 128 + a[0] % 128, a[1..], b);
    }
  }

  /** A reader's view: consume one VLQ from the front of `bytes` (at most
      four bytes, stopping at the first byte below 0x80) and return its value
      and the number of bytes consumed. */
  function ReadVlq(bytes: seq<int>): (r: Option<(nat, nat)>)
    ensures r.Some? ==> 1 <= r.value.1 <= |bytes| && r.value.1 <= 4
  {
    ReadGroups(bytes, 0, 0)
  }

  function ReadGroups(bytes: seq<int>, acc: nat, used: nat): (r: Option<(nat, nat)>)
    requires used <= 3
    ensures r.Some? ==> used + 1 <= r.value.1 <= used + |bytes| && r.value.1 <= 4
    decreases |bytes|
  {
    if bytes == [] || !(0 <= bytes[0] < 256) then None
    else if bytes[0] < 128 then Some((acc * 128 + bytes[0], used + 1))
    else if used == 3 then None
    else
      ReadGroups(bytes[1..], acc * 128 + (bytes[0] - 128), used + 1)
  }

  /** Shape of an encoding: bytes in 0..255, continuation bit on all but the
      last byte. */
  ghost predicate WellFormed(bytes: seq<int>)
  {
    |bytes| >= 1 &&
    (forall i :: 0 <= i < |bytes| ==> 0 <= bytes[i] < 256) &&
    (forall i :: 0 <= i < |bytes| - 1 ==> bytes[i] >= 128) &&
    bytes[|bytes| - 1] < 128
  }

  lemma {:induction false} FlaggedShape(v: nat)
    ensures |Flagged(v)| >= 1
    ensures forall i :: 0 <= i < |Flagged(v)| ==> 128 <= Flagged(v)[i] < 256
    ensures Decode(Flagged(v)) == v
    decreases v
  {
    if v >= 128 {
      FlaggedShape(v / 128);
      DecodeSnoc(0, Flagged(v / 128), v % 128 + 128);
      assert (v % 128 + 128) % 128 == v % 128;
      assert Flagged(v) == Flagged(v / 128) + [v % 128 + 128];
    } else {
      assert [v + 128][1..] == [];
      assert DecodeFrom(0, [v + 128]) == DecodeFrom((v + 128) % 128, []);
      assert Flagged(v) == [v + 128];
    }
  }

  /** Decoding the 7-bit groups gives back the value, and the bytes have
      the continuation-bit shape. */
  lemma {:induction false} EncodeDecode(v: nat)
    ensures WellFormed(Encode(v))
    ensures Decode(Encode(v)) == v
  {
    if v >= 128 {
      FlaggedShape(v / 128);
      DecodeSnoc(0, Flagged(v / 128), v % 128);
      assert Encode(v) == Flagged(v / 128) + [v % 128];
    } else {
      assert [v][1..] == [];
      assert DecodeFrom(0, [v]) == DecodeFrom(v % 128, []);
      assert Encode(v) == [v];
    }
  }

  lemma {:induction false} FlaggedLength(v: nat, k: nat)
    requires v < Pow128(k + 1)
    ensures |Flagged(v)| <= k + 1
    decreases k
  {
    assert Pow128(1) == 128;
    if v >= 128 {
      assert v / 128 < Pow128(k);
      FlaggedLength(v / 128, k - 1);
    }
  }

  function Pow128(k: nat): nat
  {
    if k == 0 then 1 else 128 * Pow128(k - 1)
  }

  /** Values up to 0x0FFFFFFF take one to four bytes. */
  lemma EncodeLength(v: nat)
    requires v <= MaxVlq
    ensures 1 <= |Encode(v)| <= 4
  {
    if v >= 128 {
      assert Pow128(3) == 0x20_0000;
      FlaggedLength(v / 128, 2);
    }
  }

  /** The reader consumes exactly one encoding from the front of a stream and
      returns its value. */
  lemma {:induction false} ReadEncoded(v: nat, rest: seq<int>)
    requires v <= MaxVlq
    ensures ReadVlq(Encode(v) + rest) == Some((v, |Encode(v)|))
  {
    EncodeLength(v);
    EncodeDecode(v);
    ReadWellFormed(Encode(v), rest, 0, 0);
  }

  lemma {:induction false} ReadWellFormed(bytes: seq<int>, rest: seq<int>, acc: nat, used: nat)
    requires WellFormed(bytes)
    requires used + |bytes| <= 4
    ensures ReadGroups(bytes + rest, acc, used) == Some((DecodeFrom(acc, bytes), used + |bytes|))
    decreases |bytes|
  {
    var s := bytes + rest;
    assert s[0] == bytes[0];
    if |bytes| > 1 {
      assert s[1..] == bytes[1..] + rest;
      var tail := bytes[1..];
      assert WellFormed(tail) by {
        assert forall i :: 0 <= i < |tail| ==> tail[i] == bytes[i + 1];
      }
      ReadWellFormed(tail, rest, acc * 128 + (bytes[0] - 128), used + 1);
    } else {
      assert bytes[1..] == [];
    }
  }

  /** The bytes the second loop of the encoder emits from a packed
      register: the low byte first, continuing while it carries 0x80. */
  function Unpack(buffer: nat): seq<int>
    decreases buffer
  {
    if buffer % 256 >= 128 then [buffer % 256] + Unpack(buffer / 256) else [buffer % 256]
  }

  /** The encoder as the source writes it: the first loop packs the 7-bit
      groups into a register (the least significant group in the highest
      byte, every later one flagged with 0x80), the second emits the bytes
      from the low end until one without 0x80.  The register never reaches
      2^31, so the source's 32-bit shifts agree with the integer arithmetic
      here.  The source's shifts see the value modulo 2^32 as a signed
      32-bit number: its loops never end for 2^28 <= v < 2^32 and for
      negative values, and above 2^32 the value wraps modulo 2^32, which is
      not modelled; the precondition excludes all of these. */
  method WriteVlq(value: int) returns (bytes: seq<int>)
    requires 0 <= value <= MaxVlq
    ensures bytes == Encode(value)
    ensures WellFormed(bytes) && 1 <= |bytes| <= 4 && Decode(bytes) == value
  {
    var buffer := PackGroups(value);
    bytes := EmitBytes(buffer);
    EncodeDecode(value);
    EncodeLength(value);
  }

  /** The first loop of the encoder: the register whose bytes, read from
      the low end, are the encoding. */
  method PackGroups(value: int) returns (buffer: int)
    requires 0 <= value <= MaxVlq
    ensures 0 <= buffer < 0x8000_0000 && Unpack(buffer) == Encode(value)
  {
    var v := value;
    buffer := v % 128;
    ghost var n := 0;
    v := v / 128;
    assert Encode(value) == (if v == 0 then [] else Flagged(v)) + Unpack(buffer);
    while v != 0
      invariant 0 <= n <= 3 && 0 <= v < GroupsLeft(n) && 0 <= buffer < RegisterBound(n)
      invariant Encode(value) == (if v == 0 then [] else Flagged(v)) + Unpack(buffer)
    {
      PackStep(v, buffer);
      PackBound(n, v, buffer);
      buffer := buffer * 256 + (v % 128 + 128);
      v := v / 128;
      n := n + 1;
    }
  }

  /** Bound on the groups still to pack after `n` rounds of the first loop. */
  function GroupsLeft(n: nat): nat
  {
    if n == 0 then 0x20_0000 else if n == 1 then 0x4000 else if n == 2 then 0x80 else 1
  }

  /** Bound on the register after `n` rounds of the first loop. */
  function RegisterBound(n: nat): nat
  {
    if n == 0 then 0x80 else if n == 1 then 0x8000 else if n == 2 then 0x80_0000 else 0x8000_0000
  }

  lemma PackBound(n: nat, v: nat, buffer: nat)
    requires n <= 3 && 0 < v < GroupsLeft(n) && buffer < RegisterBound(n)
    ensures n + 1 <= 3 && v / 128 < GroupsLeft(n + 1)
    ensures buffer * 256 + (v % 128 + 128) < RegisterBound(n + 1)
  {
    assert buffer * 256 <= (RegisterBound(n) - 1) * 256;
  }

  /** The second loop of the encoder: bytes from the low end of the
      register, up to and including the first one without 0x80. */
  method EmitBytes(buffer: int) returns (bytes: seq<int>)
    requires 0 <= buffer < 0x8000_0000
    ensures bytes == Unpack(buffer)
  {
    var rest := buffer;
    bytes := [];
    while true
      invariant 0 <= rest < 0x8000_0000
      invariant bytes + Unpack(rest) == Unpack(buffer)
      decreases rest
    {
      UnpackStep(rest);
      bytes := bytes + [rest % 256];
      if rest % 256 >= 128 {
        rest := rest / 256;
      } else {
        break;
      }
    }
  }

  /** One round of the packing loop keeps the groups still to pack,
      followed by the register's bytes, equal to the encoding. */
  lemma PackStep(v: nat, buffer: nat)
    requires v != 0
    ensures Flagged(v) + Unpack(buffer) ==
      (if v / 128 == 0 then [] else Flagged(v / 128)) + Unpack(buffer * 256 + (v % 128 + 128))
  {
    var x := v % 128 + 128;
    assert (buffer * 256 + x) % 256 == x && (buffer * 256 + x) / 256 == buffer;
    assert Unpack(buffer * 256 + x) == [x] + Unpack(buffer);
    if v / 128 == 0 {
      assert Flagged(v) == [x];
    } else {
      assert Flagged(v) == Flagged(v / 128) + [x];
    }
  }

  /** One round of the emitting loop: the low byte, then the rest when it
      carries 0x80. */
  lemma UnpackStep(buffer: nat)
    ensures Unpack(buffer) ==
      [buffer % 256] + (if buffer % 256 >= 128 then Unpack(buffer / 256) else [])
  {
  }

  /** The sample encodings the MIDI file format documents. */
  lemma EncodeExamples()
    ensures Encode(0) == [0x00]
    ensures Encode(127) == [0x7F]
    ensures Encode(128) == [0x81, 0x00]
    ensures Encode(16384) == [0x81, 0x80, 0x00]
    ensures Encode(0x0FFF_FFFF) == [0xFF, 0xFF, 0xFF, 0x7F]
  {
  }
}
