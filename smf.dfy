/** The subset of the Standard MIDI File format (version 1.0) that the
    programs write: a format-0 header chunk, one track chunk, and the five
    kinds of track event they emit.  Besides the writer's layout, this module
    holds a reader for that subset, so that properties of written files can
    be stated as "a reader gets back exactly these events". */
module Smf {
  import opened Wrappers
  import Vlq

  /** A byte value as stored in a `Uint8Array`. */
  predicate IsByte(b: int)
  {
    0 <= b < 256
  }

  predicate AllBytes(s: seq<int>)
  {
    forall i :: 0 <= i < |s| ==> IsByte(s[i])
  }

  /** Character codes of a string, as `charCodeAt` gives them. */
  function Ascii(s: string): (r: seq<int>)
    ensures |r| == |s|
    ensures forall i :: 0 <= i < |s| ==> r[i] == s[i] as int
  {
    if s == [] then [] else [s[0] as int] + Ascii(s[1..])
  }

  /** The two chunk tags, "MThd" and "MTrk" in ASCII. */
  const MThd: seq<int> := [0x4D, 0x54, 0x68, 0x64]
  const MTrk: seq<int> := [0x4D, 0x54, 0x72, 0x6B]

  lemma TagsAreAscii()
    ensures Ascii("MThd") == MThd && Ascii("MTrk") == MTrk
  {
    assert Ascii("MThd") == MThd;
    assert Ascii("MTrk") == MTrk;
  }

  /** `(n >>> 8) & 255, n & 255`: the low 16 bits of `n`, high byte first. */
  function Be16(n: int): seq<int>
  {
    [(n / 0x100) % 0x100, n % 0x100]
  }

  /** `(n >>> 16) & 255, (n >>> 8) & 255, n & 255`. */
  function Be24(n: int): seq<int>
  {
    [(n / 0x1_0000) % 0x100, (n / 0x100) % 0x100, n % 0x100]
  }

  /** `(n >>> 24) & 255, …, n & 255`: the low 32 bits of `n`, high byte first. */
  function Be32(n: int): seq<int>
  {
    [(n / 0x100_0000) % 0x100, (n / 0x1_0000) % 0x100, (n / 0x100) % 0x100, n % 0x100]
  }

  /** The big-endian unsigned value of a run of bytes, as a reader takes it. */
  function Word(bytes: seq<int>): int
  {
    if bytes == [] then 0 else Word(bytes[..|bytes| - 1]) * 0x100 + bytes[|bytes| - 1]
  }

  /** `n % (a * 256)` splits into the byte above the low part and the low
      part `n % a`; stated for each width the writers use. */
  lemma ByteSplit(n: int, a: int)
    requires a == 0x100 || a == 0x1_0000 || a == 0x100_0000
    ensures (n / a) % 0x100 * a + n % a == n % (a * 0x100)
  {
    var q, r := n / a, n % a;
    var hi, lo := q / 0x100, q % 0x100;
    var m := n % (a * 0x100);
    var k := n / (a * 0x100);
    assert n == q * a + r && 0 <= r < a;
    assert q == hi * 0x100 + lo && 0 <= lo < 0x100;
    assert n == k * (a * 0x100) + m && 0 <= m < a * 0x100;
    if a == 0x100 {
      assert n == hi * 0x1_0000 + (lo * 0x100 + r);
      assert k == hi;
    } else if a == 0x1_0000 {
      assert n == hi * 0x100_0000 + (lo * 0x1_0000 + r);
      assert k == hi;
    } else {
      assert n == hi * 0x1_0000_0000 + (lo * 0x100_0000 + r);
      assert k == hi;
    }
  }

  lemma SmallMod(x: int)
    requires 0 <= x < 0x1_0000_0000
    ensures x % 0x1_0000_0000 == x
  {
  }

  /** The 24-bit writer only sees the low 24 bits of its argument. */
  lemma Be24Mod(n: int)
    ensures Be24(n % 0x100_0000) == Be24(n)
  {
    var k, m := n / 0x100_0000, n % 0x100_0000;
    DropHigh(n, k, m, 1);
    DropHigh(n, k, m, 0x100);
    DropHigh(n, k, m, 0x1_0000);
  }

  /** Byte `a` of `n` does not depend on the bits above the 24th. */
  lemma DropHigh(n: int, k: int, m: int, a: int)
    requires a == 1 || a == 0x100 || a == 0x1_0000
    requires n == k * 0x100_0000 + m && 0 <= m < 0x100_0000
    ensures (n / a) % 0x100 == (m / a) % 0x100
  {
    if a == 1 {
      AddBytes(k * 0x1_0000, m);
    } else if a == 0x100 {
      var t := m / 0x100;
      assert n == (k * 0x1_0000 + t) * 0x100 + m % 0x100;
      assert n / 0x100 == k * 0x1_0000 + t;
      AddBytes(k * 0x100, t);
    } else {
      var t := m / 0x1_0000;
      assert n == (k * 0x100 + t) * 0x1_0000 + m % 0x1_0000;
      assert n / 0x1_0000 == k * 0x100 + t;
      AddBytes(k, t);
    }
  }

  lemma AddBytes(q: int, t: int)
    ensures (q * 0x100 + t) % 0x100 == t % 0x100
  {
  }

  lemma WordSmall(s: seq<int>)
    ensures |s| == 2 ==> Word(s) == s[0] * 0x100 + s[1]
    ensures |s| == 3 ==> Word(s) == s[0] * 0x1_0000 + s[1] * 0x100 + s[2]
    ensures |s| == 4 ==> Word(s) == s[0] * 0x100_0000 + s[1] * 0x1_0000 + s[2] * 0x100 + s[3]
  {
    if 2 <= |s| <= 4 {
      assert s[..1][..0] == [];
      assert s[..2][..1] == s[..1];
      assert Word(s[..1]) == s[0];
      assert Word(s[..2]) == s[0] * 0x100 + s[1];
      if |s| >= 3 {
        assert s[..3][..2] == s[..2];
        assert Word(s[..3]) == s[0] * 0x1_0000 + s[1] * 0x100 + s[2];
        if |s| == 4 {
          assert s[..4][..3] == s[..3];
        }
      }
      assert s[..|s|] == s;
    }
  }

  /** Each writer is undone by the reader, up to the width it writes. */
  lemma WordOfBe(n: int)
    ensures AllBytes(Be16(n)) && Word(Be16(n)) == n % 0x1_0000
    ensures AllBytes(Be24(n)) && Word(Be24(n)) == n % 0x100_0000
    ensures AllBytes(Be32(n)) && Word(Be32(n)) == n % 0x1_0000_0000
  {
    ByteSplit(n, 0x100);
    ByteSplit(n, 0x1_0000);
    ByteSplit(n, 0x100_0000);
    WordSmall(Be16(n));
    WordSmall(Be24(n));
    WordSmall(Be32(n));
  }

  /** The events the programs write into a track (all on channel 0). */
  datatype TrackEvent =
    | SetTempo(delta: nat, usPerQuarter: int)
    | ProgramChange(delta: nat, program: int)
    | NoteOn(delta: nat, key: int, velocity: int)
    | NoteOff(delta: nat, key: int, velocity: int)
    | EndOfTrack(delta: nat)

  /** The bytes of one event after its delta-time. */
  function EventBody(e: TrackEvent): seq<int>
  {
    match e
    case SetTempo(_, t) => [0xFF, 0x51, 0x03] + Be24(t)
    case ProgramChange(_, p) => [0xC0, p]
    case NoteOn(_, k, v) => [0x90, k, v]
    case NoteOff(_, k, v) => [0x80, k, v]
    case EndOfTrack(_) => [0xFF, 0x2F, 0x00]
  }

  function EncodeEvent(e: TrackEvent): seq<int>
  {
    Vlq.Encode(e.delta) + EventBody(e)
  }

  function EncodeEvents(es: seq<TrackEvent>): seq<int>
    decreases |es|
  {
    if es == [] then [] else EncodeEvent(es[0]) + EncodeEvents(es[1..])
  }

  lemma {:induction false} EncodeEventsAppend(a: seq<TrackEvent>, b: seq<TrackEvent>)
    ensures EncodeEvents(a + b) == EncodeEvents(a) + EncodeEvents(b)
    decreases |a|
  {
    if a == [] {
      assert a + b == b;
    } else {
      assert (a + b)[1..] == a[1..] + b;
      EncodeEventsAppend(a[1..], b);
    }
  }

  /** What a reader accepts as one event: fields in range, delta within
      four VLQ bytes. */
  predicate ValidEvent(e: TrackEvent)
  {
    e.delta <= Vlq.MaxVlq &&
    match e
    case SetTempo(_, t) => 0 <= t < 0x100_0000
    case ProgramChange(_, p) => 0 <= p < 0x80
    case NoteOn(_, k, v) => 0 <= k < 0x80 && 0 <= v < 0x80
    case NoteOff(_, k, v) => 0 <= k < 0x80 && 0 <= v < 0x80
    case EndOfTrack(_) => true
  }

  /** A track a reader accepts: valid events, exactly one End of Track, last. */
  predicate ValidTrack(es: seq<TrackEvent>)
  {
    |es| >= 1 && es[|es| - 1].EndOfTrack? &&
    (forall i :: 0 <= i < |es| ==> ValidEvent(es[i])) &&
    (forall i :: 0 <= i < |es| - 1 ==> !es[i].EndOfTrack?)
  }

  /** A reader for the event kinds above: it reads events until End of
      Track, which must be the last bytes of the track. */
  function ReadEvents(bytes: seq<int>): Option<seq<TrackEvent>>
    decreases |bytes|, 1
  {
    match Vlq.ReadVlq(bytes)
    case None => None
    case Some((delta, used)) => ReadBody(delta, bytes[used..])
  }

  /** The rest of one event after its delta-time, then the events after it. */
  function ReadBody(delta: nat, b: seq<int>): Option<seq<TrackEvent>>
    decreases |b|, 0
  {
    if |b| >= 3 && b[0] == 0xFF && b[1] == 0x2F && b[2] == 0x00 then
      if |b| == 3 then Some([EndOfTrack(delta)]) else None
    else if |b| >= 6 && b[0] == 0xFF && b[1] == 0x51 && b[2] == 0x03 && AllBytes(b[3..6]) then
      Prepend(SetTempo(delta, Word(b[3..6])), ReadEvents(b[6..]))
    else if |b| >= 2 && b[0] == 0xC0 && 0 <= b[1] < 0x80 then
      Prepend(ProgramChange(delta, b[1]), ReadEvents(b[2..]))
    else if |b| >= 3 && (b[0] == 0x90 || b[0] == 0x80) && 0 <= b[1] < 0x80 && 0 <= b[2] < 0x80 then
      var e := if b[0] == 0x90 then NoteOn(delta, b[1], b[2]) else NoteOff(delta, b[1], b[2]);
      Prepend(e, ReadEvents(b[3..]))
    else None
  }

  function Prepend(e: TrackEvent, rest: Option<seq<TrackEvent>>): Option<seq<TrackEvent>>
  {
    match rest
    case None => None
    case Some(es) => Some([e] + es)
  }

  /** One encoded event in front of a stream: the reader takes it and goes
      on with the stream. */
  lemma ReadEvent(e: TrackEvent, rest: seq<int>)
    requires ValidEvent(e)
    ensures !e.EndOfTrack? ==> ReadEvents(EncodeEvent(e) + rest) == Prepend(e, ReadEvents(rest))
    ensures e.EndOfTrack? ==> ReadEvents(EncodeEvent(e)) == Some([e])
  {
    if e.EndOfTrack? {
      ReadEndOfTrack(e.delta);
    } else {
      ReadDelta(e.delta, EventBody(e) + rest);
      assert EncodeEvent(e) + rest == Vlq.Encode(e.delta) + (EventBody(e) + rest);
      ReadEventBody(e, rest);
    }
  }

  lemma ReadEndOfTrack(delta: nat)
    requires delta <= Vlq.MaxVlq
    ensures ReadEvents(EncodeEvent(EndOfTrack(delta))) == Some([EndOfTrack(delta)])
  {
    ReadDelta(delta, [0xFF, 0x2F, 0x00]);
  }

  /** The reader takes the delta-time off the front and reads the rest. */
  lemma ReadDelta(delta: nat, b: seq<int>)
    requires delta <= Vlq.MaxVlq
    ensures ReadEvents(Vlq.Encode(delta) + b) == ReadBody(delta, b)
  {
    var d := Vlq.Encode(delta);
    Vlq.ReadEncoded(delta, b);
    assert (d + b)[|d|..] == b;
  }

  /** The body of an event other than End of Track, in front of a stream. */
  lemma ReadEventBody(e: TrackEvent, rest: seq<int>)
    requires ValidEvent(e) && !e.EndOfTrack?
    ensures ReadBody(e.delta, EventBody(e) + rest) == Prepend(e, ReadEvents(rest))
  {
    var b := EventBody(e) + rest;
    if e.SetTempo? {
      WordOfBe(e.usPerQuarter);
      assert b[3..6] == Be24(e.usPerQuarter);
      assert b[6..] == rest;
      assert e.usPerQuarter % 0x100_0000 == e.usPerQuarter;
    } else if e.ProgramChange? {
      assert b[2..] == rest;
    } else {
      assert b[3..] == rest;
    }
  }

  /** Reading back an encoded valid track gives exactly its events. */
  lemma {:induction false} ReadEncodedEvents(es: seq<TrackEvent>)
    requires ValidTrack(es)
    ensures ReadEvents(EncodeEvents(es)) == Some(es)
    decreases |es|
  {
    ReadEvent(es[0], EncodeEvents(es[1..]));
    if |es| > 1 {
      assert ValidTrack(es[1..]) by {
        assert forall i :: 0 <= i < |es| - 1 ==> es[1..][i] == es[i + 1];
      }
      ReadEncodedEvents(es[1..]);
      assert es == [es[0]] + es[1..];
    } else {
      assert es[1..] == [] && es == [es[0]];
      assert EncodeEvents(es) == EncodeEvent(es[0]) + [];
      assert EncodeEvent(es[0]) + [] == EncodeEvent(es[0]);
    }
  }

  /** The header chunk: "MThd", length 6, format 0, one track, division. */
  function Header(division: int): seq<int>
  {
    MThd + Be32(6) + Be16(0) + Be16(1) + Be16(division)
  }

  /** A track chunk: "MTrk", the body's length (32 bits), the body. */
  function TrackChunk(body: seq<int>): seq<int>
  {
    MTrk + Be32(|body|) + body
  }

  /** What a reader recovers from a file: the header fields and the events of
      its one track. */
  datatype Image = Image(format: int, tracks: int, division: int, events: seq<TrackEvent>)

  /** A reader for single-track files: checks both chunk tags, the header
      length, that the track length equals the bytes that follow, and reads
      the track's events. */
  function ReadFile(bytes: seq<int>): Option<Image>
  {
    if |bytes| < 22 || !AllBytes(bytes[..22]) then None
    else if bytes[..4] != MThd || Word(bytes[4..8]) != 6 || bytes[14..18] != MTrk then None
    else if Word(bytes[18..22]) != |bytes| - 22 then None
    else
      match ReadEvents(bytes[22..])
      case None => None
      case Some(es) => Some(Image(Word(bytes[8..10]), Word(bytes[10..12]), Word(bytes[12..14]), es))
  }

  lemma HeaderLayout(division: int)
    ensures Header(division) == [0x4D, 0x54, 0x68, 0x64, 0, 0, 0, 6, 0, 0, 0, 1] + Be16(division)
  {
  }

  /** The slices a reader takes of a file made of a 14-byte header, a tag,
      a 4-byte length and a body. */
  lemma FileSlices(h: seq<int>, tag: seq<int>, len: seq<int>, body: seq<int>)
    requires |h| == 14 && |tag| == 4 && |len| == 4
    ensures var f := h + (tag + len + body);
      |f| == 22 + |body| &&
      f[..4] == h[..4] && f[4..8] == h[4..8] && f[8..10] == h[8..10] &&
      f[10..12] == h[10..12] && f[12..14] == h[12..14] &&
      f[14..18] == tag && f[18..22] == len && f[22..] == body && f[..22] == h + tag + len
  {
  }

  /** What a reader takes from the header chunk. */
  lemma HeaderFields(division: int)
    ensures var h := Header(division);
      |h| == 14 && AllBytes(h) && h[..4] == MThd && Word(h[4..8]) == 6 &&
      Word(h[8..10]) == 0 && Word(h[10..12]) == 1 && Word(h[12..14]) == division % 0x1_0000
  {
    var h := Header(division);
    HeaderLayout(division);
    WordOfBe(division);
    WordSmall(h[4..8]);
    WordSmall(h[8..10]);
    WordSmall(h[10..12]);
    assert h[12..14] == Be16(division);
  }

  /** A file made of the header and one track chunk reads back with the
      header's fields and the track's events. */
  lemma ReadChunks(division: int, body: seq<int>, es: seq<TrackEvent>)
    requires ReadEvents(body) == Some(es)
    requires |body| < 0x1_0000_0000
    ensures |Header(division) + TrackChunk(body)| == 22 + |body|
    ensures ReadFile(Header(division) + TrackChunk(body)) == Some(Image(0, 1, division % 0x1_0000, es))
  {
    var h := Header(division);
    var len := Be32(|body|);
    var f := h + (MTrk + len + body);
    assert f == Header(division) + TrackChunk(body);
    HeaderFields(division);
    FileSlices(h, MTrk, len, body);
    assert Word(len) == |body| && AllBytes(len) by {
      WordOfBe(|body|);
      SmallMod(|body|);
    }
    assert AllBytes(f[..22]) by {
      assert f[..22] == h + MTrk + len;
    }
  }

  /** The writer's file reads back as a format-0, one-track file with the
      division truncated to 16 bits and exactly the written events, provided
      the track fits the 32-bit length field. */
  lemma ReadWrittenFile(division: int, es: seq<TrackEvent>)
    requires ValidTrack(es)
    requires |EncodeEvents(es)| < 0x1_0000_0000
    ensures |Header(division) + TrackChunk(EncodeEvents(es))| == 22 + |EncodeEvents(es)|
    ensures ReadFile(Header(division) + TrackChunk(EncodeEvents(es))) == Some(Image(0, 1, division % 0x1_0000, es))
  {
    ReadEncodedEvents(es);
    ReadChunks(division, EncodeEvents(es), es);
  }
}
