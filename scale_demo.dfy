/** The stand-alone demo page: it writes a fixed C-major scale as a
    format-0 Standard MIDI File (tempo, program change, eight notes one
    after the other, End of Track) and shows the file as a hex dump. */
module ScaleDemo {
  import Vlq
  import Smf
  import Colors
  import MidiBuilder
  import opened Wrappers

  /** MIDI 60 to 72, C4 D4 E4 F4 G4 A4 B4 C5 in the usual naming where
      MIDI 60 is C4 (the piano layout counts octaves from A and calls it C3). */
  const ScaleKeys: seq<int> := [60, 62, 64, 65, 67, 69, 71, 72]

  /** `Math.max(1, Math.round(ppq * noteLenQ))`: the length of each note in
      ticks, never below one tick. */
  function DurTicks(ppq: int, noteLenQ: real): (d: nat)
    ensures d >= 1
    ensures d >= MidiBuilder.Round(ppq as real * noteLenQ)
    ensures d == 1 || d == MidiBuilder.Round(ppq as real * noteLenQ)
  {
    var t := MidiBuilder.Round(ppq as real * noteLenQ);
    if t < 1 then 1 else t
  }

  /** For each key, a note-on (velocity 72) right away and its note-off
      (velocity 64) `dur` ticks later. */
  function ScaleNotes(keys: seq<int>, dur: nat): (r: seq<Smf.TrackEvent>)
    ensures |r| == 2 * |keys|
    decreases |keys|
  {
    if keys == [] then []
    else ScaleNotes(keys[..|keys| - 1], dur) + NotePair(keys[|keys| - 1], dur)
  }

  function NotePair(key: int, dur: nat): seq<Smf.TrackEvent>
  {
    [Smf.NoteOn(0, key, 0x48), Smf.NoteOff(dur, key, 0x40)]
  }

  /** Events `2 i` and `2 i + 1` are the note-on and note-off of key `i`. */
  lemma {:induction false} ScaleNotesAt(keys: seq<int>, dur: nat, i: int)
    requires 0 <= i < |keys|
    ensures ScaleNotes(keys, dur)[2 * i] == Smf.NoteOn(0, keys[i], 0x48)
    ensures ScaleNotes(keys, dur)[2 * i + 1] == Smf.NoteOff(dur, keys[i], 0x40)
    decreases |keys|
  {
    var n := |keys| - 1;
    if i < n {
      ScaleNotesAt(keys[..n], dur, i);
    }
  }

  /** The track of the demo file: the builder's framing (the same tempo
      field and program change, End of Track) around the scale. */
  function ScaleTrack(bpm: real, ppq: int, noteLenQ: real): seq<Smf.TrackEvent>
  {
    MidiBuilder.Framed(MidiBuilder.Mpqn(bpm), ScaleNotes(ScaleKeys, DurTicks(ppq, noteLenQ)))
  }

  function ScaleFile(bpm: real, ppq: int, noteLenQ: real): seq<int>
  {
    Smf.Header(ppq) + Smf.TrackChunk(Smf.EncodeEvents(ScaleTrack(bpm, ppq, noteLenQ)))
  }

  /** The bytes of one key's pair of events. */
  lemma EncodePair(key: int, dur: nat)
    ensures Smf.EncodeEvents(NotePair(key, dur)) ==
      Vlq.Encode(0) + [0x90, key, 0x48] + (Vlq.Encode(dur) + [0x80, key, 0x40])
  {
    var pair := NotePair(key, dur);
    assert pair[1..] == [Smf.NoteOff(dur, key, 0x40)];
    assert pair[1..][1..] == [];
    assert Smf.EncodeEvents(pair[1..]) == Vlq.Encode(dur) + [0x80, key, 0x40] + [];
  }

  /** Appending one key's pair of events to the notes appends its bytes. */
  lemma EncodeNextPair(keys: seq<int>, j: int, dur: nat)
    requires 0 <= j < |keys|
    ensures Smf.EncodeEvents(ScaleNotes(keys[..j + 1], dur)) ==
      Smf.EncodeEvents(ScaleNotes(keys[..j], dur)) + Smf.EncodeEvents(NotePair(keys[j], dur))
  {
    var k := keys[..j + 1];
    assert k[..j] == keys[..j] && k[j] == keys[j];
    assert ScaleNotes(k, dur) == ScaleNotes(keys[..j], dur) + NotePair(keys[j], dur);
    Smf.EncodeEventsAppend(ScaleNotes(keys[..j], dur), NotePair(keys[j], dur));
  }

  /** One round of the note loop: delta 0 and a note-on with velocity 72,
      then the note length as delta and a note-off with velocity 64. */
  method PushNote(track: seq<int>, n: int, durTicks: nat) returns (out: seq<int>)
    requires durTicks <= Vlq.MaxVlq
    ensures out == track + Smf.EncodeEvents(NotePair(n, durTicks))
  {
    var v := Vlq.WriteVlq(0);
    var on := v + [0x90, n, 0x48];
    v := Vlq.WriteVlq(durTicks);
    var off := v + [0x80, n, 0x40];
    out := track + (on + off);
    EncodePair(n, durTicks);
  }

  /** The note loop of `buildCScaleMIDI`: for each key, delta 0 and a
      note-on, then the note length as delta and the note-off. */
  method PushScale(track: seq<int>, notes: seq<int>, durTicks: nat) returns (out: seq<int>)
    requires durTicks <= Vlq.MaxVlq
    ensures out == track + Smf.EncodeEvents(ScaleNotes(notes, durTicks))
  {
    out := track;
    for j := 0 to |notes|
      invariant out == track + Smf.EncodeEvents(ScaleNotes(notes[..j], durTicks))
    {
      out := PushNote(out, notes[j], durTicks);
      EncodeNextPair(notes, j, durTicks);
      MidiBuilder.AppendAssoc(track, Smf.EncodeEvents(ScaleNotes(notes[..j], durTicks)),
        Smf.EncodeEvents(NotePair(notes[j], durTicks)));
    }
    assert notes[..|notes|] == notes;
  }

  /** `buildCScaleMIDI`: header, tempo and program change, the eight note
      pairs in a loop, End of Track, then "MTrk" and the track length. */
  method BuildCScaleMidi(bpm: real := 120.0, ppq: int := 480, noteLenQ: real := 1.0) returns (bytes: seq<int>)
    requires DurTicks(ppq, noteLenQ) <= Vlq.MaxVlq
    ensures bytes == ScaleFile(bpm, ppq, noteLenQ)
  {
    var header := MidiBuilder.WriteHeader(ppq);
    var mpqn := MidiBuilder.Mpqn(bpm);
    var track := MidiBuilder.WritePrelude(mpqn);
    ghost var prelude := track;
    var durTicks := DurTicks(ppq, noteLenQ);
    track := PushScale(track, ScaleKeys, durTicks);
    var v := Vlq.WriteVlq(0);
    track := track + (v + [0xFF, 0x2F, 0x00]);
    MidiBuilder.TrackLayout(mpqn, ScaleNotes(ScaleKeys, durTicks));
    assert track == Smf.EncodeEvents(ScaleTrack(bpm, ppq, noteLenQ));
    bytes := MidiBuilder.WrapTrack(header, track);
  }

  /** Every key's pair of events takes seven bytes plus the VLQ of the
      note length. */
  lemma {:induction false} ScaleNotesLength(keys: seq<int>, dur: nat)
    ensures |Smf.EncodeEvents(ScaleNotes(keys, dur))| == |keys| * (7 + |Vlq.Encode(dur)|)
    decreases |keys|
  {
    if keys != [] {
      var n := |keys| - 1;
      var c := 7 + |Vlq.Encode(dur)|;
      ScaleNotesLength(keys[..n], dur);
      EncodeNextPair(keys, n, dur);
      EncodePair(keys[n], dur);
      assert keys[..n + 1] == keys;
      Distribute(n, c);
    }
  }

  lemma Distribute(n: int, c: int)
    ensures (n + 1) * c == n * c + c
  {
  }

  /** The demo file's layout: the 14 header bytes, "MTrk", a length word
      equal to the track's length, the tempo and program change, the
      sixteen note events, End of Track. */
  lemma ScaleLayout(bpm: real, ppq: int, noteLenQ: real)
    requires DurTicks(ppq, noteLenQ) <= Vlq.MaxVlq
    ensures var t := Smf.EncodeEvents(ScaleTrack(bpm, ppq, noteLenQ));
      var f := ScaleFile(bpm, ppq, noteLenQ);
      var d := Vlq.Encode(DurTicks(ppq, noteLenQ));
      |t| == 14 + 8 * (7 + |d|) && |t| <= 102 && |f| == 22 + |t| &&
      f[..14] == [0x4D, 0x54, 0x68, 0x64, 0, 0, 0, 6, 0, 0, 0, 1] + Smf.Be16(ppq) &&
      f[14..18] == [0x4D, 0x54, 0x72, 0x6B] &&
      Smf.Word(f[18..22]) == |t| && f[22..] == t &&
      t[..10] == [0x00, 0xFF, 0x51, 0x03] + Smf.Be24(MidiBuilder.Mpqn(bpm)) + [0x00, 0xC0, 0x00] &&
      t[|t| - 4..] == [0x00, 0xFF, 0x2F, 0x00]
  {
    var dur := DurTicks(ppq, noteLenQ);
    var notes := ScaleNotes(ScaleKeys, dur);
    MidiBuilder.FramedFileLayout(ppq, MidiBuilder.Mpqn(bpm), notes);
    MidiBuilder.TrackLayout(MidiBuilder.Mpqn(bpm), notes);
    ScaleNotesLength(ScaleKeys, dur);
    Vlq.EncodeLength(dur);
  }

  /** A reader of the demo file gets a format-0, one-track file holding
      exactly the scale track. */
  lemma ReadScaleFile(bpm: real, ppq: int, noteLenQ: real)
    requires DurTicks(ppq, noteLenQ) <= Vlq.MaxVlq
    ensures Smf.ReadFile(ScaleFile(bpm, ppq, noteLenQ)) ==
      Some(Smf.Image(0, 1, ppq % 0x1_0000, ScaleTrack(bpm, ppq, noteLenQ)))
  {
    var dur := DurTicks(ppq, noteLenQ);
    var notes := ScaleNotes(ScaleKeys, dur);
    forall i | 0 <= i < |notes|
      ensures Smf.ValidEvent(notes[i]) && !notes[i].EndOfTrack?
    {
      var k := i / 2;
      assert i == 2 * k || i == 2 * k + 1;
      ScaleNotesAt(ScaleKeys, dur, k);
      assert 0 <= ScaleKeys[k] < 0x80;
    }
    MidiBuilder.FramedValid(MidiBuilder.Mpqn(bpm), notes);
    ScaleLayout(bpm, ppq, noteLenQ);
    Smf.ReadWrittenFile(ppq, ScaleTrack(bpm, ppq, noteLenQ));
  }

  /** The track holds the tempo, the program change, the eight keys in
      order as note-on/note-off pairs, then End of Track. */
  lemma ScaleTrackEvents(bpm: real, ppq: int, noteLenQ: real)
    ensures var es := ScaleTrack(bpm, ppq, noteLenQ);
      var dur := DurTicks(ppq, noteLenQ);
      |es| == 19 &&
      es[0] == Smf.SetTempo(0, MidiBuilder.Mpqn(bpm) % 0x100_0000) &&
      es[1] == Smf.ProgramChange(0, 0) &&
      (forall i :: 0 <= i < 8 ==>
        es[2 + 2 * i] == Smf.NoteOn(0, ScaleKeys[i], 0x48) &&
        es[3 + 2 * i] == Smf.NoteOff(dur, ScaleKeys[i], 0x40)) &&
      es[18] == Smf.EndOfTrack(0)
  {
    var dur := DurTicks(ppq, noteLenQ);
    var notes := ScaleNotes(ScaleKeys, dur);
    var es := ScaleTrack(bpm, ppq, noteLenQ);
    assert forall j :: 0 <= j < 16 ==> es[2 + j] == notes[j];
    forall i | 0 <= i < 8
      ensures es[2 + 2 * i] == Smf.NoteOn(0, ScaleKeys[i], 0x48)
      ensures es[3 + 2 * i] == Smf.NoteOff(dur, ScaleKeys[i], 0x40)
    {
      ScaleNotesAt(ScaleKeys, dur, i);
    }
  }

  /** One byte as `toString(16).padStart(2, '0')`. */
  function ByteHex(b: int): string
  {
    Colors.PadStart2(Colors.ToHex(b))
  }

  /** `join(' ')`: the parts separated by single spaces. */
  function Joined(parts: seq<string>): string
    decreases |parts|
  {
    if |parts| == 0 then ""
    else if |parts| == 1 then parts[0]
    else Joined(parts[..|parts| - 1]) + " " + parts[|parts| - 1]
  }

  /** `toHex`: every byte mapped to its two hex digits, joined by spaces. */
  function HexDump(bytes: seq<int>): string
  {
    Joined(seq(|bytes|, i requires 0 <= i < |bytes| => ByteHex(bytes[i])))
  }

  lemma ByteHexLength(b: int)
    requires 0 <= b < 256
    ensures |ByteHex(b)| == 2
  {
    Colors.TwoDigits(b);
  }

  /** Joining two-character parts puts part `i` at `3 i` and a space after
      every part but the last. */
  lemma {:induction false} JoinedLayout(parts: seq<string>)
    requires |parts| > 0
    requires forall i :: 0 <= i < |parts| ==> |parts[i]| == 2
    ensures |Joined(parts)| == 3 * |parts| - 1
    ensures forall i :: 0 <= i < |parts| ==>
      Joined(parts)[3 * i] == parts[i][0] && Joined(parts)[3 * i + 1] == parts[i][1]
    ensures forall i :: 0 <= i < |parts| - 1 ==> Joined(parts)[3 * i + 2] == ' '
    decreases |parts|
  {
    var n := |parts| - 1;
    if n > 0 {
      var p := parts[..n];
      JoinedLayout(p);
      var h := Joined(p);
      var d := Joined(parts);
      assert d == h + " " + parts[n];
      forall i | 0 <= i <= n
        ensures d[3 * i] == parts[i][0] && d[3 * i + 1] == parts[i][1]
      {
        if i < n {
          assert p[i] == parts[i];
        }
      }
      forall i | 0 <= i < n
        ensures d[3 * i + 2] == ' '
      {
        if i < n - 1 {
          assert d[3 * i + 2] == h[3 * i + 2];
        } else {
          assert d[3 * i + 2] == d[|h|];
        }
      }
    }
  }

  /** Two characters that show a byte in hex read back as the byte. */
  lemma PairReadBack(d: string, j: int, b: int)
    requires 0 <= b < 256 && 0 <= j && j + 2 <= |d|
    requires d[j] == ByteHex(b)[0] && d[j + 1] == ByteHex(b)[1]
    ensures d[j .. j + 2] == [Colors.HexChar(b / 16), Colors.HexChar(b % 16)]
    ensures Colors.AllHexDigits(d[j .. j + 2]) && Colors.PairValue(d[j .. j + 2]) == b
  {
    Colors.TwoDigits(b);
    Colors.PairOfChannel(b);
  }

  /** For bytes in 0..255 the dump is three characters per byte less the
      last space; each byte shows at `3 i` as its two lowercase hex digits,
      which read back as the byte, and neighbours are separated by a space. */
  lemma HexDumpReadBack(bytes: seq<int>)
    requires Smf.AllBytes(bytes) && |bytes| > 0
    ensures |HexDump(bytes)| == 3 * |bytes| - 1
    ensures forall i :: 0 <= i < |bytes| ==>
      HexDump(bytes)[3 * i .. 3 * i + 2] == [Colors.HexChar(bytes[i] / 16), Colors.HexChar(bytes[i] % 16)] &&
      Colors.AllHexDigits(HexDump(bytes)[3 * i .. 3 * i + 2]) &&
      Colors.PairValue(HexDump(bytes)[3 * i .. 3 * i + 2]) == bytes[i]
    ensures forall i :: 0 <= i < |bytes| - 1 ==> HexDump(bytes)[3 * i + 2] == ' '
  {
    var parts := seq(|bytes|, i requires 0 <= i < |bytes| => ByteHex(bytes[i]));
    forall i | 0 <= i < |parts|
      ensures |parts[i]| == 2
    {
      ByteHexLength(bytes[i]);
    }
    JoinedLayout(parts);
    var d := Joined(parts);
    forall i | 0 <= i < |bytes|
      ensures d[3 * i .. 3 * i + 2] == [Colors.HexChar(bytes[i] / 16), Colors.HexChar(bytes[i] % 16)]
      ensures Colors.AllHexDigits(d[3 * i .. 3 * i + 2]) && Colors.PairValue(d[3 * i .. 3 * i + 2]) == bytes[i]
    {
      PairReadBack(d, 3 * i, bytes[i]);
    }
  }

  /** Three bytes dump as their three parts with a space between each. */
  lemma HexDumpThree(a: int, b: int, c: int)
    ensures HexDump([a, b, c]) == ByteHex(a) + " " + ByteHex(b) + " " + ByteHex(c)
  {
    var parts := [ByteHex(a), ByteHex(b), ByteHex(c)];
    assert seq(3, i requires 0 <= i < 3 => ByteHex([a, b, c][i])) == parts;
    assert parts[..2] == [ByteHex(a), ByteHex(b)] && parts[..2][..1] == [ByteHex(a)];
    assert Joined(parts[..2]) == ByteHex(a) + " " + ByteHex(b);
  }

  lemma HexDumpExamples()
    ensures HexDump([]) == ""
    ensures HexDump([0x4D, 0x00, 0xFF]) == "4d 00 ff"
  {
    Colors.TwoDigits(0x4D);
    Colors.TwoDigits(0x00);
    Colors.TwoDigits(0xFF);
    HexDumpThree(0x4D, 0x00, 0xFF);
  }
}
