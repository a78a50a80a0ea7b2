/** The MIDI file builder: it collects note-on/note-off events timed in
    seconds and, on demand, writes them as a format-0 Standard MIDI File with
    a tempo event, a program change, the notes in time order and End of
    Track. */
module MidiBuilder {
  import Vlq
  import Smf
  import Sorting
  import opened Wrappers

  datatype Kind = On | Off

  /** One entry of the builder's list: `{time, type, midi, velocity}`. */
  datatype Event = Event(time: real, kind: Kind, midi: int, velocity: int)

  /** The order the builder sorts by: time, and at equal times a note-on
      before a note-off. */
  predicate EventLe(a: Event, b: Event)
  {
    a.time < b.time || (a.time == b.time && (a.kind == On || b.kind == Off))
  }

  lemma EventLeIsTotalPreorder()
    ensures Sorting.TotalPreorder(EventLe)
  {
  }

  /** The events in the builder's order; a permutation of the input. */
  function SortEvents(events: seq<Event>): (r: seq<Event>)
    ensures multiset(r) == multiset(events) && |r| == |events|
    ensures forall i, j :: 0 <= i < j < |r| ==> EventLe(r[i], r[j])
  {
    EventLeIsTotalPreorder();
    Sorting.SortBy(events, EventLe)
  }

  /** `Math.round`: the nearest integer, halves rounded up. */
  function Round(x: real): int
  {
    (x + 0.5).Floor
  }

  /** `this.ppq * (this.bpm / 60)`, with the bpm as given (no clamping). */
  function TicksPerSecond(ppq: int, bpm: real): real
  {
    ppq as real * (bpm / 60.0)
  }

  /** `Math.round(time * ticksPerSec)`. */
  function TickAt(time: real, ticksPerSec: real): int
  {
    Round(time * ticksPerSec)
  }

  function Tick(e: Event, ppq: int, bpm: real): int
  {
    TickAt(e.time, TicksPerSecond(ppq, bpm))
  }

  /** Microseconds per quarter note, with the bpm clamped to at least 1. */
  function Mpqn(bpm: real): int
  {
    Round(60000000.0 / (if bpm < 1.0 then 1.0 else bpm))
  }

  /** The tick of every event, in list order. */
  function Ticks(evs: seq<Event>, ppq: int, bpm: real): (r: seq<int>)
    ensures |r| == |evs|
    ensures forall i :: 0 <= i < |evs| ==> r[i] == Tick(evs[i], ppq, bpm)
    decreases |evs|
  {
    if evs == [] then []
    else Ticks(evs[..|evs| - 1], ppq, bpm) + [Tick(evs[|evs| - 1], ppq, bpm)]
  }

  /** `Math.max(0, tick - lastTick)`, where `lastTick` starts at 0 and then
      is the previous event's tick. */
  function DeltaAt(ticks: seq<int>, i: int): (d: nat)
    requires 0 <= i < |ticks|
  {
    var last := if i == 0 then 0 else ticks[i - 1];
    if ticks[i] - last > 0 then ticks[i] - last else 0
  }

  /** The channel message the builder writes for one event; both data bytes
      are masked with 0x7F. */
  function NoteMessage(e: Event, delta: nat): Smf.TrackEvent
  {
    if e.kind == On then Smf.NoteOn(delta, e.midi % 0x80, e.velocity % 0x80)
    else Smf.NoteOff(delta, e.midi % 0x80, e.velocity % 0x80)
  }

  /** The messages for a sorted list with the given ticks, one per event,
      each with its delta. */
  function NoteMessages(evs: seq<Event>, ticks: seq<int>): (r: seq<Smf.TrackEvent>)
    requires |ticks| == |evs|
    ensures |r| == |evs|
    decreases |evs|
  {
    if evs == [] then []
    else
      NoteMessages(evs[..|evs| - 1], ticks[..|evs| - 1])
      + [NoteMessage(evs[|evs| - 1], DeltaAt(ticks, |evs| - 1))]
  }

  /** The message at index `i` is event `i`'s, with its delta. */
  lemma {:induction false} NoteMessageAt(evs: seq<Event>, ticks: seq<int>, i: int)
    requires |ticks| == |evs| && 0 <= i < |evs|
    ensures NoteMessages(evs, ticks)[i] == NoteMessage(evs[i], DeltaAt(ticks, i))
    decreases |evs|
  {
    if i < |evs| - 1 {
      var n := |evs| - 1;
      NoteMessageAt(evs[..n], ticks[..n], i);
      assert evs[..n][i] == evs[i];
      assert DeltaAt(ticks[..n], i) == DeltaAt(ticks, i) by {
        assert ticks[..n][i] == ticks[i];
        if i > 0 { assert ticks[..n][i - 1] == ticks[i - 1]; }
      }
    }
  }

  /** Extending a list by one event extends its messages by one. */
  lemma PrefixMessages(evs: seq<Event>, ticks: seq<int>, i: int)
    requires |ticks| == |evs| && 0 <= i < |evs|
    ensures NoteMessages(evs[..i + 1], ticks[..i + 1]) ==
      NoteMessages(evs[..i], ticks[..i]) + [NoteMessage(evs[i], DeltaAt(ticks, i))]
  {
    var p := evs[..i + 1];
    var t := ticks[..i + 1];
    assert p[..i] == evs[..i];
    assert t[..i] == ticks[..i];
    assert p[i] == evs[i];
    assert DeltaAt(t, i) == DeltaAt(ticks, i) by {
      assert t[i] == ticks[i];
      if i > 0 { assert t[i - 1] == ticks[i - 1]; }
    }
  }

  /** Every delta of the sorted list fits in four VLQ bytes (the encoder
      never ends for deltas from 2^28 below 2^32 and wraps modulo 2^32
      above that, which is not modelled). */
  predicate DeltasFit(ticks: seq<int>)
  {
    forall i :: 0 <= i < |ticks| ==> DeltaAt(ticks, i) <= Vlq.MaxVlq
  }

  /** The track's events: tempo, program change 0, the notes in order, End
      of Track.  The tempo field holds the low 24 bits of the clamped mpqn. */
  function TrackEvents(bpm: real, ppq: int, events: seq<Event>): seq<Smf.TrackEvent>
  {
    var evs := SortEvents(events);
    Framed(Mpqn(bpm), NoteMessages(evs, Ticks(evs, ppq, bpm)))
  }

  /** Tempo (low 24 bits of `mpqn`) and program change 0 in front of the
      notes, End of Track after them, all at delta 0. */
  function Framed(mpqn: int, notes: seq<Smf.TrackEvent>): seq<Smf.TrackEvent>
  {
    [Smf.SetTempo(0, mpqn % 0x100_0000), Smf.ProgramChange(0, 0)] + notes + [Smf.EndOfTrack(0)]
  }

  function TrackBytes(bpm: real, ppq: int, events: seq<Event>): seq<int>
  {
    Smf.EncodeEvents(TrackEvents(bpm, ppq, events))
  }

  /** The whole file: header chunk, then the track chunk. */
  function FileBytes(bpm: real, ppq: int, events: seq<Event>): seq<int>
  {
    Smf.Header(ppq) + Smf.TrackChunk(TrackBytes(bpm, ppq, events))
  }

  /** One more note message extends the encoded track by its delta and its
      three bytes. */
  lemma EncodeNextMessage(evs: seq<Event>, ticks: seq<int>, i: int)
    requires |ticks| == |evs| && 0 <= i < |evs|
    ensures var e := evs[i];
      Smf.EncodeEvents(NoteMessages(evs[..i + 1], ticks[..i + 1])) ==
        Smf.EncodeEvents(NoteMessages(evs[..i], ticks[..i])) + (Vlq.Encode(DeltaAt(ticks, i))
        + [if e.kind == On then 0x90 else 0x80, e.midi % 0x80, e.velocity % 0x80])
  {
    PrefixMessages(evs, ticks, i);
    var m := NoteMessage(evs[i], DeltaAt(ticks, i));
    Smf.EncodeEventsAppend(NoteMessages(evs[..i], ticks[..i]), [m]);
    assert Smf.EncodeEvents([m]) == Smf.EncodeEvent(m) + Smf.EncodeEvents([]);
  }

  lemma AppendAssoc(a: seq<int>, b: seq<int>, c: seq<int>)
    ensures (a + b) + c == a + (b + c)
  {
  }

  /** The prelude, the notes and End of Track make up the track's bytes. */
  lemma TrackLayout(mpqn: int, notes: seq<Smf.TrackEvent>)
    ensures Smf.EncodeEvents(Framed(mpqn, notes))
      == [0x00, 0xFF, 0x51, 0x03] + Smf.Be24(mpqn) + [0x00, 0xC0, 0x00] + Smf.EncodeEvents(notes) + [0x00, 0xFF, 0x2F, 0x00]
  {
    var head := [Smf.SetTempo(0, mpqn % 0x100_0000), Smf.ProgramChange(0, 0)];
    Smf.Be24Mod(mpqn);
    Smf.EncodeEventsAppend(head, notes);
    Smf.EncodeEventsAppend(head + notes, [Smf.EndOfTrack(0)]);
    assert Smf.EncodeEvents(head) == [0x00, 0xFF, 0x51, 0x03] + Smf.Be24(mpqn) + [0x00, 0xC0, 0x00] by {
      assert head[1..] == [Smf.ProgramChange(0, 0)];
      assert Vlq.Encode(0) == [0];
    }
    assert Smf.EncodeEvents([Smf.EndOfTrack(0)]) == [0x00, 0xFF, 0x2F, 0x00] by {
      assert Vlq.Encode(0) == [0];
    }
  }

  /** The note loop of the builder: for each sorted event, its tick
      (`Math.round(time * ticksPerSec)`), the delta from the previous tick
      (never negative), the delta as a VLQ, then status, key and velocity. */
  method AppendNotes(track: seq<int>, evs: seq<Event>, ticksPerSec: real, ghost ticks: seq<int>)
    returns (out: seq<int>)
    requires |ticks| == |evs|
    requires forall i :: 0 <= i < |evs| ==> ticks[i] == TickAt(evs[i].time, ticksPerSec)
    requires DeltasFit(ticks)
    ensures out == track + Smf.EncodeEvents(NoteMessages(evs, ticks))
  {
    out := track;
    var lastTick := 0;
    var i := 0;
    while i < |evs|
      invariant 0 <= i <= |evs|
      invariant lastTick == if i == 0 then 0 else ticks[i - 1]
      invariant out == track + Smf.EncodeEvents(NoteMessages(evs[..i], ticks[..i]))
    {
      var message, tick := NextMessage(evs, ticksPerSec, ticks, i, lastTick);
      AppendAssoc(track, Smf.EncodeEvents(NoteMessages(evs[..i], ticks[..i])), message);
      out := out + message;
      lastTick := tick;
      i := i + 1;
    }
    assert evs[..|evs|] == evs && ticks[..|evs|] == ticks;
  }

  /** One round of the note loop: event `i`'s tick, its delta from the
      previous tick, and its message, which extends the encoded notes. */
  method NextMessage(evs: seq<Event>, ticksPerSec: real, ghost ticks: seq<int>, i: int, lastTick: int)
    returns (message: seq<int>, tick: int)
    requires |ticks| == |evs| && 0 <= i < |evs|
    requires ticks[i] == TickAt(evs[i].time, ticksPerSec)
    requires lastTick == if i == 0 then 0 else ticks[i - 1]
    requires DeltaAt(ticks, i) <= Vlq.MaxVlq
    ensures tick == ticks[i]
    ensures Smf.EncodeEvents(NoteMessages(evs[..i + 1], ticks[..i + 1])) ==
      Smf.EncodeEvents(NoteMessages(evs[..i], ticks[..i])) + message
  {
    var e := evs[i];
    tick := TickAt(e.time, ticksPerSec);
    var delta := if 0 > tick - lastTick then 0 else tick - lastTick;
    message := WriteMessage(e, delta);
    EncodeNextMessage(evs, ticks, i);
  }

  /** One event's bytes: the delta as a VLQ, then the status (0x90 for a
      note-on, 0x80 for a note-off), the key and the velocity. */
  method WriteMessage(e: Event, delta: nat) returns (message: seq<int>)
    requires delta <= Vlq.MaxVlq
    ensures message == Vlq.Encode(delta) + [if e.kind == On then 0x90 else 0x80, e.midi % 0x80, e.velocity % 0x80]
  {
    var d := Vlq.WriteVlq(delta);
    var status := if e.kind == On then 0x90 else 0x80;
    message := d + [status, e.midi % 0x80, e.velocity % 0x80];
  }

  /** With every delta in range, the note messages are events a reader
      accepts, none of them End of Track. */
  lemma NotesValid(evs: seq<Event>, ticks: seq<int>)
    requires |ticks| == |evs| && DeltasFit(ticks)
    ensures forall i :: 0 <= i < |evs| ==>
      Smf.ValidEvent(NoteMessages(evs, ticks)[i]) && !NoteMessages(evs, ticks)[i].EndOfTrack?
  {
    forall i | 0 <= i < |evs|
      ensures Smf.ValidEvent(NoteMessages(evs, ticks)[i]) && !NoteMessages(evs, ticks)[i].EndOfTrack?
    {
      NoteMessageAt(evs, ticks, i);
    }
  }

  /** Framing valid notes gives a track a reader accepts. */
  lemma FramedValid(mpqn: int, notes: seq<Smf.TrackEvent>)
    requires forall i :: 0 <= i < |notes| ==> Smf.ValidEvent(notes[i]) && !notes[i].EndOfTrack?
    ensures Smf.ValidTrack(Framed(mpqn, notes))
  {
    var es := Framed(mpqn, notes);
    assert forall i :: 2 <= i < |es| - 1 ==> es[i] == notes[i - 2];
  }

  /** With every delta in range, the track is one a reader accepts: valid
      events and a single End of Track, at the end. */
  lemma TrackEventsValid(bpm: real, ppq: int, events: seq<Event>)
    requires var evs := SortEvents(events); DeltasFit(Ticks(evs, ppq, bpm))
    ensures Smf.ValidTrack(TrackEvents(bpm, ppq, events))
  {
    var evs := SortEvents(events);
    var ticks := Ticks(evs, ppq, bpm);
    var notes := NoteMessages(evs, ticks);
    NotesValid(evs, ticks);
    assert forall i :: 0 <= i < |notes| ==> Smf.ValidEvent(notes[i]) && !notes[i].EndOfTrack?;
    FramedValid(Mpqn(bpm), notes);
  }

  /** A reader of the built file gets back a format-0, one-track file whose
      division is the ppq truncated to 16 bits and whose events are exactly
      the track's: tempo, program change, the notes, End of Track. */
  lemma ReadBuiltFile(bpm: real, ppq: int, events: seq<Event>)
    requires var evs := SortEvents(events); DeltasFit(Ticks(evs, ppq, bpm))
    requires |TrackBytes(bpm, ppq, events)| < 0x1_0000_0000
    ensures Smf.ReadFile(FileBytes(bpm, ppq, events)) ==
      Some(Smf.Image(0, 1, ppq % 0x1_0000, TrackEvents(bpm, ppq, events)))
  {
    TrackEventsValid(bpm, ppq, events);
    Smf.ReadWrittenFile(ppq, TrackEvents(bpm, ppq, events));
  }

  /** The byte layout of a file holding a framed track: the 14 header
      bytes, "MTrk", the track length, the track; the track opens with the
      tempo and program change and closes with End of Track. */
  lemma FramedFileLayout(ppq: int, mpqn: int, notes: seq<Smf.TrackEvent>)
    ensures var t := Smf.EncodeEvents(Framed(mpqn, notes));
      var f := Smf.Header(ppq) + Smf.TrackChunk(t);
      |f| == 22 + |t| && |t| >= 14 &&
      f[..14] == [0x4D, 0x54, 0x68, 0x64, 0, 0, 0, 6, 0, 0, 0, 1] + Smf.Be16(ppq) &&
      f[14..18] == [0x4D, 0x54, 0x72, 0x6B] &&
      f[18..22] == Smf.Be32(|t|) && f[22..] == t &&
      t[..10] == [0x00, 0xFF, 0x51, 0x03] + Smf.Be24(mpqn) + [0x00, 0xC0, 0x00] &&
      t[|t| - 4..] == [0x00, 0xFF, 0x2F, 0x00] &&
      (|t| < 0x1_0000_0000 ==> Smf.Word(f[18..22]) == |t|)
  {
    var t := Smf.EncodeEvents(Framed(mpqn, notes));
    TrackLayout(mpqn, notes);
    Smf.HeaderLayout(ppq);
    Smf.FileSlices(Smf.Header(ppq), Smf.MTrk, Smf.Be32(|t|), t);
    Smf.WordOfBe(|t|);
    if |t| < 0x1_0000_0000 {
      Smf.SmallMod(|t|);
    }
  }

  /** The layout above for the builder's file. */
  lemma FileLayout(bpm: real, ppq: int, events: seq<Event>)
    ensures var f := FileBytes(bpm, ppq, events);
      var t := TrackBytes(bpm, ppq, events);
      |f| == 22 + |t| && |t| >= 14 &&
      f[..14] == [0x4D, 0x54, 0x68, 0x64, 0, 0, 0, 6, 0, 0, 0, 1] + Smf.Be16(ppq) &&
      f[14..18] == [0x4D, 0x54, 0x72, 0x6B] &&
      f[18..22] == Smf.Be32(|t|) && f[22..] == t &&
      t[..10] == [0x00, 0xFF, 0x51, 0x03] + Smf.Be24(Mpqn(bpm)) + [0x00, 0xC0, 0x00] &&
      t[|t| - 4..] == [0x00, 0xFF, 0x2F, 0x00] &&
      (|t| < 0x1_0000_0000 ==> Smf.Word(f[18..22]) == |t|)
  {
    var evs := SortEvents(events);
    FramedFileLayout(ppq, Mpqn(bpm), NoteMessages(evs, Ticks(evs, ppq, bpm)));
  }

  /** 120 bpm is 500000 microseconds per quarter, written 07 A1 20; any
      bpm up to 1 counts as 1. */
  lemma TempoExamples()
    ensures Mpqn(120.0) == 500000 && Smf.Be24(500000) == [0x07, 0xA1, 0x20]
    ensures forall bpm :: bpm <= 1.0 ==> Mpqn(bpm) == 60000000
  {
  }

  /** From 4 bpm up the tempo fits the 24-bit field, so the written field
      is the mpqn itself. */
  lemma TempoFits(bpm: real)
    requires bpm >= 4.0
    ensures 0 <= Mpqn(bpm) < 0x100_0000
    ensures Mpqn(bpm) % 0x100_0000 == Mpqn(bpm)
  {
    var q := 60000000.0 / bpm;
    assert q * bpm == 60000000.0;
    assert q <= 15000000.0;
    assert q > 0.0;
    assert Mpqn(bpm) == Round(q);
    assert 0 <= Round(q) <= 15000000;
  }

  /** Below about 3.58 bpm the mpqn overflows 24 bits and only its low 24
      bits are written: at 2 bpm the field holds 13222784, not 30000000. */
  lemma SlowTempoWraps()
    ensures Mpqn(2.0) == 30000000
    ensures TrackEvents(2.0, 480, [])[0] == Smf.SetTempo(0, 13222784)
  {
  }

  /** The note messages follow the sorted events one for one: a
      permutation of the builder's events, by time with note-on first at
      equal times, each with its status, its key and velocity masked to
      seven bits. */
  lemma NotesFollowEvents(bpm: real, ppq: int, events: seq<Event>)
    ensures var evs := SortEvents(events);
      var notes := NoteMessages(evs, Ticks(evs, ppq, bpm));
      multiset(evs) == multiset(events) && |notes| == |events| &&
      (forall i, j :: 0 <= i < j < |evs| ==> EventLe(evs[i], evs[j])) &&
      forall i :: 0 <= i < |notes| ==>
        (notes[i].NoteOn? || notes[i].NoteOff?) &&
        (notes[i].NoteOn? <==> evs[i].kind == On) &&
        notes[i].key == evs[i].midi % 0x80 && 0 <= notes[i].key < 0x80 &&
        notes[i].velocity == evs[i].velocity % 0x80 && 0 <= notes[i].velocity < 0x80
  {
    var evs := SortEvents(events);
    var ticks := Ticks(evs, ppq, bpm);
    forall i | 0 <= i < |evs|
      ensures var m := NoteMessages(evs, ticks)[i];
        (m.NoteOn? || m.NoteOff?) && (m.NoteOn? <==> evs[i].kind == On) &&
        m.key == evs[i].midi % 0x80 && m.velocity == evs[i].velocity % 0x80
    {
      NoteMessageAt(evs, ticks, i);
    }
  }

  /** The absolute tick a reader reaches after the first `n` note
      messages: the sum of their deltas. */
  function AbsoluteTick(ticks: seq<int>, n: int): int
    requires 0 <= n <= |ticks|
  {
    if n == 0 then 0 else AbsoluteTick(ticks, n - 1) + DeltaAt(ticks, n - 1)
  }

  /** When the ticks start at 0 or later and never go down, no delta is
      clamped, and summing the deltas gives back every event's tick. */
  lemma {:induction false} DeltasAccumulate(ticks: seq<int>, n: int)
    requires 0 < n <= |ticks|
    requires ticks[0] >= 0
    requires forall i :: 0 < i < |ticks| ==> ticks[i - 1] <= ticks[i]
    ensures AbsoluteTick(ticks, n) == ticks[n - 1]
  {
    if n > 1 {
      DeltasAccumulate(ticks, n - 1);
    }
  }

  lemma TickMonotone(a: real, b: real, ticksPerSec: real)
    requires a <= b && ticksPerSec >= 0.0
    ensures TickAt(a, ticksPerSec) <= TickAt(b, ticksPerSec)
  {
    assert (b - a) * ticksPerSec >= 0.0;
  }

  /** For non-negative times, ppq and bpm, the sorted events' ticks start at
      0 or later and never go down, so a reader summing the deltas places
      every note message at its event's tick. */
  lemma ReaderTicksMatch(bpm: real, ppq: int, events: seq<Event>)
    requires bpm >= 0.0 && ppq >= 0
    requires forall e :: e in events ==> e.time >= 0.0
    ensures var evs := SortEvents(events);
      var ticks := Ticks(evs, ppq, bpm);
      forall n :: 0 < n <= |evs| ==> AbsoluteTick(ticks, n) == Tick(evs[n - 1], ppq, bpm)
  {
    var evs := SortEvents(events);
    var ticks := Ticks(evs, ppq, bpm);
    var tps := TicksPerSecond(ppq, bpm);
    assert tps >= 0.0;
    if |evs| > 0 {
      assert evs[0] in multiset(events);
      TickMonotone(0.0, evs[0].time, tps);
      forall i | 0 < i < |ticks|
        ensures ticks[i - 1] <= ticks[i]
      {
        assert EventLe(evs[i - 1], evs[i]);
        TickMonotone(evs[i - 1].time, evs[i].time, tps);
      }
      forall n | 0 < n <= |evs|
        ensures AbsoluteTick(ticks, n) == Tick(evs[n - 1], ppq, bpm)
      {
        DeltasAccumulate(ticks, n);
      }
    }
  }

  /** The header chunk as both writers push it: "MThd", the length 6, format
      0, one track, the division. */
  method WriteHeader(ppq: int) returns (bytes: seq<int>)
    ensures bytes == Smf.Header(ppq)
  {
    bytes := [];
    bytes := bytes + Smf.Ascii("MThd");
    bytes := bytes + Smf.Be32(6);
    bytes := bytes + Smf.Be16(0);
    bytes := bytes + Smf.Be16(1);
    bytes := bytes + Smf.Be16(ppq);
    Smf.TagsAreAscii();
  }

  /** The start of the track: a Set Tempo meta event with the low 24 bits of
      `mpqn`, then a program change to instrument 0 on channel 0. */
  method WritePrelude(mpqn: int) returns (track: seq<int>)
    ensures track == [0x00, 0xFF, 0x51, 0x03] + Smf.Be24(mpqn) + [0x00, 0xC0, 0x00]
  {
    track := [];
    var zero := Vlq.WriteVlq(0);
    track := track + zero + [0xFF, 0x51, 0x03] + Smf.Be24(mpqn);
    zero := Vlq.WriteVlq(0);
    track := track + zero + [0xC0, 0x00];
  }

  /** "MTrk", the 32-bit length of the track, the track, after the header. */
  method WrapTrack(header: seq<int>, track: seq<int>) returns (bytes: seq<int>)
    ensures bytes == header + Smf.TrackChunk(track)
  {
    bytes := header;
    bytes := bytes + Smf.Ascii("MTrk");
    bytes := bytes + Smf.Be32(|track|);
    bytes := bytes + track;
    Smf.TagsAreAscii();
    AppendAssoc(header, Smf.MTrk, Smf.Be32(|track|));
    AppendAssoc(header, Smf.MTrk + Smf.Be32(|track|), track);
  }

  class MidiFileBuilder {
    const bpm: real
    const ppq: int
    var events: seq<Event>

    constructor (bpm: real := 120.0, ppq: int := 480)
      ensures this.bpm == bpm && this.ppq == ppq && events == []
    {
      this.bpm := bpm;
      this.ppq := ppq;
      events := [];
    }

    /** Appends a note-on at `startTime` and a note-off (velocity 64) at
        `startTime + duration`. */
    method AddNote(midi: int, startTime: real, duration: real, velocity: int := 100)
      modifies this
      ensures events == old(events) + [Event(startTime, On, midi, velocity), Event(startTime + duration, Off, midi, 64)]
    {
      events := events + [Event(startTime, On, midi, velocity)];
      events := events + [Event(startTime + duration, Off, midi, 64)];
    }

    /** Writes the file for the current events; the event list is not
        changed, so two calls in a row give the same bytes. */
    method BuildFile() returns (bytes: seq<int>)
      requires var evs := SortEvents(events); DeltasFit(Ticks(evs, ppq, bpm))
      ensures bytes == FileBytes(bpm, ppq, events)
    {
      var evs := SortEvents(events);
      var mpqn := Mpqn(bpm);
      var header := WriteHeader(ppq);
      var track := WritePrelude(mpqn);
      ghost var ticks := Ticks(evs, ppq, bpm);
      var ticksPerSec := TicksPerSecond(ppq, bpm);
      track := AppendNotes(track, evs, ticksPerSec, ticks);
      track := track + [0x00, 0xFF, 0x2F, 0x00];
      TrackLayout(mpqn, NoteMessages(evs, ticks));
      assert track == TrackBytes(bpm, ppq, events);
      bytes := WrapTrack(header, track);
    }
  }
}
