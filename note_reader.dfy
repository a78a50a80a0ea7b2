/** The older, edge-triggered note reader: for every key of the chosen
    scale it reads one pixel, compares its average channel distance with a
    threshold, and keeps the list of held notes. A key that starts matching
    gets one fixed note of half a second; a key that stops matching is
    released. */
module NoteReading {
  import opened Colors
  import MidiBuilder
  import PianoLayout
  import VideoReading
  import UiControls

  predicate IsDigit(c: char)
  {
    '0' <= c <= '9'
  }

  /** `note.replace(/\d+$/, '')`: the note name without the digits at its
      end ("C#4" becomes "C#"). */
  function StripTrailingDigits(s: string): (r: string)
    ensures |r| <= |s| && r == s[..|r|]
    ensures |r| == 0 || !IsDigit(r[|r| - 1])
    ensures forall i :: |r| <= i < |s| ==> IsDigit(s[i])
    decreases |s|
  {
    if |s| > 0 && IsDigit(s[|s| - 1]) then StripTrailingDigits(s[..|s| - 1]) else s
  }

  /** `filter(n => n !== note)`: every occurrence of `x` dropped, the rest
      kept in order. */
  function Remove(xs: seq<string>, x: string): (r: seq<string>)
    ensures forall y :: y in r <==> y in xs && y != x
    ensures |r| <= |xs|
    decreases |xs|
  {
    if xs == [] then []
    else (if xs[0] == x then [] else [xs[0]]) + Remove(xs[1..], x)
  }

  predicate NoDup(xs: seq<string>)
  {
    forall i, j :: 0 <= i < j < |xs| ==> xs[i] != xs[j]
  }

  lemma {:induction false} RemoveNoDup(xs: seq<string>, x: string)
    requires NoDup(xs)
    ensures NoDup(Remove(xs, x))
    decreases |xs|
  {
    if xs != [] {
      var tail := xs[1..];
      assert NoDup(tail) by {
        assert forall i :: 0 <= i < |tail| ==> tail[i] == xs[i + 1];
      }
      RemoveNoDup(tail, x);
      assert xs[0] !in tail;
      var r := Remove(xs, x);
      if xs[0] != x {
        assert r == [xs[0]] + Remove(tail, x);
        forall i, j | 0 <= i < j < |r|
          ensures r[i] != r[j]
        {
          if i == 0 {
            assert r[j] == Remove(tail, x)[j - 1];
          } else {
            assert r[i] == Remove(tail, x)[i - 1] && r[j] == Remove(tail, x)[j - 1];
          }
        }
      }
    }
  }

  /** The colour test: the summed channel distance divided by three below
      the threshold. */
  predicate Close(pixel: Color, target: Color, threshold: real)
  {
    (VideoReading.Distance(pixel, target) as real) / 3.0 < threshold
  }

  /** The held notes and the builder's note events. */
  datatype Held = Held(prevReads: seq<string>, notes: seq<MidiBuilder.Event>)

  /** The note added on a rising edge: `addNote(midi, time, 0.5)` with the
      default velocity. */
  function RisingNote(midi: int, time: real): seq<MidiBuilder.Event>
  {
    [MidiBuilder.Event(time, MidiBuilder.On, midi, 100), MidiBuilder.Event(time + 0.5, MidiBuilder.Off, midi, 64)]
  }

  /** What one key's test does to the held notes and the notes. */
  function ToggleKey(scale: seq<string>, key: PianoLayout.Key, pixel: Color, target: Color, threshold: real,
                     time: real, h: Held): Held
  {
    if StripTrailingDigits(key.note) !in scale then h
    else if Close(pixel, target, threshold) then
      if key.note in h.prevReads then h
      else Held(h.prevReads + [key.note], h.notes + RisingNote(key.midi, time))
    else Held(Remove(h.prevReads, key.note), h.notes)
  }

  /** A whole update: the keys in the order of the key array, key `i` with
      the pixel read for it. */
  function UpdateFrame(scale: seq<string>, keys: seq<PianoLayout.Key>, pixels: seq<Color>, target: Color,
                       threshold: real, time: real, h: Held): Held
    requires |pixels| == |keys|
    decreases |keys|
  {
    if keys == [] then h
    else
      var m := |keys| - 1;
      ToggleKey(scale, keys[m], pixels[m], target, threshold, time,
        UpdateFrame(scale, keys[..m], pixels[..m], target, threshold, time, h))
  }

  class NoteReader {
    const keyArray: seq<PianoLayout.Key>
    const scanHeight: int
    const keyScale: seq<string>
    const midiBuilder: MidiBuilder.MidiFileBuilder
    var prevReads: seq<string>

    constructor (keyArray: seq<PianoLayout.Key>, scanHeight: int, keyScale: seq<string> := [])
      ensures this.keyArray == keyArray && this.scanHeight == scanHeight && this.keyScale == keyScale
      ensures prevReads == [] && fresh(midiBuilder) && midiBuilder.events == []
    {
      this.keyArray := keyArray;
      this.scanHeight := scanHeight;
      this.keyScale := keyScale;
      prevReads := [];
      midiBuilder := new MidiBuilder.MidiFileBuilder();
    }

    /** `update`: every key of the key array, key `i` with the pixel read at
        its position; the detection colour is parsed from its hex string.
        The held list never gets a duplicate. */
    method Update(pixels: seq<Color>, detectionColorHex: string, threshold: real, currentTime: real)
      requires |pixels| == |keyArray|
      modifies this, midiBuilder
      ensures Held(prevReads, midiBuilder.events) ==
        UpdateFrame(keyScale, keyArray, pixels, HexToRgb(detectionColorHex), threshold, currentTime,
          Held(old(prevReads), old(midiBuilder.events)))
      ensures NoDup(old(prevReads)) ==> NoDup(prevReads)
    {
      ghost var h0 := Held(prevReads, midiBuilder.events);
      for j := 0 to |keyArray|
        invariant Held(prevReads, midiBuilder.events) ==
          UpdateFrame(keyScale, keyArray[..j], pixels[..j], HexToRgb(detectionColorHex), threshold, currentTime, h0)
      {
        ToggleOne(keyArray[j], pixels[j], detectionColorHex, threshold, currentTime);
        assert keyArray[..j + 1][..j] == keyArray[..j] && pixels[..j + 1][..j] == pixels[..j];
      }
      assert keyArray[..|keyArray|] == keyArray && pixels[..|keyArray|] == pixels;
      if NoDup(h0.prevReads) {
        UpdateFrameNoDup(keyScale, keyArray, pixels, HexToRgb(detectionColorHex), threshold, currentTime, h0);
      }
    }

    /** The callback `forEach` runs for one key. */
    method ToggleOne(key: PianoLayout.Key, pixel: Color, detectionColorHex: string, threshold: real, currentTime: real)
      modifies this, midiBuilder
      ensures Held(prevReads, midiBuilder.events) ==
        ToggleKey(keyScale, key, pixel, HexToRgb(detectionColorHex), threshold, currentTime,
          Held(old(prevReads), old(midiBuilder.events)))
    {
      var noteName := StripTrailingDigits(key.note);
      if noteName !in keyScale {
        return;
      }
      var detectionColor := HexToRgb(detectionColorHex);
      var difference := (VideoReading.Abs(pixel.r - detectionColor.r) + VideoReading.Abs(pixel.g - detectionColor.g)
        + VideoReading.Abs(pixel.b - detectionColor.b)) as real;
      difference := difference / 3.0;
      if difference < threshold {
        if key.note !in prevReads {
          prevReads := prevReads + [key.note];
          midiBuilder.AddNote(key.midi, currentTime, 0.5);
        }
      } else {
        prevReads := Remove(prevReads, key.note);
      }
    }
  }

  /** One key's test keeps the held list free of duplicates. */
  lemma ToggleNoDup(scale: seq<string>, key: PianoLayout.Key, pixel: Color, target: Color, threshold: real,
                    time: real, h: Held)
    requires NoDup(h.prevReads)
    ensures NoDup(ToggleKey(scale, key, pixel, target, threshold, time, h).prevReads)
  {
    if StripTrailingDigits(key.note) in scale && !Close(pixel, target, threshold) {
      RemoveNoDup(h.prevReads, key.note);
    }
  }

  lemma {:induction false} UpdateFrameNoDup(scale: seq<string>, keys: seq<PianoLayout.Key>, pixels: seq<Color>,
                                            target: Color, threshold: real, time: real, h: Held)
    requires |pixels| == |keys| && NoDup(h.prevReads)
    ensures NoDup(UpdateFrame(scale, keys, pixels, target, threshold, time, h).prevReads)
    decreases |keys|
  {
    if keys != [] {
      var m := |keys| - 1;
      UpdateFrameNoDup(scale, keys[..m], pixels[..m], target, threshold, time, h);
      ToggleNoDup(scale, keys[m], pixels[m], target, threshold, time,
        UpdateFrame(scale, keys[..m], pixels[..m], target, threshold, time, h));
    }
  }

  /** One key's test: a key outside the scale changes nothing; otherwise no
      other note's hold changes, the notes only grow, a match appends the key
      to the held list and adds a note exactly when the key was not held,
      and a miss releases the key without adding one. */
  lemma ToggleScope(scale: seq<string>, key: PianoLayout.Key, pixel: Color, target: Color, threshold: real,
                    time: real, h: Held)
    ensures var r := ToggleKey(scale, key, pixel, target, threshold, time, h);
      (StripTrailingDigits(key.note) !in scale ==> r == h) &&
      (forall n :: n != key.note ==> (n in r.prevReads <==> n in h.prevReads)) &&
      (StripTrailingDigits(key.note) in scale && Close(pixel, target, threshold) ==>
        key.note in r.prevReads &&
        r.prevReads == h.prevReads + (if key.note in h.prevReads then [] else [key.note]) &&
        r.notes == h.notes + (if key.note in h.prevReads then [] else RisingNote(key.midi, time))) &&
      (StripTrailingDigits(key.note) in scale && !Close(pixel, target, threshold) ==>
        key.note !in r.prevReads && r.prevReads == Remove(h.prevReads, key.note) && r.notes == h.notes)
  {
  }

  /** Keys outside the scale are skipped, so with the constructor's default
      empty scale an update changes nothing. */
  lemma {:induction false} OutsideScale(scale: seq<string>, keys: seq<PianoLayout.Key>, pixels: seq<Color>,
                                        target: Color, threshold: real, time: real, h: Held)
    requires |pixels| == |keys|
    requires forall i :: 0 <= i < |keys| ==> StripTrailingDigits(keys[i].note) !in scale
    ensures UpdateFrame(scale, keys, pixels, target, threshold, time, h) == h
    ensures UpdateFrame([], keys, pixels, target, threshold, time, h) == h
    decreases |keys|
  {
    if keys != [] {
      var m := |keys| - 1;
      assert forall i :: 0 <= i < m ==> keys[..m][i] == keys[i];
      OutsideScale(scale, keys[..m], pixels[..m], target, threshold, time, h);
    }
  }

  /** The same key tested over several frames, each with its pixel and
      time. */
  function KeyFrames(scale: seq<string>, key: PianoLayout.Key, frames: seq<(Color, real)>, target: Color,
                     threshold: real, h: Held): Held
    decreases |frames|
  {
    if frames == [] then h
    else
      var m := |frames| - 1;
      ToggleKey(scale, key, frames[m].0, target, threshold, frames[m].1,
        KeyFrames(scale, key, frames[..m], target, threshold, h))
  }

  /** A key of the scale that is not held and then matches on `k >= 1`
      frames in a row gets exactly one note, at the first of them, and is
      held afterwards. */
  lemma {:induction false} OneNotePerRun(scale: seq<string>, key: PianoLayout.Key, frames: seq<(Color, real)>,
                                         target: Color, threshold: real, h: Held)
    requires StripTrailingDigits(key.note) in scale && key.note !in h.prevReads
    requires |frames| >= 1
    requires forall i :: 0 <= i < |frames| ==> Close(frames[i].0, target, threshold)
    ensures var r := KeyFrames(scale, key, frames, target, threshold, h);
      r.notes == h.notes + RisingNote(key.midi, frames[0].1) && key.note in r.prevReads
    decreases |frames|
  {
    var m := |frames| - 1;
    if m > 0 {
      var p := frames[..m];
      assert p[0] == frames[0];
      assert forall i :: 0 <= i < m ==> p[i] == frames[i];
      OneNotePerRun(scale, key, p, target, threshold, h);
    }
  }

  /** Digits are stripped only at the end of the name. */
  lemma StripExamples()
    ensures StripTrailingDigits("C#4") == "C#"
    ensures StripTrailingDigits("A0") == "A"
    ensures StripTrailingDigits("C10") == "C"
    ensures StripTrailingDigits("D") == "D"
    ensures StripTrailingDigits("4C") == "4C"
  {
    assert "C#4"[..2] == "C#";
    assert "A0"[..1] == "A";
    assert "C10"[..2] == "C1" && "C1"[..1] == "C";
  }

  /** This reader averages the distance over the three channels, unlike the
      frame-by-frame reader: a grey of 30 is close to black under a
      threshold of 65 here, and no match there with the default options. */
  lemma AveragedDistance()
    ensures Close(Color(30, 30, 30), Black, 65.0)
    ensures !Close(Color(65, 65, 65), Black, 65.0)
    ensures !VideoReading.IsMatch(UiControls.DefaultOptions, Color(30, 30, 30))
  {
  }
}
