/** The frame-by-frame key detector: for every key it takes the median
    colour around the key's x position in one pixel row of the frame,
    compares it with the detection colour, and keeps per note a count of
    consecutive matching frames. When a run of at least `detectionTime`
    frames ends, one note as long as the run is added to the MIDI builder. */
module VideoReading {
  import opened Colors
  import MedianFilter
  import MidiBuilder
  import PianoLayout
  import UiControls

  function Abs(x: int): nat
  {
    if x < 0 then -x else x
  }

  /** Sum of the channel differences (not divided by three). */
  function Distance(c: Color, target: Color): nat
  {
    Abs(c.r - target.r) + Abs(c.g - target.g) + Abs(c.b - target.b)
  }

  predicate IsMatch(opts: UiControls.Options, c: Color)
  {
    Distance(c, opts.colorDetect) < opts.colorThreshold
  }

  /** `count * 1.0 / fps`: how long a run of `count` frames lasted. */
  function Duration(count: int, fps: real): real
    requires fps != 0.0
  {
    count as real / fps
  }

  /** The per-note counters and the builder's note events. */
  datatype Reads = Reads(counts: map<string, int>, events: seq<MidiBuilder.Event>)

  /** The note the builder gets when a run ends: `addNote(midi, time -
      duration, duration)` with the default velocity. */
  function NoteEnding(midi: int, time: real, duration: real): seq<MidiBuilder.Event>
  {
    [MidiBuilder.Event(time - duration, MidiBuilder.On, midi, 100),
     MidiBuilder.Event(time - duration + duration, MidiBuilder.Off, midi, 64)]
  }

  /** What one key's test does to the counters and the notes. */
  function KeyUpdate(opts: UiControls.Options, key: PianoLayout.Key, matched: bool, time: real, s: Reads): Reads
    requires opts.fps != 0.0
  {
    if matched then
      Reads(s.counts[key.note := if key.note in s.counts then s.counts[key.note] + 1 else 1], s.events)
    else
      var emitted :=
        if key.note in s.counts && s.counts[key.note] >= opts.detectionTime then
          NoteEnding(key.midi, time, Duration(s.counts[key.note], opts.fps))
        else [];
      Reads(s.counts[key.note := 0], s.events + emitted)
  }

  /** One key of a frame: the median pixel at `floor(key.x)`, the colour
      test, the counter update. */
  function KeyStep(opts: UiControls.Options, key: PianoLayout.Key, row: seq<int>, width: int, time: real, s: Reads): Reads
    requires |row| == 4 * width && opts.fps != 0.0
  {
    var c := MedianFilter.MedianPixel(row, width, key.x.Floor, opts.medianKernel);
    KeyUpdate(opts, key, IsMatch(opts, c), time, s)
  }

  /** A whole frame: the keys in the order of the key array. */
  function FrameStep(opts: UiControls.Options, keys: seq<PianoLayout.Key>, row: seq<int>, width: int, time: real, s: Reads): Reads
    requires |row| == 4 * width && opts.fps != 0.0
    decreases |keys|
  {
    if keys == [] then s
    else KeyStep(opts, keys[|keys| - 1], row, width, time, FrameStep(opts, keys[..|keys| - 1], row, width, time, s))
  }

  class VideoReader {
    const options: UiControls.Settings
    const keyArray: seq<PianoLayout.Key>
    const midiBuilder: MidiBuilder.MidiFileBuilder
    var prevReads: map<string, int>

    constructor (options: UiControls.Settings, keyArray: seq<PianoLayout.Key>)
      ensures this.options == options && this.keyArray == keyArray
      ensures fresh(midiBuilder) && midiBuilder.events == []
      ensures midiBuilder.bpm == 120.0 && midiBuilder.ppq == 480
      ensures prevReads == map[]
    {
      this.options := options;
      this.keyArray := keyArray;
      midiBuilder := new MidiBuilder.MidiFileBuilder();
      prevReads := map[];
    }

    /** `getMedian`: no samples give 0, otherwise the element at index
        `n / 2` after sorting. */
    static method GetMedian(arr: seq<int>) returns (m: int)
      ensures m == MedianFilter.Median(arr)
    {
      if |arr| == 0 {
        return 0;
      }
      var sorted := MedianFilter.SortInts(arr);
      m := sorted[|arr| / 2];
    }

    /** The sampling loop of `getMedianPixel`: each channel of the pixels
        within `k / 2` of `position` that lie in the row, in ascending order. */
    static method CollectSamples(pixelArray: seq<int>, width: int, position: int, k: int)
      returns (rValues: seq<int>, gValues: seq<int>, bValues: seq<int>)
      requires |pixelArray| == 4 * width
      ensures rValues == MedianFilter.Samples(pixelArray, MedianFilter.Window(width, position, k), 0)
      ensures gValues == MedianFilter.Samples(pixelArray, MedianFilter.Window(width, position, k), 1)
      ensures bValues == MedianFilter.Samples(pixelArray, MedianFilter.Window(width, position, k), 2)
    {
      var lo, hi := position - k / 2, position + k / 2;
      rValues, gValues, bValues := [], [], [];
      ghost var idx: seq<int> := [];
      var i := lo;
      while i <= hi
        invariant lo <= i && (i <= hi + 1 || i == lo)
        invariant idx == MedianFilter.InBounds(width, lo, i - 1)
        invariant rValues == MedianFilter.Samples(pixelArray, idx, 0)
        invariant gValues == MedianFilter.Samples(pixelArray, idx, 1)
        invariant bValues == MedianFilter.Samples(pixelArray, idx, 2)
        decreases hi - i
      {
        InBoundsStep(width, lo, i);
        rValues, gValues, bValues, idx := TakeSample(pixelArray, width, i, rValues, gValues, bValues, idx);
        i := i + 1;
      }
    }

    /** One round of the sampling loop: the pixel at `i`, when it lies in the
        row, adds its red, green and blue values to the samples. */
    static method TakeSample(pixelArray: seq<int>, width: int, i: int,
                             rValues: seq<int>, gValues: seq<int>, bValues: seq<int>, ghost idx: seq<int>)
      returns (rNext: seq<int>, gNext: seq<int>, bNext: seq<int>, ghost idxNext: seq<int>)
      requires |pixelArray| == 4 * width
      requires forall j :: 0 <= j < |idx| ==> 0 <= idx[j] < width
      requires rValues == MedianFilter.Samples(pixelArray, idx, 0)
      requires gValues == MedianFilter.Samples(pixelArray, idx, 1)
      requires bValues == MedianFilter.Samples(pixelArray, idx, 2)
      ensures idxNext == idx + (if 0 <= i < width then [i] else [])
      ensures rNext == MedianFilter.Samples(pixelArray, idxNext, 0)
      ensures gNext == MedianFilter.Samples(pixelArray, idxNext, 1)
      ensures bNext == MedianFilter.Samples(pixelArray, idxNext, 2)
    {
      rNext, gNext, bNext, idxNext := rValues, gValues, bValues, idx;
      if !(i < 0 || i >= width) {
        var index := i * 4;
        rNext := rValues + [pixelArray[index]];
        gNext := gValues + [pixelArray[index + 1]];
        bNext := bValues + [pixelArray[index + 2]];
        SamplesSnoc(pixelArray, idx, i);
        idxNext := idx + [i];
      }
    }

    /** `getMedianPixel`: the channels of the in-row pixels within
        `medianKernel / 2` of `position`, then each channel's median. */
    method GetMedianPixel(pixelArray: seq<int>, width: int, position: int) returns (c: Color)
      requires |pixelArray| == 4 * width
      ensures c == MedianFilter.MedianPixel(pixelArray, width, position, options.current.medianKernel)
    {
      var rValues, gValues, bValues := CollectSamples(pixelArray, width, position, options.current.medianKernel);
      var r := GetMedian(rValues);
      var g := GetMedian(gValues);
      var b := GetMedian(bValues);
      c := Color(r, g, b);
    }

    /** The callback `forEach` runs for one key: the median pixel at
        `floor(key.x)`, then the colour test and the counter update. */
    method ProcessKey(key: PianoLayout.Key, row: seq<int>, width: int, currentTime: real)
      requires |row| == 4 * width && options.current.fps != 0.0
      modifies this, midiBuilder
      ensures Reads(prevReads, midiBuilder.events) ==
        KeyStep(options.current, key, row, width, currentTime, Reads(old(prevReads), old(midiBuilder.events)))
    {
      var medianPixel := GetMedianPixel(row, width, key.x.Floor);
      UpdateKey(key, medianPixel, currentTime);
    }

    /** The colour distance to the detection colour, then either one more
        matching frame or the end of the run, with the note it adds. */
    method UpdateKey(key: PianoLayout.Key, medianPixel: Color, currentTime: real)
      requires options.current.fps != 0.0
      modifies this, midiBuilder
      ensures Reads(prevReads, midiBuilder.events) ==
        KeyUpdate(options.current, key, IsMatch(options.current, medianPixel), currentTime, Reads(old(prevReads), old(midiBuilder.events)))
    {
      var diff := Abs(medianPixel.r - options.current.colorDetect.r) + Abs(medianPixel.g - options.current.colorDetect.g)
        + Abs(medianPixel.b - options.current.colorDetect.b);
      if diff < options.current.colorThreshold {
        prevReads := prevReads[key.note := if key.note in prevReads then prevReads[key.note] + 1 else 1];
      } else {
        if key.note in prevReads && prevReads[key.note] >= options.current.detectionTime {
          var duration := Duration(prevReads[key.note], options.current.fps);
          midiBuilder.AddNote(key.midi, currentTime - duration, duration);
        }
        prevReads := prevReads[key.note := 0];
      }
    }

    /** The per-key part of the frame callback: every key in the order of
        the key array. */
    method Step(row: seq<int>, width: int, currentTime: real)
      requires |row| == 4 * width && options.current.fps != 0.0
      modifies this, midiBuilder
      ensures Reads(prevReads, midiBuilder.events) ==
        FrameStep(options.current, keyArray, row, width, currentTime, Reads(old(prevReads), old(midiBuilder.events)))
    {
      ghost var s0 := Reads(prevReads, midiBuilder.events);
      for j := 0 to |keyArray|
        invariant Reads(prevReads, midiBuilder.events) == FrameStep(options.current, keyArray[..j], row, width, currentTime, s0)
      {
        ProcessKey(keyArray[j], row, width, currentTime);
        assert keyArray[..j + 1][..j] == keyArray[..j];
      }
      assert keyArray[..|keyArray|] == keyArray;
    }
  }

  /** The reader and the page share one settings object: a colour picked
      between two frames is the colour the next frame is tested against,
      and the counters and notes carry over unchanged. */
  method RecolourThenStep(reader: VideoReader, selectedHex: string, row: seq<int>, width: int, currentTime: real)
    requires |row| == 4 * width && reader.options.current.fps != 0.0
    modifies reader, reader.midiBuilder, reader.options
    ensures reader.options.current == old(reader.options.current).(colorDetect := HexToRgb(selectedHex))
    ensures Reads(reader.prevReads, reader.midiBuilder.events) ==
      FrameStep(reader.options.current, reader.keyArray, row, width, currentTime,
        Reads(old(reader.prevReads), old(reader.midiBuilder.events)))
  {
    reader.options.OnColorInput(selectedHex);
    reader.Step(row, width, currentTime);
  }

  lemma InBoundsStep(width: int, lo: int, i: int)
    requires lo <= i
    ensures MedianFilter.InBounds(width, lo, i) ==
      MedianFilter.InBounds(width, lo, i - 1) + (if 0 <= i < width then [i] else [])
  {
  }

  lemma SamplesSnoc(row: seq<int>, idx: seq<int>, i: int)
    requires forall j :: 0 <= j < |idx| ==> 0 <= idx[j] && 4 * idx[j] + 3 <= |row|
    requires 0 <= i && 4 * i + 3 <= |row|
    ensures MedianFilter.Samples(row, idx + [i], 0) == MedianFilter.Samples(row, idx, 0) + [row[4 * i]]
    ensures MedianFilter.Samples(row, idx + [i], 1) == MedianFilter.Samples(row, idx, 1) + [row[4 * i + 1]]
    ensures MedianFilter.Samples(row, idx + [i], 2) == MedianFilter.Samples(row, idx, 2) + [row[4 * i + 2]]
  {
    var ext := idx + [i];
    assert ext[|idx|] == i;
    assert forall j :: 0 <= j < |idx| ==> ext[j] == idx[j];
  }

  /** One key's test changes no other note's counter, only appends to the
      notes, adds at most one note (two events), and a match never adds one:
      a run still going on at the last frame is never written. */
  lemma KeyUpdateScope(opts: UiControls.Options, key: PianoLayout.Key, matched: bool, time: real, s: Reads)
    requires opts.fps != 0.0
    ensures var r := KeyUpdate(opts, key, matched, time, s);
      key.note in r.counts &&
      (forall n :: n != key.note ==> (n in r.counts <==> n in s.counts)) &&
      (forall n :: n != key.note && n in s.counts ==> r.counts[n] == s.counts[n]) &&
      (|r.events| == |s.events| || |r.events| == |s.events| + 2) &&
      r.events[..|s.events|] == s.events &&
      (matched ==> r.events == s.events)
  {
  }

  /** A frame changes only the counters of the keys it visits, keeps the
      earlier notes and adds at most one note per key. */
  lemma {:induction false} FrameScope(opts: UiControls.Options, keys: seq<PianoLayout.Key>, row: seq<int>,
                                      width: int, time: real, s: Reads)
    requires |row| == 4 * width && opts.fps != 0.0
    ensures var r := FrameStep(opts, keys, row, width, time, s);
      |s.events| <= |r.events| <= |s.events| + 2 * |keys| &&
      r.events[..|s.events|] == s.events &&
      (forall n :: (forall j :: 0 <= j < |keys| ==> keys[j].note != n) ==>
        (n in r.counts <==> n in s.counts) && (n in s.counts ==> r.counts[n] == s.counts[n]))
    decreases |keys|
  {
    if keys != [] {
      var m := |keys| - 1;
      var p := FrameStep(opts, keys[..m], row, width, time, s);
      FrameScope(opts, keys[..m], row, width, time, s);
      var c := MedianFilter.MedianPixel(row, width, keys[m].x.Floor, opts.medianKernel);
      KeyUpdateScope(opts, keys[m], IsMatch(opts, c), time, p);
      var r := FrameStep(opts, keys, row, width, time, s);
      assert r == KeyUpdate(opts, keys[m], IsMatch(opts, c), time, p);
      assert r.events[..|p.events|] == p.events;
      assert r.events[..|s.events|] == p.events[..|s.events|];
      forall n | forall j :: 0 <= j < |keys| ==> keys[j].note != n
        ensures (n in r.counts <==> n in s.counts) && (n in s.counts ==> r.counts[n] == s.counts[n])
      {
        assert keys[m].note != n;
        assert forall j :: 0 <= j < m ==> keys[..m][j].note != n;
      }
    }
  }

  /** `n` matching frames of one key in a row (the frame time does not
      matter for a match). */
  function Matching(opts: UiControls.Options, key: PianoLayout.Key, n: nat, s: Reads): Reads
    requires opts.fps != 0.0
    decreases n
  {
    if n == 0 then s else KeyUpdate(opts, key, true, 0.0, Matching(opts, key, n - 1, s))
  }

  /** From a zero or absent counter, `n` matches count to `n` and add no note. */
  lemma {:induction false} MatchingCounts(opts: UiControls.Options, key: PianoLayout.Key, n: nat, s: Reads)
    requires opts.fps != 0.0
    requires key.note !in s.counts || s.counts[key.note] == 0
    ensures Matching(opts, key, n, s).events == s.events
    ensures key.note !in Matching(opts, key, n, s).counts || Matching(opts, key, n, s).counts[key.note] == n
    decreases n
  {
    if n > 0 {
      MatchingCounts(opts, key, n - 1, s);
    }
  }

  /** A run of `n >= 1` matching frames that ends with a miss at `time`
      writes one note of `n / fps` seconds ending at `time` when `n` reaches
      `detectionTime`, and nothing for a shorter run; the counter is reset. */
  lemma RunEnds(opts: UiControls.Options, key: PianoLayout.Key, n: nat, time: real, s: Reads)
    requires opts.fps != 0.0 && n >= 1
    requires key.note !in s.counts || s.counts[key.note] == 0
    ensures var r := KeyUpdate(opts, key, false, time, Matching(opts, key, n, s));
      var d := Duration(n, opts.fps);
      var note := [MidiBuilder.Event(time - d, MidiBuilder.On, key.midi, 100), MidiBuilder.Event(time, MidiBuilder.Off, key.midi, 64)];
      r.counts[key.note] == 0 &&
      (n >= opts.detectionTime ==> r.events == s.events + note) &&
      (n < opts.detectionTime ==> r.events == s.events)
  {
    MatchingCounts(opts, key, n, s);
    var m := Matching(opts, key, n, s);
    assert key.note in m.counts by {
      assert m == KeyUpdate(opts, key, true, 0.0, Matching(opts, key, n - 1, s));
    }
  }

  /** With the default options, five matching frames then a miss give one
      note of 5/24 s; four give none. */
  lemma DefaultRuns(key: PianoLayout.Key, time: real, s: Reads)
    requires key.note !in s.counts || s.counts[key.note] == 0
    ensures KeyUpdate(UiControls.DefaultOptions, key, false, time, Matching(UiControls.DefaultOptions, key, 5, s)).events ==
      s.events + [MidiBuilder.Event(time - 5.0 / 24.0, MidiBuilder.On, key.midi, 100), MidiBuilder.Event(time, MidiBuilder.Off, key.midi, 64)]
    ensures KeyUpdate(UiControls.DefaultOptions, key, false, time, Matching(UiControls.DefaultOptions, key, 4, s)).events == s.events
  {
    RunEnds(UiControls.DefaultOptions, key, 5, time, s);
    RunEnds(UiControls.DefaultOptions, key, 4, time, s);
  }

  /** The summed distance is compared with the threshold as it is: a grey of
      30 is 90 away from black, no match under the default threshold 65,
      although its per-channel average 30 is below it. */
  lemma SummedDistance()
    ensures Distance(Color(30, 30, 30), UiControls.DefaultOptions.colorDetect) == 90
    ensures !IsMatch(UiControls.DefaultOptions, Color(30, 30, 30))
    ensures IsMatch(UiControls.DefaultOptions, Color(21, 21, 22))
  {
  }

  /** A key whose window shows the detection colour in all but at most one
      of at least three in-row pixels matches. */
  lemma UniformWindowMatches(opts: UiControls.Options, row: seq<int>, width: int, position: int, j: int)
    requires |row| == 4 * width && opts.colorThreshold > 0
    requires |MedianFilter.Window(width, position, opts.medianKernel)| >= 3
    requires var w := MedianFilter.Window(width, position, opts.medianKernel);
      0 <= j < |w| &&
      forall i :: 0 <= i < |w| && i != j ==>
        row[4 * w[i]] == opts.colorDetect.r && row[4 * w[i] + 1] == opts.colorDetect.g && row[4 * w[i] + 2] == opts.colorDetect.b
    ensures MedianFilter.MedianPixel(row, width, position, opts.medianKernel) == opts.colorDetect
    ensures IsMatch(opts, MedianFilter.MedianPixel(row, width, position, opts.medianKernel))
  {
    var w := MedianFilter.Window(width, position, opts.medianKernel);
    MedianFilter.MedianIgnoresOutlier(MedianFilter.Samples(row, w, 0), opts.colorDetect.r, j);
    MedianFilter.MedianIgnoresOutlier(MedianFilter.Samples(row, w, 1), opts.colorDetect.g, j);
    MedianFilter.MedianIgnoresOutlier(MedianFilter.Samples(row, w, 2), opts.colorDetect.b, j);
  }
}
