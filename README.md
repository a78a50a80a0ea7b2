# synthesiaToSheetMusic in Dafny

A model of the core of synthesiaToSheetMusic. The program watches a video of a
light-up piano and turns the keys it sees lit into notes in a Standard MIDI
File. The model covers five pieces:

- **MIDI writer** (`Vlq`, `Smf`, `MidiBuilder`). `MidiFileBuilder` collects
  note-on/note-off events with `AddNote`. `BuildFile` sorts them, converts
  seconds to ticks, and writes a format-0 file with one track: the `MThd`
  header; an `MTrk` chunk with its length; a Set Tempo meta event; a program
  change; the note events with variable-length delta-times; End of Track.
  `Smf` also holds a reader for these files, which the round-trip lemmas use.
- **Scale demo page** (`ScaleDemo`). It writes a fixed C-major scale as a MIDI
  file and shows the bytes as a hex dump.
- **Frame-by-frame key detector** (`MedianFilter`, `VideoReading`).
  - For each key, it takes the per-channel median colour of a small window of
    one pixel row.
  - It compares that colour with the detection colour.
  - It keeps a per-note count of consecutive matching frames.
  - When a long enough run ends, it adds one note as long as the run.
- **Older toggle detector** (`NoteReading`). Each key of a chosen scale
  starts a fixed half-second note when it starts matching, and is released
  when it stops.
- **Piano layout and colour helpers** (`PianoLayout`, `Colors`,
  `UiControls`). The 88-key table with names, colours and x positions; hex
  colour parsing and printing; the default detection options, held in one
  `Settings` object that the video reader shares with the colour input.

Each stateful object is a class with the source's fields:
`MidiFileBuilder.events`, `VideoReader.prevReads`, `NoteReader.prevReads`,
`Settings.current`.
Its methods are proved against functions of the old state: `KeyUpdate`,
`FrameStep`, `ToggleKey`, `UpdateFrame`, `FileBytes`. The lemmas about those
functions state what the program promises.

Where the repository's prose description and its code differ, this model
follows the code:

- The frame-by-frame detector compares the summed channel distance with the
  threshold, without dividing by three (`VideoReading.SummedDistance`). The
  toggle detector does divide by three (`NoteReading.AveragedDistance`).
- The median window is `floor(k / 2)` pixels on either side of the key, so
  an even `k` gives `k + 1` pixels.
- The `max(1, bpm)` clamp applies only to the tempo meta event. The tick rate
  uses the unclamped bpm.
- Octave numbers count from A, so MIDI 60 is named "C3" and the last key is
  "C7".

## Model

| member | source | states |
|---|---|---|
| Vlq.WriteVlq | testing/midiFileBuilder.js:21-33 | for 0 ≤ v ≤ 0x0FFFFFFF the two shift loops return the reference encoding: 1 to 4 bytes, 0x80 set on all but the last byte, big-endian 7-bit groups that decode back to v |
| Vlq.PackGroups | testing/midiFileBuilder.js:22-27 | the first loop leaves a register below 2^31 whose bytes, read from the low end, are the encoding (so the 32-bit shifts agree with integer arithmetic) |
| Vlq.EmitBytes | testing/midiFileBuilder.js:28-31 | the second loop emits the register's bytes from the low end, up to the first byte without 0x80 |
| Vlq.EncodeDecode | script.js:2-14 | the encoding has the continuation-bit shape and decodes back to the value |
| Vlq.EncodeLength | script.js:2-14 | values up to 0x0FFFFFFF take one to four bytes |
| Vlq.ReadEncoded | script.js:2-14 | a reader consumes exactly the encoding from the front of any stream and returns the value |
| Vlq.EncodeExamples | testing/midiFileBuilder.js:21-33 | 0 → 00, 127 → 7F, 128 → 81 00, 16384 → 81 80 00, 0x0FFFFFFF → FF FF FF 7F |
| Smf.Ascii | testing/midiFileBuilder.js:35 | one byte per character, the character's code |
| Smf.WordOfBe | testing/midiFileBuilder.js:36-37 | the 16-, 24- and 32-bit big-endian writers give bytes whose big-endian value is n modulo 2^16, 2^24, 2^32 |
| Smf.Be24Mod | testing/midiFileBuilder.js:54 | the three tempo bytes only depend on mpqn modulo 2^24 |
| Smf.HeaderFields | script.js:24-29 | the header is 14 bytes: "MThd", length 6, format 0, one track, the division modulo 2^16 |
| Smf.ReadEncodedEvents | testing/midiFileBuilder.js:54-69 | a reader of the encoded events of a valid track gets the events back |
| Smf.ReadWrittenFile | testing/midiFileBuilder.js:47-73 | a file with the header and one track chunk reads back as format 0, one track, the division, and the events |
| MidiBuilder.MidiFileBuilder.constructor | testing/midiFileBuilder.js:2-6 | bpm 120 and ppq 480 by default, no events |
| MidiBuilder.MidiFileBuilder.AddNote | testing/midiFileBuilder.js:15-18 | appends exactly a note-on at the start time with the velocity (100 by default) and a note-off at start + duration with velocity 64; earlier events unchanged |
| MidiBuilder.MidiFileBuilder.BuildFile | testing/midiFileBuilder.js:42-76 | returns the file of the sorted events without changing the event list, so two calls in a row give the same bytes |
| MidiBuilder.SortEvents | testing/midiFileBuilder.js:43 | a permutation of the events, by time, a note-on before a note-off at equal times |
| MidiBuilder.EventLeIsTotalPreorder | testing/midiFileBuilder.js:43 | the sort order is total and transitive |
| MidiBuilder.WriteHeader | testing/midiFileBuilder.js:47-51 | the pushes give the header chunk |
| MidiBuilder.WritePrelude | testing/midiFileBuilder.js:54-55 | 00 FF 51 03, the 24-bit tempo, 00 C0 00 |
| MidiBuilder.AppendNotes | testing/midiFileBuilder.js:58-67 | the note loop appends the encoded note messages, with the delta from the previous tick, never negative |
| MidiBuilder.NextMessage | testing/midiFileBuilder.js:61-66 | one round: the event's tick, and a message that extends the encoded notes by one |
| MidiBuilder.WriteMessage | testing/midiFileBuilder.js:63-65 | the delta's VLQ, 0x90 for on or 0x80 for off, key and velocity masked to 7 bits |
| MidiBuilder.WrapTrack | testing/midiFileBuilder.js:71-73 | "MTrk", the 32-bit track length, the track, after the header |
| MidiBuilder.NotesFollowEvents | testing/midiFileBuilder.js:60-67 | the note messages follow the sorted events one to one: same kind, key and velocity masked into 0..127 |
| MidiBuilder.ReaderTicksMatch | testing/midiFileBuilder.js:57-66 | for non-negative times, the sum of the first n deltas is the n-th event's tick `round(time · ppq · bpm / 60)` |
| MidiBuilder.TickMonotone | testing/midiFileBuilder.js:61 | rounding keeps the order of times |
| MidiBuilder.DeltasAccumulate | testing/midiFileBuilder.js:62-66 | for non-decreasing ticks from 0 the deltas add up to the tick |
| MidiBuilder.TrackLayout | testing/midiFileBuilder.js:54-69 | the track is the prelude, the note bytes, then 00 FF 2F 00 |
| MidiBuilder.FileLayout | testing/midiFileBuilder.js:47-73 | the file is 22 + track bytes: header, "MTrk", a length word equal to the track length, the track, which starts with the tempo and program change and ends with End of Track |
| MidiBuilder.ReadBuiltFile | testing/midiFileBuilder.js:42-76 | a reader of the built file gets format 0, one track, the division and the framed note messages |
| MidiBuilder.NotesValid | testing/midiFileBuilder.js:62-65 | with every delta in VLQ range, the note messages are valid events |
| MidiBuilder.TrackEventsValid | testing/midiFileBuilder.js:54-69 | the built track is a valid track ending in one End of Track |
| MidiBuilder.TempoExamples | testing/midiFileBuilder.js:44 | 120 bpm gives mpqn 500000, written 07 A1 20; every bpm up to 1 behaves as 1 |
| MidiBuilder.TempoFits | testing/midiFileBuilder.js:44 | from 4 bpm up, mpqn fits in the 24-bit field |
| MidiBuilder.SlowTempoWraps | testing/midiFileBuilder.js:54 | at 2 bpm mpqn is 30000000 and the field holds only its low 24 bits |
| Sorting.SortBy | testing/readVideoPixel.js:88 | sorted by a total preorder and a permutation of the input |
| MedianFilter.SortInts | testing/readVideoPixel.js:88 | `sort((a, b) => a - b)`: ascending and a permutation |
| MedianFilter.InBounds | testing/readVideoPixel.js:75-77 | every sampled index is inside the row and inside the window |
| MedianFilter.InBoundsExact | testing/readVideoPixel.js:75-77 | the window holds exactly the in-row indices within `floor(k/2)` of the position, ascending |
| MedianFilter.MedianRank | testing/readVideoPixel.js:86-90 | the median is one of the samples; at most n/2 samples lie below it and at most n − 1 − n/2 above |
| MedianFilter.SortedRank | testing/readVideoPixel.js:89 | in ascending order, at most j elements lie below element j and at most n − 1 − j above |
| MedianFilter.CountPermutation | testing/readVideoPixel.js:88 | sorting does not change how many samples lie below or above a value |
| MedianFilter.MedianOfMajority | testing/readVideoPixel.js:86-90 | when at most (n − 1)/2 samples differ from c, the median is c |
| MedianFilter.MedianOfConstant | testing/readVideoPixel.js:86-96 | equal samples have that value as their median |
| MedianFilter.MedianIgnoresOutlier | testing/readVideoPixel.js:86-96 | among three or more samples one outlier does not change the median |
| VideoReading.VideoReader.constructor | testing/readVideoPixel.js:5-20 | keeps a reference to the page's settings object (not a copy) and the keys, a fresh empty builder, an empty counter map |
| VideoReading.VideoReader.GetMedian | testing/readVideoPixel.js:86-90 | 0 without samples, otherwise element `n / 2` of the sorted samples |
| VideoReading.VideoReader.CollectSamples | testing/readVideoPixel.js:75-83 | the loop collects, per channel, the values at 4i, 4i+1, 4i+2 of exactly the window's in-row pixels, in order |
| VideoReading.VideoReader.TakeSample | testing/readVideoPixel.js:77-82 | one round: an in-row pixel adds its three channels, any other adds nothing |
| VideoReading.VideoReader.GetMedianPixel | testing/readVideoPixel.js:66-98 | the per-channel medians of the window |
| VideoReading.VideoReader.ProcessKey | testing/readVideoPixel.js:42-56 | one key: the median pixel at `floor(x)`, then the counter update of `KeyUpdate` |
| VideoReading.VideoReader.UpdateKey | testing/readVideoPixel.js:45-55 | a match increments the note's counter (1 if absent); a miss resets it to 0 and, when it had reached detectionTime, adds one note of counter/fps seconds ending now |
| VideoReading.VideoReader.Step | testing/readVideoPixel.js:42-56 | the keys in key-array order, each as `KeyStep` |
| VideoReading.RecolourThenStep | testing/uiControls.js:236-239 | a colour picked between frames changes only the shared settings' detection colour, and the next frame is tested against it with the counters and notes carried over |
| VideoReading.KeyUpdateScope | testing/readVideoPixel.js:45-55 | one key's test changes no other counter, only appends, adds at most one note, and never adds one on a match |
| VideoReading.FrameScope | testing/readVideoPixel.js:42-56 | a frame changes only the counters of the keys it visits, keeps the earlier notes, and adds at most one note per key |
| VideoReading.MatchingCounts | testing/readVideoPixel.js:47 | from a zero or absent counter, n matches count to n and add no note |
| VideoReading.RunEnds | testing/readVideoPixel.js:49-55 | a run of n ≥ 1 matches ended by a miss adds one note of duration n/fps starting at time − duration and ending at time iff n ≥ detectionTime; the counter is 0 afterwards |
| VideoReading.DefaultRuns | testing/readVideoPixel.js:49-55 | with the default options, five matches then a miss give one note of 5/24 s; four give none |
| VideoReading.SummedDistance | testing/readVideoPixel.js:45-46 | the undivided sum is compared: grey 30 is 90 from black and does not match under threshold 65 |
| VideoReading.UniformWindowMatches | testing/readVideoPixel.js:44-46 | a window showing the detection colour in all but one of at least three pixels gives that colour and matches |
| NoteReading.StripTrailingDigits | testing/noteReader.js:41 | the result is the longest prefix not ending in a digit, with only digits after it |
| NoteReading.Remove | testing/noteReader.js:62 | exactly the other notes are kept |
| NoteReading.RemoveNoDup | testing/noteReader.js:62 | filtering keeps a list free of duplicates |
| NoteReading.NoteReader.constructor | testing/noteReader.js:5-29 | empty held list, fresh empty builder, the scale empty by default |
| NoteReading.NoteReader.Update | testing/noteReader.js:39-64 | every key in order as `ToggleKey`, with the detection colour parsed from its hex string; the held list stays free of duplicates |
| NoteReading.NoteReader.ToggleOne | testing/noteReader.js:41-63 | one key: skipped outside the scale; on a match, held and a note added unless already held; on a miss, released |
| NoteReading.ToggleScope | testing/noteReader.js:41-63 | a key outside the scale changes nothing; otherwise no other hold changes, a match adds (midi, time, 0.5) exactly when the key was not held, a miss releases it without a note |
| NoteReading.ToggleNoDup | testing/noteReader.js:52-62 | one key's test keeps the held list free of duplicates |
| NoteReading.UpdateFrameNoDup | testing/noteReader.js:39-64 | an update keeps the held list free of duplicates |
| NoteReading.OutsideScale | testing/noteReader.js:43-45 | keys outside the scale are skipped, so with the default empty scale an update changes nothing |
| NoteReading.OneNotePerRun | testing/noteReader.js:52-56 | a key that matches on k ≥ 1 frames in a row gets exactly one note, at the first frame |
| NoteReading.StripExamples | testing/noteReader.js:41 | "C#4" → "C#", "A0" → "A", "C10" → "C"; a leading digit stays |
| NoteReading.AveragedDistance | testing/noteReader.js:49-51 | the toggle detector divides by three: grey 30 is close to black under 65, grey 65 is not |
| Colors.ParseSix | testing/noteReader.js:72-79 | '#' and six hex digits parse as the three pair values |
| Colors.HexToRgbAccepts | testing/uiControls.js:246-253 | accepted exactly: '#' and six hex digits, or six hex digits; anything else is black |
| Colors.HexToRgbRejects | testing/uiControls.js:252 | "#fff", "", "#12345g" and "##123456" give black |
| Colors.HexToRgbExamples | testing/uiControls.js:247-251 | upper- and lowercase digits, with or without '#' |
| Colors.HexToRgbPrintsBack | testing/uiControls.js:246-253 | an accepted string prints back as '#' and its digits in lowercase |
| Colors.RgbToHexRoundTrip | testing/uiControls.js:96-99 | for channels 0..255: seven characters, '#', lowercase digits, parsing back to the channels |
| Colors.PrintedChars | testing/midiTest.js:144-147 | for channels 0..255, '#' and two zero-padded lowercase digits per channel |
| Colors.TwoDigits | testing/midiTest.js:145 | a byte prints as two digits, zero-padded below 16 |
| Colors.DigitsLength | testing/midiTest.js:145 | one digit below 16, two up to 255, three or more from 256 |
| Colors.DigitsValue | testing/midiTest.js:145 | the printed digits read back as the number |
| Colors.RgbToHexNoClamp | testing/midiTest.js:145 | a channel of 256 or more makes the string longer than seven and no longer parseable |
| Colors.RgbToHexExamples | testing/midiTest.js:144-147 | (10, 0, 255) → "#0a00ff", (256, 0, 0) → "#1000000" |
| UiControls.DefaultColour | testing/uiControls.js:33-41 | black detection colour (what "#000000" parses to and prints as), threshold 65, kernel 7, detection time 5, 24 fps |
| UiControls.Settings.constructor | testing/uiControls.js:33-41 | the page's settings object starts with the default options |
| UiControls.Settings.OnColorInput | testing/uiControls.js:236-239 | the detection colour becomes the parsed colour (black for a string that is not a hex colour, otherwise one that prints back as the string in lower case); every other setting stays |
| PianoLayout.GeneratePianoLayout | testing/pianoLayout.js:7-52 | the loop builds the layout function's 88 keys |
| PianoLayout.PlaceKey | testing/pianoLayout.js:31-48 | one round: the key from the pattern and the white keys placed so far, and the white count after it |
| PianoLayout.LayoutKeys | testing/pianoLayout.js:30-36 | 88 keys, midi 21 + i, colour and name from the pattern at i mod 12, octave i / 12 |
| PianoLayout.LayoutEnds | testing/pianoLayout.js:30-36 | the first key is A0 and the last C7, both white |
| PianoLayout.NoAdjacentBlackKeys | testing/pianoLayout.js:12-25 | no two neighbouring keys are black |
| PianoLayout.KeyColours | testing/pianoLayout.js:8 | 52 white and 36 black keys |
| PianoLayout.WhitesBeforeClosed | testing/pianoLayout.js:28 | the running white count has the closed form 7 · octave + prefix |
| PianoLayout.KeyPositions | testing/pianoLayout.js:38-46 | the white key with k whites before it sits at (k + ½) · w, a black key at k · w |
| PianoLayout.PositionsIncrease | testing/pianoLayout.js:38-46 | for a positive width x strictly increases with midi and lies in [0, width) |
| PianoLayout.EndPositions | testing/pianoLayout.js:41 | the first key is half a white key from 0, the last half a white key from the width |
| ScaleDemo.DurTicks | script.js:46 | at least one tick, the rounded length otherwise |
| ScaleDemo.ScaleNotesAt | script.js:49-54 | pair i is a note-on of key i with delta 0 and velocity 72, then its note-off after the note length with velocity 64 |
| ScaleDemo.PushNote | script.js:50-53 | one round appends the bytes of one pair |
| ScaleDemo.PushScale | script.js:49-54 | the loop appends the encoded pairs of all keys in order |
| ScaleDemo.BuildCScaleMidi | script.js:17-66 | the header and the framed scale track as a track chunk |
| ScaleDemo.ScaleTrackEvents | script.js:36-58 | 19 events: tempo, program 0, the eight keys 60..72 in order as pairs, End of Track |
| ScaleDemo.ScaleNotesLength | script.js:49-54 | each pair takes seven bytes plus the VLQ of the note length |
| ScaleDemo.ScaleLayout | script.js:19-63 | the file's header, "MTrk", a length word equal to the track's length, the tempo prelude and the End of Track bytes, and at most 102 track bytes |
| ScaleDemo.ReadScaleFile | script.js:17-66 | a reader gets format 0, one track, exactly the scale track |
| ScaleDemo.JoinedLayout | script.js:79 | joining two-character parts puts part i at 3i and a space after each part but the last |
| ScaleDemo.HexDumpReadBack | script.js:78-80 | n > 0 bytes give 3n − 1 characters, each byte as two lowercase digits that read back as it, separated by spaces |
| ScaleDemo.HexDumpExamples | script.js:78-80 | no bytes give ""; 4D 00 FF give "4d 00 ff" |

## Left out

- Browser I/O is not modelled: the DOM controls, file picker, overlay
  dragging, eyedropper, canvas drawing and `getImageData`, the video frame
  loop with its ready and stop checks, and Blob downloads. The pixel row a
  frame yields (`VideoReader.Step`) or the pixel read per key
  (`NoteReader.Update`) is a parameter. So are the current video time, and
  the colour string and threshold the toggle detector reads from the page.
- `exportMidi` of the toggle detector calls a method the builder does not
  have, so it is not modelled.
- Floating-point detail is left out. Times, bpm, fps and key positions are
  Dafny reals. `Math.round(x)` is `floor(x + 0.5)`. The float-to-pixel
  mapping of the overlay helpers is not modelled.
- `Array.prototype.sort` is a library call. It is modelled as a sort promising
  only order and permutation. The builder's comparator is inconsistent for
  two events of the same kind at the same time, and the order it gives them
  is not modelled.
- Vlq.WriteVlq: requires 0 ≤ v ≤ 0x0FFFFFFF. The source's shifts see the
  value modulo 2^32 as a signed 32-bit number, so its loops never end for
  2^28 ≤ v < 2^32 and for negative values, and above 2^32 the value wraps
  modulo 2^32, which is not modelled.
- MidiBuilder.MidiFileBuilder.BuildFile: requires every delta to fit in a
  VLQ, which `WriteVlq` needs.
- ScaleDemo.BuildCScaleMidi: requires the note length in ticks,
  `max(1, round(ppq · noteLenQ))`, to be at most 0x0FFFFFFF, as `WriteVlq`
  does. The click handlers pass any number typed into the length field, and
  a longer note (the loop that never ends, or the wrapped length) is not
  modelled.
- ScaleDemo.PushScale: carries the same bound on the note length.
- ScaleDemo.PushNote: carries the same bound on the note length.
- ScaleDemo.ScaleLayout: carries the same bound on the note length.
- ScaleDemo.ReadScaleFile: carries the same bound on the note length.
- The options' `detectionHeight` callback reads the page and is not part of
  the record.
- Loop bodies are separate methods so that each proof stays small:
  `PackGroups`/`EmitBytes`, `NextMessage`/`WriteMessage`, `PushNote`,
  `TakeSample`, `ProcessKey`/`UpdateKey`, `ToggleOne`, `PlaceKey`. The header,
  prelude and chunk pushes shared by the builder and the scale demo are
  `WriteHeader`, `WritePrelude` and `WrapTrack`.
