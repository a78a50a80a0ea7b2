/** The detection settings the user interface hands to the video reader,
    and the page's one settings object the colour input changes. */
module UiControls {
  import opened Colors

  /** The `options` record; its `detectionHeight` callback reads the page
      and is not part of this model. */
  datatype Options = Options(
    colorDetect: Color,
    colorThreshold: int,
    medianKernel: int,
    detectionTime: int,
    fps: real,
    songName: string)

  /** Black keys to detect, a colour distance below 65, a seven-pixel median
      window, runs of at least five frames, 24 frames per second. */
  const DefaultOptions: Options := Options(Black, 65, 7, 5, 24.0, "transcription")

  /** The page's `options` object. The video reader keeps a reference to
      this same object rather than a copy, so a colour picked while the
      video plays is used from the reader's next frame on. */
  class Settings {
    var current: Options

    constructor ()
      ensures current == DefaultOptions
    {
      current := DefaultOptions;
    }

    /** The colour input's handler: the detection colour becomes what the
        picked string parses to (black when it is not a hex colour, and
        otherwise a colour that prints back as the string in lower case),
        and every other setting stays. */
    method OnColorInput(selectedHex: string)
      modifies this
      ensures current == old(current).(colorDetect := HexToRgb(selectedHex))
      ensures !Matches(selectedHex) ==> current.colorDetect == Black
      ensures Matches(selectedHex) ==>
        var body := Body(selectedHex);
        RgbToHex(current.colorDetect.r, current.colorDetect.g, current.colorDetect.b) ==
          ['#', Lower(body[0]), Lower(body[1]), Lower(body[2]), Lower(body[3]), Lower(body[4]), Lower(body[5])]
    {
      current := current.(colorDetect := HexToRgb(selectedHex));
      if Matches(selectedHex) {
        HexToRgbPrintsBack(selectedHex);
      } else {
        HexToRgbAccepts(selectedHex);
      }
    }
  }

  /** The default colour is what the colour input's "#000000" parses to,
      and it prints back as that same string. */
  lemma DefaultColour()
    ensures DefaultOptions.colorDetect == HexToRgb("#000000")
    ensures RgbToHex(DefaultOptions.colorDetect.r, DefaultOptions.colorDetect.g, DefaultOptions.colorDetect.b) == "#000000"
    ensures DefaultOptions.colorThreshold == 65 && DefaultOptions.medianKernel == 7
    ensures DefaultOptions.detectionTime == 5 && DefaultOptions.fps == 24.0
  {
    assert Body("#000000") == "000000";
    assert "000000"[0..2] == "00" && "000000"[2..4] == "00" && "000000"[4..6] == "00";
    TwoDigits(0);
  }
}
