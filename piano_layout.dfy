/** The 88-key piano layout: for MIDI notes 21 (A0) to 108 the note name,
    whether the key is black and its x position on a keyboard of a given
    width, with the 52 white keys of equal width side by side and each black
    key on the boundary between its two white neighbours. */
module PianoLayout {

  /** One entry of the layout: `{note, midi, isBlack, x}`. */
  datatype Key = Key(note: string, midi: int, isBlack: bool, x: real)

  datatype PitchClass = PitchClass(name: string, black: bool)

  const WhiteKeyCount: int := 52

  /** The chromatic sequence starting at A. */
  const Pattern: seq<PitchClass> := [
    PitchClass("A", false), PitchClass("A#", true), PitchClass("B", false),
    PitchClass("C", false), PitchClass("C#", true), PitchClass("D", false),
    PitchClass("D#", true), PitchClass("E", false), PitchClass("F", false),
    PitchClass("F#", true), PitchClass("G", false), PitchClass("G#", true)
  ]

  function DigitChar(d: int): char
    requires 0 <= d < 10
  {
    ('0' as int + d) as char
  }

  /** A number as JavaScript prints it in a string concatenation. */
  function DecimalString(n: nat): (s: string)
    ensures |s| >= 1 && forall i :: 0 <= i < |s| ==> '0' <= s[i] <= '9'
  {
    if n < 10 then [DigitChar(n)] else DecimalString(n / 10) + [DigitChar(n % 10)]
  }

  function IsBlackAt(i: int): bool
  {
    Pattern[i % 12].black
  }

  /** How many of the first `i` keys are white. */
  function WhitesBefore(i: nat): nat
  {
    if i == 0 then 0 else WhitesBefore(i - 1) + (if IsBlackAt(i - 1) then 0 else 1)
  }

  /** `whiteIndex * whiteKeyWidth`: where the white slot `whiteIndex`
      begins. */
  function SlotStart(whiteIndex: int, whiteKeyWidth: real): real
  {
    whiteIndex as real * whiteKeyWidth
  }

  /** The key pushed for `midi`, given the number of white keys placed
      before it and the width of a white key. */
  function KeyAt(midi: int, whiteIndex: int, whiteKeyWidth: real): Key
    requires midi >= 21
  {
    var pc := Pattern[(midi - 21) % 12];
    var x := if pc.black then SlotStart(whiteIndex, whiteKeyWidth)
             else SlotStart(whiteIndex, whiteKeyWidth) + whiteKeyWidth / 2.0;
    Key(pc.name + DecimalString((midi - 21) / 12), midi, pc.black, x)
  }

  /** The first `n` keys of the layout: key `i` is the one for MIDI
      `21 + i`, after the white keys among the `i` keys before it
      (`WhiteSlot(i)`, which `WhitesBeforeClosed` shows equal to the
      running count `WhitesBefore(i)`). */
  function Keys(n: nat, whiteKeyWidth: real): (r: seq<Key>)
    ensures |r| == n
  {
    seq(n, i requires 0 <= i => KeyAt(21 + i, WhiteSlot(i), whiteKeyWidth))
  }

  /** The whole layout for a keyboard `totalWidth` wide. */
  function Layout(totalWidth: real): seq<Key>
  {
    Keys(88, totalWidth / WhiteKeyCount as real)
  }

  /** `generatePianoLayout`: one pass over MIDI 21..108, counting the white
      keys placed so far. */
  method GeneratePianoLayout(totalWidth: real) returns (keys: seq<Key>)
    ensures keys == Layout(totalWidth)
  {
    var whiteKeyWidth := totalWidth / WhiteKeyCount as real;
    var halfWhiteKeyWidth := whiteKeyWidth / 2.0;
    keys := [];
    var whiteIndex := 0;
    var midi := 21;
    while midi <= 108
      invariant 21 <= midi <= 109
      invariant whiteIndex == WhitesBefore(midi - 21)
      invariant keys == Keys(midi - 21, whiteKeyWidth)
    {
      var key;
      key, whiteIndex := PlaceKey(midi, whiteIndex, whiteKeyWidth, halfWhiteKeyWidth);
      keys := keys + [key];
      midi := midi + 1;
    }
  }

  /** The body of the loop: the key for `midi` and the white-key count
      after it. */
  method PlaceKey(midi: int, whiteIndex: int, whiteKeyWidth: real, halfWhiteKeyWidth: real)
    returns (key: Key, nextWhiteIndex: int)
    requires 21 <= midi <= 108 && whiteIndex == WhitesBefore(midi - 21)
    requires halfWhiteKeyWidth == whiteKeyWidth / 2.0
    ensures key == KeyAt(midi, whiteIndex, whiteKeyWidth)
    ensures nextWhiteIndex == WhitesBefore(midi - 20)
    ensures Keys(midi - 20, whiteKeyWidth) == Keys(midi - 21, whiteKeyWidth) + [key]
  {
    KeysSnoc(midi - 21, whiteKeyWidth);
    var step := (midi - 21) % 12;
    var pc := Pattern[step];
    var octave := (midi - 21) / 12;
    var note := pc.name + DecimalString(octave);
    var x;
    nextWhiteIndex := whiteIndex;
    if !pc.black {
      x := SlotStart(whiteIndex, whiteKeyWidth) + halfWhiteKeyWidth;
      nextWhiteIndex := whiteIndex + 1;
    } else {
      x := SlotStart(whiteIndex, whiteKeyWidth);
    }
    key := Key(note, midi, pc.black, x);
  }

  /** Key `i` of any prefix is the key for MIDI `21 + i`. */
  lemma KeysAt(n: nat, w: real, i: int)
    requires 0 <= i < n
    ensures Keys(n, w)[i] == KeyAt(21 + i, WhitesBefore(i), w)
  {
    WhitesBeforeClosed(i);
  }

  /** One more key extends the prefix by the key for the next MIDI note. */
  lemma KeysSnoc(n: nat, w: real)
    ensures Keys(n + 1, w) == Keys(n, w) + [KeyAt(21 + n, WhitesBefore(n), w)]
  {
    var longer, shorter := Keys(n + 1, w), Keys(n, w);
    var last := KeyAt(21 + n, WhitesBefore(n), w);
    WhitesBeforeClosed(n);
    assert longer[n] == last;
    assert forall i :: 0 <= i < n ==> longer[i] == shorter[i];
    assert longer == shorter + [last];
  }

  /** White keys among the first `s` pitch classes of an octave from A. */
  const OctavePrefix: seq<nat> := [0, 1, 1, 2, 3, 3, 4, 4, 5, 6, 6, 7]

  /** Seven white keys per octave, and the table above within one. */
  function WhiteSlot(i: nat): nat
  {
    7 * (i / 12) + OctavePrefix[i % 12]
  }

  /** Counting the white keys one by one agrees with the closed form. */
  lemma {:induction false} WhitesBeforeClosed(i: nat)
    ensures WhitesBefore(i) == WhiteSlot(i)
  {
    if i > 0 {
      WhitesBeforeClosed(i - 1);
      var q, r := (i - 1) / 12, (i - 1) % 12;
      assert i - 1 == 12 * q + r;
      assert IsBlackAt(i - 1) == Pattern[r].black;
      PrefixStep(r);
      if r < 11 {
        assert i == 12 * q + (r + 1);
        assert i / 12 == q && i % 12 == r + 1;
      } else {
        assert i == 12 * (q + 1) + 0;
        assert i / 12 == q + 1 && i % 12 == 0;
      }
    }
  }

  lemma PrefixStep(r: int)
    requires 0 <= r < 12
    ensures OctavePrefix[r] + (if Pattern[r].black then 0 else 1) == if r == 11 then 7 else OctavePrefix[r + 1]
  {
  }

  /** The layout has 88 keys, MIDI 21 to 108 in order; each key's name,
      colour and octave come from its place in the octave from A. */
  lemma LayoutKeys(totalWidth: real)
    ensures var keys := Layout(totalWidth);
      |keys| == 88 &&
      forall i :: 0 <= i < 88 ==>
        keys[i].midi == 21 + i &&
        keys[i].isBlack == Pattern[i % 12].black &&
        keys[i].note == Pattern[i % 12].name + DecimalString(i / 12)
  {
    forall i | 0 <= i < 88
      ensures Layout(totalWidth)[i] == KeyAt(21 + i, WhitesBefore(i), totalWidth / WhiteKeyCount as real)
    {
      KeysAt(88, totalWidth / WhiteKeyCount as real, i);
    }
  }

  /** The first key is A0 and the last C7, both white. */
  lemma LayoutEnds(totalWidth: real)
    ensures var keys := Layout(totalWidth);
      keys[0].note == "A0" && !keys[0].isBlack &&
      keys[87].note == "C7" && !keys[87].isBlack
  {
    var w := totalWidth / WhiteKeyCount as real;
    KeysAt(88, w, 0);
    KeysAt(88, w, 87);
    assert 87 % 12 == 3 && 87 / 12 == 7;
    assert DecimalString(0) == ['0'] && DecimalString(7) == ['7'];
    assert Pattern[0].name + ['0'] == "A0";
    assert Pattern[3].name + ['7'] == "C7";
  }

  /** Black keys never come two in a row. */
  lemma NoAdjacentBlackKeys(totalWidth: real)
    ensures var keys := Layout(totalWidth);
      forall i :: 0 <= i < 87 ==> !(keys[i].isBlack && keys[i + 1].isBlack)
  {
    var keys := Layout(totalWidth);
    LayoutKeys(totalWidth);
    forall i | 0 <= i < 87
      ensures !(keys[i].isBlack && keys[i + 1].isBlack)
    {
      var r := i % 12;
      assert (i + 1) % 12 == if r == 11 then 0 else r + 1;
      AdjacentClasses(r);
    }
  }

  lemma AdjacentClasses(r: int)
    requires 0 <= r < 12
    ensures !(Pattern[r].black && Pattern[if r == 11 then 0 else r + 1].black)
  {
  }

  function CountWhite(keys: seq<Key>): nat
  {
    if keys == [] then 0 else CountWhite(keys[..|keys| - 1]) + (if keys[|keys| - 1].isBlack then 0 else 1)
  }

  function CountBlack(keys: seq<Key>): nat
  {
    if keys == [] then 0 else CountBlack(keys[..|keys| - 1]) + (if keys[|keys| - 1].isBlack then 1 else 0)
  }

  lemma {:induction false} CountKeys(n: nat, w: real)
    ensures CountWhite(Keys(n, w)) == WhitesBefore(n)
    ensures CountBlack(Keys(n, w)) == n - WhitesBefore(n)
  {
    if n > 0 {
      CountKeys(n - 1, w);
      KeysSnoc(n - 1, w);
      assert Keys(n, w)[..n - 1] == Keys(n - 1, w);
    }
  }

  /** 52 white keys and 36 black ones. */
  lemma KeyColours(totalWidth: real)
    ensures CountWhite(Layout(totalWidth)) == 52
    ensures CountBlack(Layout(totalWidth)) == 36
  {
    CountKeys(88, totalWidth / WhiteKeyCount as real);
    WhiteTotal();
  }

  lemma WhiteTotal()
    ensures WhitesBefore(88) == WhiteKeyCount
  {
    WhitesBeforeClosed(88);
    assert WhiteSlot(88) == 7 * 7 + OctavePrefix[4];
  }

  lemma SlotStep(k: int, w: real)
    ensures SlotStart(k + 1, w) == SlotStart(k, w) + w
  {
    assert (k + 1) as real * w == k as real * w + w;
  }

  lemma HalfSlot(k: int, w: real)
    ensures (k as real + 0.5) * w == SlotStart(k, w) + w / 2.0
  {
  }

  /** The x of one key in terms of the white keys placed before it. */
  lemma KeyX(midi: int, k: int, w: real)
    requires midi >= 21
    ensures !KeyAt(midi, k, w).isBlack ==> KeyAt(midi, k, w).x == (k as real + 0.5) * w
    ensures KeyAt(midi, k, w).isBlack ==> KeyAt(midi, k, w).x == k as real * w
  {
    HalfSlot(k, w);
  }

  /** A white key in the middle of slot `k`, a black key on the boundary
      between slots `k - 1` and `k`. */
  predicate PlacedAt(key: Key, k: int, w: real)
  {
    (!key.isBlack ==> key.x == (k as real + 0.5) * w) &&
    (key.isBlack ==> key.x == k as real * w)
  }

  lemma KeyPosition(w: real, i: int)
    requires 0 <= i < 88
    ensures PlacedAt(Keys(88, w)[i], WhitesBefore(i), w)
  {
    KeysAt(88, w, i);
    KeyX(21 + i, WhitesBefore(i), w);
  }

  /** The white key at position `i` is the `WhitesBefore(i)`-th white key
      (counting from 0) and sits in the middle of its slot; a black key sits
      on the boundary between the white keys before and after it. */
  lemma KeyPositions(totalWidth: real)
    ensures forall i :: 0 <= i < 88 ==>
      PlacedAt(Layout(totalWidth)[i], WhitesBefore(i), totalWidth / 52.0)
  {
    forall i | 0 <= i < 88
      ensures PlacedAt(Layout(totalWidth)[i], WhitesBefore(i), totalWidth / 52.0)
    {
      KeyPosition(totalWidth / 52.0, i);
    }
  }

  /** Neighbouring keys are half a white key apart, or a whole one between
      two white keys. */
  lemma StepBetween(i: nat, w: real)
    requires w > 0.0 && i + 1 < 88
    ensures KeyAt(21 + i, WhitesBefore(i), w).x < KeyAt(22 + i, WhitesBefore(i + 1), w).x
  {
    var r := i % 12;
    assert (i + 1) % 12 == if r == 11 then 0 else r + 1;
    assert (22 + i - 21) % 12 == (i + 1) % 12;
    AdjacentClasses(r);
    SlotStep(WhitesBefore(i), w);
  }

  /** For a keyboard of positive width the x positions strictly increase
      with the MIDI number and lie in [0, totalWidth). */
  lemma PositionsIncrease(totalWidth: real)
    requires totalWidth > 0.0
    ensures var keys := Layout(totalWidth);
      (forall i, j :: 0 <= i < j < 88 ==> keys[i].x < keys[j].x) &&
      (forall i :: 0 <= i < 88 ==> 0.0 <= keys[i].x < totalWidth)
  {
    var keys := Layout(totalWidth);
    NeighboursIncrease(totalWidth);
    forall i, j | 0 <= i < j < 88
      ensures keys[i].x < keys[j].x
    {
      Chain(keys, i, j);
    }
    EndPositions(totalWidth);
    forall i | 0 <= i < 88
      ensures 0.0 <= keys[i].x < totalWidth
    {
      if 0 < i {
        Chain(keys, 0, i);
      }
      if i < 87 {
        Chain(keys, i, 87);
      }
    }
  }

  lemma NeighboursIncrease(totalWidth: real)
    requires totalWidth > 0.0
    ensures var keys := Layout(totalWidth);
      |keys| == 88 && forall i :: 0 <= i < |keys| - 1 ==> keys[i].x < keys[i + 1].x
  {
    var w := totalWidth / 52.0;
    var keys := Layout(totalWidth);
    forall i | 0 <= i < 87
      ensures keys[i].x < keys[i + 1].x
    {
      KeysAt(88, w, i);
      KeysAt(88, w, i + 1);
      StepBetween(i, w);
    }
  }

  /** The first key (white) sits half a white key in, the last (white)
      half a white key before the right edge. */
  lemma EndPositions(totalWidth: real)
    ensures Layout(totalWidth)[0].x == totalWidth / 52.0 / 2.0
    ensures Layout(totalWidth)[87].x == totalWidth - totalWidth / 52.0 / 2.0
  {
    var w := totalWidth / 52.0;
    KeysAt(88, w, 0);
    KeysAt(88, w, 87);
    WhitesBeforeClosed(87);
    assert Layout(totalWidth)[87].x == 51.0 * w + w / 2.0;
    assert 52.0 * w == totalWidth;
  }

  lemma {:induction false} Chain(keys: seq<Key>, i: int, j: int)
    requires 0 <= i < j < |keys|
    requires forall k :: 0 <= k < |keys| - 1 ==> keys[k].x < keys[k + 1].x
    ensures keys[i].x < keys[j].x
    decreases j - i
  {
    if j > i + 1 {
      Chain(keys, i, j - 1);
    }
  }
}
