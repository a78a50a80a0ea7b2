/** Colours as the user interface reads and prints them: `hexToRgb` parses
    a "#rrggbb" string (the '#' optional, letters in either case) and falls
    back to black on anything else; `rgbToHex` prints each channel in
    lowercase hexadecimal, padded to two digits but never clamped. */
module Colors {

  datatype Color = Color(r: int, g: int, b: int)

  const Black := Color(0, 0, 0)

  /** A character of the class `[a-f\d]` under the case-insensitive flag. */
  predicate IsHexDigit(c: char)
  {
    '0' <= c <= '9' || 'a' <= c <= 'f' || 'A' <= c <= 'F'
  }

  predicate AllHexDigits(s: string)
  {
    forall i :: 0 <= i < |s| ==> IsHexDigit(s[i])
  }

  function DigitValue(c: char): (d: int)
    requires IsHexDigit(c)
    ensures 0 <= d < 16
  {
    if c <= '9' then c as int - '0' as int
    else if c >= 'a' then c as int - 'a' as int + 10
    else c as int - 'A' as int + 10
  }

  /** The lowercase digit that `toString(16)` prints for 0..15. */
  function HexChar(d: int): (c: char)
    requires 0 <= d < 16
    ensures IsHexDigit(c) && DigitValue(c) == d
    ensures !('A' <= c <= 'F')
  {
    if d < 10 then ('0' as int + d) as char else ('a' as int + d - 10) as char
  }

  /** The lowercase form of a hex digit. */
  function Lower(c: char): char
  {
    if 'A' <= c <= 'F' then (c as int - 'A' as int + 'a' as int) as char else c
  }

  /** `parseInt(s, 16)` for a string of hex digits. */
  function HexValue(s: string): int
    requires AllHexDigits(s)
  {
    if s == [] then 0 else HexValue(s[..|s| - 1]) * 16 + DigitValue(s[|s| - 1])
  }

  /** The digits of `v` in base 16, most significant first, no leading
      zeros ("0" for 0). */
  function Digits(v: nat): (s: string)
    ensures |s| >= 1 && AllHexDigits(s)
    ensures forall i :: 0 <= i < |s| ==> !('A' <= s[i] <= 'F')
  {
    if v < 16 then [HexChar(v)] else Digits(v / 16) + [HexChar(v % 16)]
  }

  /** `v.toString(16)` for an integer `v`. */
  function ToHex(v: int): string
  {
    if v < 0 then "-" + Digits(-v) else Digits(v)
  }

  /** `s.padStart(2, '0')`. */
  function PadStart2(s: string): string
  {
    if |s| == 0 then "00" else if |s| == 1 then "0" + s else s
  }

  /** `rgbToHex`: '#' and each channel as padded lowercase hex. */
  function RgbToHex(r: int, g: int, b: int): string
  {
    "#" + PadStart2(ToHex(r)) + PadStart2(ToHex(g)) + PadStart2(ToHex(b))
  }

  /** What follows the optional leading '#'. */
  function Body(hex: string): string
  {
    if |hex| > 0 && hex[0] == '#' then hex[1..] else hex
  }

  /** The pattern `^#?([a-f\d]{2})([a-f\d]{2})([a-f\d]{2})$` with the
      case-insensitive flag: an optional '#', then exactly six hex digits.
      A '#' is not a hex digit, so whether the optional '#' is taken is
      decided by the first character. */
  predicate Matches(hex: string)
  {
    |Body(hex)| == 6 && AllHexDigits(Body(hex))
  }

  /** `hexToRgb`: the three digit pairs of a matching string, black for
      any other string. */
  function HexToRgb(hex: string): (c: Color)
    ensures Matches(hex) ==> 0 <= c.r < 256 && 0 <= c.g < 256 && 0 <= c.b < 256
  {
    if Matches(hex) then
      var body := Body(hex);
      assert AllHexDigits(body[0..2]) && AllHexDigits(body[2..4]) && AllHexDigits(body[4..6]);
      Color(PairValue(body[0..2]), PairValue(body[2..4]), PairValue(body[4..6]))
    else Black
  }

  /** The value of two hex digits. */
  function PairValue(pair: string): (v: int)
    requires |pair| == 2 && AllHexDigits(pair)
    ensures v == DigitValue(pair[0]) * 16 + DigitValue(pair[1]) && 0 <= v < 256
  {
    assert pair[..1] == [pair[0]];
    assert [pair[0]][..0] == [];
    assert HexValue([pair[0]]) == DigitValue(pair[0]);
    HexValue(pair)
  }

  /** Reading the printed digits back gives the number. */
  lemma {:induction false} DigitsValue(v: nat)
    ensures HexValue(Digits(v)) == v
    decreases v
  {
    if v < 16 {
      assert [HexChar(v)][..0] == [];
    } else {
      DigitsValue(v / 16);
      var s := Digits(v);
      assert s[..|s| - 1] == Digits(v / 16);
    }
  }

  /** One digit exactly below 16, two from 16 to 255, more from 256 on. */
  lemma {:induction false} DigitsLength(v: nat)
    ensures |Digits(v)| == 1 <==> v < 16
    ensures |Digits(v)| == 2 <==> 16 <= v < 256
    ensures v >= 256 ==> |Digits(v)| >= 3
    decreases v
  {
    if v >= 16 {
      DigitsLength(v / 16);
    }
  }

  /** A channel in 0..255 prints as exactly its two base-16 digits. */
  lemma TwoDigits(v: int)
    requires 0 <= v < 256
    ensures PadStart2(ToHex(v)) == [HexChar(v / 16), HexChar(v % 16)]
  {
    if v >= 16 {
      assert v / 16 < 16;
      assert Digits(v) == [HexChar(v / 16)] + [HexChar(v % 16)];
    } else {
      assert Digits(v) == [HexChar(v)];
      assert HexChar(0) == '0';
    }
  }

  /** A '#' and six hex digits parse as their three pairs. */
  lemma ParseSix(s: string)
    requires |s| == 7 && s[0] == '#' && AllHexDigits(s[1..])
    ensures Matches(s)
    ensures HexToRgb(s) == Color(PairValue(s[1..3]), PairValue(s[3..5]), PairValue(s[5..7]))
  {
    var body := Body(s);
    assert body == s[1..];
    assert body[0..2] == s[1..3] && body[2..4] == s[3..5] && body[4..6] == s[5..7];
  }

  /** A channel's two printed digits read back as the channel. */
  lemma PairOfChannel(v: int)
    requires 0 <= v < 256
    ensures PairValue([HexChar(v / 16), HexChar(v % 16)]) == v
  {
  }

  /** The seven characters printed for channels in 0..255. */
  lemma PrintedChars(r: int, g: int, b: int)
    requires 0 <= r < 256 && 0 <= g < 256 && 0 <= b < 256
    ensures RgbToHex(r, g, b) ==
      ['#', HexChar(r / 16), HexChar(r % 16), HexChar(g / 16), HexChar(g % 16), HexChar(b / 16), HexChar(b % 16)]
  {
    TwoDigits(r);
    TwoDigits(g);
    TwoDigits(b);
  }

  /** The seven printed characters parse back as the channels. */
  lemma ParsePrinted(s: string, r: int, g: int, b: int)
    requires 0 <= r < 256 && 0 <= g < 256 && 0 <= b < 256
    requires s == ['#', HexChar(r / 16), HexChar(r % 16), HexChar(g / 16), HexChar(g % 16), HexChar(b / 16), HexChar(b % 16)]
    ensures Matches(s) && HexToRgb(s) == Color(r, g, b)
  {
    assert s[1..3] == [HexChar(r / 16), HexChar(r % 16)];
    assert s[3..5] == [HexChar(g / 16), HexChar(g % 16)];
    assert s[5..7] == [HexChar(b / 16), HexChar(b % 16)];
    ParseSix(s);
    PairOfChannel(r);
    PairOfChannel(g);
    PairOfChannel(b);
  }

  /** For channels in 0..255 the printed colour is '#' and six lowercase
      hex digits, and parsing it gives the channels back. */
  lemma RgbToHexRoundTrip(r: int, g: int, b: int)
    requires 0 <= r < 256 && 0 <= g < 256 && 0 <= b < 256
    ensures var s := RgbToHex(r, g, b);
      |s| == 7 && s[0] == '#' && Matches(s) &&
      (forall i :: 1 <= i < 7 ==> !('A' <= s[i] <= 'F')) &&
      HexToRgb(s) == Color(r, g, b)
  {
    var t := ['#', HexChar(r / 16), HexChar(r % 16), HexChar(g / 16), HexChar(g % 16), HexChar(b / 16), HexChar(b % 16)];
    ParsePrinted(t, r, g, b);
    assert forall i :: 1 <= i < 7 ==> !('A' <= t[i] <= 'F');
    PrintedChars(r, g, b);
  }

  lemma HexCharOfDigit(c: char)
    requires IsHexDigit(c)
    ensures HexChar(DigitValue(c)) == Lower(c)
  {
  }

  /** The digits printed for the value of a pair are the pair's own two
      digits in lowercase. */
  lemma PairDigits(x: char, y: char)
    requires IsHexDigit(x) && IsHexDigit(y)
    ensures var v := DigitValue(x) * 16 + DigitValue(y);
      0 <= v < 256 && HexChar(v / 16) == Lower(x) && HexChar(v % 16) == Lower(y)
  {
    var v := DigitValue(x) * 16 + DigitValue(y);
    assert v / 16 == DigitValue(x) && v % 16 == DigitValue(y);
    HexCharOfDigit(x);
    HexCharOfDigit(y);
  }

  /** Three digit pairs print back as their six digits in lowercase. */
  lemma PairsPrintBack(x0: char, x1: char, x2: char, x3: char, x4: char, x5: char)
    requires IsHexDigit(x0) && IsHexDigit(x1) && IsHexDigit(x2)
    requires IsHexDigit(x3) && IsHexDigit(x4) && IsHexDigit(x5)
    ensures RgbToHex(DigitValue(x0) * 16 + DigitValue(x1), DigitValue(x2) * 16 + DigitValue(x3),
        DigitValue(x4) * 16 + DigitValue(x5)) ==
      ['#', Lower(x0), Lower(x1), Lower(x2), Lower(x3), Lower(x4), Lower(x5)]
  {
    PairDigits(x0, x1);
    PairDigits(x2, x3);
    PairDigits(x4, x5);
    PrintedChars(DigitValue(x0) * 16 + DigitValue(x1), DigitValue(x2) * 16 + DigitValue(x3),
      DigitValue(x4) * 16 + DigitValue(x5));
  }

  /** Every accepted string prints back as '#' and its six digits in
      lowercase: the parser loses only the '#' and the letter case. */
  lemma HexToRgbPrintsBack(hex: string)
    requires Matches(hex)
    ensures var body := Body(hex);
      RgbToHex(HexToRgb(hex).r, HexToRgb(hex).g, HexToRgb(hex).b) ==
        ['#', Lower(body[0]), Lower(body[1]), Lower(body[2]), Lower(body[3]), Lower(body[4]), Lower(body[5])]
  {
    var body := Body(hex);
    var c := HexToRgb(hex);
    assert body[0..2][0] == body[0] && body[0..2][1] == body[1];
    assert body[2..4][0] == body[2] && body[2..4][1] == body[3];
    assert body[4..6][0] == body[4] && body[4..6][1] == body[5];
    assert c == Color(DigitValue(body[0]) * 16 + DigitValue(body[1]), DigitValue(body[2]) * 16 + DigitValue(body[3]),
      DigitValue(body[4]) * 16 + DigitValue(body[5]));
    PairsPrintBack(body[0], body[1], body[2], body[3], body[4], body[5]);
  }

  /** Exactly the strings of the pattern are accepted: an optional '#' and
      six hex digits. Anything else (three digits, a non-hex letter, the
      empty string, a second '#') parses as black. */
  lemma HexToRgbAccepts(hex: string)
    ensures Matches(hex) <==>
      (|hex| == 7 && hex[0] == '#' && AllHexDigits(hex[1..])) ||
      (|hex| == 6 && AllHexDigits(hex))
    ensures !Matches(hex) ==> HexToRgb(hex) == Black
  {
    if |hex| == 6 && hex[0] == '#' {
      assert !IsHexDigit(hex[0]);
    }
  }

  /** Strings the pattern refuses parse as black. */
  lemma HexToRgbRejects()
    ensures HexToRgb("#fff") == Black
    ensures HexToRgb("") == Black
    ensures HexToRgb("#12345g") == Black
    ensures HexToRgb("##123456") == Black
  {
    assert !IsHexDigit('g');
    assert !IsHexDigit('#');
  }

  /** Upper- and lowercase digits, with and without the '#'. */
  lemma HexToRgbExamples()
    ensures HexToRgb("#FF8000") == Color(255, 128, 0)
    ensures HexToRgb("0a0B0c") == Color(10, 11, 12)
  {
    assert Body("#FF8000") == "FF8000";
    assert "FF8000"[0..2] == "FF" && "FF8000"[2..4] == "80" && "FF8000"[4..6] == "00";
    assert Body("0a0B0c") == "0a0B0c";
    assert "0a0B0c"[0..2] == "0a" && "0a0B0c"[2..4] == "0B" && "0a0B0c"[4..6] == "0c";
  }

  /** Channels are padded but not clamped: a value from 256 on prints with
      three or more digits and the string grows past seven characters. */
  lemma RgbToHexNoClamp(r: int, g: int, b: int)
    requires r >= 256 && 0 <= g < 256 && 0 <= b < 256
    ensures |RgbToHex(r, g, b)| >= 8
    ensures !Matches(RgbToHex(r, g, b))
  {
    DigitsLength(r);
    TwoDigits(g);
    TwoDigits(b);
    var s := RgbToHex(r, g, b);
    assert s[0] == '#';
    assert Body(s) == s[1..];
  }

  lemma RgbToHexExamples()
    ensures RgbToHex(10, 0, 255) == "#0a00ff"
    ensures RgbToHex(256, 0, 0) == "#1000000"
  {
    TwoDigits(10);
    TwoDigits(0);
    TwoDigits(255);
    assert Digits(256) == Digits(16) + ['0'];
    assert Digits(16) == ['1', '0'];
  }
}
