/**
 * The palette of the user interface and the conversion between `#rrggbb`
 * strings and red/green/blue triples (`hex_to_rgb`, `rgb_to_hex`).
 */
module UiColors {
  import opened Wrappers
  import opened PyText

  const LightRed := "#fc5c65"
  const DarkRed := "#eb3b5a"
  const LightOrange := "#fd9644"
  const DarkOrange := "#fa8231"
  const LightYellow := "#fed330"
  const DarkYellow := "#f7b731"
  const LightGreen := "#26de81"
  const DarkGreen := "#20bf6b"
  const LightTurquoise := "#2bcbba"
  const DarkTurquoise := "#0fb9b1"
  const SoftLightBlue := "#45aaf2"
  const SoftDarkBlue := "#2d98da"
  const LightBlue := "#4b7bec"
  const DarkBlue := "#3867d6"
  const LightPurple := "#a55eea"
  const DarkPurple := "#8854d0"
  const LightSilver := "#d1d8e0"
  const DarkSilver := "#a5b1c2"
  const LightLivid := "#778ca3"
  const DarkLivid := "#4b6584"
  const LightGray := "#d9d9d9"
  const DarkGray := "#454545"

  /** `#` followed by six hexadecimal digits of either case. */
  predicate IsHexColor(s: string) {
    |s| == 7 && s[0] == '#' && forall i :: 1 <= i < 7 ==> IsHexDigit(s[i])
  }

  /** `#` followed by six lower-case hexadecimal digits, the form `rgb_to_hex` writes. */
  predicate IsLowerHexColor(s: string) {
    |s| == 7 && s[0] == '#' && forall i :: 1 <= i < 7 ==> IsLowerHexDigit(s[i])
  }

  /** The entries of the `COLORS` table, in the order the table lists them. */
  function ColorTable(): seq<(string, string)> {
    [("light-red", LightRed), ("dark-red", DarkRed),
     ("light-orange", LightOrange), ("dark-orange", DarkOrange),
     ("light-yellow", LightYellow), ("dark-yellow", DarkYellow),
     ("light-green", LightGreen), ("dark-green", DarkGreen),
     ("light-turquoise", LightTurquoise), ("dark-turquoise", DarkTurquoise),
     ("soft-light_blue", SoftLightBlue), ("soft-dark_blue", SoftDarkBlue),
     ("light-blue", LightBlue), ("dark-blue", DarkBlue),
     ("light-purple", LightPurple), ("dark-purple", DarkPurple),
     ("light-silver", LightSilver), ("dark-silver", DarkSilver),
     ("light-livid", LightLivid), ("dark-livid", DarkLivid),
     ("light-gray", LightGray), ("dark-gray", DarkGray)]
  }

  /**
   * The dictionary a literal with these entries builds: entries are added
   * in order, so a later entry for the same key wins.
   */
  function DictOf(t: seq<(string, string)>): (m: map<string, string>)
    ensures forall i :: 0 <= i < |t| ==> t[i].0 in m
    ensures forall k :: k in m ==> exists i :: 0 <= i < |t| && t[i] == (k, m[k])
    decreases |t|
  {
    if t == [] then map[]
    else
      var m := DictOf(t[..|t| - 1]);
      assert forall i :: 0 <= i < |t| - 1 ==> t[..|t| - 1][i] == t[i];
      m[t[|t| - 1].0 := t[|t| - 1].1]
  }

  /** A key's value is that of its last entry: no later entry has the same key. */
  lemma {:induction false} DictOfLastWins(t: seq<(string, string)>, i: nat)
    requires i < |t| && forall j :: i < j < |t| ==> t[j].0 != t[i].0
    ensures t[i].0 in DictOf(t) && DictOf(t)[t[i].0] == t[i].1
    decreases |t|
  {
    if i < |t| - 1 {
      var init := t[..|t| - 1];
      assert init[i] == t[i];
      assert forall j :: i < j < |init| ==> init[j] == t[j];
      DictOfLastWins(init, i);
    }
  }

  /** Every colour of the table is `#` and six lower-case digits. */
  lemma TableWellFormed()
    ensures forall i :: 0 <= i < |ColorTable()| ==> IsLowerHexColor(ColorTable()[i].1)
  {
    var t := ColorTable();
    assert t[0].1 == LightRed;
    assert t[1].1 == DarkRed;
    assert t[2].1 == LightOrange;
    assert t[3].1 == DarkOrange;
    assert t[4].1 == LightYellow;
    assert t[5].1 == DarkYellow;
    assert t[6].1 == LightGreen;
    assert t[7].1 == DarkGreen;
    assert t[8].1 == LightTurquoise;
    assert t[9].1 == DarkTurquoise;
    assert t[10].1 == SoftLightBlue;
    assert t[11].1 == SoftDarkBlue;
    assert t[12].1 == LightBlue;
    assert t[13].1 == DarkBlue;
    assert t[14].1 == LightPurple;
    assert t[15].1 == DarkPurple;
    assert t[16].1 == LightSilver;
    assert t[17].1 == DarkSilver;
    assert t[18].1 == LightLivid;
    assert t[19].1 == DarkLivid;
    assert t[20].1 == LightGray;
    assert t[21].1 == DarkGray;
    forall i | 0 <= i < |t|
      ensures IsLowerHexColor(t[i].1)
    {
      LowerHexColorValues(t[i].1);
    }
  }

  /** The colour values of the palette, in the form `rgb_to_hex` writes. */
  lemma LowerHexColorValues(c: string)
    requires c in {LightRed, DarkRed, LightOrange, DarkOrange, LightYellow, DarkYellow, LightGreen, DarkGreen, LightTurquoise, DarkTurquoise, SoftLightBlue, SoftDarkBlue, LightBlue, DarkBlue, LightPurple, DarkPurple, LightSilver, DarkSilver, LightLivid, DarkLivid, LightGray, DarkGray}
    ensures IsLowerHexColor(c)
  {
  }

  /** The `COLORS` table: colour name to colour string. */
  function Colors(): (m: map<string, string>)
    ensures forall k :: k in m ==> IsLowerHexColor(m[k])
    ensures "dark-gray" in m && m["dark-gray"] == DarkGray
    ensures "light-gray" in m && m["light-gray"] == LightGray
  {
    var t := ColorTable();
    TableWellFormed();
    GrayEntries(t);
    DictOf(t)
  }

  /** The last two entries of the table, which no earlier entry shadows. */
  lemma GrayEntries(t: seq<(string, string)>)
    requires t == ColorTable()
    ensures "dark-gray" in DictOf(t) && DictOf(t)["dark-gray"] == DarkGray
    ensures "light-gray" in DictOf(t) && DictOf(t)["light-gray"] == LightGray
  {
    var init := t[..21];
    assert t[21] == ("dark-gray", DarkGray);
    assert init[20] == ("light-gray", LightGray);
    assert init[..20] == t[..20];
    var m20 := DictOf(init[..20]);
    assert DictOf(init) == m20["light-gray" := LightGray];
    assert DictOf(t) == DictOf(init)["dark-gray" := DarkGray];
    assert "light-gray" != "dark-gray" by {
      assert "light-gray"[0] != "dark-gray"[0];
    }
  }

  /** A colour as a Python tuple of three integers. */
  datatype Rgb = Rgb(r: int, g: int, b: int)

  predicate IsByte(n: int) {
    0 <= n < 256
  }

  predicate InRange(t: Rgb) {
    IsByte(t.r) && IsByte(t.g) && IsByte(t.b)
  }

  /** Python's slice `s[i:j]` for `0 <= i <= j`: indices past the end are clamped. */
  function Slice(s: string, i: nat, j: nat): (r: string)
    requires i <= j
  {
    if i >= |s| then [] else s[i..if j <= |s| then j else |s|]
  }

  /**
   * `int(chunk, 16)`, `None` standing for the `ValueError` it raises. The
   * chunks `hex_to_rgb` passes are at most two characters long, too short for
   * the `0x` prefix or `_` separators `int()` also accepts, so what can be
   * read is one digit, two digits, a digit with whitespace on one side, or a
   * sign followed by a digit.
   */
  function ParseHex(chunk: string): (r: Option<int>)
    requires |chunk| <= 2
    ensures |chunk| == 2 && IsHexDigit(chunk[0]) && IsHexDigit(chunk[1]) ==>
              r == Some(16 * DigitValue(chunk[0]) + DigitValue(chunk[1]))
    ensures r.Some? ==> -16 < r.value < 256
  {
    if |chunk| == 0 then None
    else if |chunk| == 1 then
      if IsHexDigit(chunk[0]) then Some(DigitValue(chunk[0])) else None
    else
      var c0, c1 := chunk[0], chunk[1];
      if IsHexDigit(c0) && IsHexDigit(c1) then Some(16 * DigitValue(c0) + DigitValue(c1))
      else if IsIntSpace(c0) && IsHexDigit(c1) then Some(DigitValue(c1))
      else if IsHexDigit(c0) && IsIntSpace(c1) then Some(DigitValue(c0))
      else if c0 == '+' && IsHexDigit(c1) then Some(DigitValue(c1))
      else if c0 == '-' && IsHexDigit(c1) then Some(-(DigitValue(c1) as int))
      else None
  }

  /** Every chunk is read as `int(chunk, 16)` reads it, the error included. */
  lemma ParseHexIsInt(chunk: string)
    requires |chunk| <= 2
    ensures ParseHex(chunk) == IntBase16(chunk)
  {
    ShortInt(chunk);
    if |chunk| == 2 {
      var t := StripIntSpace(chunk);
      if |t| == 1 {
        assert t[1..] == [];
        ShortInt(t);
      } else if |t| == 2 {
        assert t[1..] == [chunk[1]];
        ShortInt(t[1..]);
      }
    } else if |chunk| == 1 {
      assert chunk[1..] == [];
    }
  }

  /** What stripping leaves of a string of at most two characters, and the values of one and two digits. */
  lemma ShortInt(chunk: string)
    requires |chunk| <= 2
    ensures |chunk| == 1 ==> StripIntSpace(chunk) == if IsIntSpace(chunk[0]) then [] else chunk
    ensures |chunk| == 2 ==>
              StripIntSpace(chunk)
              == if IsIntSpace(chunk[0]) then (if IsIntSpace(chunk[1]) then [] else chunk[1..])
                 else if IsIntSpace(chunk[1]) then chunk[..1] else chunk
    ensures |chunk| == 1 && IsHexDigit(chunk[0]) ==> HexValue(chunk) == DigitValue(chunk[0])
    ensures |chunk| == 2 && AllHex(chunk) ==> HexValue(chunk) == 16 * DigitValue(chunk[0]) + DigitValue(chunk[1])
  {
    if |chunk| == 2 {
      assert chunk[1..][1..] == [] && chunk[1..][..0] == [];
      assert chunk[..1][1..] == [] && chunk[..1][..0] == [];
      assert chunk[..1] == [chunk[0]];
    }
    if |chunk| == 1 {
      assert chunk[1..] == [] && chunk[..0] == [];
    }
  }

  /** At least six characters, the first six hexadecimal digits. */
  predicate SixHexDigits(t: string) {
    |t| >= 6 && forall i :: 0 <= i < 6 ==> IsHexDigit(t[i])
  }

  /** `hex_to_rgb`: strip every leading `#`, then read three two-character chunks. */
  function HexToRgb(hexColor: string): (r: Option<Rgb>)
    ensures var t := LStrip(hexColor, '#');
            SixHexDigits(t) ==>
              r == Some(Rgb(16 * DigitValue(t[0]) + DigitValue(t[1]),
                            16 * DigitValue(t[2]) + DigitValue(t[3]),
                            16 * DigitValue(t[4]) + DigitValue(t[5])))
              && InRange(r.value)
    ensures |LStrip(hexColor, '#')| < 5 ==> r == None
  {
    var t := LStrip(hexColor, '#');
    HexChunks(t);
    var red := ParseHex(Slice(t, 0, 2));
    var green := ParseHex(Slice(t, 2, 4));
    var blue := ParseHex(Slice(t, 4, 6));
    if red.Some? && green.Some? && blue.Some? then Some(Rgb(red.value, green.value, blue.value)) else None
  }

  /**
   * For every input, `hex_to_rgb` is `int(chunk, 16)` of its three chunks:
   * a triple exactly when all three are read, with the values read.
   */
  lemma HexToRgbIsInt(hexColor: string)
    ensures var t := LStrip(hexColor, '#');
            var red, green, blue := IntBase16(Slice(t, 0, 2)), IntBase16(Slice(t, 2, 4)), IntBase16(Slice(t, 4, 6));
            HexToRgb(hexColor)
            == if red.Some? && green.Some? && blue.Some? then Some(Rgb(red.value, green.value, blue.value)) else None
  {
    var t := LStrip(hexColor, '#');
    ParseHexIsInt(Slice(t, 0, 2));
    ParseHexIsInt(Slice(t, 2, 4));
    ParseHexIsInt(Slice(t, 4, 6));
  }

  /**
   * The ASCII separators `\x1c` to `\x1f` are whitespace to `str.isspace()`
   * but not to `int()`, so a chunk that pads a digit with one is an error.
   */
  lemma SeparatorPaddingRejected()
    ensures HexToRgb("#\U{1c}1\U{1c}2\U{1c}3") == None
  {
    assert LStrip("#\U{1c}1\U{1c}2\U{1c}3", '#') == "\U{1c}1\U{1c}2\U{1c}3";
  }

  /** Six leading hexadecimal digits are cut into three two-digit chunks. */
  lemma HexChunks(t: string)
    ensures SixHexDigits(t) ==>
              && Slice(t, 0, 2) == [t[0], t[1]]
              && Slice(t, 2, 4) == [t[2], t[3]]
              && Slice(t, 4, 6) == [t[4], t[5]]
  {
  }

  /** Lower-case hexadecimal digits of `n` with no leading zeros (`0` for zero). */
  function ToHex(n: nat): (r: string)
    ensures |r| > 0
    decreases n
  {
    if n < 16 then [HexChar(n)] else ToHex(n / 16) + [HexChar(n % 16)]
  }

  /** The digits `ToHex` writes are lower case, read back as `n`, and start with `0` only for zero. */
  lemma {:induction false} ToHexDigits(n: nat)
    ensures var r := ToHex(n);
            && (forall i :: 0 <= i < |r| ==> IsLowerHexDigit(r[i]))
            && AllHex(r) && HexValue(r) == n
            && (r[0] == '0' <==> n == 0)
    decreases n
  {
    if n >= 16 {
      var high := ToHex(n / 16);
      ToHexDigits(n / 16);
      var r := ToHex(n);
      assert r == high + [HexChar(n % 16)];
      assert r[..|r| - 1] == high;
      assert r[0] == high[0];
    }
  }

  /** `f'{c:02x}'`: at least two characters, zero-padded, a minus sign for negative values. */
  function Format02x(c: int): string {
    if c < 0 then "-" + ToHex(-c)
    else if c < 16 then "0" + ToHex(c)
    else ToHex(c)
  }

  /** `rgb_to_hex`. */
  function RgbToHex(t: Rgb): (s: string)
    ensures InRange(t) ==> IsLowerHexColor(s)
    ensures InRange(t) ==>
              && t.r == 16 * DigitValue(s[1]) + DigitValue(s[2])
              && t.g == 16 * DigitValue(s[3]) + DigitValue(s[4])
              && t.b == 16 * DigitValue(s[5]) + DigitValue(s[6])
  {
    FormatByte(t.r);
    FormatByte(t.g);
    FormatByte(t.b);
    ByteDigits(t.r);
    ByteDigits(t.g);
    ByteDigits(t.b);
    "#" + Format02x(t.r) + Format02x(t.g) + Format02x(t.b)
  }

  /** The two digits of a byte, read back, give the byte. */
  lemma ByteDigits(n: int)
    ensures IsByte(n) ==> 16 * DigitValue(HexChar(n / 16)) + DigitValue(HexChar(n % 16)) == n
  {
    if IsByte(n) {
      DigitRoundTrip(n / 16);
      DigitRoundTrip(n % 16);
    }
  }

  /** A component in 0..255 is written as exactly two digits, high nibble first. */
  lemma FormatByte(n: int)
    ensures IsByte(n) ==> Format02x(n) == [HexChar(n / 16), HexChar(n % 16)]
  {
    if 16 <= n < 256 {
      assert ToHex(n / 16) == [HexChar(n / 16)];
    }
  }

  /** Leading `#` characters, however many, do not change the result. */
  lemma LeadingHashes(s: string)
    ensures HexToRgb("#" + s) == HexToRgb(s)
  {
    assert ("#" + s)[1..] == s;
  }

  /** Only the first six characters after the `#`s are read. */
  lemma {:induction false} TrailingIgnored(s: string, rest: string)
    requires |LStrip(s, '#')| >= 6
    ensures HexToRgb(s + rest) == HexToRgb(s)
  {
    LStripAppend(s, rest);
    var t := LStrip(s, '#');
    assert Slice(t + rest, 0, 2) == Slice(t, 0, 2);
    assert Slice(t + rest, 2, 4) == Slice(t, 2, 4);
    assert Slice(t + rest, 4, 6) == Slice(t, 4, 6);
  }

  lemma {:induction false} LStripAppend(s: string, rest: string)
    requires |LStrip(s, '#')| > 0
    ensures LStrip(s + rest, '#') == LStrip(s, '#') + rest
    decreases |s|
  {
    if |s| > 0 && s[0] == '#' {
      assert (s + rest)[1..] == s[1..] + rest;
      LStripAppend(s[1..], rest);
    }
  }

  /** Encoding a triple of bytes and decoding it again gives the triple back. */
  lemma RoundTripFromRgb(t: Rgb)
    requires InRange(t)
    ensures HexToRgb(RgbToHex(t)) == Some(t)
  {
    var s := RgbToHex(t);
    assert s[1..][..6] == s[1..7];
    assert LStrip(s[1..], '#') == s[1..] by {
      assert s[1] != '#';
    }
    LeadingHashes(s[1..]);
    assert "#" + s[1..] == s;
  }

  /** Two hexadecimal digits are read as one component and written back in lower case. */
  lemma ByteRoundTrip(hi: char, lo: char)
    requires IsHexDigit(hi) && IsHexDigit(lo)
    ensures Format02x(16 * DigitValue(hi) + DigitValue(lo)) == [LowerChar(hi), LowerChar(lo)]
  {
    var n := 16 * DigitValue(hi) + DigitValue(lo);
    assert n / 16 == DigitValue(hi) && n % 16 == DigitValue(lo);
    FormatByte(n);
    CharRoundTrip(hi);
    CharRoundTrip(lo);
  }

  /** What `hex_to_rgb` reads from `#` plus six hexadecimal digits. */
  lemma DecodeHexColor(s: string)
    requires IsHexColor(s)
    ensures HexToRgb(s) == Some(Rgb(16 * DigitValue(s[1]) + DigitValue(s[2]),
                                    16 * DigitValue(s[3]) + DigitValue(s[4]),
                                    16 * DigitValue(s[5]) + DigitValue(s[6])))
  {
    var t := s[1..];
    assert LStrip(s, '#') == t by {
      assert s[1..][0] != '#';
    }
    assert SixHexDigits(t) by {
      assert forall i :: 0 <= i < 6 ==> t[i] == s[i + 1];
    }
  }

  /** Three components read from digit pairs are written back as those digits in lower case. */
  lemma EncodeDigits(s: string)
    requires IsHexColor(s)
    ensures RgbToHex(Rgb(16 * DigitValue(s[1]) + DigitValue(s[2]),
                         16 * DigitValue(s[3]) + DigitValue(s[4]),
                         16 * DigitValue(s[5]) + DigitValue(s[6])))
            == ['#', LowerChar(s[1]), LowerChar(s[2]), LowerChar(s[3]),
                LowerChar(s[4]), LowerChar(s[5]), LowerChar(s[6])]
  {
    assert IsHexDigit(s[1]) && IsHexDigit(s[2]) && IsHexDigit(s[3]);
    assert IsHexDigit(s[4]) && IsHexDigit(s[5]) && IsHexDigit(s[6]);
    ByteRoundTrip(s[1], s[2]);
    ByteRoundTrip(s[3], s[4]);
    ByteRoundTrip(s[5], s[6]);
  }

  /** Decoding `#` plus six hexadecimal digits and encoding again gives the lower-case form. */
  lemma RoundTripFromString(s: string)
    requires IsHexColor(s)
    ensures HexToRgb(s).Some? && RgbToHex(HexToRgb(s).value) == Lower(s)
  {
    DecodeHexColor(s);
    EncodeDigits(s);
    var low := Lower(s);
    assert low[0] == '#' && low[1] == LowerChar(s[1]) && low[2] == LowerChar(s[2]);
    assert low[3] == LowerChar(s[3]) && low[4] == LowerChar(s[4]);
    assert low[5] == LowerChar(s[5]) && low[6] == LowerChar(s[6]);
    assert low == ['#', LowerChar(s[1]), LowerChar(s[2]), LowerChar(s[3]),
                   LowerChar(s[4]), LowerChar(s[5]), LowerChar(s[6])];
  }

  /** Every palette colour survives a decode followed by an encode unchanged. */
  lemma PaletteRoundTrip(name: string)
    requires name in Colors()
    ensures HexToRgb(Colors()[name]).Some?
    ensures RgbToHex(HexToRgb(Colors()[name]).value) == Colors()[name]
  {
    var c := Colors()[name];
    LowerHexIsHex(c);
    RoundTripFromString(c);
  }

  /** A colour already in the form `rgb_to_hex` writes is a colour `hex_to_rgb` reads, and lower case. */
  lemma LowerHexIsHex(c: string)
    requires IsLowerHexColor(c)
    ensures IsHexColor(c) && Lower(c) == c
  {
    assert forall i :: 0 <= i < |c| ==> Lower(c)[i] == c[i];
  }
}
