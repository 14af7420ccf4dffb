/** `hex_to_color`: a label colour such as "#1d76db" turned into a terminal colour,
    white when the text is not a six-digit hex colour. */
module Utils {
  import opened Wrappers

  /** Rust's `u8`. */
  type U8 = x: int | 0 <= x < 256

  /** The two colours `hex_to_color` can produce. */
  datatype Color = Rgb(r: U8, g: U8, b: U8) | White

  predicate IsAscii(s: string) {
    forall i :: 0 <= i < |s| ==> s[i] as int < 128
  }

  /** `str::trim_start_matches('#')`: drops every leading '#'. */
  function TrimStartHashes(s: string): (t: string)
    ensures |t| <= |s| && t == s[|s| - |t|..]
    ensures forall i :: 0 <= i < |s| - |t| ==> s[i] == '#'
    ensures |t| > 0 ==> t[0] != '#'
    decreases |s|
  {
    if |s| > 0 && s[0] == '#' then TrimStartHashes(s[1..]) else s
  }

  /** The value of one base-16 digit, either case. */
  function HexDigit(c: char): (d: Option<nat>)
    ensures d.Some? ==> d.value < 16
    ensures d.Some? <==> '0' <= c <= '9' || 'a' <= c <= 'f' || 'A' <= c <= 'F'
  {
    if '0' <= c <= '9' then Some(c as int - '0' as int)
    else if 'a' <= c <= 'f' then Some(c as int - 'a' as int + 10)
    else if 'A' <= c <= 'F' then Some(c as int - 'A' as int + 10)
    else None
  }

  predicate IsHexDigit(c: char) {
    HexDigit(c).Some?
  }

  /** Every character is a base-16 digit. */
  predicate AllHexDigits(s: string) {
    forall i :: 0 <= i < |s| ==> IsHexDigit(s[i])
  }

  /** 16 to the power `n`. */
  function Pow16(n: nat): (p: nat)
    ensures p > 0
  {
    if n == 0 then 1 else 16 * Pow16(n - 1)
  }

  /** The number a string of base-16 digits denotes, most significant first; none
      when some character is not a digit. */
  function HexDigitsValue(s: string): (r: Option<nat>)
    ensures r.Some? <==> AllHexDigits(s)
    ensures r.Some? ==> r.value < Pow16(|s|)
    decreases |s|
  {
    if |s| == 0 then Some(0)
    else
      match (HexDigitsValue(s[..|s| - 1]), HexDigit(s[|s| - 1]))
      case (Some(v), Some(d)) => Some(v * 16 + d)
      case _ => None
  }

  /** `s` without a leading '+'. */
  function Unsigned(s: string): (u: string)
    ensures |s| > 0 && s[0] == '+' ==> s == "+" + u
    ensures !(|s| > 0 && s[0] == '+') ==> u == s
  {
    if |s| > 0 && s[0] == '+' then s[1..] else s
  }

  /** `u8::from_str_radix(s, 16)`: an optional leading '+', then base-16 digits whose
      value fits in a byte. A '-' is no digit, and a sign alone is refused. */
  function FromStrRadix16(s: string): (r: Option<U8>)
    ensures r.Some? <==>
      |s| > 0 && s != "+" && AllHexDigits(Unsigned(s)) && HexDigitsValue(Unsigned(s)).value < 256
    ensures r.Some? ==> Some(r.value as nat) == HexDigitsValue(Unsigned(s))
    ensures |s| > 0 && s[0] == '-' ==> r == None
    ensures |s| == 2 ==> (r.Some? <==> PairAccepted(s[0], s[1]))
    ensures |s| == 2 && r.Some? ==> r.value == PairValue(s[0], s[1])
  {
    if |s| == 0 then None
    else if |s| == 1 && (s[0] == '+' || s[0] == '-') then None
    else
      var digits := if |s| == 2 then TwoCharDigits(s); HexDigitsValue(Unsigned(s))
                    else HexDigitsValue(Unsigned(s));
      match digits
      case Some(v) => if v < 256 then Some(v) else None
      case None => None
  }

  /** The source's `hex_to_color`. Non-ASCII text is outside the model: the source
      slices by bytes and can panic on it. */
  function HexToColor(hex: string): (c: Color)
    requires IsAscii(hex)
    ensures |TrimStartHashes(hex)| != 6 ==> c == White
  {
    var h := TrimStartHashes(hex);
    if |h| == 6 then SixCharsToColor(h) else White
  }

  /** The `if let` of `hex_to_color`: three two-character slices, each parsed as a
      byte; any failure falls back to white. */
  function SixCharsToColor(h: string): (c: Color)
    requires |h| == 6
    ensures c.Rgb? <==> PairAccepted(h[0], h[1]) && PairAccepted(h[2], h[3]) && PairAccepted(h[4], h[5])
    ensures c.Rgb? ==> c == Rgb(PairValue(h[0], h[1]), PairValue(h[2], h[3]), PairValue(h[4], h[5]))
  {
    assert h[0..2][0] == h[0] && h[0..2][1] == h[1];
    assert h[2..4][0] == h[2] && h[2..4][1] == h[3];
    assert h[4..6][0] == h[4] && h[4..6][1] == h[5];
    match (FromStrRadix16(h[0..2]), FromStrRadix16(h[2..4]), FromStrRadix16(h[4..6]))
    case (Some(r), Some(g), Some(b)) => Rgb(r, g, b)
    case _ => White
  }

  /** A two-character slice is accepted exactly when it is two hex digits, or '+'
      followed by one; its value is then the byte those digits denote. */
  predicate PairAccepted(a: char, b: char) {
    (IsHexDigit(a) || a == '+') && IsHexDigit(b)
  }

  function PairValue(a: char, b: char): (v: U8)
    requires PairAccepted(a, b)
  {
    if a == '+' then HexDigit(b).value else 16 * HexDigit(a).value + HexDigit(b).value
  }

  lemma OneDigitValue(c: char)
    ensures HexDigitsValue([c]) == HexDigit(c)
  {
    assert [c][..0] == [];
  }

  lemma TwoDigitsValue(a: char, b: char)
    ensures IsHexDigit(a) && IsHexDigit(b) ==>
      HexDigitsValue([a, b]) == Some(16 * HexDigit(a).value + HexDigit(b).value)
    ensures !(IsHexDigit(a) && IsHexDigit(b)) ==> HexDigitsValue([a, b]) == None
  {
    assert [a, b][..1] == [a];
    OneDigitValue(a);
  }

  /** The digit values behind a two-character slice, with or without its sign. */
  lemma TwoCharDigits(s: string)
    requires |s| == 2
    ensures HexDigitsValue(s[1..]) == HexDigit(s[1])
    ensures IsHexDigit(s[0]) && IsHexDigit(s[1]) ==>
      HexDigitsValue(s) == Some(16 * HexDigit(s[0]).value + HexDigit(s[1]).value)
  {
    assert s == [s[0], s[1]] && s[1..] == [s[1]];
    OneDigitValue(s[1]);
    TwoDigitsValue(s[0], s[1]);
  }

  /** The full characterisation: the result is a colour exactly when, after the
      leading '#'s, six characters remain and each pair is accepted; the colour's
      channels are the pairs' values. Otherwise it is white. */
  lemma HexToColorCharacterisation(hex: string)
    requires IsAscii(hex)
    ensures var h := TrimStartHashes(hex);
      HexToColor(hex).Rgb? <==>
        |h| == 6 && PairAccepted(h[0], h[1]) && PairAccepted(h[2], h[3]) && PairAccepted(h[4], h[5])
    ensures var h := TrimStartHashes(hex);
      HexToColor(hex).Rgb? ==>
        HexToColor(hex) == Rgb(PairValue(h[0], h[1]), PairValue(h[2], h[3]), PairValue(h[4], h[5]))
  {
  }

  /** Six hex digits, in either case, give `Rgb(16*h0+h1, 16*h2+h3, 16*h4+h5)`. */
  lemma SixHexDigits(hex: string)
    requires IsAscii(hex)
    requires var h := TrimStartHashes(hex); |h| == 6 && forall i :: 0 <= i < 6 ==> IsHexDigit(h[i])
    ensures var h := TrimStartHashes(hex);
      HexToColor(hex) == Rgb(16 * HexDigit(h[0]).value + HexDigit(h[1]).value,
                             16 * HexDigit(h[2]).value + HexDigit(h[3]).value,
                             16 * HexDigit(h[4]).value + HexDigit(h[5]).value)
  {
    var h := TrimStartHashes(hex);
    assert PairAccepted(h[0], h[1]) && h[0] != '+';
    assert PairAccepted(h[2], h[3]) && h[2] != '+';
    assert PairAccepted(h[4], h[5]) && h[4] != '+';
    HexToColorCharacterisation(hex);
  }

  /** A leading '#' changes nothing; by repetition, neither do several. */
  lemma LeadingHashIgnored(s: string)
    requires IsAscii(s)
    ensures IsAscii("#" + s)
    ensures HexToColor("#" + s) == HexToColor(s)
  {
    assert ("#" + s)[1..] == s;
  }

  /** "ff0000" is pure red. */
  lemma Red()
    ensures HexToColor("ff0000") == Rgb(255, 0, 0)
  {
    FormatRoundTrip(255, 0, 0, 0, false);
    assert FormatColor(255, 0, 0, 0, false) == "ff0000";
  }

  /** `n` '#' characters. */
  function Hashes(n: nat): (h: string)
    ensures |h| == n
    ensures forall i :: 0 <= i < n ==> h[i] == '#'
  {
    if n == 0 then [] else "#" + Hashes(n - 1)
  }

  /** Any run of leading '#'s changes nothing: "##ff0000" is "ff0000". */
  lemma {:induction false} LeadingHashesIgnored(n: nat, s: string)
    ensures TrimStartHashes(Hashes(n) + s) == TrimStartHashes(s)
    decreases n
  {
    if n > 0 {
      var t := Hashes(n) + s;
      assert t == "#" + (Hashes(n - 1) + s);
      assert t[1..] == Hashes(n - 1) + s;
      assert TrimStartHashes(t) == TrimStartHashes(t[1..]);
      LeadingHashesIgnored(n - 1, s);
    } else {
      assert Hashes(n) + s == s;
    }
  }

  /** `u8::from_str_radix` lets a '+' stand in front of a single digit, so "+f+f+f"
      is accepted as a colour. */
  lemma PlusSignAccepted()
    ensures HexToColor("+f+f+f") == Rgb(15, 15, 15)
  {
    HexToColorCharacterisation("+f+f+f");
  }

  /** A lower- or upper-case base-16 digit for `d`. */
  function HexDigitChar(d: nat, upper: bool): (c: char)
    requires d < 16
    ensures HexDigit(c) == Some(d)
    ensures c as int < 128 && c != '#'
  {
    if d < 10 then ('0' as int + d) as char
    else if upper then ('A' as int + d - 10) as char
    else ('a' as int + d - 10) as char
  }

  /** A byte as two base-16 digits. */
  function Hex2(v: U8, upper: bool): (s: string)
    ensures |s| == 2
  {
    [HexDigitChar(v / 16, upper), HexDigitChar(v % 16, upper)]
  }

  /** A colour written as `#rrggbb`, with any number of leading '#'s. */
  function FormatColor(r: U8, g: U8, b: U8, hashes: nat, upper: bool): (s: string)
    ensures |s| == hashes + 6
  {
    Hashes(hashes) + Hex2(r, upper) + Hex2(g, upper) + Hex2(b, upper)
  }

  /** Two digits written by `Hex2` parse back to the byte. */
  lemma Hex2Parses(v: U8, upper: bool)
    ensures FromStrRadix16(Hex2(v, upper)) == Some(v)
  {
  }

  lemma SixCharsRoundTrip(r: U8, g: U8, b: U8, upper: bool)
    ensures SixCharsToColor(Hex2(r, upper) + Hex2(g, upper) + Hex2(b, upper)) == Rgb(r, g, b)
  {
    var h := Hex2(r, upper) + Hex2(g, upper) + Hex2(b, upper);
    assert h[0..2] == Hex2(r, upper);
    assert h[2..4] == Hex2(g, upper);
    assert h[4..6] == Hex2(b, upper);
    Hex2Parses(r, upper);
    Hex2Parses(g, upper);
    Hex2Parses(b, upper);
  }

  /** Formatting a colour and parsing it back gives the colour. */
  lemma FormatRoundTrip(r: U8, g: U8, b: U8, hashes: nat, upper: bool)
    ensures IsAscii(FormatColor(r, g, b, hashes, upper))
    ensures HexToColor(FormatColor(r, g, b, hashes, upper)) == Rgb(r, g, b)
  {
    var digits := Hex2(r, upper) + Hex2(g, upper) + Hex2(b, upper);
    var s := FormatColor(r, g, b, hashes, upper);
    assert s == Hashes(hashes) + digits;
    forall i | 0 <= i < |s|
      ensures s[i] as int < 128
    {
      if i >= hashes {
        assert s[i] == digits[i - hashes];
      }
    }
    LeadingHashesIgnored(hashes, digits);
    assert TrimStartHashes(digits) == digits;
    SixCharsRoundTrip(r, g, b, upper);
  }
}
