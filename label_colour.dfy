/**
 * `getContrastColor` (components/IssueFilters.tsx,
 * components/ActiveFilters.tsx and components/MultiSelectDropdown.tsx, three
 * identical copies): the text colour drawn on a label badge, black on
 * bright backgrounds and white on dark ones.
 */
module LabelColour {

  predicate IsHexDigit(c: char)
  {
    '0' <= c <= '9' || 'a' <= c <= 'f' || 'A' <= c <= 'F'
  }

  function HexDigitValue(c: char): (v: nat)
    requires IsHexDigit(c)
    ensures v < 16
  {
    if '0' <= c <= '9' then c as int - '0' as int
    else if 'a' <= c <= 'f' then c as int - 'a' as int + 10
    else c as int - 'A' as int + 10
  }

  /** A colour as the API gives it: six hexadecimal digits, no `#`. */
  predicate IsHexColour(hex: string)
  {
    |hex| >= 6 && forall i :: 0 <= i < 6 ==> IsHexDigit(hex[i])
  }

  /** `Number.parseInt(hex.substr(at, 2), 16)` for two hexadecimal digits: a channel value. */
  function Channel(hex: string, at: nat): (v: nat)
    requires at + 2 <= |hex| && IsHexDigit(hex[at]) && IsHexDigit(hex[at + 1])
    ensures v <= 255
  {
    16 * HexDigitValue(hex[at]) + HexDigitValue(hex[at + 1])
  }

  /** The weighted sum `r * 299 + g * 587 + b * 114` of the three channels. */
  function WeightedSum(hex: string): nat
    requires IsHexColour(hex)
  {
    Channel(hex, 0) * 299 + Channel(hex, 2) * 587 + Channel(hex, 4) * 114
  }

  /**
   * `brightness > 128 ? "#000000" : "#ffffff"` with `brightness` the weighted
   * sum divided by 1000 as a real number. The division is exact here, so the
   * choice is the integer comparison of the sum with 128000.
   */
  function ContrastColor(hex: string): (colour: string)
    requires IsHexColour(hex)
    ensures colour == "#000000" || colour == "#ffffff"
    ensures colour == "#000000" <==> WeightedSum(hex) > 128000
  {
    var brightness := WeightedSum(hex) as real / 1000.0;
    if brightness > 128.0 then "#000000" else "#ffffff"
  }

  /** The brightest background gets black text and the darkest white text. */
  lemma ContrastExtremes()
    ensures ContrastColor("ffffff") == "#000000"
    ensures ContrastColor("000000") == "#ffffff"
  {
    assert Channel("ffffff", 0) == 255 && Channel("ffffff", 2) == 255 && Channel("ffffff", 4) == 255;
    assert Channel("000000", 0) == 0 && Channel("000000", 2) == 0 && Channel("000000", 4) == 0;
  }

  /** Brightening any one channel never turns black text white. */
  lemma ContrastMonotone(dark: string, bright: string)
    requires IsHexColour(dark) && IsHexColour(bright)
    requires Channel(dark, 0) <= Channel(bright, 0)
    requires Channel(dark, 2) <= Channel(bright, 2)
    requires Channel(dark, 4) <= Channel(bright, 4)
    ensures ContrastColor(dark) == "#000000" ==> ContrastColor(bright) == "#000000"
  {
  }
}
