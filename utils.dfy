/**
 * The small helpers of js/utils.js (and the identical `shuffleArray` of
 * js/storage.js): Fisher-Yates shuffling, random index choice, hex colour
 * parsing, clamping and the integer part of grid placement.
 *
 * Math.random() is modelled as a caller-supplied stream `random: nat -> real`
 * whose values lie in [0, 1).
 */
module Utils {
  import opened Wrappers

  lemma ScaledBelow(u: real, n: nat)
    requires 0.0 <= u < 1.0 && 0 < n
    ensures 0.0 <= u * n as real < n as real
  {
    assert (n as real) * (1.0 - u) > 0.0;
  }

  /**
   * `Math.floor(u * n)` for a random `u` in [0, 1): an index into a
   * collection of `n` elements.
   */
  function RandomIndex(u: real, n: nat): (k: nat)
    requires 0.0 <= u < 1.0 && 0 < n
    ensures k < n
  {
    ScaledBelow(u, n);
    (u * n as real).Floor
  }

  /**
   * Fisher-Yates shuffle (`shuffle`, js/utils.js:23-30; `shuffleArray`,
   * js/storage.js:273-280): copies the input, then for i from the last
   * index down to 1 swaps element i with element `Math.floor(random * (i + 1))`.
   * The k-th swap uses `random(k)`.
   */
  method Shuffle<T>(s: seq<T>, random: nat -> real) returns (r: seq<T>)
    requires forall n :: 0.0 <= random(n) < 1.0
    ensures |r| == |s|
    ensures multiset(r) == multiset(s)
  {
    var a := new T[|s|](k requires 0 <= k < |s| => s[k]);
    assert a[..] == s;
    var i := |s| - 1;
    while i > 0
      invariant i < |s|
      invariant multiset(a[..]) == multiset(s)
    {
      var j := RandomIndex(random(|s| - 1 - i), i + 1);
      a[i], a[j] := a[j], a[i];
      i := i - 1;
    }
    r := a[..];
  }

  /**
   * parseInt(x) as JavaScript evaluates it for a number 0 <= x < 1e21:
   * the number is first turned into its decimal string, which is written in
   * exponent notation ("5.960464477539063e-8") once x is below 1e-6, and
   * parseInt then reads only the leading digit.
   */
  function ParseIntOfNumber(x: real): int
    requires 0.0 <= x
  {
    if x == 0.0 || x >= 1.0 / 1000000.0 then x.Floor else LeadingDigit(x, 400)
  }

  /**
   * The first significant decimal digit of 0 < v < 1 (a double is at least
   * 5e-324, so 400 shifts by one decimal place always reach it).
   */
  function LeadingDigit(v: real, fuel: nat): int
    decreases fuel
  {
    if v >= 1.0 || fuel == 0 then v.Floor else LeadingDigit(v * 10.0, fuel - 1)
  }

  /**
   * The draw index as js/main.js:200 writes it:
   * `parseInt(Math.random() * kujiList.length)`.
   */
  function ParseIntIndex(u: real, n: nat): (k: int)
    requires 0.0 <= u < 1.0
    ensures u * n as real >= 1.0 / 1000000.0 ==> k == RandomIndex(u, n)
  {
    ScaledBelow(u, if n == 0 then 1 else n);
    ParseIntOfNumber(u * n as real)
  }

  /**
   * With Math.random() returning 2^-24 and one element left, the index
   * read by parseInt is 5: past the end of the pool.
   */
  lemma ParseIntIndexOverruns()
    ensures var u := 1.0 / 16777216.0;
      0.0 <= u < 1.0 && ParseIntIndex(u, 1) == 5 && RandomIndex(u, 1) == 0
  {
    var u := 1.0 / 16777216.0;
    assert ParseIntOfNumber(u) == LeadingDigit(u, 400);
    calc {
      LeadingDigit(u, 400);
      LeadingDigit(u * 10.0, 399);
      LeadingDigit(u * 100.0, 398);
      LeadingDigit(u * 1000.0, 397);
      LeadingDigit(u * 10000.0, 396);
      LeadingDigit(u * 100000.0, 395);
      LeadingDigit(u * 1000000.0, 394);
      LeadingDigit(u * 10000000.0, 393);
      LeadingDigit(u * 100000000.0, 392);
      (u * 100000000.0).Floor;
      5;
    }
    assert u * (1 as real) == u;
  }

  /** `clamp(value, min, max)`: `Math.min(Math.max(value, min), max)` (js/utils.js:265-267). */
  function Clamp(value: real, lo: real, hi: real): (r: real)
    ensures r <= hi
    ensures lo <= hi ==> lo <= r
    ensures lo <= value <= hi ==> r == value
    ensures lo <= hi && value < lo ==> r == lo
    ensures value > hi ==> r == hi
    ensures lo > hi ==> r == hi
    ensures r == value || r == lo || r == hi
  {
    var atLeast := if value < lo then lo else value;
    if atLeast < hi then atLeast else hi
  }

  /** A grid slot `{row, col}` of `gridPosition`. */
  datatype GridSlot = GridSlot(row: int, col: int)

  /** JavaScript's `%`: the remainder takes the sign of the dividend. */
  function TruncMod(a: int, b: int): (r: int)
    requires b > 0
    ensures a >= 0 ==> 0 <= r < b
    ensures a < 0 ==> -b < r <= 0
    ensures (a - r) % b == 0
  {
    DivMod(if a >= 0 then a else -a, b);
    if a >= 0 then
      MultipleMod(a / b, b);
      a % b
    else
      MultipleMod(-((-a) / b), b);
      -((-a) % b)
  }

  /** A multiple of `b` leaves no remainder. */
  lemma MultipleMod(q: int, b: int)
    requires b > 0
    ensures (q * b) % b == 0
  {
    var d, m := (q * b) / b, (q * b) % b;
    DivMod(q * b, b);
    assert (q - d) * b == m && (d - q) * b == -m;
    AtLeastOneMultiple(q - d, b);
    AtLeastOneMultiple(d - q, b);
  }

  /**
   * The integer part of `gridPosition` (js/utils.js:111-113):
   * row = Math.floor(index / columns), col = index % columns.
   * For an index that is not negative the slot is the row-major position.
   */
  function GridSlotOf(index: int, columns: int): (g: GridSlot)
    requires columns > 0
    ensures 0 <= index ==> 0 <= g.row && 0 <= g.col < columns && index == g.row * columns + g.col
  {
    DivMod(index, columns);
    GridSlot(index / columns, TruncMod(index, columns))
  }

  lemma DivMod(a: int, b: int)
    requires b > 0
    ensures a == (a / b) * b + a % b
    ensures a >= 0 ==> a / b >= 0
  {
  }

  lemma AtLeastOneMultiple(d: int, b: int)
    requires b > 0
    ensures d >= 1 ==> d * b >= b
  {
  }

  /** Row-major numbering is undone by `GridSlotOf`. */
  lemma GridSlotRoundTrip(row: nat, col: nat, columns: int)
    requires 0 <= col < columns
    ensures GridSlotOf(row * columns + col, columns) == GridSlot(row, col)
  {
    var n := row * columns + col;
    DivMod(n, columns);
    var q, r := n / columns, n % columns;
    assert (row - q) * columns == r - col;
    AtLeastOneMultiple(row - q, columns);
    AtLeastOneMultiple(q - row, columns);
  }

  // ---- hex colours -------------------------------------------------------

  predicate IsHexDigit(ch: char) {
    '0' <= ch <= '9' || 'a' <= ch <= 'f' || 'A' <= ch <= 'F'
  }

  function HexDigitValue(ch: char): (v: nat)
    requires IsHexDigit(ch)
    ensures v < 16
  {
    if '0' <= ch <= '9' then ch as int - '0' as int
    else if 'a' <= ch <= 'f' then ch as int - 'a' as int + 10
    else ch as int - 'A' as int + 10
  }

  /** The lower-case digit for 0 <= v < 16. */
  function HexDigitChar(v: nat): (ch: char)
    requires v < 16
    ensures IsHexDigit(ch)
  {
    if v < 10 then ('0' as int + v) as char else ('a' as int + v - 10) as char
  }

  /** Two hex digits read as one byte: `parseInt(pair, 16)`. */
  function HexByte(hi: char, lo: char): (v: nat)
    requires IsHexDigit(hi) && IsHexDigit(lo)
    ensures v < 256
  {
    16 * HexDigitValue(hi) + HexDigitValue(lo)
  }

  datatype Rgb = Rgb(r: nat, g: nat, b: nat)

  predicate IsByteRgb(c: Rgb) { c.r < 256 && c.g < 256 && c.b < 256 }

  /**
   * What the pattern `/^#?([a-f\d]{2})([a-f\d]{2})([a-f\d]{2})$/i` accepts:
   * six hex digits of either case, with or without one leading '#'.
   */
  predicate IsHexColor(s: string) {
    (|s| == 6 && forall k :: 0 <= k < 6 ==> IsHexDigit(s[k])) ||
    (|s| == 7 && s[0] == '#' && forall k :: 1 <= k < 7 ==> IsHexDigit(s[k]))
  }

  /** `hexToRgb` (js/utils.js:372-379): three bytes, or null when the text is no hex colour. */
  function HexToRgb(hex: string): (c: Option<Rgb>)
    ensures c.Some? <==> IsHexColor(hex)
    ensures c.Some? ==> IsByteRgb(c.value)
  {
    var d := if |hex| > 0 && hex[0] == '#' then hex[1..] else hex;
    if |d| == 6 && forall k :: 0 <= k < 6 ==> IsHexDigit(d[k]) then
      Some(Rgb(HexByte(d[0], d[1]), HexByte(d[2], d[3]), HexByte(d[4], d[5])))
    else
      None
  }

  /** The canonical `#rrggbb` spelling of a colour, in lower case. */
  function RgbToHex(c: Rgb): (s: string)
    requires IsByteRgb(c)
    ensures |s| == 7 && s[0] == '#'
  {
    ['#', HexDigitChar(c.r / 16), HexDigitChar(c.r % 16),
     HexDigitChar(c.g / 16), HexDigitChar(c.g % 16),
     HexDigitChar(c.b / 16), HexDigitChar(c.b % 16)]
  }

  lemma HexDigitRoundTrip(v: nat)
    requires v < 16
    ensures HexDigitValue(HexDigitChar(v)) == v
  {
  }

  /** Every byte colour printed as hex parses back to itself. */
  lemma HexRoundTrip(c: Rgb)
    requires IsByteRgb(c)
    ensures HexToRgb(RgbToHex(c)) == Some(c)
  {
    var s := RgbToHex(c);
    HexDigitRoundTrip(c.r / 16);
    HexDigitRoundTrip(c.r % 16);
    HexDigitRoundTrip(c.g / 16);
    HexDigitRoundTrip(c.g % 16);
    HexDigitRoundTrip(c.b / 16);
    HexDigitRoundTrip(c.b % 16);
    assert s[1..] == [s[1], s[2], s[3], s[4], s[5], s[6]];
  }

  function ToLowerHex(ch: char): char {
    if 'A' <= ch <= 'F' then (ch as int - 'A' as int + 'a' as int) as char else ch
  }

  /** A digit's value printed again is the digit in lower case. */
  lemma DigitCanonical(ch: char)
    requires IsHexDigit(ch)
    ensures HexDigitChar(HexDigitValue(ch)) == ToLowerHex(ch)
  {
  }

  /** A byte read from two digits prints back as those digits in lower case. */
  lemma ByteCanonical(hi: char, lo: char)
    requires IsHexDigit(hi) && IsHexDigit(lo)
    ensures HexDigitChar(HexByte(hi, lo) / 16) == ToLowerHex(hi)
    ensures HexDigitChar(HexByte(hi, lo) % 16) == ToLowerHex(lo)
  {
    DigitCanonical(hi);
    DigitCanonical(lo);
  }

  /** Six digits read as a colour print back as those digits in lower case. */
  lemma DigitsCanonical(d: string)
    requires |d| == 6 && forall k :: 0 <= k < 6 ==> IsHexDigit(d[k])
    ensures RgbToHex(Rgb(HexByte(d[0], d[1]), HexByte(d[2], d[3]), HexByte(d[4], d[5]))) ==
      ['#'] + seq(6, k requires 0 <= k < 6 => ToLowerHex(d[k]))
  {
    ByteCanonical(d[0], d[1]);
    ByteCanonical(d[2], d[3]);
    ByteCanonical(d[4], d[5]);
  }

  /** Parsing is case-insensitive: whatever parses prints back as its own digits in lower case. */
  lemma HexCanonical(hex: string)
    requires HexToRgb(hex).Some?
    ensures var d := if hex[0] == '#' then hex[1..] else hex;
      RgbToHex(HexToRgb(hex).value) == ['#'] + seq(6, k requires 0 <= k < 6 => ToLowerHex(d[k]))
  {
    var d := if hex[0] == '#' then hex[1..] else hex;
    DigitsCanonical(d);
  }
}
