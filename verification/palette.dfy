/** The colour helper used for explosion particles: a `#rgb` or `#rrggbb` colour (the `#`
    optional, hex digits in either case) becomes the text "r,g,b" in decimal; anything
    else becomes white, "255,255,255". */
module Palette {
  import opened Entities

  predicate IsHexDigit(c: char) {
    ('0' <= c <= '9') || ('a' <= c <= 'f') || ('A' <= c <= 'F')
  }

  function HexValue(c: char): (v: int)
    requires IsHexDigit(c)
    ensures 0 <= v < 16
  {
    if '0' <= c <= '9' then c as int - '0' as int
    else if 'a' <= c <= 'f' then c as int - 'a' as int + 10
    else c as int - 'A' as int + 10
  }

  predicate AllHex(s: string) {
    forall i :: 0 <= i < |s| ==> IsHexDigit(s[i])
  }

  /** The text after an optional leading `#`. */
  function Digits(hex: string): string {
    if |hex| > 0 && hex[0] == '#' then hex[1..] else hex
  }

  /** The shorthand rewrite: a whole `#rgb` (or `rgb`) becomes `rrggbb`, without the `#`;
      any other text is left as it is. */
  function Expand(hex: string): string {
    var d := Digits(hex);
    if |d| == 3 && AllHex(d) then [d[0], d[0], d[1], d[1], d[2], d[2]] else hex
  }

  /** Two hex digits read as one channel. */
  function Channel(hi: char, lo: char): (v: int)
    requires IsHexDigit(hi) && IsHexDigit(lo)
    ensures 0 <= v < 256
  {
    16 * HexValue(hi) + HexValue(lo)
  }

  datatype Rgb = Rgb(red: int, green: int, blue: int)

  predicate InRange(c: Rgb) {
    0 <= c.red < 256 && 0 <= c.green < 256 && 0 <= c.blue < 256
  }

  /** The full-form match, run on the text after the shorthand rewrite. */
  function Channels(hex: string): (r: Option<Rgb>)
    ensures r.Some? ==> InRange(r.value)
    ensures r.Some? <==> |Digits(Expand(hex))| == 6 && AllHex(Digits(Expand(hex)))
  {
    var d := Digits(Expand(hex));
    if |d| == 6 && AllHex(d) then Some(Rgb(Channel(d[0], d[1]), Channel(d[2], d[3]), Channel(d[4], d[5])))
    else None
  }

  function DigitChar(d: int): char
    requires 0 <= d < 10
  {
    ('0' as int + d) as char
  }

  /** The value of a string of decimal digits. */
  function DecimalValue(s: string): int
    decreases |s|
  {
    if |s| == 0 then 0 else 10 * DecimalValue(s[..|s| - 1]) + (s[|s| - 1] as int - '0' as int)
  }

  /** Canonical decimal text: at least one digit, only digits, and no leading zero unless
      the text is "0" itself. */
  predicate Canonical(s: string) {
    && |s| >= 1 && (forall i :: 0 <= i < |s| ==> '0' <= s[i] <= '9')
    && (|s| > 1 ==> s[0] != '0')
  }

  /** A natural number written in decimal, without leading zeros. */
  function Decimal(n: nat): (s: string)
    ensures |s| >= 1 && forall i :: 0 <= i < |s| ==> '0' <= s[i] <= '9'
    ensures |s| > 1 ==> s[0] != '0'
    ensures Canonical(s)
    ensures DecimalValue(s) == n
    decreases n
  {
    if n < 10 then [DigitChar(n)]
    else
      var prefix := Decimal(n / 10);
      var s := prefix + [DigitChar(n % 10)];
      assert s[..|s| - 1] == prefix;
      s
  }

  /** Canonical decimal text is the one way of writing its value: `Decimal` is the only
      writer there is. */
  lemma {:induction false} CanonicalIsDecimal(s: string)
    requires Canonical(s)
    ensures DecimalValue(s) >= 0 && s == Decimal(DecimalValue(s))
    decreases |s|
  {
    var n := |s| - 1;
    var d := s[n] as int - '0' as int;
    if n == 0 {
      assert DecimalValue(s) == 10 * DecimalValue(s[..0]) + d;
      assert DigitChar(d) == s[0];
    } else {
      var p := s[..n];
      assert p[0] == s[0];
      assert Canonical(p);
      CanonicalIsDecimal(p);
      var v := DecimalValue(p);
      assert v >= 1;
      assert DecimalValue(s) == 10 * v + d;
      assert (10 * v + d) / 10 == v && (10 * v + d) % 10 == d;
      assert DigitChar(d) == s[n];
      assert s == p + [s[n]];
    }
  }

  const White: string := "255,255,255"

  /** Index of the first comma, or the length when there is none. */
  function CommaAt(s: string): (k: nat)
    ensures k <= |s|
    ensures k < |s| ==> s[k] == ','
    ensures forall i :: 0 <= i < k ==> s[i] != ','
    decreases |s|
  {
    if |s| == 0 || s[0] == ',' then 0 else 1 + CommaAt(s[1..])
  }

  /** The comma-separated fields of a text. */
  function Split(s: string): (r: seq<string>)
    ensures |r| >= 1
    decreases |s|
  {
    var k := CommaAt(s);
    if k == |s| then [s] else [s[..k]] + Split(s[k + 1..])
  }

  predicate NoComma(s: string) {
    forall i :: 0 <= i < |s| ==> s[i] != ','
  }

  lemma {:induction false} SplitJoin(x: string, y: string)
    requires NoComma(x)
    ensures Split(x + "," + y) == [x] + Split(y)
  {
    var s := x + "," + y;
    assert s[|x|] == ',';
    assert CommaAt(s) == |x|;
    assert s[..|x|] == x;
    assert s[|x| + 1..] == y;
  }

  /** Three comma-free fields joined by commas split back into those fields. */
  lemma {:induction false} SplitThree(x: string, y: string, z: string)
    requires NoComma(x) && NoComma(y) && NoComma(z)
    ensures Split(x + "," + y + "," + z) == [x, y, z]
  {
    SplitJoin(y, z);
    assert Split(z) == [z];
    assert x + "," + y + "," + z == x + "," + (y + "," + z);
    SplitJoin(x, y + "," + z);
  }

  /** The three decimal channels separated by commas. */
  function Join(c: Rgb): (r: string)
    requires InRange(c)
    ensures |Split(r)| == 3
    ensures DecimalValue(Split(r)[0]) == c.red
    ensures DecimalValue(Split(r)[1]) == c.green
    ensures DecimalValue(Split(r)[2]) == c.blue
    ensures Canonical(Split(r)[0]) && Canonical(Split(r)[1]) && Canonical(Split(r)[2])
  {
    var r, g, b := Decimal(c.red), Decimal(c.green), Decimal(c.blue);
    SplitThree(r, g, b);
    r + "," + g + "," + b
  }

  /** `hexToRgb`: a colour that matches becomes its three channels in decimal, separated
      by commas; anything else becomes white. */
  function HexToRgb(hex: string): (r: string)
    ensures Channels(hex).None? ==> r == White
    ensures Channels(hex).Some? ==>
      && |Split(r)| == 3
      && DecimalValue(Split(r)[0]) == Channels(hex).value.red
      && DecimalValue(Split(r)[1]) == Channels(hex).value.green
      && DecimalValue(Split(r)[2]) == Channels(hex).value.blue
      && Canonical(Split(r)[0]) && Canonical(Split(r)[1]) && Canonical(Split(r)[2])
  {
    match Channels(hex)
    case None => White
    case Some(c) => Join(c)
  }

  /** The lower-case hex digit of a value below 16. */
  function HexChar(d: int): (c: char)
    requires 0 <= d < 16
    ensures IsHexDigit(c) && HexValue(c) == d
  {
    if d < 10 then ('0' as int + d) as char else ('a' as int + d - 10) as char
  }

  function Hex2(n: int): (s: string)
    requires 0 <= n < 256
  {
    [HexChar(n / 16), HexChar(n % 16)]
  }

  /** Writing a colour as `#rrggbb` and reading it back gives the colour, with or without
      the `#`; the text produced lists its three channels in decimal. */
  lemma HexRoundTrip(c: Rgb)
    requires InRange(c)
    ensures Channels("#" + Hex2(c.red) + Hex2(c.green) + Hex2(c.blue)) == Some(c)
    ensures Channels(Hex2(c.red) + Hex2(c.green) + Hex2(c.blue)) == Some(c)
    ensures HexToRgb("#" + Hex2(c.red) + Hex2(c.green) + Hex2(c.blue)) == Join(c)
  {
    var body := Hex2(c.red) + Hex2(c.green) + Hex2(c.blue);
    var hex := "#" + body;
    assert Digits(hex) == body;
    assert Expand(hex) == hex;
    assert Expand(body) == body;
    assert Digits(body) == body;
  }

  /** The shorthand `#rgb` means `#rrggbb`: each digit stands for itself repeated, which is
      17 times its value. */
  lemma ShorthandDoubles(a: char, b: char, c: char)
    requires IsHexDigit(a) && IsHexDigit(b) && IsHexDigit(c)
    ensures Channels(['#', a, b, c]) == Channels(['#', a, a, b, b, c, c])
    ensures Channels(['#', a, b, c]) == Some(Rgb(17 * HexValue(a), 17 * HexValue(b), 17 * HexValue(c)))
  {
    assert Digits(['#', a, b, c]) == [a, b, c];
    assert Expand(['#', a, b, c]) == [a, a, b, b, c, c];
    assert Digits(['#', a, a, b, b, c, c]) == [a, a, b, b, c, c];
    assert |Digits(['#', a, a, b, b, c, c])| == 6;
  }

  /** Text whose digits (after an optional `#`) number neither three nor six is white. */
  lemma OtherLengthsAreWhite(hex: string)
    requires |Digits(hex)| != 3 && |Digits(hex)| != 6
    ensures HexToRgb(hex) == White
  {
    assert Expand(hex) == hex;
  }

  /** A colour whose text contains a character that is not a hex digit (after an optional
      leading `#`) is white. */
  lemma NonHexIsWhite(hex: string, k: int)
    requires 0 <= k < |Digits(hex)| && !IsHexDigit(Digits(hex)[k])
    ensures HexToRgb(hex) == White
  {
    assert !AllHex(Digits(hex));
    assert Expand(hex) == hex;
  }
}
