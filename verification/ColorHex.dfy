/**
 Packed colours of dat.gui.js: three bytes in a 32-bit integer, and six hexadecimal digits in text.
 The bit operations are those of JavaScript on 32-bit integers; the values stay below 2^24.
 */
module ColorHex {
  import opened Text
  import opened Wrappers

  // ---------------------------------------------------------------- packing

  /** `value << (8 * i) | hex & ~(0xFF << (8 * i))` */
  function HexWithComponent(hex: bv32, i: nat, value: bv32): bv32
    requires i < 3
  {
    if i == 0 then value | (hex & !0xFF)
    else if i == 1 then (value << 8) | (hex & !0xFF00)
    else (value << 16) | (hex & !0xFF0000)
  }

  function RgbToHex(r: bv32, g: bv32, b: bv32): bv32 {
    HexWithComponent(HexWithComponent(HexWithComponent(0, 2, r), 1, g), 0, b)
  }

  /** `hex >> (8 * i) & 0xFF` */
  function ComponentFromHex(hex: bv32, i: nat): bv32
    requires i < 3
  {
    if i == 0 then hex & 0xFF else if i == 1 then (hex >> 8) & 0xFF else (hex >> 16) & 0xFF
  }

  /** Writing one byte is read back in its place and leaves the other two bytes alone. */
  lemma WriteThenRead(hex: bv32, i: nat, value: bv32, j: nat)
    requires i < 3 && j < 3 && value <= 0xFF
    ensures ComponentFromHex(HexWithComponent(hex, i, value), j) == if i == j then value else ComponentFromHex(hex, j)
  {
    hide HexWithComponent, ComponentFromHex;
    if i == 0 {
      WriteBlue(hex, value);
    } else if i == 1 {
      WriteGreen(hex, value);
    } else {
      WriteRed(hex, value);
    }
  }

  lemma WriteBlue(hex: bv32, value: bv32)
    requires value <= 0xFF
    ensures ComponentFromHex(HexWithComponent(hex, 0, value), 0) == value
    ensures ComponentFromHex(HexWithComponent(hex, 0, value), 1) == ComponentFromHex(hex, 1)
    ensures ComponentFromHex(HexWithComponent(hex, 0, value), 2) == ComponentFromHex(hex, 2)
  {}

  lemma WriteGreen(hex: bv32, value: bv32)
    requires value <= 0xFF
    ensures ComponentFromHex(HexWithComponent(hex, 1, value), 0) == ComponentFromHex(hex, 0)
    ensures ComponentFromHex(HexWithComponent(hex, 1, value), 1) == value
    ensures ComponentFromHex(HexWithComponent(hex, 1, value), 2) == ComponentFromHex(hex, 2)
  {}

  lemma WriteRed(hex: bv32, value: bv32)
    requires value <= 0xFF
    ensures ComponentFromHex(HexWithComponent(hex, 2, value), 0) == ComponentFromHex(hex, 0)
    ensures ComponentFromHex(HexWithComponent(hex, 2, value), 1) == ComponentFromHex(hex, 1)
    ensures ComponentFromHex(HexWithComponent(hex, 2, value), 2) == value
  {}

  /** Packing three bytes and reading them back gives the three bytes. */
  lemma PackedComponents(r: bv32, g: bv32, b: bv32)
    requires r <= 0xFF && g <= 0xFF && b <= 0xFF
    ensures var hex := RgbToHex(r, g, b);
            ComponentFromHex(hex, 2) == r && ComponentFromHex(hex, 1) == g && ComponentFromHex(hex, 0) == b
  {
    hide HexWithComponent, ComponentFromHex;
    var first := HexWithComponent(0, 2, r);
    var second := HexWithComponent(first, 1, g);
    forall j: nat | j < 3
      ensures ComponentFromHex(RgbToHex(r, g, b), j) == if j == 0 then b else if j == 1 then g else r
    {
      WriteThenRead(second, 0, b, j);
      WriteThenRead(first, 1, g, j);
      WriteThenRead(0, 2, r, j);
    }
  }

  /** Every value below 2^24 is the packing of its own components. */
  lemma ComponentsPackBack(hex: bv32)
    requires hex <= 0xFFFFFF
    ensures RgbToHex(ComponentFromHex(hex, 2), ComponentFromHex(hex, 1), ComponentFromHex(hex, 0)) == hex
  {
    PackBits(hex);
  }

  lemma PackBits(hex: bv32)
    requires hex <= 0xFFFFFF
    ensures var r, g, b := (hex >> 16) & 0xFF, (hex >> 8) & 0xFF, hex & 0xFF;
            b | (((g << 8) | (((r << 16) | (0 & !0xFF0000)) & !0xFF00)) & !0xFF) == hex
  {}

  // ---------------------------------------------------------------- hexadecimal text

  const DIGITS := "0123456789abcdef"

  predicate IsHexDigit(c: char) {
    '0' <= c <= '9' || 'a' <= c <= 'f' || 'A' <= c <= 'F'
  }

  function DigitValue(c: char): (d: nat)
    requires IsHexDigit(c)
    ensures d < 16
  {
    if c <= '9' then (c - '0') as nat else if c >= 'a' then (c - 'a') as nat + 10 else (c - 'A') as nat + 10
  }

  /** `n.toString(16)` */
  function ToHexString(n: nat): (s: string)
    ensures |s| >= 1
  {
    if n < 16 then [DIGITS[n]] else ToHexString(n / 16) + [DIGITS[n % 16]]
  }

  /** `parseInt('0x' + s, 0)` of hexadecimal digits. */
  function ParseHex(s: string): nat
    requires forall c | c in s :: IsHexDigit(c)
  {
    if s == "" then 0 else 16 * ParseHex(s[..|s| - 1]) + DigitValue(s[|s| - 1])
  }

  function Zeros(n: nat): string {
    seq(n, i => '0')
  }

  function Padded(s: string): string {
    if |s| < 6 then Zeros(6 - |s|) + s else s
  }

  lemma NoZeros()
    ensures Zeros(0) == ""
  {}

  lemma OneMoreZero(n: nat)
    ensures Zeros(n + 1) == "0" + Zeros(n)
  {}

  /** `colorToString` in the hexadecimal formats: pad with zeros to six digits. */
  method ColorToString(hex: nat) returns (text: string)
    ensures text == "#" + Padded(ToHexString(hex))
  {
    hide ToHexString, Zeros;
    NoZeros();
    var str := ToHexString(hex);
    ghost var digits := str;
    while |str| < 6
      invariant |digits| <= |str| && (|digits| < 6 ==> |str| <= 6) && (|digits| >= 6 ==> str == digits)
      invariant str == Zeros(|str| - |digits|) + digits
    {
      OneMoreZero(|str| - |digits|);
      str := "0" + str;
    }
    text := "#" + str;
  }

  /** SIX_CHAR_HEX: `#` and six hexadecimal digits, either case. */
  function ReadSix(text: string): Maybe<nat> {
    if |text| == 7 && text[0] == '#' && forall c | c in text[1..] :: IsHexDigit(c)
    then Just(ParseHex(text[1..])) else Nothing
  }

  /** THREE_CHAR_HEX: every digit stands for itself twice. */
  function ReadThree(text: string): Maybe<nat> {
    if |text| == 4 && text[0] == '#' && forall c | c in text[1..] :: IsHexDigit(c)
    then Just(ParseHex([text[1], text[1], text[2], text[2], text[3], text[3]])) else Nothing
  }

  function Power16(n: nat): nat {
    if n == 0 then 1 else 16 * Power16(n - 1)
  }

  lemma {:induction false} DigitsAreHex(n: nat)
    ensures forall c | c in ToHexString(n) :: IsHexDigit(c) && Lower(c) == c
    ensures ParseHex(ToHexString(n)) == n
  {
    assert forall d | 0 <= d < 16 ::
        IsHexDigit(DIGITS[d]) && DigitValue(DIGITS[d]) == d && Lower(DIGITS[d]) == DIGITS[d];
    if n >= 16 {
      DigitsAreHex(n / 16);
      var front := ToHexString(n / 16);
      assert ToHexString(n)[..|front|] == front;
    } else {
      assert [DIGITS[n]][..0] == "";
    }
  }

  lemma {:induction false} LeadingZeros(s: string, n: nat)
    requires forall c | c in s :: IsHexDigit(c)
    ensures forall c | c in Zeros(n) + s :: IsHexDigit(c)
    ensures ParseHex(Zeros(n) + s) == ParseHex(s)
    decreases |s| + n
  {
    var all := Zeros(n) + s;
    if s != "" {
      assert all[..|all| - 1] == Zeros(n) + s[..|s| - 1];
      LeadingZeros(s[..|s| - 1], n);
    } else if n > 0 {
      assert all == Zeros(n) && all[..n - 1] == Zeros(n - 1) + "";
      LeadingZeros("", n - 1);
    }
  }

  /** The digits of a number bound it from both sides. */
  lemma {:induction false} LengthOfDigits(n: nat)
    ensures n < Power16(|ToHexString(n)|)
    ensures |ToHexString(n)| > 1 ==> n >= Power16(|ToHexString(n)| - 1)
  {
    if n >= 16 {
      LengthOfDigits(n / 16);
      var k := |ToHexString(n / 16)|;
      assert Power16(k + 1) == 16 * Power16(k);
      if k > 1 {
        assert Power16(k) == 16 * Power16(k - 1);
      } else {
        assert Power16(1) == 16 * Power16(0);
      }
    } else {
      assert Power16(1) == 16 * Power16(0);
    }
  }

  lemma {:induction false} PowerGrows(a: nat, b: nat)
    requires a <= b
    ensures Power16(a) <= Power16(b)
  {
    if a < b {
      PowerGrows(a, b - 1);
    }
  }

  lemma SixDigits()
    ensures Power16(6) == 0x1000000
  {
    assert Power16(2) == 256;
    assert Power16(4) == 16 * 16 * Power16(2);
    assert Power16(6) == 16 * 16 * Power16(4);
  }

  lemma ShortExactlyBelow24Bits(n: nat)
    ensures |ToHexString(n)| <= 6 <==> n < 0x1000000
  {
    LengthOfDigits(n);
    SixDigits();
    var k := |ToHexString(n)|;
    if k <= 6 {
      PowerGrows(k, 6);
    } else {
      PowerGrows(6, k - 1);
    }
  }

  /** A written colour reads back as itself exactly when it has 24 bits. */
  lemma WrittenReadsBackExactly(n: nat)
    ensures ReadSix("#" + Padded(ToHexString(n))) == Just(n) <==> n < 0x1000000
  {
    hide ToHexString, ParseHex, IsHexDigit, Power16;
    ShortExactlyBelow24Bits(n);
    DigitsAreHex(n);
    var digits := ToHexString(n);
    var text := "#" + Padded(digits);
    assert text[1..] == Padded(digits);
    if |digits| <= 6 {
      LeadingZeros(digits, 6 - |digits|);
      assert Zeros(0) + digits == digits;
    } else {
      assert |text| > 7;
    }
  }

  /** The text in lower case is `digits` after leading zeros. */
  predicate IsPaddedTo(text: string, digits: string) {
    |digits| <= |text| && LowerAll(text) == Zeros(|text| - |digits|) + digits
  }

  /** The digits of a text's value are the text in lower case without leading zeros. */
  lemma {:induction false} DigitsOf(s: string)
    requires |s| >= 1 && forall c | c in s :: IsHexDigit(c)
    ensures IsPaddedTo(s, ToHexString(ParseHex(s)))
  {
    hide *;
    if |s| == 1 {
      DigitOf(s[0]);
      assert s == [s[0]];
    } else {
      var last, front := s[|s| - 1], s[..|s| - 1];
      assert s == front + [last];
      DigitsOf(front);
      DigitsAndOne(front, last);
    }
  }

  lemma ParseHexSnoc(front: string, last: char)
    requires IsHexDigit(last) && forall c | c in front :: IsHexDigit(c)
    ensures ParseHex(front + [last]) == 16 * ParseHex(front) + DigitValue(last)
  {
    assert (front + [last])[..|front|] == front;
  }

  lemma DigitOf(c: char)
    requires IsHexDigit(c)
    ensures IsPaddedTo([c], ToHexString(ParseHex([c])))
  {
    LowerDigit(c);
    SingleDigit(DigitValue(c));
    assert [c][..0] == "";
  }

  lemma DigitsAndOne(front: string, last: char)
    requires IsHexDigit(last) && forall c | c in front :: IsHexDigit(c)
    requires IsPaddedTo(front, ToHexString(ParseHex(front)))
    ensures IsPaddedTo(front + [last], ToHexString(ParseHex(front + [last])))
  {
    hide IsHexDigit, DigitValue, Lower, LowerAll, ToHexString, Zeros, ParseHex;
    LowerDigit(last);
    LowerAllSnoc(front, last);
    ParseHexSnoc(front, last);
    AppendDigit(ParseHex(front), DigitValue(last), |front|, LowerAll(front));
  }

  lemma SingleDigit(d: nat)
    requires d < 16
    ensures ToHexString(d) == [DIGITS[d]] && Zeros(0) + [DIGITS[d]] == [DIGITS[d]]
  {}

  lemma LowerAllSnoc(front: string, c: char)
    ensures LowerAll(front + [c]) == LowerAll(front) + [Lower(c)]
  {}

  lemma NextDigits(n: nat, d: nat)
    requires d < 16 && n > 0
    ensures ToHexString(16 * n + d) == ToHexString(n) + [DIGITS[d]]
  {
    assert (16 * n + d) / 16 == n && (16 * n + d) % 16 == d;
  }

  lemma AppendDigit(n: nat, d: nat, k: nat, front: string)
    requires d < 16 && |ToHexString(n)| <= k && front == Zeros(k - |ToHexString(n)|) + ToHexString(n)
    ensures var digits := ToHexString(16 * n + d);
            |digits| <= k + 1 && front + [DIGITS[d]] == Zeros(k + 1 - |digits|) + digits
  {
    if n == 0 {
      assert ToHexString(0) == "0" && ToHexString(d) == [DIGITS[d]];
      hide ToHexString;
      assert Zeros(k) == Zeros(k - 1) + "0";
    } else {
      hide ToHexString;
      NextDigits(n, d);
    }
  }

  lemma LowerDigit(c: char)
    requires IsHexDigit(c)
    ensures Lower(c) == DIGITS[DigitValue(c)]
  {}

  lemma PaddedIsWhole(text: string, digits: string)
    requires IsPaddedTo(text, digits) && |text| == 6
    ensures Padded(digits) == LowerAll(text)
  {
    hide Zeros, LowerAll;
    NoZeros();
    assert "" + digits == digits;
  }

  /** Reading a six-digit text and writing it again gives the text in lower case. */
  lemma ReadWritesBack(text: string)
    requires ReadSix(text).Just?
    ensures ReadSix(text).value < 0x1000000
    ensures "#" + Padded(ToHexString(ReadSix(text).value)) == LowerAll(text)
  {
    hide ToHexString, ParseHex, IsHexDigit, LowerAll, Padded;
    var s := text[1..];
    DigitsOf(s);
    PaddedIsWhole(s, ToHexString(ParseHex(s)));
    ShortExactlyBelow24Bits(ParseHex(s));
    LowerHash(text);
  }

  /** `#abc` stands for `#aabbcc`. */
  function Doubled(text: string): string
    requires |text| == 4
  {
    [text[0], text[1], text[1], text[2], text[2], text[3], text[3]]
  }

  /** A three-digit text is read as the six-digit text in which every digit stands twice, and written as that. */
  lemma ThreeDigitsAreRead(text: string)
    requires ReadThree(text).Just?
    ensures ReadThree(text) == ReadSix(Doubled(text))
    ensures "#" + Padded(ToHexString(ReadThree(text).value)) == LowerAll(Doubled(text))
  {
    var six := Doubled(text);
    assert six[1..] == [text[1], text[1], text[2], text[2], text[3], text[3]];
    forall c | c in six[1..] ensures IsHexDigit(c) {
      assert c in text[1..];
    }
    hide IsHexDigit, ParseHex, ToHexString, LowerAll, Padded;
    ReadWritesBack(six);
  }

  lemma LowerHash(text: string)
    requires text != "" && text[0] == '#'
    ensures LowerAll(text) == "#" + LowerAll(text[1..])
  {}
}
