/** Hexadecimal and decimal text, as `hex::encode`, `format!("{:#066x}")` and
    `u64::to_string` print it. */
module Hex {
  import opened Types

  type Nibble = x: nat | x < 16

  function Digit(n: Nibble): char {
    if n < 10 then '0' + n as char else 'a' + (n - 10) as char
  }

  predicate IsHexDigit(c: char) {
    '0' <= c <= '9' || 'a' <= c <= 'f' || 'A' <= c <= 'F'
  }

  /** The value of a hexadecimal digit of either case. */
  function DigitValue(c: char): Nibble
    requires IsHexDigit(c)
  {
    if '0' <= c <= '9' then c as int - '0' as int
    else if 'a' <= c <= 'f' then c as int - 'a' as int + 10
    else c as int - 'A' as int + 10
  }

  lemma DigitRoundTrip(n: Nibble)
    ensures IsHexDigit(Digit(n)) && DigitValue(Digit(n)) == n
    ensures Digit(n) != '_' && Digit(n) != 'x' && Digit(n) != 'X'
  {
  }

  /** The digits by name: sixteen for printing, and capitals too for reading. */
  lemma DigitsAreTheUsualOnes(n: Nibble, c: char)
    ensures Digit(n) == "0123456789abcdef"[n]
    ensures IsHexDigit(c) <==> c in "0123456789abcdef" || c in "0123456789ABCDEF"
    ensures c == "0123456789abcdef"[n] || c == "0123456789ABCDEF"[n] ==> IsHexDigit(c) && DigitValue(c) == n
  {
    var lower, upper := "0123456789abcdef", "0123456789ABCDEF";
    forall i: Nibble
      ensures lower[i] as int == if i < 10 then 48 + i else 87 + i
      ensures upper[i] as int == if i < 10 then 48 + i else 55 + i
    {
      NamedDigit(i);
    }
    if IsHexDigit(c) {
      var v := DigitValue(c);
      assert c == lower[v] || c == upper[v];
    }
  }

  lemma NamedDigit(n: Nibble)
    ensures "0123456789abcdef"[n] as int == if n < 10 then 48 + n else 87 + n
    ensures "0123456789ABCDEF"[n] as int == if n < 10 then 48 + n else 55 + n
  {
    if n < 8 {
      assert n in {0, 1, 2, 3, 4, 5, 6, 7};
    } else {
      assert n in {8, 9, 10, 11, 12, 13, 14, 15};
    }
  }

  predicate AllHex(s: string) {
    forall i :: 0 <= i < |s| ==> IsHexDigit(s[i])
  }

  function ByteText(b: Byte): (s: string)
    ensures |s| == 2
  {
    [Digit(b / 16), Digit(b % 16)]
  }

  function Pair(hi: Nibble, lo: Nibble): Byte {
    16 * hi + lo
  }

  function ByteValue(s: string): Byte
    requires |s| == 2 && AllHex(s)
  {
    Pair(DigitValue(s[0]), DigitValue(s[1]))
  }

  lemma ByteRoundTrip(b: Byte)
    ensures AllHex(ByteText(b)) && ByteValue(ByteText(b)) == b
  {
    DigitRoundTrip(b / 16);
    DigitRoundTrip(b % 16);
  }

  lemma PairDigits(hi: Nibble, lo: Nibble)
    ensures ByteText(Pair(hi, lo)) == [Digit(hi), Digit(lo)]
  {
    assert Pair(hi, lo) / 16 == hi && Pair(hi, lo) % 16 == lo;
  }

  lemma TextRoundTrip(s: string)
    requires |s| == 2 && AllHex(s)
    ensures ByteText(ByteValue(s)) == [Digit(DigitValue(s[0])), Digit(DigitValue(s[1]))]
  {
    PairDigits(DigitValue(s[0]), DigitValue(s[1]));
  }

  /** Two lower-case digits per byte. */
  function Encode(bytes: seq<Byte>): (s: string)
    ensures |s| == 2 * |bytes|
  {
    if bytes == [] then "" else ByteText(bytes[0]) + Encode(bytes[1..])
  }

  function Decode(s: string): (bytes: seq<Byte>)
    requires |s| % 2 == 0 && AllHex(s)
    ensures |s| == 2 * |bytes|
  {
    if s == "" then [] else [ByteValue(s[..2])] + Decode(s[2..])
  }

  lemma {:induction false} DecodeEncode(bytes: seq<Byte>)
    ensures AllHex(Encode(bytes)) && Decode(Encode(bytes)) == bytes
  {
    if bytes != [] {
      DecodeEncode(bytes[1..]);
      ByteRoundTrip(bytes[0]);
      var s := Encode(bytes);
      assert s[..2] == ByteText(bytes[0]) && s[2..] == Encode(bytes[1..]);
    }
  }

  /** `text` is these bytes in order, each as two lower-case digits, the higher first. */
  predicate Spells(text: string, bytes: seq<Byte>) {
    && |text| == 2 * |bytes|
    && forall i :: 0 <= i < |bytes| ==>
         && text[2 * i] == "0123456789abcdef"[bytes[i] / 16]
         && text[2 * i + 1] == "0123456789abcdef"[bytes[i] % 16]
  }

  lemma {:induction false} EncodeSpells(bytes: seq<Byte>)
    ensures Spells(Encode(bytes), bytes)
  {
    if bytes != [] {
      EncodeSpells(bytes[1..]);
      var text := Encode(bytes);
      assert text[2..] == Encode(bytes[1..]);
      forall i | 0 <= i < |bytes|
        ensures text[2 * i] == "0123456789abcdef"[bytes[i] / 16]
        ensures text[2 * i + 1] == "0123456789abcdef"[bytes[i] % 16]
      {
        if i == 0 {
          DigitsAreTheUsualOnes(bytes[0] / 16, ' ');
          DigitsAreTheUsualOnes(bytes[0] % 16, ' ');
        } else {
          assert bytes[1..][i - 1] == bytes[i];
          assert text[2..][2 * (i - 1)] == text[2 * i] && text[2..][2 * (i - 1) + 1] == text[2 * i + 1];
        }
      }
    }
  }

  /** The digits of `s`, letters in lower case. */
  function LowerCase(s: string): (r: string)
    requires AllHex(s)
    ensures |r| == |s|
  {
    if s == "" then "" else [Digit(DigitValue(s[0]))] + LowerCase(s[1..])
  }

  lemma LowerCasePair(s: string)
    requires |s| >= 2 && AllHex(s)
    ensures LowerCase(s) == [Digit(DigitValue(s[0])), Digit(DigitValue(s[1]))] + LowerCase(s[2..])
  {
    assert s[1..][1..] == s[2..];
  }

  lemma EncodeDecodePair(s: string)
    requires |s| >= 2 && |s| % 2 == 0 && AllHex(s)
    ensures Encode(Decode(s)) == ByteText(ByteValue(s[..2])) + Encode(Decode(s[2..]))
  {
    assert Decode(s)[1..] == Decode(s[2..]);
  }

  /** Printing what was parsed lower-cases the digits and changes nothing else. */
  lemma {:induction false} EncodeDecode(s: string)
    requires |s| % 2 == 0 && AllHex(s)
    ensures Encode(Decode(s)) == LowerCase(s)
  {
    if s != "" {
      EncodeDecode(s[2..]);
      EncodeDecodePair(s);
      TextRoundTrip(s[..2]);
      LowerCasePair(s);
    }
  }

  /** `n` in exactly `width` hexadecimal digits, most significant first. */
  function FixedHex(n: nat, width: nat): (s: string)
    ensures |s| == width
  {
    if width == 0 then "" else FixedHex(n / 16, width - 1) + [Digit(n % 16)]
  }

  function Power16(k: nat): (p: nat)
    ensures p > 0
  {
    if k == 0 then 1 else 16 * Power16(k - 1)
  }

  lemma {:induction false} FixedHexInjective(a: nat, b: nat, width: nat)
    requires a < Power16(width) && b < Power16(width)
    requires FixedHex(a, width) == FixedHex(b, width)
    ensures a == b
  {
    if width > 0 {
      var sa, sb := FixedHex(a, width), FixedHex(b, width);
      assert sa[..width - 1] == FixedHex(a / 16, width - 1);
      assert sb[..width - 1] == FixedHex(b / 16, width - 1);
      DigitRoundTrip(a % 16);
      DigitRoundTrip(b % 16);
      assert sa[width - 1] == sb[width - 1];
      FixedHexInjective(a / 16, b / 16, width - 1);
    }
  }

  /** `format!("{:#066x}", v)`: "0x" and 64 digits. */
  function Word(v: U256): (s: string)
    ensures |s| == 66
  {
    "0x" + FixedHex(v, 64)
  }

  lemma Power16Of64()
    ensures Power16(64) ==
      0x1_0000_0000_0000_0000_0000_0000_0000_0000_0000_0000_0000_0000_0000_0000_0000_0000
  {
    assert Power16(8) == 0x1_0000_0000;
    assert Power16(16) == 0x1_0000_0000_0000_0000;
    assert Power16(24) == 0x1_0000_0000_0000_0000_0000_0000;
    assert Power16(32) == 0x1_0000_0000_0000_0000_0000_0000_0000_0000;
    assert Power16(40) == 0x1_0000_0000_0000_0000_0000_0000_0000_0000_0000_0000;
    assert Power16(48) == 0x1_0000_0000_0000_0000_0000_0000_0000_0000_0000_0000_0000_0000;
    assert Power16(56) == 0x1_0000_0000_0000_0000_0000_0000_0000_0000_0000_0000_0000_0000_0000_0000;
  }

  /** Distinct 256-bit words print differently, so text keys lose nothing. */
  lemma WordInjective(a: U256, b: U256)
    requires Word(a) == Word(b)
    ensures a == b
  {
    Power16Of64();
    assert Word(a)[2..] == FixedHex(a, 64);
    assert Word(b)[2..] == FixedHex(b, 64);
    FixedHexInjective(a, b, 64);
  }

  /** What hexadecimal digits stand for, the most significant first. */
  function HexValue(s: string): nat
    requires AllHex(s)
  {
    if s == "" then 0 else 16 * HexValue(s[..|s| - 1]) + DigitValue(s[|s| - 1])
  }

  lemma {:induction false} FixedHexReadsBack(n: nat, width: nat)
    requires n < Power16(width)
    ensures AllHex(FixedHex(n, width)) && HexValue(FixedHex(n, width)) == n
    ensures forall c :: c in FixedHex(n, width) ==> c in "0123456789abcdef"
  {
    if width > 0 {
      FixedHexReadsBack(n / 16, width - 1);
      DigitRoundTrip(n % 16);
      DigitsAreTheUsualOnes(n % 16, ' ');
      assert FixedHex(n, width)[..width - 1] == FixedHex(n / 16, width - 1);
    }
  }

  /** `text` is "0x" and 64 lower-case digits that read back as `v`. */
  predicate ShowsWord(text: string, v: U256) {
    && |text| == 66 && text[..2] == "0x"
    && (forall i :: 2 <= i < 66 ==> text[i] in "0123456789abcdef")
    && AllHex(text[2..]) && HexValue(text[2..]) == v
  }

  lemma WordReadsBack(v: U256)
    ensures ShowsWord(Word(v), v)
  {
    Power16Of64();
    FixedHexReadsBack(v, 64);
    assert Word(v)[2..] == FixedHex(v, 64);
  }

  /** `n.to_string()`. */
  function Decimal(n: nat): (s: string)
    ensures |s| > 0 && (s[0] == '0' ==> s == "0")
    ensures forall i :: 0 <= i < |s| ==> '0' <= s[i] <= '9'
  {
    if n < 10 then [Digit(n)] else Decimal(n / 10) + [Digit(n % 10)]
  }

  function DecimalValue(s: string): nat
    requires forall i :: 0 <= i < |s| ==> '0' <= s[i] <= '9'
  {
    if s == "" then 0 else 10 * DecimalValue(s[..|s| - 1]) + DigitValue(s[|s| - 1])
  }

  lemma {:induction false} DecimalRoundTrip(n: nat)
    ensures DecimalValue(Decimal(n)) == n
  {
    if n >= 10 {
      DecimalRoundTrip(n / 10);
      DigitRoundTrip(n % 10);
      assert Decimal(n)[..|Decimal(n)| - 1] == Decimal(n / 10);
    } else {
      DigitRoundTrip(n);
    }
  }
}
