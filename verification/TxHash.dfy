/** `canonicalize_tx_hash` of `src/session_service.rs`. */
module TxHash {
  import opened Types
  import opened Hex

  /** Unicode White_Space, which `str::trim` removes. */
  predicate IsWhitespace(c: char) {
    var u := c as int;
    || 0x9 <= u <= 0xD || u == 0x20 || u == 0x85 || u == 0xA0 || u == 0x1680
    || 0x2000 <= u <= 0x200A || u == 0x2028 || u == 0x2029 || u == 0x202F || u == 0x205F || u == 0x3000
  }

  function TrimStart(s: string): string {
    if s != "" && IsWhitespace(s[0]) then TrimStart(s[1..]) else s
  }

  function TrimEnd(s: string): string {
    if s != "" && IsWhitespace(s[|s| - 1]) then TrimEnd(s[..|s| - 1]) else s
  }

  function Trim(s: string): string {
    TrimEnd(TrimStart(s))
  }

  function StripPrefix(s: string, prefix: string): Option<string> {
    if prefix <= s then Some(s[|prefix|..]) else None
  }

  /** `trimmed.strip_prefix("0x").or_else(strip_prefix("0X")).unwrap_or(trimmed)` */
  function StripHexPrefix(s: string): string {
    match StripPrefix(s, "0x")
    case Some(rest) => rest
    case None => match StripPrefix(s, "0X") { case Some(rest) => rest case None => s }
  }

  predicate Is64Hex(s: string) {
    |s| == 64 && AllHex(s)
  }

  /** `parse::<B256>()`: at most one lower-case "0x", then exactly 64 digits. */
  function ParseB256(s: string): Option<seq<Byte>> {
    var digits := match StripPrefix(s, "0x") { case Some(rest) => rest case None => s };
    if Is64Hex(digits) then Some(Decode(digits)) else None
  }

  function Canonicalize(txHash: string): Result<string> {
    var trimmed := Trim(txHash);
    match ParseB256(trimmed)
    case Some(h) => Ok("0x" + Encode(h))
    case None =>
      var withPrefix := "0x" + StripHexPrefix(trimmed);
      match ParseB256(withPrefix)
      case Some(h) => Ok("0x" + Encode(h))
      case None => Err("invalid tx hash")
  }

  predicate AllWhitespace(s: string) {
    forall i :: 0 <= i < |s| ==> IsWhitespace(s[i])
  }

  lemma {:induction false} TrimStartExact(before: string, rest: string)
    requires AllWhitespace(before) && rest != "" && !IsWhitespace(rest[0])
    ensures TrimStart(before + rest) == rest
  {
    if before == "" {
      assert before + rest == rest;
    } else {
      assert (before + rest)[1..] == before[1..] + rest;
      TrimStartExact(before[1..], rest);
    }
  }

  lemma {:induction false} TrimEndExact(rest: string, after: string)
    requires AllWhitespace(after) && rest != "" && !IsWhitespace(rest[|rest| - 1])
    ensures TrimEnd(rest + after) == rest
    decreases |after|
  {
    if after == "" {
      assert rest + after == rest;
    } else {
      var s := rest + after;
      assert s[..|s| - 1] == rest + after[..|after| - 1];
      TrimEndExact(rest, after[..|after| - 1]);
    }
  }

  lemma HexIsNotWhitespace(c: char)
    requires IsHexDigit(c)
    ensures !IsWhitespace(c) && c != 'x' && c != 'X'
  {
  }

  /** A text is accepted exactly when, trimmed and with at most one prefix of either case
      removed, it is 64 hexadecimal digits; the result is those digits in lower case. */
  lemma CanonicalizeMeaning(txHash: string)
    ensures var digits := StripHexPrefix(Trim(txHash));
      if Is64Hex(digits) then
        && Canonicalize(txHash) == Ok("0x" + LowerCase(digits))
        && Canonicalize(txHash) == Ok("0x" + Encode(Decode(digits)))
      else Canonicalize(txHash) == Err("invalid tx hash")
  {
    var trimmed := Trim(txHash);
    var digits := StripHexPrefix(trimmed);
    assert ("0x" + digits)[2..] == digits;
    if "0X" <= trimmed {
      assert trimmed[1] == 'X';
      assert !Is64Hex(trimmed);
    }
    if Is64Hex(digits) {
      EncodeDecode(digits);
    }
  }

  lemma StripExact(prefix: string, digits: string)
    requires prefix == "" || prefix == "0x" || prefix == "0X"
    requires Is64Hex(digits)
    ensures StripHexPrefix(prefix + digits) == digits
  {
    HexIsNotWhitespace(digits[1]);
    var core := prefix + digits;
    if prefix == "" {
      assert core == digits;
    } else {
      assert core[1] == prefix[1] && core[2..] == digits;
    }
  }

  /** Every prefix, case and whitespace spelling of the same 32 bytes gives the same text. */
  lemma EverySpellingAgrees(before: string, prefix: string, digits: string, after: string)
    requires AllWhitespace(before) && AllWhitespace(after)
    requires prefix == "" || prefix == "0x" || prefix == "0X"
    requires Is64Hex(digits)
    ensures Canonicalize(before + prefix + digits + after) == Ok("0x" + Encode(Decode(digits)))
  {
    var core := prefix + digits;
    HexIsNotWhitespace(digits[0]);
    HexIsNotWhitespace(digits[63]);
    assert before + prefix + digits + after == before + (core + after);
    TrimStartExact(before, core + after);
    TrimEndExact(core, after);
    StripExact(prefix, digits);
    CanonicalizeMeaning(before + prefix + digits + after);
  }

  /** The bytes that the digits of a text spell, whitespace and one prefix aside. */
  function SpelledBytes(txHash: string): Option<seq<Byte>> {
    var digits := StripHexPrefix(Trim(txHash));
    if Is64Hex(digits) then Some(Decode(digits)) else None
  }

  /** What an accepted text stands for, and how it is printed. */
  lemma AcceptedBytes(txHash: string) returns (bytes: seq<Byte>)
    requires Canonicalize(txHash).Ok?
    ensures SpelledBytes(txHash) == Some(bytes) && |bytes| == 32
    ensures Canonicalize(txHash) == Ok("0x" + Encode(bytes))
  {
    CanonicalizeMeaning(txHash);
    bytes := Decode(StripHexPrefix(Trim(txHash)));
  }

  lemma PrintedIsFixed(bytes: seq<Byte>)
    requires |bytes| == 32
    ensures Canonicalize("0x" + Encode(bytes)) == Ok("0x" + Encode(bytes))
  {
    var digits := Encode(bytes);
    DecodeEncode(bytes);
    EverySpellingAgrees("", "0x", digits, "");
    assert "" + "0x" + digits + "" == "0x" + digits;
  }

  lemma PrintedIsInjective(a: seq<Byte>, b: seq<Byte>)
    requires "0x" + Encode(a) == "0x" + Encode(b)
    ensures a == b
  {
    DecodeEncode(a);
    DecodeEncode(b);
    assert ("0x" + Encode(a))[2..] == Encode(a) && ("0x" + Encode(b))[2..] == Encode(b);
  }

  /** Canonical text is a fixed point. */
  lemma CanonicalizeIdempotent(txHash: string)
    requires Canonicalize(txHash).Ok?
    ensures Canonicalize(Canonicalize(txHash).value) == Canonicalize(txHash)
  {
    var bytes := AcceptedBytes(txHash);
    PrintedIsFixed(bytes);
  }

  /** Different bytes never share a canonical text. */
  lemma CanonicalTextsDiffer(a: string, b: string)
    requires Canonicalize(a).Ok? && Canonicalize(b).Ok?
    ensures SpelledBytes(a).Some? && SpelledBytes(b).Some?
    ensures Canonicalize(a) == Canonicalize(b) <==> SpelledBytes(a) == SpelledBytes(b)
  {
    var ba := AcceptedBytes(a);
    var bb := AcceptedBytes(b);
    if Canonicalize(a) == Canonicalize(b) {
      PrintedIsInjective(ba, bb);
    }
  }

  // ---- In literal characters ----

  /** Unicode's White_Space characters. */
  const WHITE_SPACE: set<int> := {
    0x9, 0xA, 0xB, 0xC, 0xD, 0x20, 0x85, 0xA0, 0x1680,
    0x2000, 0x2001, 0x2002, 0x2003, 0x2004, 0x2005, 0x2006, 0x2007, 0x2008, 0x2009, 0x200A,
    0x2028, 0x2029, 0x202F, 0x205F, 0x3000}

  predicate Blank(s: string) {
    forall i :: 0 <= i < |s| ==> s[i] as int in WHITE_SPACE
  }

  lemma BlankIsWhitespace(s: string)
    ensures Blank(s) <==> AllWhitespace(s)
  {
    forall i | 0 <= i < |s|
      ensures s[i] as int in WHITE_SPACE <==> IsWhitespace(s[i])
    {
      WhiteSpaceIs(s[i]);
    }
  }

  lemma WhiteSpaceIs(c: char)
    ensures c as int in WHITE_SPACE <==> IsWhitespace(c)
  {
  }

  /** The text is 64 hexadecimal digits of either case, after at most one prefix and
      between blanks. */
  ghost predicate IsSpelling(txHash: string, before: string, prefix: string, digits: string, after: string) {
    && txHash == before + prefix + digits + after
    && Blank(before) && Blank(after)
    && (prefix == "" || prefix == "0x" || prefix == "0X")
    && |digits| == 64
    && forall i :: 0 <= i < 64 ==>
         '0' <= digits[i] <= '9' || 'a' <= digits[i] <= 'f' || 'A' <= digits[i] <= 'F'
  }

  /** `lower` is `digits` with its capitals in lower case. */
  predicate Lowers(lower: string, digits: string) {
    && |lower| == |digits|
    && forall i :: 0 <= i < |digits| ==>
         lower[i] as int == if 'A' <= digits[i] <= 'F' then digits[i] as int + 32 else digits[i] as int
  }

  lemma {:induction false} LowerCaseLowers(digits: string)
    requires AllHex(digits)
    ensures Lowers(LowerCase(digits), digits)
  {
    if digits != "" {
      LowerCaseLowers(digits[1..]);
      assert LowerCase(digits)[1..] == LowerCase(digits[1..]);
      forall i | 0 < i < |digits|
        ensures LowerCase(digits)[i] == LowerCase(digits[1..])[i - 1] && digits[i] == digits[1..][i - 1]
      {
      }
    }
  }

  lemma {:induction false} TrimStartSplits(s: string) returns (before: string)
    ensures s == before + TrimStart(s) && AllWhitespace(before)
  {
    before := "";
    if s != "" && IsWhitespace(s[0]) {
      before := TrimStartSplits(s[1..]);
      before := [s[0]] + before;
    }
  }

  lemma {:induction false} TrimEndSplits(s: string) returns (after: string)
    ensures s == TrimEnd(s) + after && AllWhitespace(after)
    decreases |s|
  {
    after := "";
    if s != "" && IsWhitespace(s[|s| - 1]) {
      after := TrimEndSplits(s[..|s| - 1]);
      after := after + [s[|s| - 1]];
    }
  }

  /** Every spelling is accepted, and gives "0x" and its own digits in lower case. */
  lemma SpellingsAreAccepted(txHash: string, before: string, prefix: string, digits: string, after: string)
    requires IsSpelling(txHash, before, prefix, digits, after)
    ensures Canonicalize(txHash).Ok?
    ensures "0x" <= Canonicalize(txHash).value && Lowers(Canonicalize(txHash).value[2..], digits)
  {
    BlankIsWhitespace(before);
    BlankIsWhitespace(after);
    EverySpellingAgrees(before, prefix, digits, after);
    EncodeDecode(digits);
    LowerCaseLowers(digits);
    assert ("0x" + LowerCase(digits))[2..] == LowerCase(digits);
  }

  lemma StripSplits(s: string) returns (prefix: string)
    ensures s == prefix + StripHexPrefix(s)
    ensures prefix == "" || prefix == "0x" || prefix == "0X"
  {
    prefix := if "0x" <= s then "0x" else if "0X" <= s then "0X" else "";
  }

  lemma TrimSplits(s: string) returns (before: string, after: string)
    ensures s == before + Trim(s) + after && Blank(before) && Blank(after)
  {
    before := TrimStartSplits(s);
    after := TrimEndSplits(TrimStart(s));
    BlankIsWhitespace(before);
    BlankIsWhitespace(after);
  }

  lemma AcceptedHasDigits(txHash: string)
    requires Canonicalize(txHash).Ok?
    ensures Is64Hex(StripHexPrefix(Trim(txHash)))
  {
    CanonicalizeMeaning(txHash);
  }

  /** Nothing else is accepted. */
  lemma AcceptedIsSpelled(txHash: string) returns (before: string, prefix: string, digits: string, after: string)
    requires Canonicalize(txHash).Ok?
    ensures IsSpelling(txHash, before, prefix, digits, after)
  {
    var trimmed := Trim(txHash);
    before, after := TrimSplits(txHash);
    prefix := StripSplits(trimmed);
    digits := StripHexPrefix(trimmed);
    AcceptedHasDigits(txHash);
  }

  /** A doubled prefix, of whatever case, is rejected. */
  lemma DoubledPrefixRejected(txHash: string, first: string, second: string, rest: string)
    requires first == "0x" || first == "0X"
    requires second == "0x" || second == "0X"
    requires Trim(txHash) == first + second + rest
    ensures Canonicalize(txHash).Err?
  {
    CanonicalizeMeaning(txHash);
    var digits := StripHexPrefix(Trim(txHash));
    assert digits == second + rest;
    assert digits[1] == second[1];
  }
}
