/** `trace_cache_path` of `src/trace_cache.rs`: the name under which a trace is cached. */
module TracePath {
  import opened Types
  import opened Hex
  import opened TxHash

  const HEAD := "cache/trace_"
  const TAIL := ".json"
  const UNKNOWN := "unknown"

  function ChainText(chainId: Option<U64>): string {
    match chainId
    case Some(v) => Decimal(v)
    case None => UNKNOWN
  }

  /** `{chain}_{block}_{hash}.json` */
  function Fields(chainId: Option<U64>, blockNumber: U64, hash: string): string {
    ChainText(chainId) + "_" + (Decimal(blockNumber) + "_" + (hash + TAIL))
  }

  function TraceCachePath(txHash: string, chainId: Option<U64>, blockNumber: U64): string {
    HEAD + Fields(chainId, blockNumber, StripHexPrefix(Trim(txHash)))
  }

  // ---- Reading a path back ----

  predicate AllDigits(s: string) {
    forall i :: 0 <= i < |s| ==> '0' <= s[i] <= '9'
  }

  /** The length of `s` up to its first underscore. */
  function FieldLength(s: string): (n: nat)
    ensures n <= |s|
  {
    if s == "" || s[0] == '_' then 0 else 1 + FieldLength(s[1..])
  }

  /** Splits a field off the front, with the underscore that ends it. */
  function TakeField(s: string): Option<(string, string)> {
    var n := FieldLength(s);
    if n < |s| then Some((s[..n], s[n + 1..])) else None
  }

  function ReadNumber(s: string): Option<nat> {
    if s != "" && AllDigits(s) then Some(DecimalValue(s)) else None
  }

  datatype Key = Key(chainId: Option<nat>, blockNumber: nat, hash: string)

  function ReadFields(s: string): Option<Key> {
    match TakeField(s)
    case None => None
    case Some((chain, afterChain)) =>
      match TakeField(afterChain)
      case None => None
      case Some((block, afterBlock)) =>
        if |afterBlock| < |TAIL| || ReadNumber(block).None? || (chain != UNKNOWN && ReadNumber(chain).None?) then None
        else Some(Key(if chain == UNKNOWN then None else ReadNumber(chain),
                      ReadNumber(block).value,
                      "0x" + afterBlock[..|afterBlock| - |TAIL|]))
  }

  function ReadPath(path: string): Option<Key> {
    if HEAD <= path then ReadFields(path[|HEAD|..]) else None
  }

  lemma {:induction false} FieldEnds(field: string, rest: string)
    requires forall i :: 0 <= i < |field| ==> field[i] != '_'
    ensures TakeField(field + "_" + rest) == Some((field, rest))
  {
    FieldLengthIs(field, rest);
    var s := field + "_" + rest;
    assert s[..|field|] == field && s[|field| + 1..] == rest;
  }

  lemma {:induction false} FieldLengthIs(field: string, rest: string)
    requires forall i :: 0 <= i < |field| ==> field[i] != '_'
    ensures FieldLength(field + "_" + rest) == |field|
  {
    if field != "" {
      assert (field + "_" + rest)[1..] == field[1..] + "_" + rest;
      FieldLengthIs(field[1..], rest);
    }
  }

  lemma ChainTextReads(chainId: Option<U64>)
    ensures var text := ChainText(chainId);
      && (forall i :: 0 <= i < |text| ==> text[i] != '_')
      && (if chainId.None? then text == UNKNOWN else text != UNKNOWN && ReadNumber(text) == Some(chainId.value))
  {
    if chainId.Some? {
      DecimalRoundTrip(chainId.value);
      assert UNKNOWN[0] == 'u';
    }
  }

  lemma CanonicalStrips(canonical: string)
    requires |canonical| == 66 && canonical[..2] == "0x" && AllHex(canonical[2..])
    ensures StripHexPrefix(Trim(canonical)) == canonical[2..]
  {
    var digits := canonical[2..];
    HexIsNotWhitespace(digits[63]);
    assert canonical == "" + canonical && canonical == canonical + "";
    TrimStartExact("", canonical);
    TrimEndExact(canonical, "");
  }

  lemma CanonicalShape(txHash: string)
    requires Canonicalize(txHash).Ok?
    ensures var c := Canonicalize(txHash).value;
      |c| == 66 && c[..2] == "0x" && AllHex(c[2..])
  {
    CanonicalizeMeaning(txHash);
    DecodeEncode(Decode(StripHexPrefix(Trim(txHash))));
  }

  lemma FieldsReadBack(chainId: Option<U64>, blockNumber: U64, hash: string)
    ensures ReadFields(Fields(chainId, blockNumber, hash)) == Some(Key(chainId, blockNumber, "0x" + hash))
  {
    var chain, block := ChainText(chainId), Decimal(blockNumber);
    ChainTextReads(chainId);
    FieldEnds(chain, block + "_" + (hash + TAIL));
    DecimalRoundTrip(blockNumber);
    FieldEnds(block, hash + TAIL);
    assert (hash + TAIL)[..|hash|] == hash;
  }

  lemma HeadReadsBack(fields: string)
    ensures ReadPath(HEAD + fields) == ReadFields(fields)
  {
    assert (HEAD + fields)[|HEAD|..] == fields;
  }

  /** The path of a canonical hash gives back the chain, the block and the hash. */
  lemma {:induction false} PathRoundTrip(txHash: string, chainId: Option<U64>, blockNumber: U64)
    requires Canonicalize(txHash).Ok?
    ensures var canonical := Canonicalize(txHash).value;
      ReadPath(TraceCachePath(canonical, chainId, blockNumber)) == Some(Key(chainId, blockNumber, canonical))
  {
    var canonical := Canonicalize(txHash).value;
    CanonicalShape(txHash);
    CanonicalStrips(canonical);
    var hash := canonical[2..];
    HeadReadsBack(Fields(chainId, blockNumber, hash));
    FieldsReadBack(chainId, blockNumber, hash);
    assert "0x" + hash == canonical;
  }

  lemma FieldsInLine(chain: string, block: string, hash: string)
    ensures HEAD + (chain + "_" + (block + "_" + (hash + TAIL)))
            == "cache/trace_" + chain + "_" + block + "_" + hash + ".json"
  {
  }

  /** The name on disk: chain or "unknown", block, and the 64 digits of the hash. */
  lemma PathIsSpelled(txHash: string, chainId: Option<U64>, blockNumber: U64)
    requires Canonicalize(txHash).Ok?
    ensures var canonical := Canonicalize(txHash).value;
      && |canonical| == 66
      && TraceCachePath(canonical, chainId, blockNumber)
         == "cache/trace_" + (if chainId.Some? then Decimal(chainId.value) else "unknown")
            + "_" + Decimal(blockNumber) + "_" + canonical[2..] + ".json"
  {
    var canonical := Canonicalize(txHash).value;
    CanonicalShape(txHash);
    CanonicalStrips(canonical);
    FieldsInLine(ChainText(chainId), Decimal(blockNumber), canonical[2..]);
  }

  /** Two requests share a cache file exactly when they name the same bytes, chain and
      block, however the hash was spelled; an unknown chain is never a numbered one. */
  lemma {:induction false} SameFileIffSameKey(
      a: string, chainA: Option<U64>, blockA: U64, b: string, chainB: Option<U64>, blockB: U64)
    requires Canonicalize(a).Ok? && Canonicalize(b).Ok?
    ensures SpelledBytes(a).Some? && SpelledBytes(b).Some?
    ensures TraceCachePath(Canonicalize(a).value, chainA, blockA)
            == TraceCachePath(Canonicalize(b).value, chainB, blockB)
      <==> SpelledBytes(a) == SpelledBytes(b) && chainA == chainB && blockA == blockB
  {
    CanonicalTextsDiffer(a, b);
    PathRoundTrip(a, chainA, blockA);
    PathRoundTrip(b, chainB, blockB);
  }

  /** The canonical form is needed: raw spellings of different texts can share a file. */
  lemma RawHashesCollide()
    ensures "0xab" != "ab"
    ensures TraceCachePath("0xab", None, 0) == TraceCachePath("ab", None, 0)
  {
    assert Trim("0xab") == "0xab" && Trim("ab") == "ab";
    assert "0xab"[2..] == "ab";
  }
}
