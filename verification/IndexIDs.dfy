/**
  Index ids, `alias-contract-token`: building, parsing, normalizing, and the rewriting the NFT query
  does on the way out. The EIP-55 checksum of an address is a parameter `checksum`.
 */
module IndexIDs {
  import opened Options
  import opened Numerals

  function BlockchainAlias(blockchain: string): string {
    match blockchain
    case "bitmark" => "bmk"
    case "ethereum" => "eth"
    case "tezos" => "tez"
    case _ => "undefined"
  }

  /** Checksumming twice is checksumming once, and a checksummed address has no dash. */
  ghost predicate IsChecksum(checksum: string -> string) {
    forall s :: checksum(checksum(s)) == checksum(s) && '-' !in checksum(s)
  }

  function Contract(blockchain: string, contract: string, checksum: string -> string): string {
    if blockchain == "ethereum" then checksum(contract) else contract
  }

  function Format(alias: string, contract: string, id: string): string {
    alias + "-" + contract + "-" + id
  }

  function TokenIndexID(blockchain: string, contract: string, id: string, checksum: string -> string): string {
    Format(BlockchainAlias(blockchain), Contract(blockchain, contract, checksum), id)
  }

  /** strings.Split at a dash. */
  function Split(s: string): (parts: seq<string>)
    ensures |parts| > 0
  {
    if s == "" then [""]
    else
      var parts, n := Split(s[..|s| - 1]), |s| - 1;
      if s[n] == '-' then parts + [""] else parts[..|parts| - 1] + [parts[|parts| - 1] + [s[n]]]
  }

  datatype Parts = Parts(alias: string, contract: string, id: string)

  function ParseTokenIndexID(indexID: string, checksum: string -> string): Option<Parts> {
    var v := Split(indexID);
    if |v| != 3 then None
    else Some(Parts(v[0], if v[0] == "eth" then checksum(v[1]) else v[1], v[2]))
  }

  /** One more character ends the last part, or extends it. */
  function Extend(parts: seq<string>, c: char): seq<string>
    requires |parts| > 0
  {
    if c == '-' then parts + [""] else parts[..|parts| - 1] + [parts[|parts| - 1] + [c]]
  }

  lemma SplitSnoc(s: string, c: char)
    ensures Split(s + [c]) == Extend(Split(s), c)
  {
    assert (s + [c])[..|s|] == s;
  }

  lemma ExtendConcat(a: seq<string>, parts: seq<string>, c: char)
    requires |parts| > 0
    ensures Extend(a + parts, c) == a + Extend(parts, c)
  {
  }

  lemma {:induction false} SplitAtDash(a: string, b: string)
    ensures Split(a + "-" + b) == Split(a) + Split(b)
  {
    if b == "" {
      SplitSnoc(a, '-');
      assert a + "-" + b == a + ['-'];
    } else {
      var n := |b| - 1;
      SplitAtDash(a, b[..n]);
      SplitOneMore(a, b[..n], b[n]);
      assert b[..n] + [b[n]] == b;
    }
  }

  lemma SplitOneMore(a: string, b: string, c: char)
    requires Split(a + "-" + b) == Split(a) + Split(b)
    ensures Split(a + "-" + (b + [c])) == Split(a) + Split(b + [c])
  {
    SplitSnoc(a + "-" + b, c);
    SplitSnoc(b, c);
    ExtendConcat(Split(a), Split(b), c);
    assert a + "-" + b + [c] == a + "-" + (b + [c]);
  }

  lemma {:induction false} SplitIsOneIff(s: string)
    ensures |Split(s)| == 1 <==> '-' !in s
    ensures '-' !in s ==> Split(s) == [s]
  {
    if s != "" {
      var n := |s| - 1;
      SplitIsOneIff(s[..n]);
      assert s == s[..n] + [s[n]];
    }
  }

  lemma SplitOfThree(a: string, c: string, i: string)
    ensures Split(Format(a, c, i)) == Split(a) + Split(c) + Split(i)
  {
    SplitAtDash(a + "-" + c, i);
    SplitAtDash(a, c);
  }

  lemma ParseOfThree(a: string, c: string, i: string, checksum: string -> string)
    requires '-' !in a
    ensures ParseTokenIndexID(Format(a, c, i), checksum) ==
            if '-' !in c && '-' !in i then Some(Parts(a, if a == "eth" then checksum(c) else c, i)) else None
  {
    SplitOfThree(a, c, i);
    SplitIsOneIff(a);
    SplitIsOneIff(c);
    SplitIsOneIff(i);
  }

  /** Parsing recovers what the id was built from exactly when neither the contract nor the token id has a dash; otherwise it fails. */
  lemma IDsRoundTripIff(blockchain: string, contract: string, id: string, checksum: string -> string)
    requires IsChecksum(checksum)
    ensures ParseTokenIndexID(TokenIndexID(blockchain, contract, id, checksum), checksum) ==
            if '-' !in id && (blockchain == "ethereum" || '-' !in contract)
            then Some(Parts(BlockchainAlias(blockchain), Contract(blockchain, contract, checksum), id)) else None
  {
    ParseOfThree(BlockchainAlias(blockchain), Contract(blockchain, contract, checksum), id, checksum);
  }

  /** The text of an index id, chain by chain. */
  lemma IndexIDsAre(contract: string, id: string, checksum: string -> string)
    ensures TokenIndexID("ethereum", contract, id, checksum) == "eth-" + checksum(contract) + "-" + id
    ensures TokenIndexID("tezos", contract, id, checksum) == "tez-" + contract + "-" + id
    ensures TokenIndexID("bitmark", contract, id, checksum) == "bmk-" + contract + "-" + id
    ensures forall other :: other !in {"ethereum", "tezos", "bitmark"} ==>
              TokenIndexID(other, contract, id, checksum) == "undefined-" + contract + "-" + id
  {
  }

  /** The parts put together again. */
  function Unsplit(parts: seq<string>): string
    requires parts != []
  {
    if |parts| == 1 then parts[0] else Unsplit(parts[..|parts| - 1]) + "-" + parts[|parts| - 1]
  }

  lemma {:induction false} SplitLosesNothing(s: string)
    ensures Unsplit(Split(s)) == s
  {
    if s != "" {
      var n := |s| - 1;
      SplitLosesNothing(s[..n]);
      UnsplitExtend(Split(s[..n]), s[n]);
      assert s == s[..n] + [s[n]];
      assert Split(s) == Extend(Split(s[..n]), s[n]);
    }
  }

  lemma UnsplitExtend(parts: seq<string>, c: char)
    requires parts != []
    ensures Unsplit(Extend(parts, c)) == Unsplit(parts) + [c]
  {
    var n := |parts| - 1;
    if c == '-' {
      assert (parts + [""])[..n + 1] == parts;
      assert Unsplit(parts) + "-" + "" == Unsplit(parts) + ['-'];
    } else {
      var more := Extend(parts, c);
      assert more[..n] == parts[..n] && more[n] == parts[n] + [c];
    }
  }

  // ---- normalizing ----

  /** One id: None when it does not parse, or when its token id is to be converted and is not a hexadecimal numeral. */
  function NormalizeOne(indexID: string, convert: bool, checksum: string -> string): Option<string> {
    var p := ParseTokenIndexID(indexID, checksum);
    if p.None? then None
    else if p.value.alias != "eth" then Some(indexID)
    else if !convert then Some(Format(p.value.alias, p.value.contract, p.value.id))
    else if Parse(p.value.id, 16).None? then None
    else Some(Format(p.value.alias, p.value.contract, Text(Parse(p.value.id, 16).value, 10)))
  }

  function NormalizeAll(ids: seq<string>, convert: bool, checksum: string -> string): seq<string> {
    if ids == [] then [] else
    var last := NormalizeOne(ids[|ids| - 1], convert, checksum);
    NormalizeAll(ids[..|ids| - 1], convert, checksum) + if last.Some? then [last.value] else []
  }

  /** Three parts without dashes, put together. */
  predicate IsID(s: string, alias: string, contract: string, id: string) {
    '-' !in alias && '-' !in contract && '-' !in id && s == alias + "-" + contract + "-" + id
  }

  /**
    What normalizing makes of an id: only three parts without dashes are kept; of an Ethereum id the contract
    is checksummed and, if asked for, the hexadecimal token id becomes decimal; any other id stays as it is.
   */
  lemma NormalizeTells(s: string, alias: string, contract: string, id: string, convert: bool, checksum: string -> string)
    requires IsID(s, alias, contract, id)
    ensures alias != "eth" ==> NormalizeOne(s, convert, checksum) == Some(s)
    ensures alias == "eth" && !convert ==> NormalizeOne(s, convert, checksum) == Some("eth-" + checksum(contract) + "-" + id)
    ensures alias == "eth" && convert ==>
              NormalizeOne(s, convert, checksum) ==
              if Parse(id, 16).None? then None else Some("eth-" + checksum(contract) + "-" + Text(Parse(id, 16).value, 10))
  {
    ParseOfThree(alias, contract, id, checksum);
    assert s == Format(alias, contract, id);
    EthText(checksum(contract), id);
    if Parse(id, 16).Some? { EthText(checksum(contract), Text(Parse(id, 16).value, 10)); }
  }

  lemma EthText(contract: string, id: string)
    ensures Format("eth", contract, id) == "eth-" + contract + "-" + id
  {
    assert "eth" + "-" == "eth-";
  }

  lemma OnlyIDsAreKept(s: string, convert: bool, checksum: string -> string) returns (alias: string, contract: string, id: string)
    requires NormalizeOne(s, convert, checksum).Some?
    ensures IsID(s, alias, contract, id)
  {
    var v := Split(s);
    SplitLosesNothing(s);
    SplitPartsAreDashless(s);
    alias, contract, id := v[0], v[1], v[2];
    assert v[..|v| - 1] == v[..2] && v[..2][..1] == [alias] && v[..2][1] == contract;
    assert Unsplit(v) == Unsplit(v[..2]) + "-" + id;
    assert Unsplit(v[..2]) == Unsplit(v[..2][..1]) + "-" + contract;
    assert Unsplit([alias]) == alias;
  }

  /** The result holds the normalized form of every id that has one, in order, and nothing else. */
  lemma {:induction false} NormalizedAre(ids: seq<string>, convert: bool, checksum: string -> string, x: string)
    ensures x in NormalizeAll(ids, convert, checksum) <==> exists i :: 0 <= i < |ids| && NormalizeOne(ids[i], convert, checksum) == Some(x)
  {
    if ids != [] {
      var n := |ids| - 1;
      NormalizedAre(ids[..n], convert, checksum, x);
      if i :| 0 <= i < n && NormalizeOne(ids[..n][i], convert, checksum) == Some(x) { assert NormalizeOne(ids[i], convert, checksum) == Some(x); }
      if i :| 0 <= i < n && NormalizeOne(ids[i], convert, checksum) == Some(x) { assert NormalizeOne(ids[..n][i], convert, checksum) == Some(x); }
    }
  }

  method NormalizeIndexIDs(indexIDs: seq<string>, convert: bool, checksum: string -> string) returns (processed: seq<string>)
    ensures processed == NormalizeAll(indexIDs, convert, checksum)
    ensures !convert && IsChecksum(checksum) ==> NormalizeAll(processed, false, checksum) == processed
  {
    processed := [];
    for i := 0 to |indexIDs|
      invariant processed == NormalizeAll(indexIDs[..i], convert, checksum)
    {
      assert indexIDs[..i + 1][..i] == indexIDs[..i];
      var parsed := ParseTokenIndexID(indexIDs[i], checksum);
      if parsed.None? { continue; }
      var indexID := indexIDs[i];
      var p := parsed.value;
      if p.alias == "eth" {
        var tokenID := p.id;
        if convert {
          var n := Parse(tokenID, 16);
          if n.None? { continue; }
          tokenID := Text(n.value, 10);
        }
        indexID := Format(p.alias, p.contract, tokenID);
      }
      processed := processed + [indexID];
    }
    assert indexIDs[..|indexIDs|] == indexIDs;
    if !convert && IsChecksum(checksum) {
      NormalizeIsIdempotent(indexIDs, checksum);
    }
  }

  lemma {:induction false} SplitPartsAreDashless(s: string)
    ensures forall i :: 0 <= i < |Split(s)| ==> '-' !in Split(s)[i]
  {
    if s != "" {
      SplitPartsAreDashless(s[..|s| - 1]);
    }
  }

  lemma NormalizeOneIsIdempotent(id: string, checksum: string -> string)
    requires IsChecksum(checksum) && NormalizeOne(id, false, checksum).Some?
    ensures NormalizeOne(NormalizeOne(id, false, checksum).value, false, checksum) == NormalizeOne(id, false, checksum)
  {
    var p := ParseTokenIndexID(id, checksum).value;
    SplitPartsAreDashless(id);
    if p.alias == "eth" {
      ParseOfThree(p.alias, p.contract, p.id, checksum);
    }
  }

  lemma {:induction false} NormalizeIsIdempotent(ids: seq<string>, checksum: string -> string)
    requires IsChecksum(checksum)
    ensures NormalizeAll(NormalizeAll(ids, false, checksum), false, checksum) == NormalizeAll(ids, false, checksum)
  {
    if ids != [] {
      var n := |ids| - 1;
      var before, last := NormalizeAll(ids[..n], false, checksum), NormalizeOne(ids[n], false, checksum);
      NormalizeIsIdempotent(ids[..n], checksum);
      if last.Some? {
        NormalizeOneIsIdempotent(ids[n], checksum);
        assert (before + [last.value])[..|before|] == before;
      } else {
        assert before + [] == before;
      }
    }
  }

  lemma {:induction false} DigitsHaveNoDash(s: string, b: nat)
    requires IsBase(b) && Value(s, b).Some?
    ensures '-' !in s
  {
    if s != "" {
      var n := |s| - 1;
      DigitsHaveNoDash(s[..n], b);
      assert s == s[..n] + [s[n]] && s[n] != '-';
    }
  }

  lemma TextHasNoDash(n: nat, b: nat)
    requires IsBase(b)
    ensures '-' !in Text(n, b)
  {
    TextNatIsCanonical(n, b);
    DigitsHaveNoDash(TextNat(n, b), b);
  }

  lemma DashlessIsNatural(s: string, b: nat)
    requires '-' !in s && Parse(s, b).Some?
    ensures Parse(s, b).value >= 0
  {
  }

  /** Converting to decimal is not idempotent: a second pass keeps an id exactly if its number is below ten. */
  lemma ConvertingAgainIff(contract: string, id: string, checksum: string -> string)
    requires IsChecksum(checksum) && '-' !in contract && '-' !in id && Parse(id, 16).Some?
    ensures var once := NormalizeOne(Format("eth", contract, id), true, checksum);
            && once == Some(Format("eth", checksum(contract), Text(Parse(id, 16).value, 10)))
            && (NormalizeOne(once.value, true, checksum) == once <==> Parse(id, 16).value < 10)
  {
    DashlessIsNatural(id, 16);
    var n := Parse(id, 16).value;
    ParseOfThree("eth", contract, id, checksum);
    TextHasNoDash(n, 10);
    ParseOfThree("eth", checksum(contract), Text(n, 10), checksum);
    DecimalReadAsHex(n);
    var m := Parse(Text(n, 10), 16).value;
    ParseText(n, 10);
    ParseText(m, 10);
    SameID("eth", checksum(contract), Text(m, 10), Text(n, 10));
  }

  lemma SameID(alias: string, contract: string, a: string, b: string)
    ensures Format(alias, contract, a) == Format(alias, contract, b) <==> a == b
  {
    var prefix := alias + "-" + contract + "-";
    assert Format(alias, contract, a)[|prefix|..] == a && Format(alias, contract, b)[|prefix|..] == b;
  }

  // ---- the query's echo ----

  const MAX_INT64 := 0x7fff_ffff_ffff_ffff
  const MIN_INT64 := -0x8000_0000_0000_0000

  datatype TokenInfo = TokenInfo(blockchain: string, contract: string, id: string, indexID: string)

  /** strconv.Atoi: a decimal numeral that fits 64 bits. */
  function Atoi(s: string): Option<int> {
    var n := Parse(s, 10);
    if n.Some? && MIN_INT64 <= n.value <= MAX_INT64 then n else None
  }

  function Echo(t: TokenInfo, checksum: string -> string): TokenInfo {
    if t.blockchain != "ethereum" || Atoi(t.id).None? then t
    else t.(indexID := TokenIndexID("ethereum", t.contract, Text(Atoi(t.id).value, 16), checksum))
  }

  method RewriteOne(t: TokenInfo, checksum: string -> string) returns (r: TokenInfo)
    ensures r == Echo(t, checksum)
    ensures r == t.(indexID := r.indexID) && (t.blockchain != "ethereum" ==> r == t)
  {
    if t.blockchain != "ethereum" { return t; }
    var id := Atoi(t.id);
    if id.None? { return t; }
    var oldIndexID := TokenIndexID("ethereum", t.contract, Text(id.value, 16), checksum);
    r := t.(indexID := oldIndexID);
  }

  /** The loop that puts hexadecimal ids back into the answer. */
  method RewriteIndexIDs(tokenInfo: array<TokenInfo>, checksum: string -> string)
    modifies tokenInfo
    ensures forall i :: 0 <= i < tokenInfo.Length ==> tokenInfo[i] == Echo(old(tokenInfo[i]), checksum)
  {
    for i := 0 to tokenInfo.Length
      invariant forall k :: 0 <= k < i ==> tokenInfo[k] == Echo(old(tokenInfo[k]), checksum)
      invariant forall k :: i <= k < tokenInfo.Length ==> tokenInfo[k] == old(tokenInfo[k])
    {
      RewriteAt(tokenInfo, i, checksum);
    }
  }

  method RewriteAt(tokenInfo: array<TokenInfo>, i: nat, checksum: string -> string)
    requires i < tokenInfo.Length
    modifies tokenInfo
    ensures tokenInfo[i] == Echo(old(tokenInfo[i]), checksum)
    ensures forall k :: 0 <= k < tokenInfo.Length && k != i ==> tokenInfo[k] == old(tokenInfo[k])
  {
    var t := RewriteOne(tokenInfo[i], checksum);
    tokenInfo[i] := t;
  }

  /** The token that the store holds for a request: its ids are the normalized ones. */
  function Stored(contract: string, n: int, checksum: string -> string): TokenInfo {
    TokenInfo("ethereum", checksum(contract), Text(n, 10), Format("eth", checksum(contract), Text(n, 10)))
  }

  /**
    Exactly when the answer echoes the request's id, with its contract checksummed: when the requested
    token id is a canonical lower-case hexadecimal numeral below 2^63. Above, the answer keeps the decimal id.
   */
  lemma QueryEchoesIff(contract: string, id: string, checksum: string -> string)
    requires IsChecksum(checksum) && '-' !in contract && '-' !in id && Parse(id, 16).Some?
    ensures var n := Parse(id, 16).value;
            && NormalizeOne(Format("eth", contract, id), true, checksum) == Some(Stored(contract, n, checksum).indexID)
            && (Echo(Stored(contract, n, checksum), checksum).indexID == Format("eth", checksum(contract), id)
                <==> Canonical(id, 16) && n < 0x8000_0000_0000_0000)
  {
    DashlessIsNatural(id, 16);
    var n := Parse(id, 16).value;
    ConvertingAgainIff(contract, id, checksum);
    ParseText(n, 10);
    TextParseIff(id, 16);
    if n <= MAX_INT64 {
      assert TokenIndexID("ethereum", checksum(contract), Text(n, 16), checksum) == Format("eth", checksum(contract), Text(n, 16));
      SameID("eth", checksum(contract), Text(n, 16), id);
    } else {
      SameID("eth", checksum(contract), Text(n, 10), id);
      DecimalReadAsHex(n);
    }
  }
}
