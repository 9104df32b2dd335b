/**
  The token transfers of an Ethereum sale: logs are classified by their signature and topics, and the
  transfers of one token are collapsed to its first sender and last recipient.
 */
module TokenCollapse {
  import opened Options
  import opened Numerals

  /** The event of EIP-20 and EIP-721, Transfer(address,address,uint256), and that of EIP-1155 for one token, each by its Keccak-256 hash. */
  const TRANSFER := "0xddf252ad1be2c89b69c2b068fc378daa952ba7f163c4a11628f55a4df523b3ef"
  const TRANSFER_SINGLE := "0xc3d58168c5ae7397731d063d5bbf3d657854427343f4c083240f7aacaa2d0f62"

  predicate Signed(l: Log, signature: string) {
    l.topics != [] && l.topics[0] == signature
  }

  /** A log: its contract, its topics, the length of its data, and the id and value words of that data. */
  datatype Log = Log(address: string, topics: seq<string>, dataLength: nat, idWord: nat, valueWord: nat)

  // ---- classification ----

  predicate IsERC20(l: Log) {
    |l.topics| == 3 && l.topics[0] == TRANSFER
  }

  predicate IsERC721(l: Log) {
    |l.topics| == 4 && l.topics[0] == TRANSFER
  }

  predicate IsERC1155Single(l: Log) {
    |l.topics| == 4 && l.topics[0] == TRANSFER_SINGLE
  }

  predicate IsTokenLog(l: Log) {
    IsERC721(l) || IsERC1155Single(l)
  }

  /** The token transfers among the logs, in order. */
  function TokenLogs(logs: seq<Log>): seq<Log> {
    if logs == [] then []
    else TokenLogs(logs[..|logs| - 1]) + if IsTokenLog(logs[|logs| - 1]) then [logs[|logs| - 1]] else []
  }

  /** The ERC-20 transfers of one contract, in order. */
  function ERC20Logs(logs: seq<Log>, address: string): seq<Log> {
    if logs == [] then []
    else
      var last := logs[|logs| - 1];
      ERC20Logs(logs[..|logs| - 1], address) + if IsERC20(last) && last.address == address then [last] else []
  }

  /** Every contract with ERC-20 transfers has exactly them. */
  ghost predicate ByContract(m: map<string, seq<Log>>, logs: seq<Log>) {
    forall a :: if a in m then m[a] == ERC20Logs(logs, a) != [] else ERC20Logs(logs, a) == []
  }

  lemma ByContractStep(m: map<string, seq<Log>>, logs: seq<Log>, l: Log)
    requires ByContract(m, logs)
    ensures ByContract(if IsERC20(l) then m[l.address := (if l.address in m then m[l.address] else []) + [l]] else m, logs + [l])
  {
    forall a ensures ERC20Logs(logs + [l], a) == ERC20Logs(logs, a) + if IsERC20(l) && l.address == a then [l] else [] {
      ERC20Step(logs, l, a);
    }
  }

  lemma ERC20Step(logs: seq<Log>, l: Log, a: string)
    ensures ERC20Logs(logs + [l], a) == ERC20Logs(logs, a) + if IsERC20(l) && l.address == a then [l] else []
  {
    assert (logs + [l])[..|logs|] == logs;
  }

  lemma TokenStep(logs: seq<Log>, l: Log)
    ensures TokenLogs(logs + [l]) == TokenLogs(logs) + if IsTokenLog(l) then [l] else []
  {
    assert (logs + [l])[..|logs|] == logs;
  }

  /** Splits the logs by kind, the ERC-20 ones by contract; None when a log has no topic, on which the code panics. */
  method ClassifyTxLogs(logs: seq<Log>) returns (r: Option<(map<string, seq<Log>>, seq<Log>)>)
    ensures r.None? <==> exists i :: 0 <= i < |logs| && logs[i].topics == []
    ensures r.Some? ==> ByContract(r.value.0, logs) && r.value.1 == TokenLogs(logs)
    ensures r.Some? ==> forall l :: l in r.value.1 <==> l in logs && |l.topics| == 4 && (Signed(l, TRANSFER) || Signed(l, TRANSFER_SINGLE))
    ensures r.Some? ==> forall l: Log :: (l.address in r.value.0 && l in r.value.0[l.address]) <==> l in logs && |l.topics| == 3 && Signed(l, TRANSFER)
  {
    var erc20Transfers: map<string, seq<Log>> := map[];
    var tokenTransfers: seq<Log> := [];
    for i := 0 to |logs|
      invariant forall j :: 0 <= j < i ==> logs[j].topics != []
      invariant tokenTransfers == TokenLogs(logs[..i]) && ByContract(erc20Transfers, logs[..i])
    {
      var l := logs[i];
      if |l.topics| == 0 { return None; }
      ByContractStep(erc20Transfers, logs[..i], l);
      TokenStep(logs[..i], l);
      assert logs[..i + 1] == logs[..i] + [l];
      if IsERC20(l) {
        var before := if l.address in erc20Transfers then erc20Transfers[l.address] else [];
        erc20Transfers := erc20Transfers[l.address := before + [l]];
      } else if IsERC1155Single(l) || IsERC721(l) {
        tokenTransfers := tokenTransfers + [l];
      }
    }
    assert logs[..|logs|] == logs;
    r := Some((erc20Transfers, tokenTransfers));
    forall l ensures l in tokenTransfers <==> l in logs && |l.topics| == 4 && (Signed(l, TRANSFER) || Signed(l, TRANSFER_SINGLE)) {
      TokenLogsAre(logs, l);
    }
    forall l: Log ensures (l.address in erc20Transfers && l in erc20Transfers[l.address]) <==> l in logs && |l.topics| == 3 && Signed(l, TRANSFER) {
      ERC20LogsAre(logs, l);
    }
  }

  lemma {:induction false} TokenLogsAre(logs: seq<Log>, l: Log)
    ensures l in TokenLogs(logs) <==> l in logs && |l.topics| == 4 && (Signed(l, TRANSFER) || Signed(l, TRANSFER_SINGLE))
  {
    if logs != [] {
      var n := |logs| - 1;
      TokenLogsAre(logs[..n], l);
      assert logs == logs[..n] + [logs[n]];
    }
  }

  lemma {:induction false} ERC20LogsAre(logs: seq<Log>, l: Log)
    ensures l in ERC20Logs(logs, l.address) <==> l in logs && |l.topics| == 3 && Signed(l, TRANSFER)
  {
    if logs != [] {
      var n := |logs| - 1;
      ERC20LogsAre(logs[..n], l);
      assert logs == logs[..n] + [logs[n]];
    }
  }

  // ---- collapsing ----

  datatype TokenTransfer = TokenTransfer(contract: string, tokenID: string, from: string, to: string)

  function TrimHexPrefix(s: string): string {
    if "0x" <= s then s[2..] else s
  }

  const TWO_TO_64 := 0x1_0000_0000_0000_0000

  function LowBits(value: nat): nat {
    value % TWO_TO_64
  }

  lemma LowBitsOfOne(value: nat)
    ensures LowBits(value) == 1 ==> (value == 1 <==> value < TWO_TO_64)
    ensures LowBits(1) == 1 && LowBits(TWO_TO_64 + 1) == 1
  {
    if value < TWO_TO_64 { assert LowBits(value) == value; }
  }

  /**
    The transfer a token log stands for; `addressOf` reads the address in a topic. An ERC-1155 log must
    carry exactly an id and a value word and move one unit, as far as the low 64 bits of the value tell.
   */
  function Decode(l: Log, addressOf: string -> string): Option<TokenTransfer>
    requires IsTokenLog(l)
  {
    if IsERC721(l) then
      Some(TokenTransfer(l.address, HexToDec(TrimHexPrefix(l.topics[3])), addressOf(l.topics[1]), addressOf(l.topics[2])))
    else if l.dataLength != 64 || LowBits(l.valueWord) != 1 then None
    else Some(TokenTransfer(l.address, HexToDec(HexOfBytes(l.idWord)), addressOf(l.topics[2]), addressOf(l.topics[3])))
  }

  /**
    Exactly when the value of an accepted ERC-1155 log is one unit: when it fits in 64 bits. The value is
    read modulo 2^64, so a log of 2^64 + 1 units is accepted as well.
   */
  lemma AcceptedValueIsOneIff(l: Log, addressOf: string -> string)
    requires IsERC1155Single(l) && l.dataLength == 64
    ensures Decode(l, addressOf).Some? ==> (l.valueWord == 1 <==> l.valueWord < TWO_TO_64)
    ensures l.valueWord == TWO_TO_64 + 1 ==> Decode(l, addressOf).Some?
    ensures l.valueWord == 1 ==> Decode(l, addressOf).Some?
  {
    LowBitsOfOne(l.valueWord);
  }

  /** The map key of a token. */
  function Key(contract: string, tokenID: string): string {
    contract + "-" + tokenID
  }

  /** Addresses are hexadecimal, so contracts have no dash and keys tell tokens apart. */
  lemma KeysTellTokensApart(c: string, t: string, c': string, t': string)
    requires '-' !in c && '-' !in c'
    ensures Key(c, t) == Key(c', t') <==> c == c' && t == t'
  {
    if Key(c, t) == Key(c', t') {
      assert Key(c, t)[|c|] == '-' && Key(c', t')[|c'|] == '-';
      assert forall i :: 0 <= i < |c| ==> Key(c, t)[i] == c[i] && c[i] in c;
      assert forall i :: 0 <= i < |c'| ==> Key(c', t')[i] == c'[i] && c'[i] in c';
      assert |c| == |c'|;
      assert c == Key(c, t)[..|c|] && c' == Key(c', t')[..|c'|];
      assert t == Key(c, t)[|c| + 1..] && t' == Key(c', t')[|c'| + 1..];
    }
  }

  /** First sender and last recipient per token. */
  function Collapse(ts: seq<TokenTransfer>): map<string, TokenTransfer> {
    if ts == [] then map[] else
    var m, t := Collapse(ts[..|ts| - 1]), ts[|ts| - 1];
    var k := Key(t.contract, t.tokenID);
    m[k := if k in m then t.(from := m[k].from) else t]
  }

  /** The transfers of the logs, when every log decodes and its token is one the indexer publishes. */
  ghost predicate DecodesTo(logs: seq<Log>, addressOf: string -> string, published: (string, string) -> bool, ts: seq<TokenTransfer>) {
    && |ts| == |logs|
    && forall i :: 0 <= i < |logs| ==> IsTokenLog(logs[i]) && Decode(logs[i], addressOf) == Some(ts[i]) && published(ts[i].contract, ts[i].tokenID)
  }

  predicate Rejected(l: Log, addressOf: string -> string, published: (string, string) -> bool)
    requires IsTokenLog(l)
  {
    var t := Decode(l, addressOf);
    t.None? || !published(t.value.contract, t.value.tokenID)
  }

  /** The loop over the token logs; None stands for a transaction that is not a sale. */
  method CollapseTransfers(tokenTransfers: seq<Log>, addressOf: string -> string, published: (string, string) -> bool)
    returns (tokenTxMap: Option<map<string, TokenTransfer>>, ghost ts: seq<TokenTransfer>)
    requires forall i :: 0 <= i < |tokenTransfers| ==> IsTokenLog(tokenTransfers[i])
    ensures tokenTxMap.None? <==> exists i :: 0 <= i < |tokenTransfers| && Rejected(tokenTransfers[i], addressOf, published)
    ensures tokenTxMap.Some? ==> DecodesTo(tokenTransfers, addressOf, published, ts) && tokenTxMap.value == Collapse(ts)
    ensures tokenTxMap.Some? ==> |ts| == |tokenTransfers| && forall i :: 0 <= i < |ts| ==> StandsFor(tokenTransfers[i], addressOf, ts[i])
    ensures tokenTxMap.None? <==> exists i :: 0 <= i < |tokenTransfers| && NoSale(tokenTransfers[i], published)
  {
    var m: map<string, TokenTransfer> := map[];
    ts := [];
    for i := 0 to |tokenTransfers|
      invariant DecodesTo(tokenTransfers[..i], addressOf, published, ts)
      invariant m == Collapse(ts)
    {
      var l := tokenTransfers[i];
      var t := Decode(l, addressOf);
      RejectedIff(l, addressOf, published);
      if t.None? { return None, ts; }
      if !published(t.value.contract, t.value.tokenID) { return None, ts; }
      CollapseOneMore(ts, t.value);
      DecodesOneMore(tokenTransfers, addressOf, published, ts, t.value);
      var k := Key(t.value.contract, t.value.tokenID);
      if k in m {
        m := m[k := t.value.(from := m[k].from)];
      } else {
        m := m[k := t.value];
      }
      ts := ts + [t.value];
    }
    assert tokenTransfers[..|tokenTransfers|] == tokenTransfers;
    NoneIsRejected(tokenTransfers, addressOf, published, ts);
    TransfersTell(tokenTransfers, addressOf, published, ts);
    tokenTxMap := Some(m);
  }

  lemma CollapseOneMore(ts: seq<TokenTransfer>, t: TokenTransfer)
    ensures var m, k := Collapse(ts), Key(t.contract, t.tokenID);
            Collapse(ts + [t]) == m[k := if k in m then t.(from := m[k].from) else t]
  {
    assert (ts + [t])[..|ts|] == ts;
  }

  lemma DecodesOneMore(logs: seq<Log>, addressOf: string -> string, published: (string, string) -> bool, ts: seq<TokenTransfer>, t: TokenTransfer)
    requires |ts| < |logs| && DecodesTo(logs[..|ts|], addressOf, published, ts)
    requires IsTokenLog(logs[|ts|]) && Decode(logs[|ts|], addressOf) == Some(t) && published(t.contract, t.tokenID)
    ensures DecodesTo(logs[..|ts| + 1], addressOf, published, ts + [t])
  {
    forall i | 0 <= i < |ts| ensures Decode(logs[i], addressOf) == Some(ts[i]) && IsTokenLog(logs[i]) && published(ts[i].contract, ts[i].tokenID) {
      assert logs[..|ts|][i] == logs[i];
    }
  }

  lemma NoneIsRejected(logs: seq<Log>, addressOf: string -> string, published: (string, string) -> bool, ts: seq<TokenTransfer>)
    requires DecodesTo(logs, addressOf, published, ts)
    ensures forall i :: 0 <= i < |logs| ==> IsTokenLog(logs[i]) && !Rejected(logs[i], addressOf, published)
  {
  }

  // ---- the logs themselves ----

  /** The number in a topic, a word in hexadecimal with a prefix; a topic that the node returns always is one. */
  function Word(topic: string): Option<int> {
    Parse(if |topic| >= 2 && topic[..2] == "0x" then topic[2..] else topic, 16)
  }

  /** The text of a token's number; number zero of an ERC-1155 contract becomes the empty text. */
  function TokenText(l: Log): string
    requires |l.topics| == 4
  {
    if Signed(l, TRANSFER) then (if Word(l.topics[3]).Some? then Text(Word(l.topics[3]).value, 10) else "")
    else if l.idWord == 0 then "" else Text(l.idWord, 10)
  }

  function Sender(l: Log): string
    requires |l.topics| == 4
  {
    if Signed(l, TRANSFER) then l.topics[1] else l.topics[2]
  }

  function Recipient(l: Log): string
    requires |l.topics| == 4
  {
    if Signed(l, TRANSFER) then l.topics[2] else l.topics[3]
  }

  /** EIP-721 names sender, recipient and token in topics 1 to 3; EIP-1155 names the operator in topic 1, then sender and recipient. */
  predicate StandsFor(l: Log, addressOf: string -> string, t: TokenTransfer) {
    |l.topics| == 4 && t == TokenTransfer(l.address, TokenText(l), addressOf(Sender(l)), addressOf(Recipient(l)))
  }

  /** Whether a log keeps its transaction from being a sale: malformed data, another amount than one, or a token that is not published. */
  predicate NoSale(l: Log, published: (string, string) -> bool) {
    |l.topics| == 4 &&
    ((!Signed(l, TRANSFER) && (l.dataLength != 64 || l.valueWord % 0x1_0000_0000_0000_0000 != 1)) || !published(l.address, TokenText(l)))
  }

  lemma DecodeTells(l: Log, addressOf: string -> string)
    requires IsTokenLog(l)
    ensures Decode(l, addressOf).Some? ==> StandsFor(l, addressOf, Decode(l, addressOf).value)
  {
    if !Signed(l, TRANSFER) { ERC1155TokenIDText(l.idWord); }
  }

  lemma RejectedIff(l: Log, addressOf: string -> string, published: (string, string) -> bool)
    requires IsTokenLog(l)
    ensures Rejected(l, addressOf, published) <==> NoSale(l, published)
  {
    DecodeTells(l, addressOf);
  }

  lemma TransfersTell(logs: seq<Log>, addressOf: string -> string, published: (string, string) -> bool, ts: seq<TokenTransfer>)
    requires DecodesTo(logs, addressOf, published, ts)
    ensures forall i :: 0 <= i < |ts| ==> StandsFor(logs[i], addressOf, ts[i])
    ensures forall i :: 0 <= i < |logs| ==> !NoSale(logs[i], published)
  {
    forall i | 0 <= i < |ts| ensures StandsFor(logs[i], addressOf, ts[i]) && !NoSale(logs[i], published) {
      DecodeTells(logs[i], addressOf);
      RejectedIff(logs[i], addressOf, published);
    }
  }

  // ---- ownership ----

  datatype ContractToken = ContractToken(contract: string, tokenID: string)

  function Of(t: TokenTransfer): ContractToken {
    ContractToken(t.contract, t.tokenID)
  }

  /** Who owns what after the transfers are applied in order. */
  function Replay(owners: map<ContractToken, string>, ts: seq<TokenTransfer>): map<ContractToken, string> {
    if ts == [] then owners else Replay(owners, ts[..|ts| - 1])[Of(ts[|ts| - 1]) := ts[|ts| - 1].to]
  }

  /** Every transfer is made by the owner of the moment. */
  predicate ValidSteps(owners: map<ContractToken, string>, ts: seq<TokenTransfer>) {
    ts == [] ||
    (var before, t := Replay(owners, ts[..|ts| - 1]), ts[|ts| - 1];
     ValidSteps(owners, ts[..|ts| - 1]) && Of(t) in before && before[Of(t)] == t.from)
  }

  predicate DashlessContracts(ts: seq<TokenTransfer>) {
    forall i :: 0 <= i < |ts| ==> '-' !in ts[i].contract
  }

  /** How one token stands after the transfers: as its collapsed entry says, or as before. */
  ghost predicate EntryTells(owners: map<ContractToken, string>, ts: seq<TokenTransfer>, token: ContractToken) {
    var m, k, after := Collapse(ts), Key(token.contract, token.tokenID), Replay(owners, ts);
    && (k in m ==>
         && Of(m[k]) == token
         && token in after && after[token] == m[k].to
         && (ValidSteps(owners, ts) ==> token in owners && owners[token] == m[k].from))
    && (k !in m ==> (token in after <==> token in owners) && (token in owners ==> after[token] == owners[token]))
  }

  lemma {:induction false} CollapsedEntryTells(owners: map<ContractToken, string>, ts: seq<TokenTransfer>, token: ContractToken)
    requires DashlessContracts(ts) && '-' !in token.contract
    ensures EntryTells(owners, ts, token)
  {
    if ts != [] {
      var n := |ts| - 1;
      assert forall i :: 0 <= i < n ==> ts[..n][i] == ts[i];
      CollapsedEntryTells(owners, ts[..n], token);
      KeysTellTokensApart(ts[n].contract, ts[n].tokenID, token.contract, token.tokenID);
    }
  }

  /** The keys are those of the tokens that occur. */
  lemma {:induction false} CollapseKeys(ts: seq<TokenTransfer>, k: string)
    ensures k in Collapse(ts) <==> exists i :: 0 <= i < |ts| && Key(ts[i].contract, ts[i].tokenID) == k
    ensures k in Collapse(ts) ==> Key(Collapse(ts)[k].contract, Collapse(ts)[k].tokenID) == k
    ensures k in Collapse(ts) && DashlessContracts(ts) ==> '-' !in Collapse(ts)[k].contract
  {
    if ts != [] {
      var n := |ts| - 1;
      CollapseKeys(ts[..n], k);
      if k in Collapse(ts[..n]) {
        var i :| 0 <= i < n && Key(ts[..n][i].contract, ts[..n][i].tokenID) == k;
        assert Key(ts[i].contract, ts[i].tokenID) == k;
      }
    }
  }

  /** Some listing of the map's entries, each once, as iterating over the map gives it. */
  ghost predicate Lists(entries: seq<TokenTransfer>, m: map<string, TokenTransfer>) {
    && (forall i :: 0 <= i < |entries| ==>
          var k := Key(entries[i].contract, entries[i].tokenID); k in m && m[k] == entries[i])
    && (forall i, j :: 0 <= i < j < |entries| ==> Of(entries[i]) != Of(entries[j]))
    && (forall k :: k in m ==> m[k] in entries)
  }

  /** Transfers of distinct tokens, each from its owner, are valid in sequence and each decides its token. */
  lemma {:induction false} DistinctTransfers(owners: map<ContractToken, string>, es: seq<TokenTransfer>)
    requires forall i, j :: 0 <= i < j < |es| ==> Of(es[i]) != Of(es[j])
    requires forall i :: 0 <= i < |es| ==> Of(es[i]) in owners && owners[Of(es[i])] == es[i].from
    ensures ValidSteps(owners, es) && Replay(owners, es).Keys == owners.Keys
    ensures forall i :: 0 <= i < |es| ==> Replay(owners, es)[Of(es[i])] == es[i].to
    ensures forall t :: t in owners && (forall i :: 0 <= i < |es| ==> Of(es[i]) != t) ==> Replay(owners, es)[t] == owners[t]
  {
    if es != [] {
      var n := |es| - 1;
      DistinctTransfers(owners, es[..n]);
      assert forall i :: 0 <= i < n ==> es[..n][i] == es[i];
    }
  }

  lemma {:induction false} ReplayKeepsKeys(owners: map<ContractToken, string>, ts: seq<TokenTransfer>)
    requires ValidSteps(owners, ts)
    ensures Replay(owners, ts).Keys == owners.Keys
  {
    if ts != [] {
      ReplayKeepsKeys(owners, ts[..|ts| - 1]);
    }
  }

  lemma EntryIsOneStep(owners: map<ContractToken, string>, ts: seq<TokenTransfer>, e: TokenTransfer)
    requires ValidSteps(owners, ts) && DashlessContracts(ts)
    requires var k := Key(e.contract, e.tokenID); k in Collapse(ts) && Collapse(ts)[k] == e
    ensures Of(e) in owners && owners[Of(e)] == e.from
    ensures Of(e) in Replay(owners, ts) && Replay(owners, ts)[Of(e)] == e.to
  {
    CollapseKeys(ts, Key(e.contract, e.tokenID));
    CollapsedEntryTells(owners, ts, Of(e));
  }

  lemma EntriesCover(ts: seq<TokenTransfer>, entries: seq<TokenTransfer>, i: nat) returns (j: nat)
    requires DashlessContracts(ts) && Lists(entries, Collapse(ts)) && i < |ts|
    ensures j < |entries| && Of(entries[j]) == Of(ts[i])
  {
    var k := Key(ts[i].contract, ts[i].tokenID);
    CollapseKeys(ts, k);
    assert Collapse(ts)[k] in entries;
    j :| 0 <= j < |entries| && entries[j] == Collapse(ts)[k];
    KeysTellTokensApart(entries[j].contract, entries[j].tokenID, ts[i].contract, ts[i].tokenID);
  }

  lemma TokenEndsTheSame(owners: map<ContractToken, string>, ts: seq<TokenTransfer>, entries: seq<TokenTransfer>, t: ContractToken)
    requires ValidSteps(owners, ts) && DashlessContracts(ts) && Lists(entries, Collapse(ts)) && t in owners && '-' !in t.contract
    requires t in Replay(owners, entries) && t in Replay(owners, ts)
    requires forall i :: 0 <= i < |entries| ==> Of(entries[i]) in Replay(owners, entries) && Replay(owners, entries)[Of(entries[i])] == entries[i].to
    requires (forall i :: 0 <= i < |entries| ==> Of(entries[i]) != t) ==> Replay(owners, entries)[t] == owners[t]
    ensures Replay(owners, entries)[t] == Replay(owners, ts)[t]
  {
    CollapsedEntryTells(owners, ts, t);
    var k := Key(t.contract, t.tokenID);
    if k in Collapse(ts) {
      var j :| 0 <= j < |entries| && entries[j] == Collapse(ts)[k];
      assert Of(entries[j]) == t;
    } else {
      forall i | 0 <= i < |entries| ensures Of(entries[i]) != t {
        assert Key(entries[i].contract, entries[i].tokenID) in Collapse(ts);
      }
    }
  }

  lemma EntriesAreSteps(owners: map<ContractToken, string>, ts: seq<TokenTransfer>, entries: seq<TokenTransfer>)
    requires ValidSteps(owners, ts) && DashlessContracts(ts) && Lists(entries, Collapse(ts))
    ensures ValidSteps(owners, entries) && Replay(owners, entries).Keys == owners.Keys
    ensures forall i :: 0 <= i < |entries| ==> Of(entries[i]) in owners && Replay(owners, entries)[Of(entries[i])] == entries[i].to
    ensures forall t :: t in owners && (forall i :: 0 <= i < |entries| ==> Of(entries[i]) != t) ==> Replay(owners, entries)[t] == owners[t]
  {
    forall i | 0 <= i < |entries| ensures Of(entries[i]) in owners && owners[Of(entries[i])] == entries[i].from {
      EntryIsOneStep(owners, ts, entries[i]);
    }
    DistinctTransfers(owners, entries);
  }

  /**
    Collapsing keeps the meaning: if the transfers are valid steps, then applying the entries of the
    collapsed map in any order is valid too and ends in the same ownership.
   */
  lemma CollapseKeepsOwnership(owners: map<ContractToken, string>, ts: seq<TokenTransfer>, entries: seq<TokenTransfer>)
    requires ValidSteps(owners, ts) && DashlessContracts(ts) && Lists(entries, Collapse(ts))
    requires forall t :: t in owners ==> '-' !in t.contract
    ensures ValidSteps(owners, entries) && Replay(owners, entries) == Replay(owners, ts)
  {
    EntriesAreSteps(owners, ts, entries);
    ReplayKeepsKeys(owners, ts);
    forall t | t in owners ensures t in Replay(owners, entries) && t in Replay(owners, ts) && Replay(owners, entries)[t] == Replay(owners, ts)[t] {
      TokenEndsAlike(owners, ts, entries, t);
    }
    SameMap(Replay(owners, entries), Replay(owners, ts));
  }

  lemma TokenEndsAlike(owners: map<ContractToken, string>, ts: seq<TokenTransfer>, entries: seq<TokenTransfer>, t: ContractToken)
    requires ValidSteps(owners, ts) && DashlessContracts(ts) && Lists(entries, Collapse(ts)) && t in owners && '-' !in t.contract
    ensures t in Replay(owners, entries) && t in Replay(owners, ts) && Replay(owners, entries)[t] == Replay(owners, ts)[t]
  {
    EntriesAreSteps(owners, ts, entries);
    ReplayKeepsKeys(owners, ts);
    TokenEndsTheSame(owners, ts, entries, t);
  }

  lemma SameMap<K, V>(a: map<K, V>, b: map<K, V>)
    requires a.Keys == b.Keys && forall k :: k in a ==> a[k] == b[k]
    ensures a == b
  {
  }

  function TokensOf(ts: seq<TokenTransfer>): set<ContractToken> {
    set i | 0 <= i < |ts| :: Of(ts[i])
  }

  lemma EntryWasTransferred(ts: seq<TokenTransfer>, entries: seq<TokenTransfer>, j: nat)
    requires DashlessContracts(ts) && Lists(entries, Collapse(ts)) && j < |entries|
    ensures Of(entries[j]) in TokensOf(ts)
  {
    var k := Key(entries[j].contract, entries[j].tokenID);
    CollapseKeys(ts, k);
    var i :| 0 <= i < |ts| && Key(ts[i].contract, ts[i].tokenID) == k;
    KeysTellTokensApart(ts[i].contract, ts[i].tokenID, entries[j].contract, entries[j].tokenID);
    assert Of(ts[i]) == Of(entries[j]);
  }

  /** The listing has exactly one entry for each token that was transferred. */
  lemma OneEntryPerToken(ts: seq<TokenTransfer>, entries: seq<TokenTransfer>)
    requires DashlessContracts(ts) && Lists(entries, Collapse(ts))
    ensures TokensOf(entries) == TokensOf(ts) && |entries| == |TokensOf(ts)|
  {
    forall t | t in TokensOf(ts) ensures t in TokensOf(entries) {
      var i :| 0 <= i < |ts| && Of(ts[i]) == t;
      var j := EntriesCover(ts, entries, i);
    }
    forall t | t in TokensOf(entries) ensures t in TokensOf(ts) {
      var j :| 0 <= j < |entries| && Of(entries[j]) == t;
      EntryWasTransferred(ts, entries, j);
    }
    DistinctCount(entries);
  }

  lemma {:induction false} DistinctCount(es: seq<TokenTransfer>)
    requires forall i, j :: 0 <= i < j < |es| ==> Of(es[i]) != Of(es[j])
    ensures |TokensOf(es)| == |es|
  {
    if es != [] {
      var n := |es| - 1;
      DistinctCount(es[..n]);
      assert forall i :: 0 <= i < n ==> es[..n][i] == es[i];
      assert TokensOf(es) == TokensOf(es[..n]) + {Of(es[n])};
    }
  }

  // ---- ownership by the logs ----

  /** Who owns what after the logs, by the text of EIP-721 and EIP-1155: a token belongs to the recipient of its last log. */
  function ReplayLogs(owners: map<ContractToken, string>, logs: seq<Log>, addressOf: string -> string): map<ContractToken, string>
    requires forall l :: l in logs ==> |l.topics| == 4
  {
    if logs == [] then owners else
    var n := |logs| - 1;
    ReplayLogs(owners, logs[..n], addressOf)[ContractToken(logs[n].address, TokenText(logs[n])) := addressOf(Recipient(logs[n]))]
  }

  /** Every log's sender owns the token at its moment. */
  predicate ValidLogs(owners: map<ContractToken, string>, logs: seq<Log>, addressOf: string -> string)
    requires forall l :: l in logs ==> |l.topics| == 4
  {
    logs == [] ||
    (var n := |logs| - 1;
     var before, token := ReplayLogs(owners, logs[..n], addressOf), ContractToken(logs[n].address, TokenText(logs[n]));
     ValidLogs(owners, logs[..n], addressOf) && token in before && before[token] == addressOf(Sender(logs[n])))
  }

  lemma {:induction false} LogsReplayAsTransfers(owners: map<ContractToken, string>, logs: seq<Log>, addressOf: string -> string, ts: seq<TokenTransfer>)
    requires (forall l :: l in logs ==> |l.topics| == 4) && |ts| == |logs|
    requires forall i :: 0 <= i < |ts| ==> StandsFor(logs[i], addressOf, ts[i])
    ensures ReplayLogs(owners, logs, addressOf) == Replay(owners, ts)
    ensures ValidLogs(owners, logs, addressOf) <==> ValidSteps(owners, ts)
  {
    if logs != [] {
      var n := |logs| - 1;
      assert StandsFor(logs[n], addressOf, ts[n]);
      assert forall i :: 0 <= i < n ==> logs[..n][i] == logs[i] && ts[..n][i] == ts[i];
      LogsReplayAsTransfers(owners, logs[..n], addressOf, ts[..n]);
    }
  }

  /**
    The collapse keeps the ownership that the logs give: if every log's sender owns the token at its
    moment, then the entries of the collapsed map, in any order, are valid steps too and end in the
    ownership that replaying every log in order gives.
   */
  lemma CollapseKeepsLoggedOwnership(owners: map<ContractToken, string>, logs: seq<Log>, addressOf: string -> string, ts: seq<TokenTransfer>, entries: seq<TokenTransfer>)
    requires (forall l :: l in logs ==> |l.topics| == 4 && '-' !in l.address) && |ts| == |logs|
    requires forall i :: 0 <= i < |ts| ==> StandsFor(logs[i], addressOf, ts[i])
    requires Lists(entries, Collapse(ts)) && ValidLogs(owners, logs, addressOf)
    requires forall t :: t in owners ==> '-' !in t.contract
    ensures ValidSteps(owners, entries) && Replay(owners, entries) == ReplayLogs(owners, logs, addressOf)
  {
    LogsReplayAsTransfers(owners, logs, addressOf, ts);
    forall i | 0 <= i < |ts| ensures '-' !in ts[i].contract {
      assert StandsFor(logs[i], addressOf, ts[i]) && logs[i] in logs;
    }
    CollapseKeepsOwnership(owners, ts, entries);
  }
}
