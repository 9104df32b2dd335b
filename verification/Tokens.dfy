/**
  The documents of the `tokens` and `account_tokens` collections. Times are integers in the
  collections' own unit, milliseconds; 0 is the zero time. A null `provenance` field is None.
 */
module Tokens {
  import opened Options

  datatype BaseTokenInfo = BaseTokenInfo(
    id: string, blockchain: string, fungible: bool, contractType: string, contractAddress: string)

  datatype Provenance = Provenance(
    formerOwner: Option<string>, kind: string, owner: string, blockchain: string, timestamp: int, txID: string)

  datatype OwnerBalance = OwnerBalance(address: string, balance: int, lastTime: int)

  datatype Token = Token(
    base: BaseTokenInfo, assetID: string, edition: int, mintedAt: int,
    owner: string, owners: map<string, int>, ownersArray: seq<string>,
    originTokenInfo: seq<BaseTokenInfo>,
    swapped: bool, swappedFrom: Option<string>, swappedTo: Option<string>, burned: bool,
    provenance: Option<seq<Provenance>>,
    lastActivityTime: int, lastRefreshedTime: int)

  datatype AccountToken = AccountToken(
    base: BaseTokenInfo, balance: int, lastActivityTime: int, lastRefreshedTime: int,
    lastPendingTime: seq<int>, pendingTxs: seq<string>)

  /** The unique key of account_tokens. */
  datatype AccountKey = AccountKey(indexID: string, owner: string)

  type TokenTable = map<string, Token>
  type AccountTable = map<AccountKey, AccountToken>
}
