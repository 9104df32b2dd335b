/**
  The document store as the service has it: collections that its methods update in place. Each method is
  tied to the specification function of its component, where the properties are proved.
 */
module IndexerStore {
  import opened Options
  import opened Tokens
  import opened ProvenanceLock
  import opened AccountIndex
  import SwapLineage

  const ETHEREUM_ZERO_ADDRESS := "0x0000000000000000000000000000000000000000"
  const TEZOS_BURN_ADDRESS := "tz1burnburnburnburnburnburnburjAYjjX"
  const LIVENET_ZERO_ADDRESS := "a3ezwdYVEVrHwszQrYzDTCAZwUD3yKtNsCq9YhEu97bPaGAKy1"
  const TESTNET_ZERO_ADDRESS := "dw9MQXcC5rJZb3QE1nz86PiQAheMP1dx9M3dr52tT8NNs14m33"

  predicate IsBurnAddress(address: string, environment: string) {
    || address == ETHEREUM_ZERO_ADDRESS
    || address == TEZOS_BURN_ADDRESS
    || (environment == "development" && address == TESTNET_ZERO_ADDRESS)
    || (environment == "production" && address == LIVENET_ZERO_ADDRESS)
  }

  datatype PushResult = Pushed | InvalidFormerOwner | NoRecordUpdated | DatabaseError

  /** One guarded write on the collection: the named document alone. */
  function Update(tokens: TokenTable, indexID: string, op: Op): TokenTable {
    if indexID in tokens then tokens[indexID := Apply(tokens[indexID], op)] else tokens
  }

  class MongodbIndexerStore {
    var tokens: TokenTable
    var accountTokens: AccountTable
    const environment: string

    constructor (environment: string, tokens: TokenTable, accountTokens: AccountTable)
      ensures this.environment == environment && this.tokens == tokens && this.accountTokens == accountTokens
    {
      this.environment, this.tokens, this.accountTokens := environment, tokens, accountTokens;
    }

    method UpdateOwner(indexID: string, owner: string, updatedAt: int, now: int)
      modifies this`tokens
      ensures tokens == Update(old(tokens), indexID, Op(Write.UpdateOwner(owner, updatedAt, IsBurnAddress(owner, environment)), now))
      ensures tokens ==
              if owner == "" || indexID !in old(tokens) || old(tokens)[indexID].base.fungible || old(tokens)[indexID].lastActivityTime >= updatedAt
              then old(tokens)
              else old(tokens)[indexID := old(tokens)[indexID].(
                owner := owner, owners := map[owner := 1], ownersArray := [owner], lastActivityTime := updatedAt, lastRefreshedTime := now,
                burned := owner in {"0x0000000000000000000000000000000000000000", "tz1burnburnburnburnburnburnburjAYjjX"}
                          || (environment == "development" && owner == "dw9MQXcC5rJZb3QE1nz86PiQAheMP1dx9M3dr52tT8NNs14m33")
                          || (environment == "production" && owner == "a3ezwdYVEVrHwszQrYzDTCAZwUD3yKtNsCq9YhEu97bPaGAKy1"))]
    {
      if owner == "" { return; }
      var burned := IsBurnAddress(owner, environment);
      if indexID in tokens {
        var t := tokens[indexID];
        if !t.base.fungible && t.lastActivityTime < updatedAt {
          tokens := tokens[indexID := t.(
            owner := owner, owners := map[owner := 1], ownersArray := [owner],
            lastActivityTime := updatedAt, lastRefreshedTime := now, burned := burned)];
        }
      }
    }

    method UpdateTokenProvenance(indexID: string, provenances: seq<Provenance>, now: int)
      modifies this`tokens
      ensures tokens == Update(old(tokens), indexID, Op(Write.UpdateTokenProvenance(provenances), now))
      ensures provenances == [] || indexID !in old(tokens) ==> tokens == old(tokens)
      ensures provenances != [] && indexID in old(tokens) ==>
                var oldest := provenances[|provenances| - 1];
                tokens == old(tokens)[indexID := old(tokens)[indexID].(
                  owner := provenances[0].owner, owners := map[provenances[0].owner := 1], ownersArray := [provenances[0].owner],
                  lastActivityTime := provenances[0].timestamp, lastRefreshedTime := now, provenance := tokens[indexID].provenance,
                  mintedAt := if oldest.kind in {"mint", "issue"} then oldest.timestamp else old(tokens)[indexID].mintedAt)]
      ensures provenances != [] && indexID in old(tokens) ==>
                && tokens[indexID].provenance.Some? && |tokens[indexID].provenance.value| == |provenances|
                && forall i :: 0 <= i < |provenances| ==> IsStored(tokens[indexID].provenance.value[i], provenances[i])
    {
      if |provenances| == 0 { return; }
      var currentOwner := provenances[0].owner;
      var last := provenances[|provenances| - 1];
      if indexID in tokens {
        var t := tokens[indexID];
        tokens := tokens[indexID := t.(
          owner := currentOwner, owners := map[currentOwner := 1], ownersArray := [currentOwner],
          lastActivityTime := provenances[0].timestamp, lastRefreshedTime := now, provenance := Some(StoredAll(provenances)),
          mintedAt := if last.kind == "mint" || last.kind == "issue" then last.timestamp else t.mintedAt)];
      }
    }

    method UpdateTokenOwners(indexID: string, lastActivityTime: int, ownerBalances: seq<OwnerBalance>, now: int)
      modifies this`tokens
      ensures tokens == Update(old(tokens), indexID, Op(Write.UpdateTokenOwners(lastActivityTime, ownerBalances), now))
      ensures ownerBalances == [] || indexID !in old(tokens) ==> tokens == old(tokens)
      ensures ownerBalances != [] && indexID in old(tokens) ==>
                tokens == old(tokens)[indexID := old(tokens)[indexID].(
                  owners := OwnersOf(ownerBalances), ownersArray := Addresses(ownerBalances), provenance := None, lastRefreshedTime := now,
                  lastActivityTime := if lastActivityTime != 0 then lastActivityTime else old(tokens)[indexID].lastActivityTime)]
    {
      if |ownerBalances| == 0 { return; }
      var ownersArray: seq<string> := [];
      var owners: map<string, int> := map[];
      for i := 0 to |ownerBalances|
        invariant ownersArray == Addresses(ownerBalances[..i])
        invariant owners == OwnersOf(ownerBalances[..i])
      {
        assert ownerBalances[..i + 1][..i] == ownerBalances[..i];
        ownersArray := ownersArray + [ownerBalances[i].address];
        owners := owners[ownerBalances[i].address := ownerBalances[i].balance];
      }
      assert ownerBalances[..|ownerBalances|] == ownerBalances;
      if indexID in tokens {
        var t := tokens[indexID];
        tokens := tokens[indexID := t.(
          owners := owners, ownersArray := ownersArray, provenance := None, lastRefreshedTime := now,
          lastActivityTime := if lastActivityTime != 0 then lastActivityTime else t.lastActivityTime)];
      }
    }

    method PushProvenance(indexID: string, lockedTime: int, p: Provenance, now: int) returns (r: PushResult)
      modifies this`tokens
      ensures tokens == Update(old(tokens), indexID, Op(Write.PushProvenance(lockedTime, p), now))
      ensures r == Pushed <==>
                && p.formerOwner.Some? && indexID in old(tokens)
                && old(tokens)[indexID].lastRefreshedTime == lockedTime && old(tokens)[indexID].lastActivityTime < p.timestamp
                && old(tokens)[indexID].provenance.Some?
      ensures r != Pushed ==> tokens == old(tokens)
      ensures r == Pushed ==>
                && tokens == old(tokens)[indexID := old(tokens)[indexID].(
                     owner := p.owner, owners := map[p.owner := 1], ownersArray := [p.owner],
                     lastActivityTime := p.timestamp, lastRefreshedTime := now, provenance := tokens[indexID].provenance)]
                && tokens[indexID].provenance.Some? && tokens[indexID].provenance.value != []
                && IsStored(tokens[indexID].provenance.value[0], p)
                && tokens[indexID].provenance.value[1..] == old(tokens)[indexID].provenance.value
      ensures r == Pushed <==> indexID in old(tokens) && Takes(old(tokens)[indexID], Write.PushProvenance(lockedTime, p))
      ensures r == InvalidFormerOwner <==> p.formerOwner.None?
      ensures r == DatabaseError <==>
                && p.formerOwner.Some? && indexID in old(tokens)
                && old(tokens)[indexID].lastRefreshedTime == lockedTime && old(tokens)[indexID].lastActivityTime < p.timestamp
                && old(tokens)[indexID].provenance.None?
    {
      if p.formerOwner.None? { return InvalidFormerOwner; }
      if indexID !in tokens { return NoRecordUpdated; }
      var t := tokens[indexID];
      if t.lastRefreshedTime != lockedTime || t.lastActivityTime >= p.timestamp { return NoRecordUpdated; }
      if t.provenance.None? { return DatabaseError; }
      tokens := tokens[indexID := t.(
        owner := p.owner, owners := map[p.owner := 1], ownersArray := [p.owner],
        lastActivityTime := p.timestamp, lastRefreshedTime := now,
        provenance := Some([Stored(p)] + t.provenance.value))];
      r := Pushed;
    }

    method IndexAccountTokens(owner: string, subs: seq<Submission>)
      modifies this`accountTokens
      ensures accountTokens == IndexAll(old(accountTokens), owner, subs)
    {
      for i := 0 to |subs|
        invariant accountTokens == IndexAll(old(accountTokens), owner, subs[..i])
      {
        assert subs[..i + 1][..i] == subs[..i];
        var k := AccountKey(subs[i].indexID, owner);
        var row := subs[i].row;
        if k !in accountTokens {
          accountTokens := accountTokens[k := row];
        } else if accountTokens[k].lastActivityTime < row.lastActivityTime - MARGIN {
          accountTokens := accountTokens[k := SetRow(Some(accountTokens[k]), row)];
        }
      }
      assert subs[..|subs|] == subs;
    }

    method UpdateAccountTokenOwners(indexID: string, ownerBalances: seq<OwnerBalance>, fails: set<nat>, now: int) returns (found: bool)
      modifies this`accountTokens
      ensures found <==> indexID in tokens
      ensures accountTokens ==
              if found then SetOwners(old(accountTokens), indexID, tokens[indexID].base, Succeeded(ownerBalances, fails), now) else old(accountTokens)
    {
      if indexID !in tokens { return false; }
      var base := tokens[indexID].base;
      var ownerList: seq<string> := [];
      for i := 0 to |ownerBalances|
        invariant accountTokens == SetBalances(old(accountTokens), indexID, base, Succeeded(ownerBalances[..i], fails), now)
        invariant ownerList == Addresses(Succeeded(ownerBalances[..i], fails))
      {
        UpsertStep(old(accountTokens), indexID, base, ownerBalances, fails, i, now);
        if i in fails { continue; }
        var k := AccountKey(indexID, ownerBalances[i].address);
        accountTokens := accountTokens[k := SetRow(Lookup(accountTokens, k), RowOf(base, ownerBalances[i], now))];
        ownerList := ownerList + [ownerBalances[i].address];
      }
      assert ownerBalances[..|ownerBalances|] == ownerBalances;
      accountTokens := map k | k in accountTokens ::
        if k.indexID == indexID && k.owner !in ownerList
        then accountTokens[k].(balance := 0, lastRefreshedTime := now) else accountTokens[k];
      found := true;
    }

    /**
      `aborts` tells that the database gave the transaction up; otherwise `moved` are the owners whose
      rows the update reached.
     */
    method SwapToken(s: SwapLineage.Swap, aborts: bool, moved: set<string>, now: int) returns (r: SwapLineage.Result)
      requires SwapLineage.Refuses(tokens, s).None? && !aborts ==> SwapLineage.CanMove(accountTokens, s.original, s.target, moved)
      modifies this`tokens, this`accountTokens
      ensures r.Swapped? <==> SwapLineage.Refuses(old(tokens), s).None? && !aborts
      ensures SwapLineage.Store(tokens, accountTokens) ==
              SwapLineage.Step(SwapLineage.Store(old(tokens), old(accountTokens)), SwapLineage.Call(s, aborts, moved, now))
      ensures r.Swapped? ==>
                && r.indexID == s.target
                && tokens == SwapLineage.SwapTokens(old(tokens), s)
                && accountTokens == SwapLineage.MoveRows(old(accountTokens), s.original, s.target, moved, now)
      ensures !r.Swapped? ==> tokens == old(tokens) && accountTokens == old(accountTokens)
      ensures SwapLineage.Refuses(old(tokens), s).Some? ==> r == SwapLineage.Refuses(old(tokens), s).value
      ensures s.newBase.blockchain != "ethereum" && s.newBase.blockchain != "tezos" <==> r == SwapLineage.UnsupportedBlockchain
      ensures r.Swapped? && s.target != s.original ==>
                && s.original in old(tokens) && tokens.Keys == old(tokens.Keys) + {s.target}
                && SwapLineage.IsSwapOf(tokens[s.target], old(tokens)[s.original], s)
                && forall id :: id in old(tokens) && id != s.original && id != s.target ==> tokens[id] == old(tokens)[id]
    {
      if s.newBase.blockchain != "ethereum" && s.newBase.blockchain != "tezos" {
        return SwapLineage.UnsupportedBlockchain;
      }
      if s.original !in tokens { return SwapLineage.NotFound; }
      var original := tokens[s.original];
      if original.burned && original.swappedTo.Some? {
        if original.swappedTo.value != s.target { return SwapLineage.BurnedIntoDifferentID; }
      }
      if aborts { return SwapLineage.TransactionFailed; }
      if s.target != s.original { SwapLineage.SwapWrites(tokens, s); }
      WriteSwappedTokens(s);
      accountTokens := SwapLineage.MoveRows(accountTokens, s.original, s.target, moved, now);
      r := SwapLineage.Swapped(s.target);
    }

    /** The two token writes of the transaction: the original is burned, the new token upserted. */
    method WriteSwappedTokens(s: SwapLineage.Swap)
      requires s.original in tokens
      modifies this`tokens
      ensures tokens == SwapLineage.SwapTokens(old(tokens), s)
    {
      var original := tokens[s.original];
      var newToken := original.(
        base := s.newBase.(fungible := original.base.fungible),
        swapped := true, burned := false, swappedTo := None, swappedFrom := Some(s.original),
        originTokenInfo := [original.base] + original.originTokenInfo);
      tokens := tokens[s.original := original.(burned := true, swappedTo := Some(s.target))];
      if s.target in tokens {
        tokens := tokens[s.target := newToken.(swappedTo := tokens[s.target].swappedTo)];
      } else {
        tokens := tokens[s.target := newToken];
      }
    }
  }
}
