/**
  Token swaps between chains: SwapToken burns the original, writes the new token as a copy that links
  back to it, and moves the account rows. Swapped tokens form paths along `swappedTo`.
 */
module SwapLineage {
  import opened Options
  import opened Tokens
  import opened MapSum

  datatype Swap = Swap(original: string, target: string, newBase: BaseTokenInfo)

  datatype Result = Swapped(indexID: string) | UnsupportedBlockchain | NotFound | BurnedIntoDifferentID | TransactionFailed

  /** The copy SwapToken writes; the token keeps its original's fungibility. */
  function NewToken(original: Token, s: Swap): Token {
    original.(
      base := s.newBase.(fungible := original.base.fungible),
      swapped := true, burned := false, swappedTo := None, swappedFrom := Some(s.original),
      originTokenInfo := [original.base] + original.originTokenInfo)
  }

  /** `$set` with an upsert: a nil swappedTo is omitted, so an existing document keeps its own. */
  function SetToken(existing: Option<Token>, t: Token): Token {
    if existing.Some? && t.swappedTo.None? then t.(swappedTo := existing.value.swappedTo) else t
  }

  function Find(tokens: TokenTable, id: string): Option<Token> {
    if id in tokens then Some(tokens[id]) else None
  }

  /** The checks before the transaction. */
  function Refuses(tokens: TokenTable, s: Swap): Option<Result> {
    if s.newBase.blockchain !in {"ethereum", "tezos"} then Some(UnsupportedBlockchain)
    else if s.original !in tokens then Some(NotFound)
    else if tokens[s.original].burned && tokens[s.original].swappedTo.Some? && tokens[s.original].swappedTo != Some(s.target)
    then Some(BurnedIntoDifferentID)
    else None
  }

  function SwapTokens(tokens: TokenTable, s: Swap): TokenTable
    requires s.original in tokens
  {
    var original := tokens[s.original];
    var burned := tokens[s.original := original.(burned := true, swappedTo := Some(s.target))];
    burned[s.target := SetToken(Find(burned, s.target), NewToken(original, s))]
  }

  // ---- lineage ----

  /** A swapped token is burned, and the token it went to names it. */
  ghost predicate LinksOn(tokens: TokenTable, a: string)
    requires a in tokens
  {
    tokens[a].swappedTo.Some? ==>
      var b := tokens[a].swappedTo.value;
      b in tokens && tokens[b].swappedFrom == Some(a) && tokens[a].burned
  }

  /** A token swapped from another is what that token went to, and lists its base info before its ancestors'. */
  ghost predicate LinksBack(tokens: TokenTable, b: string)
    requires b in tokens
  {
    tokens[b].swappedFrom.Some? ==>
      var a := tokens[b].swappedFrom.value;
      && a in tokens && tokens[a].swappedTo == Some(b)
      && tokens[b].originTokenInfo == [tokens[a].base] + tokens[a].originTokenInfo
  }

  ghost predicate Lineage(tokens: TokenTable) {
    && (forall a :: a in tokens ==> LinksOn(tokens, a))
    && (forall b :: b in tokens ==> LinksBack(tokens, b))
  }

  /** A target a swap may take: a new id, an unlinked document, or, on a retry, the live end of the original's own link. */
  predicate GoodTarget(tokens: TokenTable, s: Swap) {
    && s.target != s.original
    && (s.target in tokens ==>
          var t := tokens[s.target];
          t.swappedTo.None? && (t.swappedFrom.None? || t.swappedFrom == Some(s.original)))
  }

  lemma GoodTargetKeepsLineage(tokens: TokenTable, s: Swap)
    requires Lineage(tokens) && Refuses(tokens, s).None? && GoodTarget(tokens, s)
    ensures Lineage(SwapTokens(tokens, s))
  {
    var tokens', a, b := SwapTokens(tokens, s), s.original, s.target;
    assert LinksOn(tokens, a) && LinksBack(tokens, a);
    assert tokens'[b] == NewToken(tokens[a], s);
    assert tokens'[a] == tokens[a].(burned := true, swappedTo := Some(b));
    forall x | x in tokens' ensures LinksOn(tokens', x) && LinksBack(tokens', x) {
      if x != a && x != b {
        assert LinksOn(tokens, x) && LinksBack(tokens, x);
      }
    }
  }

  lemma BadTargetBreaksLineage(tokens: TokenTable, s: Swap)
    requires Lineage(tokens) && Refuses(tokens, s).None? && !GoodTarget(tokens, s)
    ensures !Lineage(SwapTokens(tokens, s))
  {
    var tokens', a, b := SwapTokens(tokens, s), s.original, s.target;
    assert LinksOn(tokens, b) && LinksBack(tokens, b);
    if a == b || tokens[b].swappedTo.Some? {
      assert !LinksOn(tokens', b);
    } else {
      var c := tokens[b].swappedFrom.value;
      assert !LinksOn(tokens', c);
    }
  }

  /**
    Exactly when a swap keeps the lineage: its target is not the original, is not itself swapped on, and
    is linked from nowhere else. A target that is new always is; a retry is, until its target is swapped on.
   */
  lemma SwapKeepsLineageIff(tokens: TokenTable, s: Swap)
    requires Lineage(tokens) && Refuses(tokens, s).None?
    ensures Lineage(SwapTokens(tokens, s)) <==> GoodTarget(tokens, s)
  {
    if GoodTarget(tokens, s) { GoodTargetKeepsLineage(tokens, s); } else { BadTargetBreaksLineage(tokens, s); }
  }

  /** The ids met by following swappedFrom, nearest first. */
  ghost function Ancestors(tokens: TokenTable, id: string): seq<string>
    requires Lineage(tokens) && id in tokens
    decreases |tokens[id].originTokenInfo|
  {
    assert LinksBack(tokens, id);
    if tokens[id].swappedFrom.None? then []
    else [tokens[id].swappedFrom.value] + Ancestors(tokens, tokens[id].swappedFrom.value)
  }

  ghost function Root(tokens: TokenTable, id: string): string
    requires Lineage(tokens) && id in tokens
  {
    var up := Ancestors(tokens, id);
    if up == [] then id else up[|up| - 1]
  }

  /**
    Paths: the ancestors of a token are existing, distinct from it and from each other and all burned, the
    last has no predecessor, and the token's origin list is their base infos followed by the root's own list.
   */
  lemma {:induction false} OriginListIsTheLineage(tokens: TokenTable, id: string)
    requires Lineage(tokens) && id in tokens
    ensures var up := Ancestors(tokens, id);
      && (forall i :: 0 <= i < |up| ==> up[i] in tokens && tokens[up[i]].burned && up[i] != id)
      && (forall i, j :: 0 <= i < j < |up| ==> up[i] != up[j])
      && Root(tokens, id) in tokens && tokens[Root(tokens, id)].swappedFrom.None?
      && |up| <= |tokens[id].originTokenInfo|
      && (forall i :: 0 <= i < |up| ==> |tokens[up[i]].originTokenInfo| < |tokens[id].originTokenInfo|)
      && (forall i :: 0 <= i < |up| ==> tokens[id].originTokenInfo[i] == tokens[up[i]].base)
      && tokens[id].originTokenInfo[|up|..] == tokens[Root(tokens, id)].originTokenInfo
    decreases |tokens[id].originTokenInfo|
  {
    assert LinksBack(tokens, id);
    if tokens[id].swappedFrom.Some? {
      var a := tokens[id].swappedFrom.value;
      OriginListIsTheLineage(tokens, a);
      var rest, up := Ancestors(tokens, a), Ancestors(tokens, id);
      assert LinksOn(tokens, a);
      assert up == [a] + rest && Root(tokens, id) == Root(tokens, a);
      forall i | 0 <= i < |up|
        ensures up[i] in tokens && tokens[up[i]].burned && up[i] != id
                && |tokens[up[i]].originTokenInfo| < |tokens[id].originTokenInfo|
                && tokens[id].originTokenInfo[i] == tokens[up[i]].base
      {
        if i > 0 { assert up[i] == rest[i - 1]; }
      }
      assert tokens[id].originTokenInfo[|up|..] == tokens[a].originTokenInfo[|rest|..];
    }
  }

  /** Paths are disjoint: a token goes to at most one token and comes from at most one, and never to itself. */
  lemma LinksAreInjective(tokens: TokenTable, a: string, b: string)
    requires Lineage(tokens) && a in tokens && b in tokens
    ensures tokens[a].swappedTo.Some? && tokens[a].swappedTo == tokens[b].swappedTo ==> a == b
    ensures tokens[a].swappedFrom.Some? && tokens[a].swappedFrom == tokens[b].swappedFrom ==> a == b
    ensures tokens[a].swappedTo != Some(a)
  {
    assert LinksOn(tokens, a) && LinksOn(tokens, b) && LinksBack(tokens, a) && LinksBack(tokens, b);
  }

  /** A call leaves its target alive at the end of its path, with the original burned just before it. */
  lemma SwapEndsAtTarget(tokens: TokenTable, s: Swap)
    requires Lineage(tokens) && Refuses(tokens, s).None? && GoodTarget(tokens, s)
    ensures var tokens' := SwapTokens(tokens, s);
            && Lineage(tokens')
            && tokens'[s.target].swappedTo.None? && !tokens'[s.target].burned
            && Ancestors(tokens', s.target) == [s.original] + Ancestors(tokens', s.original)
            && tokens'[s.original].burned && tokens'[s.original].swappedTo == Some(s.target)
            && tokens'[s.target].originTokenInfo == [tokens[s.original].base] + tokens[s.original].originTokenInfo
  {
    GoodTargetKeepsLineage(tokens, s);
    assert LinksBack(SwapTokens(tokens, s), s.target);
  }

  /** Whether a document is the new token of a swap: on the new chain under the new contract, with everything else the original had. */
  predicate IsSwapOf(t: Token, original: Token, s: Swap) {
    && t.base.id == s.newBase.id && t.base.blockchain == s.newBase.blockchain
    && t.base.contractType == s.newBase.contractType && t.base.contractAddress == s.newBase.contractAddress
    && t.base.fungible == original.base.fungible
    && t.swapped
    && t.owner == original.owner && t.owners == original.owners && t.ownersArray == original.ownersArray
    && t.provenance == original.provenance && t.assetID == original.assetID && t.edition == original.edition && t.mintedAt == original.mintedAt
    && t.lastActivityTime == original.lastActivityTime && t.lastRefreshedTime == original.lastRefreshedTime
  }

  /** What a call writes: the new token, the two marks on the original, and nothing else. */
  lemma SwapWrites(tokens: TokenTable, s: Swap)
    requires Refuses(tokens, s).None? && s.target != s.original
    ensures var tokens' := SwapTokens(tokens, s);
            && tokens'.Keys == tokens.Keys + {s.target}
            && IsSwapOf(tokens'[s.target], tokens[s.original], s)
            && tokens'[s.original] == tokens[s.original].(burned := true, swappedTo := Some(s.target))
            && forall id :: id in tokens && id != s.original && id != s.target ==> tokens'[id] == tokens[id]
  {
  }

  /** An immediate retry changes no token. */
  lemma RetryChangesNothing(tokens: TokenTable, s: Swap)
    requires Refuses(tokens, s).None? && s.target != s.original
    ensures Refuses(SwapTokens(tokens, s), s).None? && SwapTokens(SwapTokens(tokens, s), s) == SwapTokens(tokens, s)
  {
    var t', t'' := SwapTokens(tokens, s), SwapTokens(SwapTokens(tokens, s), s);
    assert t''[s.target] == t'[s.target];
    assert t''[s.original] == t'[s.original];
  }

  /** A retry after the target was itself swapped on revives the target: the path then has a burned-out link that is not burned. */
  lemma LateRetryRevives(tokens: TokenTable, s: Swap, next: Swap)
    requires Lineage(tokens) && Refuses(tokens, s).None? && s.target !in tokens && s.target != s.original
    requires next.newBase.blockchain in {"ethereum", "tezos"} && next.original == s.target
    requires next.target !in tokens && next.target != s.target && next.target != s.original
    ensures var tokens' := SwapTokens(SwapTokens(tokens, s), next);
            && Lineage(tokens') && Refuses(tokens', s).None?
            && !SwapTokens(tokens', s)[s.target].burned && SwapTokens(tokens', s)[s.target].swappedTo == Some(next.target)
            && !Lineage(SwapTokens(tokens', s))
  {
    GoodTargetKeepsLineage(tokens, s);
    GoodTargetKeepsLineage(SwapTokens(tokens, s), next);
    BadTargetBreaksLineage(SwapTokens(SwapTokens(tokens, s), next), s);
  }

  // ---- account rows ----

  /** The owners for whom both the old and the new id have a row: the update of the old row would break the unique key. */
  predicate Conflicts(rows: AccountTable, original: string, target: string) {
    exists k :: k in rows && k.indexID == original && AccountKey(target, k.owner) in rows
  }

  /**
    The rows after the transaction when UpdateMany rewrote the rows of `moved` before it met a conflict
    and DeleteMany removed the rest.
   */
  function MoveRows(rows: AccountTable, original: string, target: string, moved: set<string>, now: int): AccountTable {
    (map k | k in rows && k.indexID != original :: rows[k])
    + (map k | k in rows && k.indexID == original && k.owner in moved ::
        AccountKey(target, k.owner) := rows[k].(lastActivityTime := now, lastRefreshedTime := now))
  }

  /** What UpdateMany can have rewritten: rows without a conflict, and all of them when there is none. */
  ghost predicate CanMove(rows: AccountTable, original: string, target: string, moved: set<string>) {
    && (forall o :: o in moved ==> AccountKey(original, o) in rows && AccountKey(target, o) !in rows)
    && (!Conflicts(rows, original, target) ==> forall k :: k in rows && k.indexID == original ==> k.owner in moved)
  }

  ghost function Held(rows: AccountTable, id: string): map<string, int> {
    map k | k in rows && k.indexID == id :: k.owner := rows[k].balance
  }

  ghost function Elsewhere(rows: AccountTable, id: string): AccountTable {
    map k | k in rows && k.indexID != id :: rows[k]
  }

  ghost function Balances(rows: AccountTable): map<AccountKey, int> {
    map k | k in rows :: rows[k].balance
  }

  ghost function Total(rows: AccountTable): int {
    Sum(Balances(rows))
  }

  lemma OneRowLess(rows: AccountTable, k: AccountKey)
    requires k in rows
    ensures Balances(rows - {k}) == Balances(rows) - {k}
    ensures k.owner in Held(rows, k.indexID) && Held(rows - {k}, k.indexID) == Held(rows, k.indexID) - {k.owner}
    ensures Elsewhere(rows - {k}, k.indexID) == Elsewhere(rows, k.indexID)
  {
  }

  lemma {:induction false} TotalByToken(rows: AccountTable, id: string)
    ensures Total(rows) == Sum(Held(rows, id)) + Total(Elsewhere(rows, id))
    decreases |rows|
  {
    if k :| k in rows && k.indexID == id {
      TotalByToken(rows - {k}, id);
      OneRowLess(rows, k);
      SumTakesOut(Balances(rows), k);
      SumTakesOut(Held(rows, id), k.owner);
    } else {
      assert Elsewhere(rows, id) == rows;
      assert Held(rows, id) == map[];
    }
  }

  /** What the transaction deletes instead of moving. */
  ghost function Lost(rows: AccountTable, original: string, moved: set<string>): map<string, int> {
    map o | o in Held(rows, original) && o !in moved :: Held(rows, original)[o]
  }

  ghost function Kept(rows: AccountTable, original: string, moved: set<string>): map<string, int> {
    map o | o in Held(rows, original) && o in moved :: Held(rows, original)[o]
  }

  lemma MovedRowsAreHeld(rows: AccountTable, original: string, target: string, moved: set<string>, now: int)
    requires original != target && CanMove(rows, original, target, moved)
    ensures Held(MoveRows(rows, original, target, moved, now), target) == Held(rows, target) + Kept(rows, original, moved)
    ensures Held(rows, target).Keys !! Kept(rows, original, moved).Keys
  {
    var rows', kept := MoveRows(rows, original, target, moved, now), Kept(rows, original, moved);
    forall o | o in kept ensures o !in Held(rows, target) { assert o in moved; }
    forall o ensures o in Held(rows', target) <==> o in Held(rows, target) || o in kept {
      assert AccountKey(target, o) in rows' <==> AccountKey(target, o) in rows || (AccountKey(original, o) in rows && o in moved);
    }
    forall o | o in Held(rows', target) ensures Held(rows', target)[o] == (Held(rows, target) + kept)[o] {
    }
  }

  /** A row that the database moves keeps its owner, its balance, its base info and its pending fields, and is stamped with the moment of the swap. */
  lemma MovedRowsKeepTheirContents(rows: AccountTable, original: string, target: string, moved: set<string>, now: int, k: AccountKey)
    requires original != target && CanMove(rows, original, target, moved)
    ensures var rows' := MoveRows(rows, original, target, moved, now);
            && (k in rows && k.indexID == original && k.owner in moved ==>
                 && AccountKey(target, k.owner) in rows'
                 && var row := rows'[AccountKey(target, k.owner)];
                    && row.balance == rows[k].balance && row.base == rows[k].base
                    && row.pendingTxs == rows[k].pendingTxs && row.lastPendingTime == rows[k].lastPendingTime
                    && row.lastActivityTime == now && row.lastRefreshedTime == now)
            && (k in rows && k.indexID != original ==> k in rows' && rows'[k] == rows[k])
            && (k in rows' && k !in rows ==> k.indexID == target && k.owner in moved)
  {
    if k in rows && k.indexID == original && k.owner in moved {
      assert AccountKey(target, k.owner) !in rows;
      assert AccountKey(original, k.owner) == k;
    }
  }

  lemma OtherRowsStay(rows: AccountTable, original: string, target: string, moved: set<string>, now: int)
    requires original != target
    ensures Elsewhere(MoveRows(rows, original, target, moved, now), target) == Elsewhere(Elsewhere(rows, original), target)
    ensures forall k :: k in MoveRows(rows, original, target, moved, now) ==> k.indexID != original
  {
  }

  /**
    No row keeps the old id, and the total balance falls by exactly what was deleted; without conflicts
    nothing is, and each owner keeps under the new id what it had under either.
   */
  lemma SwapMovesBalances(rows: AccountTable, original: string, target: string, moved: set<string>, now: int)
    requires original != target && CanMove(rows, original, target, moved)
    ensures forall k :: k in MoveRows(rows, original, target, moved, now) ==> k.indexID != original
    ensures Total(MoveRows(rows, original, target, moved, now)) == Total(rows) - Sum(Lost(rows, original, moved))
    ensures Elsewhere(MoveRows(rows, original, target, moved, now), target) == Elsewhere(Elsewhere(rows, original), target)
    ensures !Conflicts(rows, original, target) ==>
              && Total(MoveRows(rows, original, target, moved, now)) == Total(rows)
              && Held(MoveRows(rows, original, target, moved, now), target) == Held(rows, target) + Held(rows, original)
              && Held(rows, target).Keys !! Held(rows, original).Keys
  {
    TotalBeforeMove(rows, original, target, moved);
    TotalByToken(MoveRows(rows, original, target, moved, now), target);
    MovedRowsAreHeld(rows, original, target, moved, now);
    SumOfDisjointUnion(Held(rows, target), Kept(rows, original, moved));
    OtherRowsStay(rows, original, target, moved, now);
    if !Conflicts(rows, original, target) {
      NothingIsLost(rows, original, target, moved);
    }
  }

  lemma TotalBeforeMove(rows: AccountTable, original: string, target: string, moved: set<string>)
    requires original != target
    ensures Total(rows) == Sum(Kept(rows, original, moved)) + Sum(Lost(rows, original, moved)) + Sum(Held(rows, target))
                           + Total(Elsewhere(Elsewhere(rows, original), target))
  {
    TotalByToken(rows, original);
    TotalByToken(Elsewhere(rows, original), target);
    HeldSplits(rows, original, moved);
    HeldIsElsewhere(rows, original, target);
  }

  lemma HeldSplits(rows: AccountTable, original: string, moved: set<string>)
    ensures Sum(Held(rows, original)) == Sum(Kept(rows, original, moved)) + Sum(Lost(rows, original, moved))
  {
    assert Held(rows, original) == Kept(rows, original, moved) + Lost(rows, original, moved);
    SumOfDisjointUnion(Kept(rows, original, moved), Lost(rows, original, moved));
  }

  lemma HeldIsElsewhere(rows: AccountTable, original: string, target: string)
    requires original != target
    ensures Held(Elsewhere(rows, original), target) == Held(rows, target)
  {
  }

  lemma NothingIsLost(rows: AccountTable, original: string, target: string, moved: set<string>)
    requires CanMove(rows, original, target, moved) && !Conflicts(rows, original, target)
    ensures Lost(rows, original, moved) == map[] && Kept(rows, original, moved) == Held(rows, original)
  {
    forall o | o in Held(rows, original) ensures o in moved {
      assert AccountKey(original, o) in rows;
    }
  }

  // ---- runs ----

  datatype Store = Store(tokens: TokenTable, rows: AccountTable)

  /** A call: whether the database gives its transaction up, and otherwise the owners whose rows the update reaches. */
  datatype Call = Call(swap: Swap, aborts: bool, moved: set<string>, now: int)

  predicate Goes(s: Store, c: Call) {
    Refuses(s.tokens, c.swap).None? && !c.aborts
  }

  function Step(s: Store, c: Call): Store {
    if Goes(s, c)
    then Store(SwapTokens(s.tokens, c.swap), MoveRows(s.rows, c.swap.original, c.swap.target, c.moved, c.now))
    else s
  }

  function After(s: Store, calls: seq<Call>): Store {
    if calls == [] then s else Step(After(s, calls[..|calls| - 1]), calls[|calls| - 1])
  }

  ghost predicate Proper(s: Store, c: Call) {
    Goes(s, c) ==> GoodTarget(s.tokens, c.swap) && CanMove(s.rows, c.swap.original, c.swap.target, c.moved)
  }

  /** Every call of the run is refused, aborted, or has a good target. */
  ghost predicate ProperRun(s: Store, calls: seq<Call>) {
    calls == [] ||
    (ProperRun(s, calls[..|calls| - 1]) && Proper(After(s, calls[..|calls| - 1]), calls[|calls| - 1]))
  }

  predicate SwappedOn(tokens: TokenTable, id: string) {
    id in tokens && tokens[id].swappedTo.Some?
  }

  /** No account row has the id of a token that was swapped on. */
  predicate NoOldRows(s: Store) {
    forall k :: k in s.rows ==> !SwappedOn(s.tokens, k.indexID)
  }

  ghost predicate Consistent(s: Store) {
    Lineage(s.tokens) && NoOldRows(s)
  }

  lemma StepKeepsConsistent(s: Store, c: Call)
    requires Consistent(s) && Proper(s, c)
    ensures Consistent(Step(s, c))
    ensures s.tokens.Keys <= Step(s, c).tokens.Keys
    ensures forall id :: SwappedOn(s.tokens, id) ==> SwappedOn(Step(s, c).tokens, id)
    ensures Goes(s, c) ==> SwappedOn(Step(s, c).tokens, c.swap.original)
  {
    if Goes(s, c) {
      GoodTargetKeepsLineage(s.tokens, c.swap);
      var s' := Step(s, c);
      assert s'.tokens[c.swap.target].swappedTo.None?;
      forall k | k in s'.rows ensures !SwappedOn(s'.tokens, k.indexID) {
        assert k.indexID == c.swap.target || k in s.rows;
      }
    }
  }

  /**
    Every run of calls, refused and aborted ones included, keeps the lineage and leaves no row under an
    old id; no token disappears, and a token swapped on stays so.
   */
  lemma {:induction false} RunsKeepLineage(s: Store, calls: seq<Call>)
    requires Consistent(s) && ProperRun(s, calls)
    ensures Consistent(After(s, calls))
    ensures s.tokens.Keys <= After(s, calls).tokens.Keys
    ensures forall id :: SwappedOn(s.tokens, id) ==> SwappedOn(After(s, calls).tokens, id)
  {
    if calls != [] {
      RunsKeepLineage(s, calls[..|calls| - 1]);
      StepKeepsConsistent(After(s, calls[..|calls| - 1]), calls[|calls| - 1]);
    }
  }

  /** After a run, no row has the original's id of any call that went through, at whatever point of the run. */
  lemma {:induction false} NoRowKeepsAnOldID(s: Store, calls: seq<Call>, i: nat)
    requires Consistent(s) && ProperRun(s, calls) && i < |calls| && Goes(After(s, calls[..i]), calls[i])
    ensures SwappedOn(After(s, calls).tokens, calls[i].swap.original)
    ensures forall k :: k in After(s, calls).rows ==> k.indexID != calls[i].swap.original
  {
    var n := |calls| - 1;
    RunsKeepLineage(s, calls[..n]);
    StepKeepsConsistent(After(s, calls[..n]), calls[n]);
    if i < n {
      assert calls[..n][..i] == calls[..i];
      NoRowKeepsAnOldID(s, calls[..n], i);
    }
  }

  /** A later call that goes through to other targets leaves what an earlier one wrote, up to the marks of being swapped on. */
  lemma StepKeepsOthers(s: Store, c: Call, id: string)
    requires id in s.tokens && Proper(s, c) && (Goes(s, c) ==> c.swap.target != id)
    ensures id in Step(s, c).tokens
    ensures var t, t' := s.tokens[id], Step(s, c).tokens[id]; t' == t.(burned := t'.burned, swappedTo := t'.swappedTo)
  {
  }

  /** The last call that wrote a target decides its document: the swap of the original as it was at that call. */
  lemma {:induction false} LastSwapDecides(s: Store, calls: seq<Call>, i: nat)
    requires ProperRun(s, calls) && i < |calls| && Goes(After(s, calls[..i]), calls[i])
    requires forall j :: i < j < |calls| && Goes(After(s, calls[..j]), calls[j]) ==> calls[j].swap.target != calls[i].swap.target
    ensures var swap := calls[i].swap;
            && swap.target in After(s, calls).tokens && swap.original in After(s, calls[..i]).tokens
            && IsSwapOf(After(s, calls).tokens[swap.target], After(s, calls[..i]).tokens[swap.original], swap)
            && After(s, calls).tokens[swap.target].swappedFrom == Some(swap.original)
  {
    var n := |calls| - 1;
    if i < n {
      forall j | i < j < n && Goes(After(s, calls[..n][..j]), calls[..n][j]) ensures calls[..n][j].swap.target != calls[..n][i].swap.target {
        assert calls[..n][..j] == calls[..j];
      }
      assert calls[..n][..i] == calls[..i];
      LastSwapDecides(s, calls[..n], i);
      StepKeepsOthers(After(s, calls[..n]), calls[n], calls[i].swap.target);
    } else {
      SwapWrites(After(s, calls[..n]).tokens, calls[n].swap);
    }
  }

  /** The balance a call deletes. */
  ghost function LostBy(s: Store, c: Call): int {
    if Goes(s, c) then Sum(Lost(s.rows, c.swap.original, c.moved)) else 0
  }

  ghost function LostInRun(s: Store, calls: seq<Call>): int {
    if calls == [] then 0
    else LostInRun(s, calls[..|calls| - 1]) + LostBy(After(s, calls[..|calls| - 1]), calls[|calls| - 1])
  }

  predicate NoneNegative(rows: AccountTable) {
    forall k :: k in rows ==> rows[k].balance >= 0
  }

  predicate HoldsNothing(rows: AccountTable, id: string) {
    forall k :: k in rows && k.indexID == id ==> rows[k].balance == 0
  }

  /** A swap of these ids can delete no balance: no owner has a row under both, or nothing is held under the old one. */
  predicate Safe(rows: AccountTable, original: string, target: string) {
    !Conflicts(rows, original, target) || HoldsNothing(rows, original)
  }

  lemma SafeLosesNothing(rows: AccountTable, original: string, target: string, moved: set<string>)
    requires CanMove(rows, original, target, moved) && Safe(rows, original, target)
    ensures Sum(Lost(rows, original, moved)) == 0
  {
    if Conflicts(rows, original, target) {
      SumOfZeros(Lost(rows, original, moved));
    } else {
      NothingIsLost(rows, original, target, moved);
    }
  }

  /** On a conflict the database may have moved nothing: then everything held under the old id is deleted. */
  lemma ConflictMayLoseAll(rows: AccountTable, original: string, target: string)
    requires Conflicts(rows, original, target)
    ensures CanMove(rows, original, target, {})
    ensures Lost(rows, original, {}) == Held(rows, original)
  {
  }

  lemma HeldIsZeroIff(rows: AccountTable, id: string)
    requires NoneNegative(rows)
    ensures Sum(Held(rows, id)) == 0 <==> HoldsNothing(rows, id)
  {
    SumIsZeroIff(Held(rows, id));
    if Sum(Held(rows, id)) == 0 {
      forall k | k in rows && k.indexID == id ensures rows[k].balance == 0 {
        assert Held(rows, id)[k.owner] == rows[k].balance;
      }
    }
  }

  /**
    Exactly when a call conserves the total balance, whatever rows the database moves before it meets a
    conflict: when the two ids share no owner, or nothing is held under the old one.
   */
  lemma SwapConservesIff(rows: AccountTable, original: string, target: string, now: int)
    requires original != target && NoneNegative(rows)
    ensures (forall moved :: CanMove(rows, original, target, moved) ==> Total(MoveRows(rows, original, target, moved, now)) == Total(rows))
            <==> Safe(rows, original, target)
  {
    if Safe(rows, original, target) {
      forall moved | CanMove(rows, original, target, moved)
        ensures Total(MoveRows(rows, original, target, moved, now)) == Total(rows)
      {
        SwapMovesBalances(rows, original, target, moved, now);
        SafeLosesNothing(rows, original, target, moved);
      }
    } else {
      ConflictMayLoseAll(rows, original, target);
      SwapMovesBalances(rows, original, target, {}, now);
      HeldIsZeroIff(rows, original);
    }
  }

  lemma StepMovesBalances(s: Store, c: Call)
    requires Proper(s, c)
    ensures Total(Step(s, c).rows) == Total(s.rows) - LostBy(s, c)
    ensures c.aborts || Safe(s.rows, c.swap.original, c.swap.target) ==> LostBy(s, c) == 0
  {
    if Goes(s, c) {
      SwapMovesBalances(s.rows, c.swap.original, c.swap.target, c.moved, c.now);
      if Safe(s.rows, c.swap.original, c.swap.target) {
        SafeLosesNothing(s.rows, c.swap.original, c.swap.target, c.moved);
      }
    }
  }

  /** Over a run the total balance falls by exactly what the calls delete. */
  lemma {:induction false} RunsConserveBalances(s: Store, calls: seq<Call>)
    requires ProperRun(s, calls)
    ensures Total(After(s, calls).rows) == Total(s.rows) - LostInRun(s, calls)
  {
    if calls != [] {
      var n := |calls| - 1;
      RunsConserveBalances(s, calls[..n]);
      StepMovesBalances(After(s, calls[..n]), calls[n]);
    }
  }

  /** Every call of the run that goes through is safe when it is made. */
  ghost predicate SafeRun(s: Store, calls: seq<Call>) {
    calls == [] ||
    (var before, c := After(s, calls[..|calls| - 1]), calls[|calls| - 1];
     SafeRun(s, calls[..|calls| - 1]) && (Goes(before, c) ==> Safe(before.rows, c.swap.original, c.swap.target)))
  }

  /** A run of safe calls, aborted and refused ones included, conserves the total balance. */
  lemma {:induction false} SafeRunsConserve(s: Store, calls: seq<Call>)
    requires ProperRun(s, calls) && SafeRun(s, calls)
    ensures LostInRun(s, calls) == 0 && Total(After(s, calls).rows) == Total(s.rows)
  {
    if calls != [] {
      var n := |calls| - 1;
      SafeRunsConserve(s, calls[..n]);
      StepMovesBalances(After(s, calls[..n]), calls[n]);
    }
  }

  lemma StepKeepsNoneNegative(s: Store, c: Call)
    requires NoneNegative(s.rows)
    ensures NoneNegative(Step(s, c).rows)
  {
  }

  lemma {:induction false} RunsKeepNoneNegative(s: Store, calls: seq<Call>)
    requires NoneNegative(s.rows)
    ensures NoneNegative(After(s, calls).rows)
  {
    if calls != [] {
      RunsKeepNoneNegative(s, calls[..|calls| - 1]);
      StepKeepsNoneNegative(After(s, calls[..|calls| - 1]), calls[|calls| - 1]);
    }
  }

  /**
    After any run, exactly when one more call that goes through keeps the total for every choice the
    database may make; when it gives the transaction up, nothing is lost.
   */
  lemma NextCallConservesIff(s: Store, calls: seq<Call>, swap: Swap, now: int)
    requires NoneNegative(s.rows)
    requires Refuses(After(s, calls).tokens, swap).None? && swap.original != swap.target
    ensures var before := After(s, calls);
            && ((forall moved :: CanMove(before.rows, swap.original, swap.target, moved) ==>
                   Total(Step(before, Call(swap, false, moved, now)).rows) == Total(before.rows))
                <==> Safe(before.rows, swap.original, swap.target))
            && forall moved :: Step(before, Call(swap, true, moved, now)) == before
  {
    var before := After(s, calls);
    RunsKeepNoneNegative(s, calls);
    SwapConservesIff(before.rows, swap.original, swap.target, now);
    forall moved ensures Step(before, Call(swap, false, moved, now)).rows == MoveRows(before.rows, swap.original, swap.target, moved, now) { }
  }
}
