/**
  The background activities that rewrite a token's ownership or provenance from its chain, and the
  event processor's update of the latest owner. What the chains answer is a parameter.
 */
module RefreshWorker {
  import opened Options
  import opened Tokens
  import opened ProvenanceLock
  import opened AccountIndex
  import opened IndexerStore

  // ---- provenance ----

  /** A transfer log as the node returns it, oldest first, with the time of its block. */
  datatype TransferLog = TransferLog(from: string, to: string, time: int, txID: string)

  function FromLog(l: TransferLog): Provenance {
    Provenance(None, if l.from == ETHEREUM_ZERO_ADDRESS then "mint" else "transfer", l.to, "ethereum", l.time, l.txID)
  }

  /** The record of a log: a mint when the token comes from the zero address, and its new owner, time and transaction. */
  predicate IsRecordOf(p: Provenance, l: TransferLog) {
    && p.kind == (if l.from == "0x0000000000000000000000000000000000000000" then "mint" else "transfer")
    && p.owner == l.to && p.timestamp == l.time && p.txID == l.txID && p.blockchain == "ethereum" && p.formerOwner.None?
  }

  /** The owner after the logs are replayed oldest first. */
  function ReplayedOwner(owner: string, logs: seq<TransferLog>): string
    decreases |logs|
  {
    if logs == [] then owner else ReplayedOwner(logs[0].to, logs[1..])
  }

  predicate OldestFirst(logs: seq<TransferLog>) {
    forall i, j :: 0 <= i < j < |logs| ==> logs[i].time <= logs[j].time
  }

  lemma {:induction false} LastLogOwns(owner: string, logs: seq<TransferLog>)
    requires logs != []
    ensures ReplayedOwner(owner, logs) == logs[|logs| - 1].to
    decreases |logs|
  {
    if |logs| > 1 {
      LastLogOwns(logs[0].to, logs[1..]);
    }
  }

  /** The records of some logs, newest first. */
  function FromLogs(logs: seq<TransferLog>): (r: seq<Provenance>)
    ensures |r| == |logs| && forall i :: 0 <= i < |r| ==> r[i] == FromLog(logs[|logs| - 1 - i])
  {
    seq(|logs|, i requires 0 <= i < |logs| => FromLog(logs[|logs| - 1 - i]))
  }

  /** The list is the logs newest first, headed by the owner that replaying them oldest first gives. */
  method FetchEthereumProvenance(transferLogs: seq<TransferLog>) returns (provenances: seq<Provenance>)
    ensures provenances == FromLogs(transferLogs)
    ensures forall i :: 0 <= i < |provenances| ==> IsRecordOf(provenances[i], transferLogs[|transferLogs| - 1 - i])
    ensures OldestFirst(transferLogs) ==> NewestFirst(provenances)
    ensures transferLogs != [] ==> forall owner :: provenances[0].owner == ReplayedOwner(owner, transferLogs)
  {
    provenances := [];
    var total := |transferLogs|;
    for i := 0 to total
      invariant provenances == FromLogs(transferLogs)[..i]
    {
      provenances := provenances + [FromLog(transferLogs[total - i - 1])];
    }
    if transferLogs != [] {
      forall owner ensures provenances[0].owner == ReplayedOwner(owner, transferLogs) {
        LastLogOwns(owner, transferLogs);
      }
    }
  }

  /** What the chains know about a token: the logs of an Ethereum contract, oldest first, and the other chains' records, newest first. */
  datatype History = History(logs: map<BaseTokenInfo, seq<TransferLog>>, records: map<BaseTokenInfo, seq<Provenance>>)

  function LogsOf(history: History, info: BaseTokenInfo): seq<TransferLog> {
    if info in history.logs then history.logs[info] else []
  }

  function Fetched(history: History, info: BaseTokenInfo): seq<Provenance> {
    if info.blockchain == "ethereum" then FromLogs(LogsOf(history, info))
    else if info.blockchain in {"bitmark", "tezos"} && info in history.records then history.records[info]
    else []
  }

  method FetchProvenance(history: History, info: BaseTokenInfo) returns (provenances: seq<Provenance>)
    ensures provenances == Fetched(history, info)
    ensures forall p :: p in provenances <==> Knows(history, info, p)
  {
    if info.blockchain == "ethereum" {
      provenances := FetchEthereumProvenance(LogsOf(history, info));
    } else if info.blockchain in {"bitmark", "tezos"} && info in history.records {
      provenances := history.records[info];
    } else {
      provenances := [];
    }
    forall p ensures p in provenances <==> Knows(history, info, p) { FetchedIsKnown(history, info, p); }
  }

  /** What a chain knows of a token: for Ethereum the records of the contract's logs, for Bitmark and Tezos what their indexers answer. */
  ghost predicate Knows(history: History, info: BaseTokenInfo, p: Provenance) {
    || (info.blockchain == "ethereum" && info in history.logs && exists l :: l in history.logs[info] && IsRecordOf(p, l))
    || ((info.blockchain == "bitmark" || info.blockchain == "tezos") && info in history.records && p in history.records[info])
  }

  lemma FetchedIsKnown(history: History, info: BaseTokenInfo, p: Provenance)
    ensures p in Fetched(history, info) <==> Knows(history, info, p)
  {
    if info.blockchain == "ethereum" {
      var logs, ps := LogsOf(history, info), Fetched(history, info);
      if p in ps {
        var i :| 0 <= i < |ps| && ps[i] == p;
        assert logs[|logs| - 1 - i] in logs && IsRecordOf(p, logs[|logs| - 1 - i]);
      }
      if Knows(history, info, p) {
        var l :| l in history.logs[info] && IsRecordOf(p, l);
        var i :| 0 <= i < |logs| && logs[i] == l;
        assert p == FromLog(l) && ps[|logs| - 1 - i] == FromLog(logs[i]);
      }
    }
  }

  function FetchedAll(history: History, infos: seq<BaseTokenInfo>): seq<Provenance> {
    if infos == [] then [] else FetchedAll(history, infos[..|infos| - 1]) + Fetched(history, infos[|infos| - 1])
  }

  /** The chains a token lived on, latest first, with histories in order and none reaching back before the next one's end. */
  predicate Successive(history: History, infos: seq<BaseTokenInfo>) {
    && (forall i :: 0 <= i < |infos| ==> NewestFirst(Fetched(history, infos[i])))
    && (forall i, j :: 0 <= i < j < |infos| ==>
          forall p, q :: p in Fetched(history, infos[i]) && q in Fetched(history, infos[j]) ==> p.timestamp >= q.timestamp)
  }

  lemma {:induction false} FetchedFrom(history: History, infos: seq<BaseTokenInfo>, p: Provenance) returns (i: nat)
    requires p in FetchedAll(history, infos)
    ensures i < |infos| && p in Fetched(history, infos[i])
  {
    var n := |infos| - 1;
    if p in Fetched(history, infos[n]) { i := n; } else { i := FetchedFrom(history, infos[..n], p); }
  }

  /** Successive histories make one newest-first list, which is what the store's writes keep in order. */
  lemma {:induction false} SuccessiveChainsAreNewestFirst(history: History, infos: seq<BaseTokenInfo>)
    requires Successive(history, infos)
    ensures NewestFirst(FetchedAll(history, infos))
  {
    if infos != [] {
      var n := |infos| - 1;
      SuccessiveChainsAreNewestFirst(history, infos[..n]);
      var before, last := FetchedAll(history, infos[..n]), Fetched(history, infos[n]);
      forall p, q | p in before && q in last ensures p.timestamp >= q.timestamp {
        var k := FetchedFrom(history, infos[..n], p);
        assert p in Fetched(history, infos[k]);
      }
      NewestFirstConcat(before, last);
    }
  }

  lemma NewestFirstConcat(before: seq<Provenance>, last: seq<Provenance>)
    requires NewestFirst(before) && NewestFirst(last)
    requires forall p, q :: p in before && q in last ==> p.timestamp >= q.timestamp
    ensures NewestFirst(before + last)
  {
  }

  /** Seconds of a millisecond time, rounded down. */
  function Unix(t: int): int {
    t / 1000
  }

  predicate FreshAlready(t: Token, delay: int, now: int) {
    Unix(t.lastRefreshedTime) > Unix(now - delay)
  }

  predicate SkipsProvenance(t: Token, delay: int, now: int, chainActivity: int) {
    || (delay > 0 && FreshAlready(t, delay, now))
    || t.base.fungible
    || (t.base.blockchain == "tezos" && t.provenance.Some? && t.provenance.value != []
        && t.provenance.value[0].timestamp == t.lastActivityTime && chainActivity <= t.lastActivityTime)
  }

  /** The concatenated history that a refresh writes: the token's own chain, then the chains it came from. */
  function WholeHistory(history: History, t: Token): seq<Provenance> {
    FetchedAll(history, [t.base] + t.originTokenInfo)
  }

  method FetchWholeHistory(history: History, t: Token) returns (total: seq<Provenance>)
    ensures total == WholeHistory(history, t)
  {
    total := FetchProvenance(history, t.base);
    ghost var infos := [t.base] + t.originTokenInfo;
    assert infos[..1] == [t.base] && [t.base][..0] == [];
    for i := 0 to |t.originTokenInfo|
      invariant total == FetchedAll(history, infos[..i + 1])
    {
      assert infos[..i + 2][..i + 1] == infos[..i + 1] && infos[i + 1] == t.originTokenInfo[i];
      var provenances := FetchProvenance(history, t.originTokenInfo[i]);
      total := total + provenances;
    }
    assert infos[..|t.originTokenInfo| + 1] == infos;
  }

  lemma {:induction false} FirstChainLeads(history: History, first: BaseTokenInfo, infos: seq<BaseTokenInfo>)
    ensures FetchedAll(history, [first] + infos) == Fetched(history, first) + FetchedAll(history, infos)
  {
    var all := [first] + infos;
    if infos == [] {
      assert all[..0] == [];
    } else {
      assert all[..|all| - 1] == [first] + infos[..|infos| - 1];
      FirstChainLeads(history, first, infos[..|infos| - 1]);
    }
  }

  lemma {:induction false} FetchedAllIs(history: History, infos: seq<BaseTokenInfo>, p: Provenance)
    ensures p in FetchedAll(history, infos) <==> exists i :: 0 <= i < |infos| && Knows(history, infos[i], p)
  {
    if infos != [] {
      var n := |infos| - 1;
      FetchedAllIs(history, infos[..n], p);
      FetchedIsKnown(history, infos[n], p);
      if i :| 0 <= i < n && Knows(history, infos[..n][i], p) { assert Knows(history, infos[i], p); }
      if i :| 0 <= i < |infos| && Knows(history, infos[i], p) && i < n { assert Knows(history, infos[..n][i], p); }
    }
  }

  /** The whole history is what the token's own chain and the chains it came from know, and nothing else. */
  lemma HistoryIsEveryChain(history: History, t: Token, p: Provenance)
    ensures p in WholeHistory(history, t) <==>
            Knows(history, t.base, p) || exists i :: 0 <= i < |t.originTokenInfo| && Knows(history, t.originTokenInfo[i], p)
  {
    FirstChainLeads(history, t.base, t.originTokenInfo);
    FetchedIsKnown(history, t.base, p);
    FetchedAllIs(history, t.originTokenInfo, p);
  }

  /** The history of a token with Ethereum logs is headed by the owner that replaying those logs oldest first gives. */
  lemma ReplayedOwnerHeads(history: History, t: Token, owner: string)
    requires t.base.blockchain == "ethereum" && LogsOf(history, t.base) != []
    ensures WholeHistory(history, t) != []
    ensures WholeHistory(history, t)[0].owner == ReplayedOwner(owner, LogsOf(history, t.base))
  {
    FirstChainLeads(history, t.base, t.originTokenInfo);
    LastLogOwns(owner, LogsOf(history, t.base));
  }

  ghost predicate SameRows(rows: AccountTable, rows': AccountTable, id: string) {
    forall k: AccountKey :: k.indexID == id ==> Lookup(rows', k) == Lookup(rows, k)
  }

  /** One unit at the owner and nothing elsewhere, or nothing at all when the upsert failed. */
  ghost predicate OneUnitAt(rows: AccountTable, id: string, owner: string, upsertFails: bool) {
    forall a :: Balance(rows, id, a) == if a == owner && !upsertFails then 1 else 0
  }

  /**
    How one token and its rows stand after a provenance refresh: as before when it is skipped or no chain
    knows it; otherwise rewritten, with one unit at the head owner, who for a token with Ethereum logs is
    the owner found by replaying them.
   */
  ghost predicate Rewritten(
    t: Token, t': Token, rows: AccountTable, rows': AccountTable, id: string,
    history: History, activity: int, upsertFails: bool, delay: int, now: int)
  {
    var all := WholeHistory(history, t);
    if SkipsProvenance(t, delay, now, activity) || all == []
    then t' == t && SameRows(rows, rows', id)
    else
      && t' == Apply(t, Op(UpdateTokenProvenance(all), now))
      && OneUnitAt(rows', id, all[0].owner, upsertFails)
      && (!upsertFails ==> HeadRowWritten(rows', id, t.base, all, now))
      && (Agrees(t', rows', id) <==> !upsertFails)
      && (t.base.blockchain == "ethereum" && LogsOf(history, t.base) != [] ==>
           forall owner :: OneUnitAt(rows', id, ReplayedOwner(owner, LogsOf(history, t.base)), upsertFails))
  }

  /** Whether the newest owner's row has the time of the newest record. */
  ghost predicate HeadRowWritten(rows: AccountTable, id: string, base: BaseTokenInfo, all: seq<Provenance>, now: int)
    requires all != []
  {
    var row := Lookup(rows, AccountKey(id, all[0].owner));
    row.Some? && row.value.base == base && row.value.lastActivityTime == all[0].timestamp && row.value.lastRefreshedTime == now
  }

  /** The failing upserts of a list of one. */
  function FirstFails(upsertFails: bool): set<nat> {
    if upsertFails then {0} else {}
  }

  /** The one entry a history gives. */
  function HeadOwner(total: seq<Provenance>): OwnerBalance
    requires total != []
  {
    OwnerBalance(total[0].owner, 1, total[0].timestamp)
  }

  /** The rows after a refresh with a history; an empty one writes nothing. */
  function RowsAfter(rows: AccountTable, id: string, base: BaseTokenInfo, total: seq<Provenance>, upsertFails: bool, now: int): AccountTable {
    if total == [] then rows else SetOwners(rows, id, base, Succeeded([HeadOwner(total)], FirstFails(upsertFails)), now)
  }

  lemma OtherRowsStay(rows: AccountTable, id: string, base: BaseTokenInfo, total: seq<Provenance>, upsertFails: bool, now: int)
    ensures forall k: AccountKey :: k.indexID != id ==> Lookup(RowsAfter(rows, id, base, total, upsertFails, now), k) == Lookup(rows, k)
  {
    if total != [] {
      BalancesFollowTheList(rows, id, base, Succeeded([HeadOwner(total)], FirstFails(upsertFails)), now);
    }
  }

  lemma OneUnitAfter(rows: AccountTable, id: string, base: BaseTokenInfo, total: seq<Provenance>, upsertFails: bool, now: int)
    requires total != []
    ensures OneUnitAt(RowsAfter(rows, id, base, total, upsertFails, now), id, total[0].owner, upsertFails)
    ensures !upsertFails ==> HeadRowWritten(RowsAfter(rows, id, base, total, upsertFails, now), id, base, total, now)
  {
    if !upsertFails {
      assert [HeadOwner(total)][..0] == [] && Succeeded([HeadOwner(total)], FirstFails(false)) == [HeadOwner(total)];
      OwnersAreWritten(rows, id, base, [HeadOwner(total)], now);
      assert IsLast([HeadOwner(total)], 0);
    }
    OneUnitIsSet(rows, id, base, HeadOwner(total), upsertFails, now);
  }

  lemma HeadOwnerIsWritten(t: Token, rows: AccountTable, id: string, history: History, activity: int, upsertFails: bool, delay: int, now: int)
    requires WholeHistory(history, t) != [] && !SkipsProvenance(t, delay, now, activity)
    ensures Rewritten(t, Apply(t, Op(UpdateTokenProvenance(WholeHistory(history, t)), now)),
                      rows, RowsAfter(rows, id, t.base, WholeHistory(history, t), upsertFails, now),
                      id, history, activity, upsertFails, delay, now)
  {
    var all := WholeHistory(history, t);
    var rows' := RowsAfter(rows, id, t.base, all, upsertFails, now);
    OneUnitAfter(rows, id, t.base, all, upsertFails, now);
    UnitAgreesIff(Apply(t, Op(UpdateTokenProvenance(all), now)), rows', id, all[0].owner, upsertFails);
    ReplayedOwnerHasTheUnit(t, rows', id, history, upsertFails);
  }

  lemma ReplayedOwnerHasTheUnit(t: Token, rows: AccountTable, id: string, history: History, upsertFails: bool)
    requires WholeHistory(history, t) != [] && OneUnitAt(rows, id, WholeHistory(history, t)[0].owner, upsertFails)
    ensures t.base.blockchain == "ethereum" && LogsOf(history, t.base) != [] ==>
              forall owner :: OneUnitAt(rows, id, ReplayedOwner(owner, LogsOf(history, t.base)), upsertFails)
  {
    if t.base.blockchain == "ethereum" && LogsOf(history, t.base) != [] {
      forall owner ensures ReplayedOwner(owner, LogsOf(history, t.base)) == WholeHistory(history, t)[0].owner {
        ReplayedOwnerHeads(history, t, owner);
      }
    }
  }

  lemma UnitAgreesIff(t: Token, rows: AccountTable, id: string, owner: string, upsertFails: bool)
    requires OneUnitAt(rows, id, owner, upsertFails) && t.owners == map[owner := 1]
    ensures Agrees(t, rows, id) <==> !upsertFails
  {
    assert Balance(rows, id, owner) == if upsertFails then 0 else 1;
    assert Share(t.owners, owner) == 1;
  }

  lemma OneUnitIsSet(rows: AccountTable, id: string, base: BaseTokenInfo, b: OwnerBalance, upsertFails: bool, now: int)
    requires b.balance == 1
    ensures OneUnitAt(SetOwners(rows, id, base, Succeeded([b], FirstFails(upsertFails)), now), id, b.address, upsertFails)
  {
    var s := Succeeded([b], FirstFails(upsertFails));
    assert [b][..0] == [] && Succeeded([b][..0], FirstFails(upsertFails)) == [];
    assert s == if upsertFails then [] else [b];
    BalancesFollowTheList(rows, id, base, s, now);
    assert OwnersOf(s) == if upsertFails then map[] else map[b.address := 1];
  }

  /** Rewritten, for one token of a batch. */
  ghost predicate RewrittenIn(
    tokens: TokenTable, tokens': TokenTable, rows: AccountTable, rows': AccountTable, id: string,
    history: History, activity: map<string, int>, failing: set<string>, delay: int, now: int)
  {
    && id in tokens && id in tokens'
    && Rewritten(tokens[id], tokens'[id], rows, rows', id, history, ActivityOf(activity, id), id in failing, delay, now)
  }

  /** The activity time that the Tezos indexer answers. */
  function ActivityOf(activity: map<string, int>, id: string): int {
    if id in activity then activity[id] else 0
  }

  lemma RewrittenFrames(
    tokens: TokenTable, t1: TokenTable, t2: TokenTable, r0: AccountTable, r0': AccountTable, r1: AccountTable, r2: AccountTable, id: string,
    history: History, activity: map<string, int>, failing: set<string>, delay: int, now: int)
    requires RewrittenIn(tokens, t1, r0, r1, id, history, activity, failing, delay, now)
    requires id in t2 && t2[id] == t1[id] && SameRows(r1, r2, id) && SameRows(r0, r0', id)
    ensures RewrittenIn(tokens, t2, r0', r2, id, history, activity, failing, delay, now)
  {
    forall a ensures Balance(r2, id, a) == Balance(r1, id, a) {
      assert Lookup(r2, AccountKey(id, a)) == Lookup(r1, AccountKey(id, a));
    }
  }

  /**
    The provenance refresh of a list of tokens. `failing` are the tokens for which the upsert of the new
    owner's row fails. Every token listed ends as Rewritten says, and everything else stays.
   */
  method RefreshTokenProvenance(
    store: MongodbIndexerStore, ids: seq<string>, history: History, activity: map<string, int>, failing: set<string>, delay: int, now: int)
    requires forall i :: 0 <= i < |ids| ==> ids[i] in store.tokens
    requires forall i, j :: 0 <= i < j < |ids| ==> ids[i] != ids[j]
    modifies store`tokens, store`accountTokens
    ensures AllRewritten(old(store.tokens), store.tokens, old(store.accountTokens), store.accountTokens, ids, history, activity, failing, delay, now)
    ensures forall i :: 0 <= i < |ids| && StaysFresh(old(store.tokens)[ids[i]], ActivityOf(activity, ids[i]), delay, now) ==>
              store.tokens[ids[i]] == old(store.tokens)[ids[i]] && SameRows(old(store.accountTokens), store.accountTokens, ids[i])
    ensures forall i :: 0 <= i < |ids| && IsStale(old(store.tokens)[ids[i]], ActivityOf(activity, ids[i]), delay, now)
                        && WholeHistory(history, old(store.tokens)[ids[i]]) != [] ==>
              Renewed(store.tokens[ids[i]], store.accountTokens, ids[i], WholeHistory(history, old(store.tokens)[ids[i]]), ids[i] in failing, now)
  {
    var tokens := store.tokens;
    ghost var rows := store.accountTokens;
    assert ids[..0] == [];
    for i := 0 to |ids|
      invariant AllRewritten(tokens, store.tokens, rows, store.accountTokens, ids[..i], history, activity, failing, delay, now)
    {
      OneMoreID(ids, i);
      RefreshNextProvenance(store, tokens, rows, ids[..i], ids[i], tokens[ids[i]], history, activity, failing, delay, now);
    }
    assert ids[..|ids|] == ids;
    forall i | 0 <= i < |ids| && StaysFresh(tokens[ids[i]], ActivityOf(activity, ids[i]), delay, now)
      ensures store.tokens[ids[i]] == tokens[ids[i]] && SameRows(rows, store.accountTokens, ids[i])
    {
      FreshStays(tokens[ids[i]], store.tokens[ids[i]], rows, store.accountTokens, ids[i], history, ActivityOf(activity, ids[i]), ids[i] in failing, delay, now);
    }
    forall i | 0 <= i < |ids| && IsStale(tokens[ids[i]], ActivityOf(activity, ids[i]), delay, now) && WholeHistory(history, tokens[ids[i]]) != []
      ensures Renewed(store.tokens[ids[i]], store.accountTokens, ids[i], WholeHistory(history, tokens[ids[i]]), ids[i] in failing, now)
    {
      StaleIsRenewed(tokens[ids[i]], store.tokens[ids[i]], rows, store.accountTokens, ids[i], history, ActivityOf(activity, ids[i]), ids[i] in failing, delay, now);
    }
  }

  /** Whether the newest record of a Tezos token is its last activity and the chain has seen nothing since. */
  predicate UpToDate(t: Token, chainActivity: int) {
    && t.base.blockchain == "tezos" && t.provenance.Some? && t.provenance.value != []
    && t.provenance.value[0].timestamp == t.lastActivityTime && chainActivity <= t.lastActivityTime
  }

  /** The tokens a refresh must write: not fungible, not up to date, and last refreshed before the delay, if there is one. */
  predicate IsStale(t: Token, chainActivity: int, delay: int, now: int) {
    !t.base.fungible && (delay <= 0 || t.lastRefreshedTime <= now - delay) && !UpToDate(t, chainActivity)
  }

  /** The tokens it must leave: fungible, up to date, or refreshed within the delay, by at least the second that the times are compared in. */
  predicate StaysFresh(t: Token, chainActivity: int, delay: int, now: int) {
    t.base.fungible || UpToDate(t, chainActivity) || (delay > 0 && t.lastRefreshedTime >= now - delay + 1000)
  }

  /** Document and rows after a refresh with a history: its list, and its newest owner alone, with one unit unless the upsert fails. */
  ghost predicate Renewed(t: Token, rows: AccountTable, id: string, all: seq<Provenance>, upsertFails: bool, now: int)
    requires all != []
  {
    && SoleOwner(t, all[0].owner) && t.lastActivityTime == all[0].timestamp && t.lastRefreshedTime == now
    && t.provenance.Some? && |t.provenance.value| == |all| && (forall i :: 0 <= i < |all| ==> IsStored(t.provenance.value[i], all[i]))
    && (forall a :: Balance(rows, id, a) == if a == all[0].owner && !upsertFails then 1 else 0)
    && (!upsertFails ==> HeadRowWritten(rows, id, t.base, all, now))
  }

  lemma FreshStays(
    t: Token, t': Token, rows: AccountTable, rows': AccountTable, id: string,
    history: History, activity: int, upsertFails: bool, delay: int, now: int)
    requires Rewritten(t, t', rows, rows', id, history, activity, upsertFails, delay, now) && StaysFresh(t, activity, delay, now)
    ensures t' == t && SameRows(rows, rows', id)
  {
  }

  lemma StaleIsRenewed(
    t: Token, t': Token, rows: AccountTable, rows': AccountTable, id: string,
    history: History, activity: int, upsertFails: bool, delay: int, now: int)
    requires Rewritten(t, t', rows, rows', id, history, activity, upsertFails, delay, now)
    requires IsStale(t, activity, delay, now) && WholeHistory(history, t) != []
    ensures Renewed(t', rows', id, WholeHistory(history, t), upsertFails, now)
  {
  }

  /** One turn of the loop. */
  method RefreshNextProvenance(
    store: MongodbIndexerStore, ghost tokens: TokenTable, ghost rows: AccountTable, ghost done: seq<string>, id: string, token: Token,
    history: History, activity: map<string, int>, failing: set<string>, delay: int, now: int)
    requires id in tokens && id !in done && token == tokens[id]
    requires AllRewritten(tokens, store.tokens, rows, store.accountTokens, done, history, activity, failing, delay, now)
    modifies store`tokens, store`accountTokens
    ensures AllRewritten(tokens, store.tokens, rows, store.accountTokens, done + [id], history, activity, failing, delay, now)
  {
    ghost var t1, r1 := store.tokens, store.accountTokens;
    RefreshOneTokenProvenance(store, id, token, history, ActivityOf(activity, id), id in failing, delay, now);
    OneMoreRewritten(tokens, t1, store.tokens, rows, r1, store.accountTokens, done, id, history, activity, failing, delay, now);
  }

  lemma OneMoreID(ids: seq<string>, i: nat)
    requires i < |ids| && forall j, k :: 0 <= j < k < |ids| ==> ids[j] != ids[k]
    ensures ids[..i + 1] == ids[..i] + [ids[i]] && ids[i] !in ids[..i]
  {
  }

  /** The documents and rows of all other tokens are as before, and no token is added or removed. */
  ghost predicate OnlyTheseDiffer(tokens: TokenTable, tokens': TokenTable, rows: AccountTable, rows': AccountTable, ids: seq<string>) {
    && tokens'.Keys == tokens.Keys
    && (forall id :: id in tokens && id !in ids ==> tokens'[id] == tokens[id])
    && (forall k: AccountKey :: k.indexID !in ids ==> Lookup(rows', k) == Lookup(rows, k))
  }

  /** Every listed token ends as Rewritten says, and everything else is as before. */
  ghost predicate AllRewritten(
    tokens: TokenTable, tokens': TokenTable, rows: AccountTable, rows': AccountTable, ids: seq<string>,
    history: History, activity: map<string, int>, failing: set<string>, delay: int, now: int)
  {
    && OnlyTheseDiffer(tokens, tokens', rows, rows', ids)
    && forall i :: 0 <= i < |ids| ==> RewrittenIn(tokens, tokens', rows, rows', ids[i], history, activity, failing, delay, now)
  }

  lemma OneMoreDiffers(tokens: TokenTable, t1: TokenTable, t2: TokenTable, rows: AccountTable, r1: AccountTable, r2: AccountTable, ids: seq<string>, id: string)
    requires OnlyTheseDiffer(tokens, t1, rows, r1, ids) && OnlyTheseDiffer(t1, t2, r1, r2, [id])
    ensures OnlyTheseDiffer(tokens, t2, rows, r2, ids + [id])
  {
    forall x | x in tokens && x !in ids + [id] ensures t2[x] == tokens[x] { assert x !in ids && x !in [id]; }
    forall k: AccountKey | k.indexID !in ids + [id] ensures Lookup(r2, k) == Lookup(rows, k) {
      assert k.indexID !in ids && k.indexID !in [id];
    }
  }

  lemma OneMoreRewritten(
    tokens: TokenTable, t1: TokenTable, t2: TokenTable, rows: AccountTable, r1: AccountTable, r2: AccountTable, ids: seq<string>, id: string,
    history: History, activity: map<string, int>, failing: set<string>, delay: int, now: int)
    requires AllRewritten(tokens, t1, rows, r1, ids, history, activity, failing, delay, now)
    requires id in tokens && id !in ids && OnlyTheseDiffer(t1, t2, r1, r2, [id])
    requires RewrittenIn(t1, t2, r1, r2, id, history, activity, failing, delay, now)
    ensures AllRewritten(tokens, t2, rows, r2, ids + [id], history, activity, failing, delay, now)
  {
    OneMoreDiffers(tokens, t1, t2, rows, r1, r2, ids, id);
    forall i | 0 <= i < |ids| ensures RewrittenIn(tokens, t2, rows, r2, ids[i], history, activity, failing, delay, now) {
      assert ids[i] != id;
      RewrittenFrames(tokens, t1, t2, rows, rows, r1, r2, ids[i], history, activity, failing, delay, now);
    }
    RewrittenFrames(t1, t2, t2, r1, rows, r2, r2, id, history, activity, failing, delay, now);
  }

  method RefreshOneTokenProvenance(
    store: MongodbIndexerStore, indexID: string, token: Token, history: History, chainActivity: int, upsertFails: bool, delay: int, now: int)
    requires indexID in store.tokens && store.tokens[indexID] == token
    modifies store`tokens, store`accountTokens
    ensures OnlyTheseDiffer(old(store.tokens), store.tokens, old(store.accountTokens), store.accountTokens, [indexID])
    ensures Rewritten(old(store.tokens)[indexID], store.tokens[indexID], old(store.accountTokens), store.accountTokens,
                      indexID, history, chainActivity, upsertFails, delay, now)
  {
    if delay > 0 && FreshAlready(token, delay, now) { return; }
    if token.base.fungible { return; }
    if token.base.blockchain == "tezos" {
      if token.provenance.Some? && token.provenance.value != [] {
        if token.provenance.value[0].timestamp - token.lastActivityTime == 0 && chainActivity - token.lastActivityTime <= 0 { return; }
      }
    }
    var total := FetchWholeHistory(history, token);
    if |total| != 0 {
      HeadOwnerIsWritten(token, store.accountTokens, indexID, history, chainActivity, upsertFails, delay, now);
    }
    OtherRowsStay(store.accountTokens, indexID, token.base, total, upsertFails, now);
    RewriteProvenance(store, indexID, total, upsertFails, now);
  }

  /** The two writes of a provenance refresh, document first; an empty history writes nothing. */
  method RewriteProvenance(store: MongodbIndexerStore, indexID: string, total: seq<Provenance>, upsertFails: bool, now: int)
    requires indexID in store.tokens
    modifies store`tokens, store`accountTokens
    ensures store.tokens == Update(old(store.tokens), indexID, Op(UpdateTokenProvenance(total), now))
    ensures store.accountTokens == RowsAfter(old(store.accountTokens), indexID, old(store.tokens)[indexID].base, total, upsertFails, now)
  {
    store.UpdateTokenProvenance(indexID, total, now);
    if |total| != 0 {
      var ownerBalance := [HeadOwner(total)];
      var found := store.UpdateAccountTokenOwners(indexID, ownerBalance, FirstFails(upsertFails), now);
    }
  }

  // ---- ownership ----

  /** What the chain answers for a fungible token, and which entries of that list the index fails to upsert. */
  datatype OnChain = OnChain(lastActivityTime: int, owners: seq<OwnerBalance>, fails: set<nat>)

  const DAY := 86400000

  predicate SkipsOwnership(t: Token, latest: int, chain: OnChain, delay: int, now: int) {
    || FreshAlready(t, delay, now)
    || !t.base.fungible
    || (t.base.blockchain == "ethereum" && now - t.lastActivityTime <= DAY && t.ownersArray != [])
    || (t.base.blockchain == "tezos" && chain.lastActivityTime <= latest)
  }

  /** The list a refresh brings; for a chain other than the two it is empty. */
  function OwnersFrom(t: Token, chain: OnChain): seq<OwnerBalance> {
    if t.base.blockchain in {"ethereum", "tezos"} then chain.owners else []
  }

  function ActivityFrom(t: Token, chain: OnChain): int {
    if t.base.blockchain == "tezos" then chain.lastActivityTime else 0
  }

  function Latest(t: Token, latest: map<string, int>, indexID: string): int {
    if indexID in latest then latest[indexID] else t.lastActivityTime
  }

  ghost predicate AllZero(owners: map<string, int>) {
    forall a :: a in owners ==> owners[a] == 0
  }

  /** How one token and its rows stand after a refresh, given how they stood before. */
  ghost predicate Refreshed(t: Token, t': Token, rows: AccountTable, rows': AccountTable, indexID: string, skipped: bool, activity: int, owners: seq<OwnerBalance>, fails: set<nat>, now: int) {
    if skipped
    then t' == t && SameRows(rows, rows', indexID)
    else
      && t' == Apply(t, Op(UpdateTokenOwners(activity, owners), now))
      && (forall a :: Balance(rows', indexID, a) == Share(OwnersOf(Succeeded(owners, fails)), a))
      && RowsWritten(rows', indexID, t.base, Succeeded(owners, fails), now)
      && (Agrees(t', rows', indexID) <==> if owners != [] then NoneMissed(owners, fails) else AllZero(t.owners))
  }

  /** Refreshed, for one token of a batch. */
  ghost predicate RefreshedIn(
    tokens: TokenTable, tokens': TokenTable, rows: AccountTable, rows': AccountTable, id: string,
    latest: map<string, int>, chain: OnChain, delay: int, now: int)
  {
    && id in tokens && id in tokens'
    && Refreshed(tokens[id], tokens'[id], rows, rows', id,
                 SkipsOwnership(tokens[id], Latest(tokens[id], latest, id), chain, delay, now),
                 ActivityFrom(tokens[id], chain), OwnersFrom(tokens[id], chain), chain.fails, now)
  }

  /** Whether a token counts as refreshed depends on its document and its own rows only. */
  lemma RefreshedFrames(
    tokens: TokenTable, t1: TokenTable, t2: TokenTable, r0: AccountTable, r0': AccountTable, r1: AccountTable, r2: AccountTable, id: string,
    latest: map<string, int>, chain: OnChain, delay: int, now: int)
    requires RefreshedIn(tokens, t1, r0, r1, id, latest, chain, delay, now)
    requires id in t2 && t2[id] == t1[id] && SameRows(r1, r2, id) && SameRows(r0, r0', id)
    ensures RefreshedIn(tokens, t2, r0', r2, id, latest, chain, delay, now)
  {
    forall a ensures Balance(r2, id, a) == Balance(r1, id, a) {
      assert Lookup(r2, AccountKey(id, a)) == Lookup(r1, AccountKey(id, a));
    }
  }

  /**
    The refresh of a list of tokens: every token that is not skipped ends with the balances its chain
    reports, less the entries whose upserts fail; its document agrees with the index exactly when that
    report misses no last upsert or, being empty, meets only zero shares. Everything else stays.
   */
  method RefreshTokenOwnership(
    store: MongodbIndexerStore, ids: seq<string>, latest: map<string, int>, chains: map<string, OnChain>, delay: int, now: int)
    requires forall i :: 0 <= i < |ids| ==> ids[i] in store.tokens && ids[i] in chains
    requires forall i, j :: 0 <= i < j < |ids| ==> ids[i] != ids[j]
    modifies store`tokens, store`accountTokens
    ensures AllRefreshed(old(store.tokens), store.tokens, old(store.accountTokens), store.accountTokens, ids, latest, chains, delay, now)
    ensures forall i :: 0 <= i < |ids| && OwnersStayFresh(old(store.tokens)[ids[i]], ids[i], latest, chains[ids[i]], delay, now) ==>
              store.tokens[ids[i]] == old(store.tokens)[ids[i]] && SameRows(old(store.accountTokens), store.accountTokens, ids[i])
    ensures forall i :: 0 <= i < |ids| && OwnersAreStale(old(store.tokens)[ids[i]], ids[i], latest, chains[ids[i]], delay, now) ==>
              OwnersRenewed(old(store.tokens)[ids[i]], store.tokens[ids[i]], store.accountTokens, ids[i], chains[ids[i]], now)
  {
    var tokens := store.tokens;
    ghost var rows := store.accountTokens;
    assert ids[..0] == [];
    for i := 0 to |ids|
      invariant AllRefreshed(tokens, store.tokens, rows, store.accountTokens, ids[..i], latest, chains, delay, now)
    {
      OneMoreID(ids, i);
      RefreshNextOwnership(store, tokens, rows, ids[..i], ids[i], tokens[ids[i]], latest, chains, delay, now);
    }
    assert ids[..|ids|] == ids;
    forall i | 0 <= i < |ids| && OwnersStayFresh(tokens[ids[i]], ids[i], latest, chains[ids[i]], delay, now)
      ensures store.tokens[ids[i]] == tokens[ids[i]] && SameRows(rows, store.accountTokens, ids[i])
    {
      FreshOwnersStay(tokens, store.tokens, rows, store.accountTokens, ids[i], latest, chains[ids[i]], delay, now);
    }
    forall i | 0 <= i < |ids| && OwnersAreStale(tokens[ids[i]], ids[i], latest, chains[ids[i]], delay, now)
      ensures OwnersRenewed(tokens[ids[i]], store.tokens[ids[i]], store.accountTokens, ids[i], chains[ids[i]], now)
    {
      StaleOwnersAreRenewed(tokens, store.tokens, rows, store.accountTokens, ids[i], latest, chains[ids[i]], delay, now);
    }
  }

  /** When the account rows of a token were last active, or else the token itself. */
  function LastActive(t: Token, id: string, latest: map<string, int>): int {
    if id in latest then latest[id] else t.lastActivityTime
  }

  /** An Ethereum token's owners are read once a day, as long as some are known; a Tezos token's when the chain has seen something since. */
  predicate OwnersAreCurrent(t: Token, id: string, latest: map<string, int>, chain: OnChain, now: int) {
    || (t.base.blockchain == "ethereum" && now - t.lastActivityTime <= 24 * 60 * 60 * 1000 && t.ownersArray != [])
    || (t.base.blockchain == "tezos" && chain.lastActivityTime <= LastActive(t, id, latest))
  }

  predicate OwnersAreStale(t: Token, id: string, latest: map<string, int>, chain: OnChain, delay: int, now: int) {
    t.base.fungible && t.lastRefreshedTime <= now - delay && !OwnersAreCurrent(t, id, latest, chain, now)
  }

  predicate OwnersStayFresh(t: Token, id: string, latest: map<string, int>, chain: OnChain, delay: int, now: int) {
    !t.base.fungible || t.lastRefreshedTime >= now - delay + 1000 || OwnersAreCurrent(t, id, latest, chain, now)
  }

  /** The owners a chain lists; for a token of any other chain nobody asks, and nobody is listed. */
  function Listed(t: Token, chain: OnChain): seq<OwnerBalance> {
    if t.base.blockchain == "ethereum" || t.base.blockchain == "tezos" then chain.owners else []
  }

  /** Document and rows after an ownership refresh: the balances the chain lists, for a Tezos token with the time of its last activity. */
  ghost predicate OwnersRenewed(t: Token, t': Token, rows: AccountTable, id: string, chain: OnChain, now: int) {
    && (forall a :: Balance(rows, id, a) == Share(OwnersOf(Succeeded(Listed(t, chain), chain.fails)), a))
    && RowsWritten(rows, id, t.base, Succeeded(Listed(t, chain), chain.fails), now)
    && (Listed(t, chain) == [] ==> t' == t)
    && (Listed(t, chain) != [] ==>
         && t'.owners == OwnersOf(chain.owners) && t'.provenance.None? && t'.lastRefreshedTime == now && t'.owner == t.owner
         && t'.lastActivityTime == if t.base.blockchain == "tezos" && chain.lastActivityTime != 0 then chain.lastActivityTime else t.lastActivityTime)
  }

  lemma FreshOwnersStay(
    tokens: TokenTable, tokens': TokenTable, rows: AccountTable, rows': AccountTable, id: string,
    latest: map<string, int>, chain: OnChain, delay: int, now: int)
    requires RefreshedIn(tokens, tokens', rows, rows', id, latest, chain, delay, now) && OwnersStayFresh(tokens[id], id, latest, chain, delay, now)
    ensures tokens'[id] == tokens[id] && SameRows(rows, rows', id)
  {
  }

  lemma StaleOwnersAreRenewed(
    tokens: TokenTable, tokens': TokenTable, rows: AccountTable, rows': AccountTable, id: string,
    latest: map<string, int>, chain: OnChain, delay: int, now: int)
    requires RefreshedIn(tokens, tokens', rows, rows', id, latest, chain, delay, now) && OwnersAreStale(tokens[id], id, latest, chain, delay, now)
    ensures OwnersRenewed(tokens[id], tokens'[id], rows', id, chain, now)
  {
  }

  /** One turn of the loop. */
  method RefreshNextOwnership(
    store: MongodbIndexerStore, ghost tokens: TokenTable, ghost rows: AccountTable, ghost done: seq<string>, id: string, token: Token,
    latest: map<string, int>, chains: map<string, OnChain>, delay: int, now: int)
    requires id in tokens && id !in done && token == tokens[id] && id in chains
    requires AllRefreshed(tokens, store.tokens, rows, store.accountTokens, done, latest, chains, delay, now)
    modifies store`tokens, store`accountTokens
    ensures AllRefreshed(tokens, store.tokens, rows, store.accountTokens, done + [id], latest, chains, delay, now)
  {
    ghost var t1, r1 := store.tokens, store.accountTokens;
    RefreshOneTokenOwnership(store, id, token, latest, chains[id], delay, now);
    OneMoreRefreshed(tokens, t1, store.tokens, rows, r1, store.accountTokens, done, id, latest, chains, delay, now);
  }

  /** Every listed token ends as Refreshed says, and everything else is as before. */
  ghost predicate AllRefreshed(
    tokens: TokenTable, tokens': TokenTable, rows: AccountTable, rows': AccountTable, ids: seq<string>,
    latest: map<string, int>, chains: map<string, OnChain>, delay: int, now: int)
  {
    && OnlyTheseDiffer(tokens, tokens', rows, rows', ids)
    && forall i :: 0 <= i < |ids| ==> ids[i] in chains && RefreshedIn(tokens, tokens', rows, rows', ids[i], latest, chains[ids[i]], delay, now)
  }

  lemma OneMoreRefreshed(
    tokens: TokenTable, t1: TokenTable, t2: TokenTable, rows: AccountTable, r1: AccountTable, r2: AccountTable, ids: seq<string>, id: string,
    latest: map<string, int>, chains: map<string, OnChain>, delay: int, now: int)
    requires AllRefreshed(tokens, t1, rows, r1, ids, latest, chains, delay, now)
    requires id in tokens && id !in ids && id in chains && OnlyTheseDiffer(t1, t2, r1, r2, [id])
    requires RefreshedIn(t1, t2, r1, r2, id, latest, chains[id], delay, now)
    ensures AllRefreshed(tokens, t2, rows, r2, ids + [id], latest, chains, delay, now)
  {
    OneMoreDiffers(tokens, t1, t2, rows, r1, r2, ids, id);
    forall i | 0 <= i < |ids| ensures RefreshedIn(tokens, t2, rows, r2, ids[i], latest, chains[ids[i]], delay, now) {
      assert ids[i] != id;
      RefreshedFrames(tokens, t1, t2, rows, rows, r1, r2, ids[i], latest, chains[ids[i]], delay, now);
    }
    RefreshedFrames(t1, t2, t2, r1, rows, r2, r2, id, latest, chains[id], delay, now);
  }

  method RefreshOneTokenOwnership(
    store: MongodbIndexerStore, indexID: string, token: Token, latest: map<string, int>, chain: OnChain, delay: int, now: int)
    requires indexID in store.tokens && store.tokens[indexID] == token
    modifies store`tokens, store`accountTokens
    ensures OnlyTheseDiffer(old(store.tokens), store.tokens, old(store.accountTokens), store.accountTokens, [indexID])
    ensures RefreshedIn(old(store.tokens), store.tokens, old(store.accountTokens), store.accountTokens, indexID, latest, chain, delay, now)
  {
    var tokenLastActivityTime := token.lastActivityTime;
    if indexID in latest { tokenLastActivityTime := latest[indexID]; }
    if FreshAlready(token, delay, now) { return; }
    if !token.base.fungible { return; }
    var ownerBalances: seq<OwnerBalance> := [];
    var onChainLastActivityTime := 0;
    if token.base.blockchain == "ethereum" {
      if now - token.lastActivityTime <= DAY && |token.ownersArray| != 0 { return; }
      ownerBalances := chain.owners;
    } else if token.base.blockchain == "tezos" {
      onChainLastActivityTime := chain.lastActivityTime;
      if onChainLastActivityTime - tokenLastActivityTime <= 0 { return; }
      ownerBalances := chain.owners;
    }
    RewriteOwners(store, indexID, onChainLastActivityTime, ownerBalances, chain.fails, now);
  }

  /** The two writes of an ownership refresh, document first. */
  method RewriteOwners(store: MongodbIndexerStore, indexID: string, activity: int, owners: seq<OwnerBalance>, fails: set<nat>, now: int)
    requires indexID in store.tokens
    modifies store`tokens, store`accountTokens
    ensures store.tokens == Update(old(store.tokens), indexID, Op(UpdateTokenOwners(activity, owners), now))
    ensures forall k: AccountKey :: k.indexID != indexID ==> Lookup(store.accountTokens, k) == Lookup(old(store.accountTokens), k)
    ensures Refreshed(old(store.tokens)[indexID], store.tokens[indexID], old(store.accountTokens), store.accountTokens,
                      indexID, false, activity, owners, fails, now)
  {
    OwnersAreRewritten(store.tokens[indexID], store.accountTokens, indexID, activity, owners, fails, now);
    store.UpdateTokenOwners(indexID, activity, owners, now);
    var found := store.UpdateAccountTokenOwners(indexID, owners, fails, now);
  }

  lemma OwnersAreRewritten(t: Token, rows: AccountTable, id: string, activity: int, owners: seq<OwnerBalance>, fails: set<nat>, now: int)
    ensures var t', rows' := Apply(t, Op(UpdateTokenOwners(activity, owners), now)), SetOwners(rows, id, t.base, Succeeded(owners, fails), now);
            && Refreshed(t, t', rows, rows', id, false, activity, owners, fails, now)
            && forall k: AccountKey :: k.indexID != id ==> Lookup(rows', k) == Lookup(rows, k)
  {
    BalancesFollowTheList(rows, id, t.base, Succeeded(owners, fails), now);
    OwnersAreWritten(rows, id, t.base, Succeeded(owners, fails), now);
    if owners == [] {
      RefreshAgreesIff(t, rows, id, activity, owners, now, now);
    } else {
      FailingUpsertsAgreeIff(t, rows, id, activity, owners, fails, now, now);
    }
  }

  // ---- the event processor's first stage ----

  /**
    updateLatestOwner, which handles transfers only, with the token as some earlier read returned it:
    push the record under the lock of that read, fall back to the guarded owner update, and index the new
    owner's row. The former owner's row is not touched: document and index agree afterwards only if nobody
    else held anything and the new owner's row has one unit.
   */
  method UpdateLatestOwner(
    store: MongodbIndexerStore, eventType: string, indexID: string, read: Option<Token>, from: string, to: string, txTime: int, txID: string,
    createdAt: int, now1: int, now2: int, now3: int)
    modifies store`tokens, store`accountTokens
    ensures eventType != "transfer" || read.None? || read.value.base.fungible ==>
              store.tokens == old(store.tokens) && store.accountTokens == old(store.accountTokens)
    ensures eventType == "transfer" && read.Some? && !read.value.base.fungible && indexID in old(store.tokens) && !old(store.tokens)[indexID].base.fungible && to != "" ==>
              && indexID in store.tokens
              && (store.tokens[indexID].owner == to || store.tokens[indexID].lastActivityTime >= createdAt)
              && (old(store.tokens)[indexID].lastActivityTime < createdAt ==> store.tokens[indexID].owner == to)
              && (old(store.tokens)[indexID] == read.value && old(store.tokens)[indexID].lastActivityTime < txTime && read.value.provenance.Some? ==>
                   && store.tokens[indexID].provenance.Some? && |store.tokens[indexID].provenance.value| > 0
                   && store.tokens[indexID].provenance.value[1..] == read.value.provenance.value
                   && store.tokens[indexID].provenance.value[0] == Provenance(None, "transfer", to, read.value.base.blockchain, txTime, txID)
                   && store.tokens[indexID].lastActivityTime == txTime)
    ensures eventType == "transfer" && read.Some? && !read.value.base.fungible ==>
              var k := AccountKey(indexID, to);
              && k in store.accountTokens
              && store.accountTokens[k].lastActivityTime >= createdAt - MARGIN
              && (forall other :: other != k ==> Lookup(store.accountTokens, other) == Lookup(old(store.accountTokens), other))
    ensures store.tokens - {indexID} == old(store.tokens) - {indexID}
    ensures eventType == "transfer" && read.Some? && !read.value.base.fungible ==>
              Lookup(store.accountTokens, AccountKey(indexID, to)) ==
              Submit(Lookup(old(store.accountTokens), AccountKey(indexID, to)), AccountToken(read.value.base, 1, createdAt, now3, [], []))
    ensures eventType == "transfer" && read.Some? && !read.value.base.fungible && indexID in old(store.tokens) && !old(store.tokens)[indexID].base.fungible && to != ""
            && old(store.tokens)[indexID].lastActivityTime < createdAt ==>
              indexID in store.tokens && (Agrees(store.tokens[indexID], store.accountTokens, indexID) <==>
                OnlyHolder(old(store.accountTokens), indexID, to, NewOwnerRow(read.value, createdAt, now3)))
  {
    if eventType != "transfer" { return; }
    if read.None? { return; }
    var token := read.value;
    if token.base.fungible { return; }
    PushOrUpdateOwner(store, indexID, token, from, to, txTime, txID, createdAt, now1, now2);
    ghost var rows := store.accountTokens;
    IndexNewOwner(store, indexID, token, to, createdAt, now3);
    if indexID in store.tokens && store.tokens[indexID].owners == map[to := 1] {
      NewOwnerAgreesIff(store.tokens[indexID], rows, store.accountTokens, indexID, to, NewOwnerRow(token, createdAt, now3));
    }
  }

  /** The document: push the record under the lock of the read, or else update the owner if the event is newer. */
  method PushOrUpdateOwner(
    store: MongodbIndexerStore, indexID: string, read: Token, from: string, to: string, txTime: int, txID: string, createdAt: int, now1: int, now2: int)
    modifies store`tokens
    ensures store.tokens - {indexID} == old(store.tokens) - {indexID}
    ensures indexID in old(store.tokens) && !old(store.tokens)[indexID].base.fungible && to != "" ==>
              && indexID in store.tokens
              && (store.tokens[indexID].owner == to || store.tokens[indexID].lastActivityTime >= createdAt)
              && (old(store.tokens)[indexID].lastActivityTime < createdAt ==> store.tokens[indexID].owner == to && store.tokens[indexID].owners == map[to := 1])
              && (old(store.tokens)[indexID] == read && read.lastActivityTime < txTime && read.provenance.Some? ==>
                   && store.tokens[indexID].provenance.Some? && |store.tokens[indexID].provenance.value| > 0
                   && store.tokens[indexID].provenance.value[1..] == read.provenance.value
                   && store.tokens[indexID].provenance.value[0] == Provenance(None, "transfer", to, read.base.blockchain, txTime, txID)
                   && store.tokens[indexID].lastActivityTime == txTime)
  {
    var record := Provenance(Some(from), "transfer", to, read.base.blockchain, txTime, txID);
    var r := store.PushProvenance(indexID, read.lastRefreshedTime, record, now1);
    if r != Pushed {
      store.UpdateOwner(indexID, to, createdAt, now2);
    }
  }

  /** The index: submit the new owner's row of one unit. */
  method IndexNewOwner(store: MongodbIndexerStore, indexID: string, read: Token, to: string, createdAt: int, now: int)
    modifies store`accountTokens
    ensures var k := AccountKey(indexID, to);
            && Lookup(store.accountTokens, k) == Submit(Lookup(old(store.accountTokens), k), AccountToken(read.base, 1, createdAt, now, [], []))
            && forall other :: other != k ==> Lookup(store.accountTokens, other) == Lookup(old(store.accountTokens), other)
  {
    var subs := [Submission(indexID, NewOwnerRow(read, createdAt, now))];
    ghost var rows := store.accountTokens;
    store.IndexAccountTokens(to, subs);
    assert subs[..0] == [];
    assert store.accountTokens == IndexOne(rows, to, subs[0]);
  }

  /** The row of one unit that the first stage submits for the new owner. */
  function NewOwnerRow(t: Token, createdAt: int, now: int): AccountToken {
    AccountToken(t.base, 1, createdAt, now, [], [])
  }

  /** Whether nobody but the new owner holds anything, and the new owner's row takes the unit or has it already. */
  ghost predicate OnlyHolder(rows: AccountTable, id: string, to: string, row: AccountToken) {
    && (forall a :: a != to ==> Balance(rows, id, a) == 0)
    && (Accepts(Lookup(rows, AccountKey(id, to)), row) || Balance(rows, id, to) == 1)
  }

  lemma NewOwnerAgreesIff(t: Token, rows: AccountTable, rows': AccountTable, id: string, to: string, row: AccountToken)
    requires t.owners == map[to := 1] && row.balance == 1
    requires Lookup(rows', AccountKey(id, to)) == Submit(Lookup(rows, AccountKey(id, to)), row)
    requires forall k :: k != AccountKey(id, to) ==> Lookup(rows', k) == Lookup(rows, k)
    ensures Agrees(t, rows', id) <==> OnlyHolder(rows, id, to, row)
  {
    forall a ensures a != to ==> Balance(rows', id, a) == Balance(rows, id, a) {
      assert a != to ==> Lookup(rows', AccountKey(id, a)) == Lookup(rows, AccountKey(id, a));
    }
    assert Balance(rows', id, to) == 1 <==> Accepts(Lookup(rows, AccountKey(id, to)), row) || Balance(rows, id, to) == 1;
    if Agrees(t, rows', id) {
      forall a | a != to ensures Balance(rows, id, a) == 0 { assert Balance(rows', id, a) == Share(t.owners, a); }
      assert Balance(rows', id, to) == Share(t.owners, to);
    }
  }
}
