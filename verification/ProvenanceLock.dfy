/**
  The guarded writes of one token document: the optimistic lock on lastRefreshedTime, the
  last-writer guards on lastActivityTime, and what every interleaving of them keeps.
 */
module ProvenanceLock {
  import opened Options
  import opened Tokens

  datatype Write =
    | PushProvenance(lockedTime: int, record: Provenance)
    | UpdateOwner(owner: string, updatedAt: int, toBurnAddress: bool)
    | UpdateTokenProvenance(records: seq<Provenance>)
    | UpdateTokenOwners(activityTime: int, balances: seq<OwnerBalance>)

  /** A write together with the clock reading it stores. */
  datatype Op = Op(write: Write, now: int)

  /** formerOwner is used for checks only and is not stored. */
  function Stored(p: Provenance): Provenance {
    p.(formerOwner := None)
  }

  function StoredAll(ps: seq<Provenance>): (r: seq<Provenance>)
    ensures |r| == |ps| && forall i :: 0 <= i < |ps| ==> r[i] == Stored(ps[i])
  {
    seq(|ps|, i requires 0 <= i < |ps| => Stored(ps[i]))
  }

  /** The owners map of UpdateTokenOwners: the last balance given for an address. */
  function OwnersOf(balances: seq<OwnerBalance>): map<string, int> {
    if balances == [] then map[]
    else OwnersOf(balances[..|balances| - 1])[balances[|balances| - 1].address := balances[|balances| - 1].balance]
  }

  function Addresses(balances: seq<OwnerBalance>): (r: seq<string>)
    ensures |r| == |balances| && forall i :: 0 <= i < |r| ==> r[i] == balances[i].address
  {
    seq(|balances|, i requires 0 <= i < |balances| => balances[i].address)
  }

  /** Whether the write's filter matches and its update succeeds; pushing onto a null field fails. */
  predicate Takes(t: Token, w: Write) {
    match w
    case PushProvenance(lockedTime, p) =>
      p.formerOwner.Some? && t.lastRefreshedTime == lockedTime && t.lastActivityTime < p.timestamp && t.provenance.Some?
    case UpdateOwner(owner, updatedAt, _) => owner != "" && !t.base.fungible && t.lastActivityTime < updatedAt
    case UpdateTokenProvenance(records) => records != []
    case UpdateTokenOwners(_, balances) => balances != []
  }

  function Solely(t: Token, owner: string): Token {
    t.(owner := owner, owners := map[owner := 1], ownersArray := [owner])
  }

  function Apply(t: Token, op: Op): Token {
    if !Takes(t, op.write) then t else
    match op.write
    case PushProvenance(_, p) =>
      Solely(t, p.owner).(
        lastActivityTime := p.timestamp, lastRefreshedTime := op.now, provenance := Some([Stored(p)] + t.provenance.value))
    case UpdateOwner(owner, updatedAt, burned) =>
      Solely(t, owner).(lastActivityTime := updatedAt, lastRefreshedTime := op.now, burned := burned)
    case UpdateTokenProvenance(ps) =>
      var last := ps[|ps| - 1];
      Solely(t, ps[0].owner).(
        lastActivityTime := ps[0].timestamp, lastRefreshedTime := op.now, provenance := Some(StoredAll(ps)),
        mintedAt := if last.kind == "mint" || last.kind == "issue" then last.timestamp else t.mintedAt)
    case UpdateTokenOwners(activityTime, balances) =>
      t.(owners := OwnersOf(balances), ownersArray := Addresses(balances), provenance := None, lastRefreshedTime := op.now,
         lastActivityTime := if activityTime != 0 then activityTime else t.lastActivityTime)
  }

  /** The token after the first k writes of an interleaving. */
  function After(t: Token, ops: seq<Op>, k: nat): Token
    requires k <= |ops|
  {
    if k == 0 then t else Apply(After(t, ops, k - 1), ops[k - 1])
  }

  ghost predicate NeverRepeats(t: Token, ops: seq<Op>) {
    && (forall i :: 0 <= i < |ops| ==> ops[i].now != t.lastRefreshedTime)
    && (forall i, j :: 0 <= i < j < |ops| ==> ops[i].now != ops[j].now)
  }

  lemma {:induction false} StampIsFromThePast(t: Token, ops: seq<Op>, k: nat)
    requires k <= |ops|
    ensures After(t, ops, k).lastRefreshedTime == t.lastRefreshedTime
            || exists i :: 0 <= i < k && After(t, ops, k).lastRefreshedTime == ops[i].now
  {
    if k > 0 {
      StampIsFromThePast(t, ops, k - 1);
      if Takes(After(t, ops, k - 1), ops[k - 1].write) {
        assert After(t, ops, k).lastRefreshedTime == ops[k - 1].now;
      }
    }
  }

  lemma {:induction false} StampAfterAWrite(t: Token, ops: seq<Op>, m: nat, k: nat)
    requires m < k <= |ops| && Takes(After(t, ops, m), ops[m].write)
    ensures exists i :: m <= i < k && After(t, ops, k).lastRefreshedTime == ops[i].now
  {
    if Takes(After(t, ops, k - 1), ops[k - 1].write) {
      assert After(t, ops, k).lastRefreshedTime == ops[k - 1].now;
    } else {
      StampAfterAWrite(t, ops, m, k - 1);
    }
  }

  lemma {:induction false} UnchangedWithoutWrites(t: Token, ops: seq<Op>, k: nat, i: nat)
    requires k <= i <= |ops| && forall m :: k <= m < i ==> !Takes(After(t, ops, m), ops[m].write)
    ensures After(t, ops, i) == After(t, ops, k)
  {
    if k < i {
      UnchangedWithoutWrites(t, ops, k, i - 1);
    }
  }

  /** Equal stamps at two moments mean that nothing was written between them. */
  lemma SameStampSameToken(t: Token, ops: seq<Op>, k: nat, i: nat)
    requires NeverRepeats(t, ops) && k <= i <= |ops|
    requires After(t, ops, k).lastRefreshedTime == After(t, ops, i).lastRefreshedTime
    ensures After(t, ops, k) == After(t, ops, i)
    ensures forall m :: k <= m < i ==> !Takes(After(t, ops, m), ops[m].write)
  {
    forall m | k <= m < i ensures !Takes(After(t, ops, m), ops[m].write) {
      StampIsFromThePast(t, ops, k);
      if Takes(After(t, ops, m), ops[m].write) {
        StampAfterAWrite(t, ops, m, i);
        assert false;
      }
    }
    UnchangedWithoutWrites(t, ops, k, i);
  }

  /**
    A push that succeeds at step i with the stamp its reader saw at step k finds the whole token as the
    reader saw it, and prepends its record to exactly the list the reader saw.
   */
  lemma PushExtendsWhatItsReaderSaw(t: Token, ops: seq<Op>, k: nat, i: nat)
    requires NeverRepeats(t, ops) && k <= i < |ops|
    requires ops[i].write.PushProvenance? && ops[i].write.lockedTime == After(t, ops, k).lastRefreshedTime
    requires Takes(After(t, ops, i), ops[i].write)
    ensures After(t, ops, i) == After(t, ops, k) && After(t, ops, k).provenance.Some?
    ensures After(t, ops, i + 1).provenance == Some([Stored(ops[i].write.record)] + After(t, ops, k).provenance.value)
  {
    SameStampSameToken(t, ops, k, i);
  }

  /** At most one push per lock value succeeds. */
  lemma OnePushPerLock(t: Token, ops: seq<Op>, i: nat, j: nat)
    requires NeverRepeats(t, ops) && i < j < |ops|
    requires ops[i].write.PushProvenance? && ops[j].write.PushProvenance?
    requires ops[i].write.lockedTime == ops[j].write.lockedTime
    ensures !(Takes(After(t, ops, i), ops[i].write) && Takes(After(t, ops, j), ops[j].write))
  {
    if Takes(After(t, ops, i), ops[i].write) && Takes(After(t, ops, j), ops[j].write) {
      SameStampSameToken(t, ops, i, j);
    }
  }

  predicate NewestFirst(ps: seq<Provenance>) {
    forall i, j :: 0 <= i < j < |ps| ==> ps[i].timestamp >= ps[j].timestamp
  }

  /** The list is newest first, and its head is no later than the last activity. */
  predicate InOrder(t: Token) {
    t.provenance.Some? ==>
      NewestFirst(t.provenance.value) &&
      (t.provenance.value != [] ==> t.provenance.value[0].timestamp <= t.lastActivityTime)
  }

  /** A refresh leaves the list in order exactly when it was given a newest-first list. */
  lemma RefreshIsInOrderIff(t: Token, ps: seq<Provenance>, now: int)
    requires ps != []
    ensures InOrder(Apply(t, Op(UpdateTokenProvenance(ps), now))) <==> NewestFirst(ps)
  {
    var t' := Apply(t, Op(UpdateTokenProvenance(ps), now));
    forall i, j | 0 <= i < j < |ps| ensures t'.provenance.value[i].timestamp == ps[i].timestamp && t'.provenance.value[j].timestamp == ps[j].timestamp {
    }
    if InOrder(t') {
      forall i, j | 0 <= i < j < |ps| ensures ps[i].timestamp >= ps[j].timestamp {
        assert t'.provenance.value[i].timestamp >= t'.provenance.value[j].timestamp;
      }
    }
  }

  lemma WriteKeepsOrder(t: Token, op: Op)
    requires InOrder(t) && (op.write.UpdateTokenProvenance? ==> NewestFirst(op.write.records))
    ensures InOrder(Apply(t, op))
  {
    if op.write.UpdateTokenProvenance? && op.write.records != [] {
      RefreshIsInOrderIff(t, op.write.records, op.now);
    }
  }

  /** Every interleaving keeps the list in order, as long as refreshes bring newest-first lists. */
  lemma {:induction false} InterleavingsKeepOrder(t: Token, ops: seq<Op>, k: nat)
    requires InOrder(t) && k <= |ops|
    requires forall i :: 0 <= i < |ops| && ops[i].write.UpdateTokenProvenance? ==> NewestFirst(ops[i].write.records)
    ensures InOrder(After(t, ops, k))
  {
    if k > 0 {
      InterleavingsKeepOrder(t, ops, k - 1);
      WriteKeepsOrder(After(t, ops, k - 1), ops[k - 1]);
    }
  }

  lemma {:induction false} OwnersOfKeys(balances: seq<OwnerBalance>)
    ensures OwnersOf(balances).Keys == set a | a in Addresses(balances)
  {
    if balances != [] {
      var n := |balances| - 1;
      OwnersOfKeys(balances[..n]);
      assert Addresses(balances) == Addresses(balances[..n]) + [balances[n].address];
    }
  }

  predicate OwnersListed(t: Token) {
    t.owners.Keys == set a | a in t.ownersArray
  }

  /** The owners map and the owners array name the same addresses after every interleaving. */
  lemma {:induction false} InterleavingsKeepOwnersListed(t: Token, ops: seq<Op>, k: nat)
    requires OwnersListed(t) && k <= |ops|
    ensures OwnersListed(After(t, ops, k))
  {
    if k > 0 {
      InterleavingsKeepOwnersListed(t, ops, k - 1);
      if ops[k - 1].write.UpdateTokenOwners? {
        OwnersOfKeys(ops[k - 1].write.balances);
      }
    }
  }

  // ---- what an interleaving leaves ----

  predicate Wrote(t: Token, ops: seq<Op>, i: nat)
    requires i < |ops|
  {
    Takes(After(t, ops, i), ops[i].write)
  }

  predicate SoleOwner(t: Token, owner: string) {
    t.owner == owner && t.owners == map[owner := 1] && t.ownersArray == [owner]
  }

  /** A stored record is the one submitted, without the former owner. */
  predicate IsStored(stored: Provenance, p: Provenance) {
    && stored.formerOwner.None? && stored.kind == p.kind && stored.owner == p.owner
    && stored.blockchain == p.blockchain && stored.timestamp == p.timestamp && stored.txID == p.txID
  }

  /** How a write shows in a token, given the token it was made on. */
  predicate Shows(before: Token, w: Write, t: Token) {
    match w
    case PushProvenance(_, p) =>
      && SoleOwner(t, p.owner) && t.lastActivityTime == p.timestamp
      && before.provenance.Some? && t.provenance.Some? && t.provenance.value != []
      && IsStored(t.provenance.value[0], p) && t.provenance.value[1..] == before.provenance.value
    case UpdateOwner(owner, updatedAt, burned) =>
      SoleOwner(t, owner) && t.lastActivityTime == updatedAt && t.provenance == before.provenance && t.burned == burned
    case UpdateTokenProvenance(ps) =>
      && ps != [] && SoleOwner(t, ps[0].owner) && t.lastActivityTime == ps[0].timestamp
      && t.provenance.Some? && |t.provenance.value| == |ps|
      && (forall j :: 0 <= j < |ps| ==> IsStored(t.provenance.value[j], ps[j]))
    case UpdateTokenOwners(activityTime, balances) =>
      && t.provenance.None? && t.owner == before.owner
      && |t.ownersArray| == |balances| && (forall j :: 0 <= j < |balances| ==> t.ownersArray[j] == balances[j].address)
      && t.lastActivityTime == if activityTime != 0 then activityTime else before.lastActivityTime
  }

  /** The last write of an interleaving decides owner, owners, times and list; what it does not name is as the writes before it left it. */
  lemma LastWriteDecides(t: Token, ops: seq<Op>, i: nat, k: nat)
    requires i < k <= |ops| && Wrote(t, ops, i) && forall j :: i < j < k ==> !Wrote(t, ops, j)
    ensures After(t, ops, k).lastRefreshedTime == ops[i].now
    ensures Shows(After(t, ops, i), ops[i].write, After(t, ops, k))
  {
    NothingAfter(t, ops, i, k);
    WriteShows(After(t, ops, i), ops[i]);
  }

  lemma {:induction false} NothingAfter(t: Token, ops: seq<Op>, i: nat, k: nat)
    requires i < k <= |ops| && forall j :: i < j < k ==> !Wrote(t, ops, j)
    ensures After(t, ops, k) == Apply(After(t, ops, i), ops[i])
  {
    if i < k - 1 {
      NothingAfter(t, ops, i, k - 1);
      assert !Wrote(t, ops, k - 1);
    }
  }

  lemma WriteShows(t: Token, op: Op)
    requires Takes(t, op.write)
    ensures Apply(t, op).lastRefreshedTime == op.now && Shows(t, op.write, Apply(t, op))
  {
  }

  /** No interleaving touches what a token is: its base info, asset, edition, origins and swap links. */
  lemma {:induction false} InterleavingsKeepIdentity(t: Token, ops: seq<Op>, k: nat)
    requires k <= |ops|
    ensures var t' := After(t, ops, k);
            && t'.base == t.base && t'.assetID == t.assetID && t'.edition == t.edition && t'.originTokenInfo == t.originTokenInfo
            && t'.swapped == t.swapped && t'.swappedFrom == t.swappedFrom && t'.swappedTo == t.swappedTo
  {
    if k > 0 { InterleavingsKeepIdentity(t, ops, k - 1); }
  }

  /** Whether a token is burned is decided by its last owner update alone, and by nothing when there was none. */
  lemma {:induction false} LastOwnerUpdateBurns(t: Token, ops: seq<Op>, i: nat, k: nat)
    requires i < k <= |ops| && forall j :: i < j < k ==> !(Wrote(t, ops, j) && ops[j].write.UpdateOwner?)
    ensures After(t, ops, k).burned ==
            if Wrote(t, ops, i) && ops[i].write.UpdateOwner? then ops[i].write.toBurnAddress else After(t, ops, i).burned
  {
    if i < k - 1 { LastOwnerUpdateBurns(t, ops, i, k - 1); }
  }

  /** Whether the oldest of some records, the last one, is a mint or an issue. */
  predicate MintOrIssue(ps: seq<Provenance>) {
    ps != [] && (ps[|ps| - 1].kind == "mint" || ps[|ps| - 1].kind == "issue")
  }

  /** Whether a write sets the mint time: a refresh whose oldest record is a mint or an issue. */
  predicate Mints(t: Token, ops: seq<Op>, j: nat)
    requires j < |ops|
  {
    Wrote(t, ops, j) && ops[j].write.UpdateTokenProvenance? && MintOrIssue(ops[j].write.records)
  }

  /** The mint time is that of the oldest record of the last such refresh, and as before when there was none. */
  lemma {:induction false} LastMintDecides(t: Token, ops: seq<Op>, i: nat, k: nat)
    requires i < k <= |ops| && forall j :: i < j < k ==> !Mints(t, ops, j)
    ensures After(t, ops, k).mintedAt ==
            if Mints(t, ops, i) then ops[i].write.records[|ops[i].write.records| - 1].timestamp else After(t, ops, i).mintedAt
  {
    if i < k - 1 {
      LastMintDecides(t, ops, i, k - 1);
      assert !Mints(t, ops, k - 1);
    }
    var before, w := After(t, ops, k - 1), ops[k - 1].write;
    assert Mints(t, ops, k - 1) == (Takes(before, w) && w.UpdateTokenProvenance? && MintOrIssue(w.records));
  }

  /** Pushes and owner updates never lower the activity time, and each that is taken raises it. */
  lemma WritesRaiseTheActivityTime(t: Token, ops: seq<Op>, i: nat)
    requires i < |ops| && (ops[i].write.PushProvenance? || ops[i].write.UpdateOwner?)
    ensures After(t, ops, i + 1).lastActivityTime >= After(t, ops, i).lastActivityTime
    ensures Wrote(t, ops, i) <==> After(t, ops, i + 1).lastActivityTime > After(t, ops, i).lastActivityTime
  {
  }
}
