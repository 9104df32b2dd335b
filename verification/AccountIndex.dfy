/**
  The account_tokens index: the guarded upserts of IndexAccountTokens with their 15 s margin, and the
  rewrite of one token's balances by UpdateAccountTokenOwners. The key (indexID, ownerAccount) is unique.
 */
module AccountIndex {
  import opened Options
  import opened Tokens
  import opened ProvenanceLock

  const MARGIN := 15000

  /** `$set` of an account token: empty pending fields are omitted, so the stored ones survive. */
  function SetRow(row: Option<AccountToken>, a: AccountToken): AccountToken {
    if row.None? then a else
    a.(lastPendingTime := if a.lastPendingTime == [] then row.value.lastPendingTime else a.lastPendingTime,
       pendingTxs := if a.pendingTxs == [] then row.value.pendingTxs else a.pendingTxs)
  }

  /** An existing row is matched only by a submission more than the margin newer; otherwise the upsert hits the unique key. */
  predicate Accepts(row: Option<AccountToken>, a: AccountToken) {
    row.Some? ==> row.value.lastActivityTime < a.lastActivityTime - MARGIN
  }

  function Submit(row: Option<AccountToken>, a: AccountToken): Option<AccountToken> {
    if Accepts(row, a) then Some(SetRow(row, a)) else row
  }

  function SubmitAll(row: Option<AccountToken>, subs: seq<AccountToken>): Option<AccountToken> {
    if subs == [] then row else Submit(SubmitAll(row, subs[..|subs| - 1]), subs[|subs| - 1])
  }

  lemma {:induction false} SubmitAllConcat(row: Option<AccountToken>, a: seq<AccountToken>, b: seq<AccountToken>)
    ensures SubmitAll(row, a + b) == SubmitAll(SubmitAll(row, a), b)
  {
    if b == [] {
      assert a + b == a;
    } else {
      assert (a + b)[..|a + b| - 1] == a + b[..|b| - 1];
      SubmitAllConcat(row, a, b[..|b| - 1]);
    }
  }

  /** The stored time trails no submission by more than the margin, and every accepted write raises it by more than the margin. */
  lemma {:induction false} StoredTimeKeepsUp(row: Option<AccountToken>, subs: seq<AccountToken>, i: nat)
    requires i < |subs|
    ensures var before, after, end := SubmitAll(row, subs[..i]), SubmitAll(row, subs[..i + 1]), SubmitAll(row, subs);
            && end.Some? && end.value.lastActivityTime >= subs[i].lastActivityTime - 15000
            && (before.Some? ==> end.value.lastActivityTime >= before.value.lastActivityTime)
            && (before.Some? && after != before ==> after.value.lastActivityTime > before.value.lastActivityTime + 15000)
  {
    var n := |subs| - 1;
    if i < n {
      StoredTimeKeepsUp(row, subs[..n], i);
      assert subs[..n][..i] == subs[..i] && subs[..n][..i + 1] == subs[..i + 1];
    } else {
      assert subs[..i + 1] == subs && subs[..i + 1][..i] == subs[..i];
    }
  }

  predicate Apart(a: AccountToken, b: AccountToken) {
    a.lastActivityTime > b.lastActivityTime + 15000 || b.lastActivityTime > a.lastActivityTime + 15000
  }

  predicate Spread(subs: seq<AccountToken>) {
    forall i, j :: 0 <= i < |subs| && 0 <= j < |subs| && i != j ==> Apart(subs[i], subs[j])
  }

  predicate IsNewest(subs: seq<AccountToken>, m: AccountToken) {
    m in subs && forall a :: a in subs ==> a.lastActivityTime <= m.lastActivityTime
  }

  predicate SameBalance(a: AccountToken, b: AccountToken) {
    a.base == b.base && a.balance == b.balance && a.lastActivityTime == b.lastActivityTime && a.lastRefreshedTime == b.lastRefreshedTime
  }

  function PendingTxs(row: Option<AccountToken>): seq<string> {
    if row.Some? then row.value.pendingTxs else []
  }

  function PendingTimes(row: Option<AccountToken>): seq<int> {
    if row.Some? then row.value.lastPendingTime else []
  }

  /**
    The newest submission carries a pending field, or no submission that the row would take brings
    another value into it: only then does the order not show in it.
   */
  predicate PendingSettled(row: Option<AccountToken>, subs: seq<AccountToken>, m: AccountToken) {
    && (m.pendingTxs != [] || forall a :: a in subs && Accepts(row, a) ==> a.pendingTxs == [] || a.pendingTxs == PendingTxs(row))
    && (m.lastPendingTime != [] || forall a :: a in subs && Accepts(row, a) ==> a.lastPendingTime == [] || a.lastPendingTime == PendingTimes(row))
  }

  /** The row a list of submissions leaves is the old one, or has the time of a member that the old one takes. */
  lemma {:induction false} TimeComesFromSubs(row: Option<AccountToken>, subs: seq<AccountToken>)
    ensures var r := SubmitAll(row, subs);
            r == row || (r.Some? && exists a :: a in subs && Accepts(row, a) && a.lastActivityTime == r.value.lastActivityTime)
    ensures row.Some? ==> SubmitAll(row, subs).Some? && SubmitAll(row, subs).value.lastActivityTime >= row.value.lastActivityTime
  {
    if subs != [] {
      var n := |subs| - 1;
      TimeComesFromSubs(row, subs[..n]);
      assert subs == subs[..n] + [subs[n]];
      assert subs[n] in subs && forall a :: a in subs[..n] ==> a in subs;
    }
  }

  lemma {:induction false} PendingComesFromSubs(row: Option<AccountToken>, subs: seq<AccountToken>, m: AccountToken)
    requires PendingSettled(row, subs, m)
    ensures m.pendingTxs == [] ==> PendingTxs(SubmitAll(row, subs)) == PendingTxs(row)
    ensures m.lastPendingTime == [] ==> PendingTimes(SubmitAll(row, subs)) == PendingTimes(row)
  {
    if subs != [] {
      var n := |subs| - 1;
      assert subs[n] in subs && forall a :: a in subs[..n] ==> a in subs;
      PendingComesFromSubs(row, subs[..n], m);
      TimeComesFromSubs(row, subs[..n]);
      assert Accepts(SubmitAll(row, subs[..n]), subs[n]) ==> Accepts(row, subs[n]);
    }
  }

  lemma NewestIsAccepted(row: Option<AccountToken>, before: seq<AccountToken>, m: AccountToken)
    requires Spread(before + [m]) && IsNewest(before + [m], m)
    ensures Accepts(SubmitAll(row, before), m) <==> Accepts(row, m)
    ensures !Accepts(row, m) ==> SubmitAll(row, before) == row
  {
    TimeComesFromSubs(row, before);
    if SubmitAll(row, before) != row {
      var a :| a in before && Accepts(row, a) && a.lastActivityTime == SubmitAll(row, before).value.lastActivityTime;
      var i :| 0 <= i < |before| && before[i] == a;
      assert (before + [m])[i] == a && (before + [m])[|before|] == m;
    }
  }

  lemma SpreadPrefix(before: seq<AccountToken>, last: AccountToken)
    requires Spread(before + [last])
    ensures Spread(before)
  {
    forall i, j | 0 <= i < |before| && 0 <= j < |before| && i != j
      ensures Apart(before[i], before[j])
    {
      assert (before + [last])[i] == before[i] && (before + [last])[j] == before[j];
    }
  }

  lemma SettledPrefix(row: Option<AccountToken>, before: seq<AccountToken>, last: AccountToken, m: AccountToken)
    ensures PendingSettled(row, before + [last], m) ==> PendingSettled(row, before, m)
    ensures IsNewest(before + [last], m) && m != last ==> IsNewest(before, m) && last.lastActivityTime <= m.lastActivityTime
  {
    forall a | a in before ensures a in before + [last] { }
    assert last in before + [last];
  }

  /**
    With submissions more than the margin apart, in whatever order they arrive, the newest one wins if
    the row takes it, and otherwise the row stays.
   */
  lemma {:induction false} NewestWins(row: Option<AccountToken>, subs: seq<AccountToken>, m: AccountToken)
    requires Spread(subs) && IsNewest(subs, m)
    ensures Accepts(row, m) ==> SubmitAll(row, subs).Some? && SameBalance(SubmitAll(row, subs).value, m)
    ensures !Accepts(row, m) ==> SubmitAll(row, subs) == row
    ensures PendingSettled(row, subs, m) ==> SubmitAll(row, subs) == Submit(row, m)
    decreases |subs|
  {
    var before, last := subs[..|subs| - 1], subs[|subs| - 1];
    assert subs == before + [last];
    SettledPrefix(row, before, last, m);
    if last == m {
      NewestIsAccepted(row, before, m);
      if PendingSettled(row, before, m) { PendingComesFromSubs(row, before, m); }
    } else {
      SpreadPrefix(before, last);
      NewestWins(row, before, m);
    }
  }

  lemma {:induction false} MultisetMembers<T>(a: seq<T>, b: seq<T>)
    requires multiset(a) == multiset(b)
    ensures forall x :: x in a <==> x in b
  {
    forall x ensures x in a <==> x in b {
      assert x in multiset(a) <==> x in multiset(b);
    }
  }

  lemma {:induction false} SpreadPermutes(a: seq<AccountToken>, b: seq<AccountToken>)
    requires Spread(a) && multiset(a) == multiset(b)
    ensures Spread(b)
  {
    forall i, j | 0 <= i < |b| && 0 <= j < |b| && i != j
      ensures Apart(b[i], b[j])
    {
      MultisetMembers(a, b);
      assert b[i] in b && b[j] in b;
      if b[i] == b[j] {
        TwicePresent(b, i, j);
        TwiceFound(a, b[i]);
      } else {
        var k :| 0 <= k < |a| && a[k] == b[i];
        var l :| 0 <= l < |a| && a[l] == b[j];
      }
    }
  }

  lemma TwicePresent<T>(s: seq<T>, i: nat, j: nat)
    requires i < |s| && j < |s| && i != j && s[i] == s[j]
    ensures multiset(s)[s[i]] >= 2
  {
    var lo, hi := if i < j then i else j, if i < j then j else i;
    assert s == s[..lo] + [s[lo]] + s[lo + 1..hi] + [s[hi]] + s[hi + 1..];
  }

  lemma TwiceFound<T>(s: seq<T>, x: T)
    requires multiset(s)[x] >= 2
    ensures exists i, j :: 0 <= i < j < |s| && s[i] == x && s[j] == x
  {
    assert x in multiset(s);
    var i :| 0 <= i < |s| && s[i] == x;
    assert s == s[..i] + [s[i]] + s[i + 1..];
    assert multiset(s) == multiset(s[..i] + s[i + 1..]) + multiset{x};
    assert x in multiset(s[..i] + s[i + 1..]);
    assert x in s[..i] + s[i + 1..];
    if x in s[..i] {
      var j :| 0 <= j < i && s[j] == x;
    } else {
      assert x in s[i + 1..];
      var j :| 0 <= j < |s[i + 1..]| && s[i + 1..][j] == x;
      assert s[i + 1 + j] == x;
    }
  }

  /** Whether a submission that the row takes brings a pending field the newest one does not carry. */
  predicate Shows(row: Option<AccountToken>, m: AccountToken, x: AccountToken) {
    && Accepts(row, x)
    && ((m.pendingTxs == [] && x.pendingTxs != [] && x.pendingTxs != PendingTxs(row))
        || (m.lastPendingTime == [] && x.lastPendingTime != [] && x.lastPendingTime != PendingTimes(row)))
  }

  /**
    Exactly when the order does not matter, from any row. The balance and the times always end the same;
    the whole row does if and only if the newest submission carries each pending field into which a
    submission that the row takes would bring another value.
   */
  lemma OrderDoesNotMatterIff(row: Option<AccountToken>, subs: seq<AccountToken>, m: AccountToken)
    requires Spread(subs) && IsNewest(subs, m)
    ensures forall perm :: multiset(perm) == multiset(subs) ==>
              if Accepts(row, m) then SubmitAll(row, perm).Some? && SameBalance(SubmitAll(row, perm).value, m) else SubmitAll(row, perm) == row
    ensures (forall perm :: multiset(perm) == multiset(subs) ==> SubmitAll(row, perm) == SubmitAll(row, subs)) <==> PendingSettled(row, subs, m)
  {
    forall perm | multiset(perm) == multiset(subs)
      ensures if Accepts(row, m) then SubmitAll(row, perm).Some? && SameBalance(SubmitAll(row, perm).value, m) else SubmitAll(row, perm) == row
      ensures PendingSettled(row, subs, m) ==> SubmitAll(row, perm) == SubmitAll(row, subs)
    {
      SpreadPermutes(subs, perm);
      MultisetMembers(subs, perm);
      NewestWins(row, perm, m);
      NewestWins(row, subs, m);
    }
    if !PendingSettled(row, subs, m) {
      var x :| x in subs && Shows(row, m, x);
      var p, q := OrderShows(row, subs, m, x);
    }
  }

  lemma TakeOut<T>(s: seq<T>, x: T) returns (rest: seq<T>)
    requires x in s
    ensures multiset(s) == multiset([x] + rest)
  {
    var i :| 0 <= i < |s| && s[i] == x;
    rest := s[..i] + s[i + 1..];
    assert s == s[..i] + [x] + s[i + 1..];
  }

  lemma InTheRest<T>(s: seq<T>, x: T, rest: seq<T>, y: T)
    requires multiset(s) == multiset([x] + rest) && y in s && y != x
    ensures y in rest
  {
    MultisetMembers(s, [x] + rest);
  }

  lemma TwoThenRejected(row: Option<AccountToken>, a: AccountToken, b: AccountToken, rest: seq<AccountToken>)
    requires Accepts(row, a)
    requires forall x :: x in rest ==> x.lastActivityTime <= Submit(Submit(row, a), b).value.lastActivityTime
    ensures SubmitAll(row, [a] + ([b] + rest)) == Submit(Submit(row, a), b)
  {
    assert [a] + ([b] + rest) == [a, b] + rest;
    assert SubmitAll(row, [a]) == Submit(row, a) by { assert [a][..0] == []; }
    assert SubmitAll(row, [a, b]) == Submit(Submit(row, a), b) by { assert [a, b][..1] == [a]; }
    SubmitAllConcat(row, [a, b], rest);
    RejectedAll(Submit(Submit(row, a), b), rest);
  }

  /** Brings two different members to the front. */
  lemma FrontTwo(subs: seq<AccountToken>, m: AccountToken, x: AccountToken) returns (rest: seq<AccountToken>)
    requires m in subs && x in subs && x != m
    ensures multiset([m] + ([x] + rest)) == multiset(subs) == multiset([x] + ([m] + rest))
  {
    var others := TakeOut(subs, m);
    InTheRest(subs, m, others, x);
    rest := TakeOut(others, x);
    assert multiset([m] + ([x] + rest)) == multiset([m]) + multiset([x] + rest) == multiset(subs);
    assert multiset([x] + ([m] + rest)) == multiset([x]) + multiset([m]) + multiset(rest);
  }

  lemma FrontIsApart(subs: seq<AccountToken>, m: AccountToken, x: AccountToken, rest: seq<AccountToken>)
    requires Spread(subs) && IsNewest(subs, m) && multiset([m] + ([x] + rest)) == multiset(subs)
    ensures m.lastActivityTime > x.lastActivityTime + MARGIN
    ensures forall a :: a in rest ==> a.lastActivityTime <= m.lastActivityTime
  {
    var p := [m] + ([x] + rest);
    SpreadPermutes(subs, p);
    MultisetMembers(subs, p);
    assert p[0] == m && p[1] == x && Apart(p[0], p[1]);
    forall a | a in rest ensures a in p { }
  }

  /** Two orders of the same submissions that end in different rows. */
  lemma OrderShows(row: Option<AccountToken>, subs: seq<AccountToken>, m: AccountToken, x: AccountToken) returns (p: seq<AccountToken>, q: seq<AccountToken>)
    requires Spread(subs) && IsNewest(subs, m) && x in subs && Shows(row, m, x)
    ensures multiset(p) == multiset(subs) == multiset(q)
    ensures SubmitAll(row, p) != SubmitAll(row, q)
  {
    var rest := FrontTwo(subs, m, x);
    p, q := [m] + ([x] + rest), [x] + ([m] + rest);
    FrontIsApart(subs, m, x, rest);
    assert Accepts(row, m);
    assert Submit(Submit(row, m), x) == Submit(row, m);
    TwoThenRejected(row, m, x, rest);
    TwoThenRejected(row, x, m, rest);
  }

  lemma {:induction false} RejectedAll(row: Option<AccountToken>, subs: seq<AccountToken>)
    requires row.Some? && forall a :: a in subs ==> a.lastActivityTime <= row.value.lastActivityTime
    ensures SubmitAll(row, subs) == row
  {
    if subs != [] {
      RejectedAll(row, subs[..|subs| - 1]);
      assert subs[|subs| - 1] in subs;
    }
  }

  // ---- the whole collection ----

  function Lookup(rows: AccountTable, k: AccountKey): Option<AccountToken> {
    if k in rows then Some(rows[k]) else None
  }

  datatype Submission = Submission(indexID: string, row: AccountToken)

  function IndexOne(rows: AccountTable, owner: string, s: Submission): AccountTable {
    var k := AccountKey(s.indexID, owner);
    if Accepts(Lookup(rows, k), s.row) then rows[k := SetRow(Lookup(rows, k), s.row)] else rows
  }

  function IndexAll(rows: AccountTable, owner: string, subs: seq<Submission>): AccountTable {
    if subs == [] then rows else IndexOne(IndexAll(rows, owner, subs[..|subs| - 1]), owner, subs[|subs| - 1])
  }

  function For(subs: seq<Submission>, indexID: string): seq<AccountToken> {
    if subs == [] then []
    else For(subs[..|subs| - 1], indexID) + if subs[|subs| - 1].indexID == indexID then [subs[|subs| - 1].row] else []
  }

  /** A batch acts on each row as the submissions for that row alone, and on no row of another owner. */
  lemma {:induction false} BatchActsPerRow(rows: AccountTable, owner: string, subs: seq<Submission>, k: AccountKey)
    ensures Lookup(IndexAll(rows, owner, subs), k) ==
            if k.owner == owner then SubmitAll(Lookup(rows, k), For(subs, k.indexID)) else Lookup(rows, k)
  {
    if subs != [] {
      var before, last := subs[..|subs| - 1], subs[|subs| - 1];
      BatchActsPerRow(rows, owner, before, k);
      if last.indexID == k.indexID {
        var f := For(subs, k.indexID);
        assert f[..|f| - 1] == For(before, k.indexID) && f[|f| - 1] == last.row;
      } else {
        assert For(before, k.indexID) + [] == For(before, k.indexID);
      }
    }
  }

  /** What an account holds of a token; no row is a zero balance. */
  function Balance(rows: AccountTable, indexID: string, account: string): int {
    var row := Lookup(rows, AccountKey(indexID, account));
    if row.Some? then row.value.balance else 0
  }

  function Share(owners: map<string, int>, account: string): int {
    if account in owners then owners[account] else 0
  }

  function RowOf(base: BaseTokenInfo, b: OwnerBalance, now: int): AccountToken {
    AccountToken(base, b.balance, b.lastTime, now, [], [])
  }

  function SetBalances(rows: AccountTable, indexID: string, base: BaseTokenInfo, balances: seq<OwnerBalance>, now: int): AccountTable {
    if balances == [] then rows else
    var before := SetBalances(rows, indexID, base, balances[..|balances| - 1], now);
    var b := balances[|balances| - 1];
    var k := AccountKey(indexID, b.address);
    before[k := SetRow(Lookup(before, k), RowOf(base, b, now))]
  }

  function ZeroOthers(rows: AccountTable, indexID: string, listed: set<string>, now: int): AccountTable {
    map k | k in rows ::
      if k.indexID == indexID && k.owner !in listed then rows[k].(balance := 0, lastRefreshedTime := now) else rows[k]
  }

  /** UpdateAccountTokenOwners: upsert the listed balances, zero the rest of the token's rows. */
  function SetOwners(rows: AccountTable, indexID: string, base: BaseTokenInfo, balances: seq<OwnerBalance>, now: int): AccountTable {
    ZeroOthers(SetBalances(rows, indexID, base, balances, now), indexID, (set a | a in Addresses(balances)), now)
  }

  lemma {:induction false} SetBalancesGives(rows: AccountTable, indexID: string, base: BaseTokenInfo, balances: seq<OwnerBalance>, now: int, k: AccountKey)
    ensures var rows' := SetBalances(rows, indexID, base, balances, now);
            if k.indexID == indexID && k.owner in OwnersOf(balances)
            then k in rows' && rows'[k].balance == OwnersOf(balances)[k.owner]
            else Lookup(rows', k) == Lookup(rows, k)
  {
    if balances != [] {
      SetBalancesGives(rows, indexID, base, balances[..|balances| - 1], now, k);
    }
  }

  /**
    Afterwards every account's balance of the token is what the list says, the last entry winning and
    zero for the accounts it leaves out; rows of other tokens are untouched and no row is removed.
   */
  lemma BalancesFollowTheList(rows: AccountTable, indexID: string, base: BaseTokenInfo, balances: seq<OwnerBalance>, now: int)
    ensures var rows' := SetOwners(rows, indexID, base, balances, now);
            && (forall a :: Balance(rows', indexID, a) == Share(OwnersOf(balances), a))
            && (forall k: AccountKey :: k.indexID != indexID ==> Lookup(rows', k) == Lookup(rows, k))
            && rows.Keys <= rows'.Keys
  {
    var rows' := SetOwners(rows, indexID, base, balances, now);
    OwnersOfKeys(balances);
    forall a ensures Balance(rows', indexID, a) == Share(OwnersOf(balances), a) {
      SetBalancesGives(rows, indexID, base, balances, now, AccountKey(indexID, a));
    }
    forall k: AccountKey | k.indexID != indexID ensures Lookup(rows', k) == Lookup(rows, k) {
      SetBalancesGives(rows, indexID, base, balances, now, k);
    }
    forall k | k in rows ensures k in rows' {
      SetBalancesGives(rows, indexID, base, balances, now, k);
    }
  }

  /** An address's row after the list is written: what its last entry says, stamped with the moment; pending fields stay. */
  predicate IsRowOf(row: AccountToken, before: Option<AccountToken>, base: BaseTokenInfo, b: OwnerBalance, now: int) {
    && row.base == base && row.balance == b.balance && row.lastActivityTime == b.lastTime && row.lastRefreshedTime == now
    && row.pendingTxs == (if before.Some? then before.value.pendingTxs else [])
    && row.lastPendingTime == (if before.Some? then before.value.lastPendingTime else [])
  }

  lemma {:induction false} LastEntryIsWritten(rows: AccountTable, indexID: string, base: BaseTokenInfo, balances: seq<OwnerBalance>, now: int, i: nat)
    requires IsLast(balances, i)
    ensures var k, rows' := AccountKey(indexID, balances[i].address), SetBalances(rows, indexID, base, balances, now);
            k in rows' && IsRowOf(rows'[k], Lookup(rows, k), base, balances[i], now)
  {
    var n := |balances| - 1;
    var k := AccountKey(indexID, balances[i].address);
    if i < n {
      assert balances[n].address != balances[i].address;
      LastEntryIsWritten(rows, indexID, base, balances[..n], now, i);
    } else {
      PendingSurvives(rows, indexID, base, balances[..n], now, k);
    }
  }

  lemma {:induction false} PendingSurvives(rows: AccountTable, indexID: string, base: BaseTokenInfo, balances: seq<OwnerBalance>, now: int, k: AccountKey)
    ensures var rows' := SetBalances(rows, indexID, base, balances, now);
            PendingTxs(Lookup(rows', k)) == PendingTxs(Lookup(rows, k)) && PendingTimes(Lookup(rows', k)) == PendingTimes(Lookup(rows, k))
  {
    if balances != [] { PendingSurvives(rows, indexID, base, balances[..|balances| - 1], now, k); }
  }

  /** Row by row: a listed address has the row of its last entry; any other row of the token keeps all but a zero balance and the refresh time. */
  lemma OwnersRowsAre(rows: AccountTable, indexID: string, base: BaseTokenInfo, balances: seq<OwnerBalance>, now: int)
    ensures var rows' := SetOwners(rows, indexID, base, balances, now);
            && (forall i: nat :: IsLast(balances, i) ==>
                 var k := AccountKey(indexID, balances[i].address);
                 k in rows' && IsRowOf(rows'[k], Lookup(rows, k), base, balances[i], now))
            && (forall k :: k in rows && k.indexID == indexID && (forall i :: 0 <= i < |balances| ==> balances[i].address != k.owner) ==>
                 k in rows' && rows'[k] == rows[k].(balance := 0, lastRefreshedTime := now))
            && (forall k :: k in rows' && k !in rows ==> k.indexID == indexID && exists i :: 0 <= i < |balances| && balances[i].address == k.owner)
  {
    var rows' := SetOwners(rows, indexID, base, balances, now);
    forall i: nat | IsLast(balances, i)
      ensures var k := AccountKey(indexID, balances[i].address); k in rows' && IsRowOf(rows'[k], Lookup(rows, k), base, balances[i], now)
    {
      LastEntryIsWritten(rows, indexID, base, balances, now, i);
      assert Addresses(balances)[i] == balances[i].address;
    }
    OwnersOfKeys(balances);
    forall k | k in rows && k.indexID == indexID && (forall i :: 0 <= i < |balances| ==> balances[i].address != k.owner)
      ensures k in rows' && rows'[k] == rows[k].(balance := 0, lastRefreshedTime := now)
    {
      SetBalancesGives(rows, indexID, base, balances, now, k);
    }
    forall k | k in rows' && k !in rows ensures k.indexID == indexID && exists i :: 0 <= i < |balances| && balances[i].address == k.owner {
      SetBalancesGives(rows, indexID, base, balances, now, k);
      assert k.owner in Addresses(balances);
      var i :| 0 <= i < |Addresses(balances)| && Addresses(balances)[i] == k.owner;
      assert balances[i].address == k.owner;
    }
  }

  /** Whether a row holds what an entry of a list says. */
  predicate RowWritten(row: Option<AccountToken>, base: BaseTokenInfo, b: OwnerBalance, now: int) {
    row.Some? && row.value.base == base && row.value.balance == b.balance && row.value.lastActivityTime == b.lastTime && row.value.lastRefreshedTime == now
  }

  /** Whether every listed address has the row of its last entry. */
  ghost predicate RowsWritten(rows: AccountTable, indexID: string, base: BaseTokenInfo, balances: seq<OwnerBalance>, now: int) {
    forall i: nat :: IsLast(balances, i) ==> RowWritten(Lookup(rows, AccountKey(indexID, balances[i].address)), base, balances[i], now)
  }

  lemma OwnersAreWritten(rows: AccountTable, indexID: string, base: BaseTokenInfo, balances: seq<OwnerBalance>, now: int)
    ensures RowsWritten(SetOwners(rows, indexID, base, balances, now), indexID, base, balances, now)
  {
    OwnersRowsAre(rows, indexID, base, balances, now);
  }

  /** The index agrees with the token document. */
  ghost predicate Agrees(t: Token, rows: AccountTable, indexID: string) {
    forall a :: Balance(rows, indexID, a) == Share(t.owners, a)
  }

  /**
    A refresh, of the document and then of the index, makes the two agree exactly when it brings a
    nonempty list or the document holds only zero shares: on an empty list the document is left alone
    and the index is zeroed.
   */
  lemma RefreshAgreesIff(t: Token, rows: AccountTable, indexID: string, activityTime: int, balances: seq<OwnerBalance>, now1: int, now2: int)
    ensures Agrees(Apply(t, Op(UpdateTokenOwners(activityTime, balances), now1)), SetOwners(rows, indexID, t.base, balances, now2), indexID)
            <==> balances != [] || forall a :: a in t.owners ==> t.owners[a] == 0
  {
    var t', rows' := Apply(t, Op(UpdateTokenOwners(activityTime, balances), now1)), SetOwners(rows, indexID, t.base, balances, now2);
    BalancesFollowTheList(rows, indexID, t.base, balances, now2);
    if balances == [] && Agrees(t', rows', indexID) {
      forall a | a in t.owners ensures t.owners[a] == 0 {
        assert Balance(rows', indexID, a) == Share(t'.owners, a);
      }
    }
  }

  /** The entries whose upserts succeed; a failing one is logged and the loop goes on. */
  function Succeeded(balances: seq<OwnerBalance>, fails: set<nat>): seq<OwnerBalance> {
    if balances == [] then [] else
    var n := |balances| - 1;
    Succeeded(balances[..n], fails) + if n in fails then [] else [balances[n]]
  }

  predicate IsLast(balances: seq<OwnerBalance>, i: nat) {
    i < |balances| && forall j :: i < j < |balances| ==> balances[j].address != balances[i].address
  }

  /** Whether the upsert of an address's last entry fails and its earlier ones did not leave the same balance. */
  predicate Missed(balances: seq<OwnerBalance>, fails: set<nat>, i: nat) {
    && IsLast(balances, i) && i in fails
    && Share(OwnersOf(Succeeded(balances[..i], fails)), balances[i].address) != balances[i].balance
  }

  ghost predicate NoneMissed(balances: seq<OwnerBalance>, fails: set<nat>) {
    forall i: nat :: !Missed(balances, fails, i)
  }

  ghost predicate SameShares(x: map<string, int>, y: map<string, int>) {
    forall a :: Share(x, a) == Share(y, a)
  }

  lemma {:induction false} LastEntryGives(balances: seq<OwnerBalance>, i: nat)
    requires IsLast(balances, i)
    ensures Share(OwnersOf(balances), balances[i].address) == balances[i].balance
  {
    var n := |balances| - 1;
    if i < n {
      assert balances[n].address != balances[i].address;
      LastEntryGives(balances[..n], i);
    }
  }

  lemma {:induction false} LastUpsertGives(balances: seq<OwnerBalance>, fails: set<nat>, i: nat)
    requires IsLast(balances, i)
    ensures Share(OwnersOf(Succeeded(balances, fails)), balances[i].address) ==
            if i in fails then Share(OwnersOf(Succeeded(balances[..i], fails)), balances[i].address) else balances[i].balance
  {
    var n := |balances| - 1;
    SucceededStep(balances, fails);
    if i < n {
      assert balances[n].address != balances[i].address;
      LastUpsertGives(balances[..n], fails, i);
      assert balances[..n][..i] == balances[..i];
    }
  }

  /** One turn of the loop over the entries. */
  lemma UpsertStep(rows: AccountTable, indexID: string, base: BaseTokenInfo, balances: seq<OwnerBalance>, fails: set<nat>, i: nat, now: int)
    requires i < |balances|
    ensures var before, after := Succeeded(balances[..i], fails), Succeeded(balances[..i + 1], fails);
            var rows', k := SetBalances(rows, indexID, base, before, now), AccountKey(indexID, balances[i].address);
            if i in fails then after == before else
            && SetBalances(rows, indexID, base, after, now) == rows'[k := SetRow(Lookup(rows', k), RowOf(base, balances[i], now))]
            && Addresses(after) == Addresses(before) + [balances[i].address]
  {
    var before := Succeeded(balances[..i], fails);
    assert balances[..i + 1][..i] == balances[..i];
    if i in fails { assert before + [] == before; } else { assert (before + [balances[i]])[..|before|] == before; }
  }

  lemma SucceededStep(balances: seq<OwnerBalance>, fails: set<nat>)
    requires balances != []
    ensures var n := |balances| - 1;
            OwnersOf(Succeeded(balances, fails)) ==
            if n in fails then OwnersOf(Succeeded(balances[..n], fails))
            else OwnersOf(Succeeded(balances[..n], fails))[balances[n].address := balances[n].balance]
  {
    var n := |balances| - 1;
    var s := Succeeded(balances[..n], fails);
    if n in fails { assert s + [] == s; } else { assert (s + [balances[n]])[..|s|] == s; }
  }

  lemma {:induction false} LastEntryOf(balances: seq<OwnerBalance>, a: string) returns (i: nat)
    requires a in OwnersOf(balances)
    ensures IsLast(balances, i) && balances[i].address == a
  {
    var n := |balances| - 1;
    if balances[n].address == a { i := n; } else { i := LastEntryOf(balances[..n], a); }
  }

  lemma {:induction false} SucceededAreListed(balances: seq<OwnerBalance>, fails: set<nat>)
    ensures OwnersOf(Succeeded(balances, fails)).Keys <= OwnersOf(balances).Keys
  {
    if balances != [] {
      SucceededAreListed(balances[..|balances| - 1], fails);
      SucceededStep(balances, fails);
    }
  }

  /** The shares that stay are those of the list exactly when no address's last upsert is missed. */
  lemma SharesStayIff(balances: seq<OwnerBalance>, fails: set<nat>)
    ensures SameShares(OwnersOf(Succeeded(balances, fails)), OwnersOf(balances)) <==> NoneMissed(balances, fails)
  {
    if NoneMissed(balances, fails) {
      SucceededAreListed(balances, fails);
      forall a ensures Share(OwnersOf(Succeeded(balances, fails)), a) == Share(OwnersOf(balances), a) {
        if a in OwnersOf(balances) {
          var i := LastEntryOf(balances, a);
          LastEntryGives(balances, i);
          LastUpsertGives(balances, fails, i);
          assert !Missed(balances, fails, i);
        }
      }
    } else {
      var i: nat :| Missed(balances, fails, i);
      LastEntryGives(balances, i);
      LastUpsertGives(balances, fails, i);
    }
  }

  predicate DistinctAddresses(balances: seq<OwnerBalance>) {
    forall i, j :: 0 <= i < j < |balances| ==> balances[i].address != balances[j].address
  }

  predicate FailingAreZero(balances: seq<OwnerBalance>, fails: set<nat>) {
    forall i :: 0 <= i < |balances| && i in fails ==> balances[i].balance == 0
  }

  lemma UpsertsAgreeAsShares(t: Token, rows: AccountTable, indexID: string, activityTime: int, balances: seq<OwnerBalance>, fails: set<nat>, now1: int, now2: int)
    requires balances != []
    ensures Agrees(Apply(t, Op(UpdateTokenOwners(activityTime, balances), now1)), SetOwners(rows, indexID, t.base, Succeeded(balances, fails), now2), indexID)
            <==> SameShares(OwnersOf(Succeeded(balances, fails)), OwnersOf(balances))
  {
    BalancesFollowTheList(rows, indexID, t.base, Succeeded(balances, fails), now2);
    AgreesMeansShares(Apply(t, Op(UpdateTokenOwners(activityTime, balances), now1)),
                      SetOwners(rows, indexID, t.base, Succeeded(balances, fails), now2), indexID, Succeeded(balances, fails));
  }

  /**
    With failing upserts a nonempty list leaves document and index in agreement exactly when no address's
    last upsert is missed; for distinct addresses, when every entry that fails has balance zero.
   */
  lemma FailingUpsertsAgreeIff(t: Token, rows: AccountTable, indexID: string, activityTime: int, balances: seq<OwnerBalance>, fails: set<nat>, now1: int, now2: int)
    requires balances != []
    ensures Agrees(Apply(t, Op(UpdateTokenOwners(activityTime, balances), now1)), SetOwners(rows, indexID, t.base, Succeeded(balances, fails), now2), indexID)
            <==> NoneMissed(balances, fails)
    ensures DistinctAddresses(balances) ==> (NoneMissed(balances, fails) <==> FailingAreZero(balances, fails))
  {
    UpsertsAgreeAsShares(t, rows, indexID, activityTime, balances, fails, now1, now2);
    SharesStayIff(balances, fails);
    if DistinctAddresses(balances) { DistinctMissedIff(balances, fails); }
  }

  lemma DistinctMissedIff(balances: seq<OwnerBalance>, fails: set<nat>)
    requires DistinctAddresses(balances)
    ensures NoneMissed(balances, fails) <==> FailingAreZero(balances, fails)
  {
    forall i: nat ensures Missed(balances, fails, i) <==> i < |balances| && i in fails && balances[i].balance != 0 {
      if i < |balances| { NotListedBefore(balances, fails, i); }
    }
    if FailingAreZero(balances, fails) {
      forall i: nat ensures !Missed(balances, fails, i) { }
    } else {
      var i :| 0 <= i < |balances| && i in fails && balances[i].balance != 0;
      assert Missed(balances, fails, i);
    }
  }

  lemma AgreesMeansShares(t: Token, rows: AccountTable, indexID: string, balances: seq<OwnerBalance>)
    requires forall a :: Balance(rows, indexID, a) == Share(OwnersOf(balances), a)
    ensures Agrees(t, rows, indexID) <==> SameShares(OwnersOf(balances), t.owners)
  {
    if Agrees(t, rows, indexID) {
      forall a ensures Share(OwnersOf(balances), a) == Share(t.owners, a) { assert Balance(rows, indexID, a) == Share(t.owners, a); }
    }
  }

  lemma NotListedBefore(balances: seq<OwnerBalance>, fails: set<nat>, i: nat)
    requires i < |balances| && DistinctAddresses(balances)
    ensures IsLast(balances, i) && Share(OwnersOf(Succeeded(balances[..i], fails)), balances[i].address) == 0
  {
    SucceededAreListed(balances[..i], fails);
    OwnersOfKeys(balances[..i]);
  }

  /** A provenance refresh of a non-fungible token leaves it with the head owner alone, in both places. */
  lemma ProvenanceRefreshAgrees(t: Token, rows: AccountTable, indexID: string, records: seq<Provenance>, now1: int, now2: int)
    requires records != []
    ensures var t' := Apply(t, Op(UpdateTokenProvenance(records), now1));
            var rows' := SetOwners(rows, indexID, t.base, [OwnerBalance(records[0].owner, 1, records[0].timestamp)], now2);
            && Agrees(t', rows', indexID)
            && forall a :: Balance(rows', indexID, a) == if a == records[0].owner then 1 else 0
  {
    var b := [OwnerBalance(records[0].owner, 1, records[0].timestamp)];
    BalancesFollowTheList(rows, indexID, t.base, b, now2);
    assert b[..0] == [];
    assert OwnersOf(b) == map[records[0].owner := 1];
  }
}
