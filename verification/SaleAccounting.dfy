/**
  The accounts of a sale: payments folded into shares, price and platform fee. The same fold serves
  Ethereum sales and Objkt sales on Tezos; they differ in the destinations they skip and in who counts
  as a fee wallet.
 */
module SaleAccounting {
  import opened Options
  import opened MapSum

  datatype Payment = Payment(from: string, to: string, amount: int)

  datatype Books = Books(shares: map<string, int>, price: int, platformFee: int)

  /** Which destinations are skipped, and which addresses are fee wallets. */
  datatype Rules = Rules(skips: string -> bool, isFeeWallet: string -> bool)

  const EMPTY := Books(map[], 0, 0)

  function Post(rules: Rules, b: Books, p: Payment): Books {
    if rules.skips(p.to) then b else
    var credited := b.shares[p.to := (if p.to in b.shares then b.shares[p.to] else 0) + p.amount];
    var fee := b.platformFee + if rules.isFeeWallet(p.to) then p.amount else 0;
    if p.from in credited
    then Books(credited[p.from := credited[p.from] - p.amount], b.price, fee)
    else Books(credited, b.price + p.amount, fee)
  }

  function PostAll(rules: Rules, ps: seq<Payment>): Books {
    if ps == [] then EMPTY else Post(rules, PostAll(rules, ps[..|ps| - 1]), ps[|ps| - 1])
  }

  // ---- the sums a sale is about, read off the payments alone ----

  predicate Counts(rules: Rules, p: Payment) {
    !rules.skips(p.to)
  }

  predicate Recipient(rules: Rules, ps: seq<Payment>, a: string) {
    exists i :: 0 <= i < |ps| && Counts(rules, ps[i]) && ps[i].to == a
  }

  /** Whether payment i is made by an address that has been paid by then, this payment included. */
  predicate PassedOn(rules: Rules, ps: seq<Payment>, i: nat)
    requires i < |ps|
  {
    Counts(rules, ps[i]) && Recipient(rules, ps[..i + 1], ps[i].from)
  }

  function Received(rules: Rules, ps: seq<Payment>, a: string): int {
    if ps == [] then 0 else
    var n := |ps| - 1;
    Received(rules, ps[..n], a) + if Counts(rules, ps[n]) && ps[n].to == a then ps[n].amount else 0
  }

  function SentOn(rules: Rules, ps: seq<Payment>, a: string): int {
    if ps == [] then 0 else
    var n := |ps| - 1;
    SentOn(rules, ps[..n], a) + if PassedOn(rules, ps, n) && ps[n].from == a then ps[n].amount else 0
  }

  /** What came from outside: payments whose sender has received nothing. */
  function Outside(rules: Rules, ps: seq<Payment>): int {
    if ps == [] then 0 else
    var n := |ps| - 1;
    Outside(rules, ps[..n]) + if Counts(rules, ps[n]) && !PassedOn(rules, ps, n) then ps[n].amount else 0
  }

  /** What fee wallets were paid, and what they passed on. */
  function FeesPaid(rules: Rules, ps: seq<Payment>): int {
    if ps == [] then 0 else
    var n := |ps| - 1;
    FeesPaid(rules, ps[..n]) + if Counts(rules, ps[n]) && rules.isFeeWallet(ps[n].to) then ps[n].amount else 0
  }

  function FeesPassedOn(rules: Rules, ps: seq<Payment>): int {
    if ps == [] then 0 else
    var n := |ps| - 1;
    FeesPassedOn(rules, ps[..n]) + if PassedOn(rules, ps, n) && rules.isFeeWallet(ps[n].from) then ps[n].amount else 0
  }

  lemma RecipientSnoc(rules: Rules, ps: seq<Payment>, p: Payment, a: string)
    ensures Recipient(rules, ps + [p], a) <==> Recipient(rules, ps, a) || (Counts(rules, p) && p.to == a)
  {
    if Recipient(rules, ps, a) {
      var i :| 0 <= i < |ps| && Counts(rules, ps[i]) && ps[i].to == a;
      assert (ps + [p])[i] == ps[i];
    }
    if Counts(rules, p) && p.to == a {
      assert (ps + [p])[|ps|] == p;
    }
  }

  function ShareOf(b: Books, a: string): int {
    if a in b.shares then b.shares[a] else 0
  }

  /** One address's share: in the books exactly if it was paid, and then what it received less what it passed on. */
  lemma {:induction false} SharesAreBalances(rules: Rules, ps: seq<Payment>, a: string)
    ensures a in PostAll(rules, ps).shares <==> Recipient(rules, ps, a)
    ensures ShareOf(PostAll(rules, ps), a) == Received(rules, ps, a) - SentOn(rules, ps, a)
  {
    if ps != [] {
      var n := |ps| - 1;
      var before, p := ps[..n], ps[n];
      SharesAreBalances(rules, before, a);
      SharesAreBalances(rules, before, p.from);
      assert ps == before + [p] && ps[..n + 1] == ps;
      RecipientSnoc(rules, before, p, a);
      RecipientSnoc(rules, before, p, p.from);
    }
  }

  /** The price is what came from outside; passing money on does not count again. */
  lemma {:induction false} PriceIsOutsideMoney(rules: Rules, ps: seq<Payment>)
    ensures PostAll(rules, ps).price == Outside(rules, ps)
    ensures PostAll(rules, ps).platformFee == FeesPaid(rules, ps)
  {
    if ps != [] {
      var n := |ps| - 1;
      PriceIsOutsideMoney(rules, ps[..n]);
      SharesAreBalances(rules, ps[..n], ps[n].from);
      assert ps == ps[..n] + [ps[n]] && ps[..n + 1] == ps;
      RecipientSnoc(rules, ps[..n], ps[n], ps[n].from);
    }
  }

  lemma PostConserves(rules: Rules, b: Books, p: Payment)
    requires Sum(b.shares) == b.price
    ensures Sum(Post(rules, b, p).shares) == Post(rules, b, p).price
  {
    if Counts(rules, p) {
      var credited := b.shares[p.to := (if p.to in b.shares then b.shares[p.to] else 0) + p.amount];
      SumUpdates(b.shares, p.to, credited[p.to]);
      if p.from in credited {
        SumUpdates(credited, p.from, credited[p.from] - p.amount);
      }
    }
  }

  /** The shares add up to the price after every payment. */
  lemma {:induction false} SharesSumToPrice(rules: Rules, ps: seq<Payment>)
    ensures Sum(PostAll(rules, ps).shares) == PostAll(rules, ps).price
  {
    if ps != [] {
      SharesSumToPrice(rules, ps[..|ps| - 1]);
      PostConserves(rules, PostAll(rules, ps[..|ps| - 1]), ps[|ps| - 1]);
    }
  }

  /** The shares of the fee wallets, or of everybody else. */
  ghost function SharesOf(rules: Rules, shares: map<string, int>, fees: bool): map<string, int> {
    map a | a in shares && rules.isFeeWallet(a) == fees :: shares[a]
  }

  lemma UpdateSharesOf(rules: Rules, shares: map<string, int>, a: string, v: int)
    ensures Sum(SharesOf(rules, shares[a := v], true)) ==
            Sum(SharesOf(rules, shares, true)) +
            if rules.isFeeWallet(a) then v - (if a in shares then shares[a] else 0) else 0
  {
    if rules.isFeeWallet(a) {
      assert SharesOf(rules, shares[a := v], true) == SharesOf(rules, shares, true)[a := v];
      SumUpdates(SharesOf(rules, shares, true), a, v);
    } else {
      assert SharesOf(rules, shares[a := v], true) == SharesOf(rules, shares, true);
    }
  }

  lemma PostMovesFeeShares(rules: Rules, b: Books, p: Payment)
    requires Counts(rules, p)
    ensures Sum(SharesOf(rules, Post(rules, b, p).shares, true)) ==
            Sum(SharesOf(rules, b.shares, true))
            + (if rules.isFeeWallet(p.to) then p.amount else 0)
            - (if rules.isFeeWallet(p.from) && (p.from in b.shares || p.from == p.to) then p.amount else 0)
  {
    var credited := b.shares[p.to := (if p.to in b.shares then b.shares[p.to] else 0) + p.amount];
    UpdateSharesOf(rules, b.shares, p.to, credited[p.to]);
    if p.from in credited {
      UpdateSharesOf(rules, credited, p.from, credited[p.from] - p.amount);
    }
  }

  lemma {:induction false} FeeShares(rules: Rules, ps: seq<Payment>)
    ensures Sum(SharesOf(rules, PostAll(rules, ps).shares, true)) == FeesPaid(rules, ps) - FeesPassedOn(rules, ps)
  {
    if ps == [] {
      assert SharesOf(rules, map[], true) == map[];
    } else {
      var n := |ps| - 1;
      FeeShares(rules, ps[..n]);
      SharesAreBalances(rules, ps[..n], ps[n].from);
      assert ps == ps[..n] + [ps[n]] && ps[..n + 1] == ps;
      RecipientSnoc(rules, ps[..n], ps[n], ps[n].from);
      if Counts(rules, ps[n]) {
        PostMovesFeeShares(rules, PostAll(rules, ps[..n]), ps[n]);
      }
    }
  }

  lemma SharesOfSplit(rules: Rules, shares: map<string, int>)
    ensures Sum(shares) == Sum(SharesOf(rules, shares, true)) + Sum(SharesOf(rules, shares, false))
  {
    SumOfDisjointUnion(SharesOf(rules, shares, true), SharesOf(rules, shares, false));
    assert SharesOf(rules, shares, true) + SharesOf(rules, shares, false) == shares;
  }

  /**
    Exactly when the fee and the net revenue are the shares they stand for: when the fee wallets passed
    nothing on. Otherwise the fee overstates the fee wallets' shares by what they passed on, and the
    net revenue understates everybody else's by as much.
   */
  lemma FeesAreSharesIff(rules: Rules, ps: seq<Payment>)
    ensures var b := PostAll(rules, ps);
            var fees, others, passedOn :=
              Sum(SharesOf(rules, b.shares, true)), Sum(SharesOf(rules, b.shares, false)), FeesPassedOn(rules, ps);
            && b.platformFee == fees + passedOn
            && b.price - b.platformFee == others - passedOn
            && (b.platformFee == fees <==> passedOn == 0)
            && (b.price - b.platformFee == others <==> passedOn == 0)
  {
    PriceIsOutsideMoney(rules, ps);
    FeeShares(rules, ps);
    SharesSumToPrice(rules, ps);
    SharesOfSplit(rules, PostAll(rules, ps).shares);
  }

  /** Amounts are not negative: the fee wallets passed nothing on if and only if every payment of one that was paid is zero. */
  lemma {:induction false} NothingPassedOnIff(rules: Rules, ps: seq<Payment>)
    requires forall i :: 0 <= i < |ps| ==> ps[i].amount >= 0
    ensures FeesPassedOn(rules, ps) >= 0
    ensures FeesPassedOn(rules, ps) == 0 <==>
            forall i :: 0 <= i < |ps| && rules.isFeeWallet(ps[i].from) && PassedOn(rules, ps, i) ==> ps[i].amount == 0
  {
    if ps != [] {
      var n := |ps| - 1;
      NothingPassedOnIff(rules, ps[..n]);
      forall i | 0 <= i < n ensures PassedOn(rules, ps[..n], i) == PassedOn(rules, ps, i) {
        assert ps[..n][..i + 1] == ps[..i + 1];
      }
    }
  }

  /** When no fee wallet is itself a sender, the fee is the fee wallets' total share and the net revenue all others'. */
  lemma {:induction false} NoFeeWalletSends(rules: Rules, ps: seq<Payment>)
    requires forall i :: 0 <= i < |ps| ==> !rules.isFeeWallet(ps[i].from)
    ensures FeesPassedOn(rules, ps) == 0
    ensures var b := PostAll(rules, ps);
            && b.platformFee == Sum(SharesOf(rules, b.shares, true))
            && b.price - b.platformFee == Sum(SharesOf(rules, b.shares, false))
  {
    FeesAreSharesIff(rules, ps);
    if ps != [] { NoFeeWalletSends(rules, ps[..|ps| - 1]); }
  }

  /** The loop over an Ethereum sale's payments; every clause is about the payments alone. */
  method FoldPayments(rules: Rules, payTxs: seq<Payment>) returns (shares: map<string, int>, price: int, platformFee: int, netRevenue: int)
    ensures Books(shares, price, platformFee) == PostAll(rules, payTxs)
    ensures forall a :: a in shares <==> Recipient(rules, payTxs, a)
    ensures forall a :: a in shares ==> shares[a] == Received(rules, payTxs, a) - SentOn(rules, payTxs, a)
    ensures price == Outside(rules, payTxs) == Sum(shares)
    ensures platformFee == FeesPaid(rules, payTxs) && netRevenue == price - platformFee
  {
    shares, price, platformFee := map[], 0, 0;
    for i := 0 to |payTxs|
      invariant Books(shares, price, platformFee) == PostAll(rules, payTxs[..i])
    {
      assert payTxs[..i + 1][..i] == payTxs[..i];
      var tx := payTxs[i];
      if rules.skips(tx.to) { continue; }
      if tx.to in shares {
        shares := shares[tx.to := shares[tx.to] + tx.amount];
      } else {
        shares := shares[tx.to := tx.amount];
      }
      price := price + tx.amount;
      if tx.from in shares {
        shares := shares[tx.from := shares[tx.from] - tx.amount];
        price := price - tx.amount;
      }
      if rules.isFeeWallet(tx.to) {
        platformFee := platformFee + tx.amount;
      }
    }
    assert payTxs[..|payTxs|] == payTxs;
    netRevenue := price - platformFee;
    PriceIsOutsideMoney(rules, payTxs);
    SharesSumToPrice(rules, payTxs);
    forall a ensures a in shares <==> Recipient(rules, payTxs, a) {
      SharesAreBalances(rules, payTxs, a);
    }
    forall a | a in shares ensures shares[a] == Received(rules, payTxs, a) - SentOn(rules, payTxs, a) {
      SharesAreBalances(rules, payTxs, a);
    }
  }

  // ---- Objkt sales ----

  const TREASURY_PROXY := "KT19kCpYFxrNPegMBYKKH44szaqv8offqBRz"

  datatype TokenSaleInfo = TokenSaleInfo(seller: string, buyer: string, tokenID: string, contract: string)

  datatype Transfer = Transfer(from: string, to: string, tokenID: string)

  /** A call's entry point, and its transfers when the value decodes as a list of them. */
  datatype Parameter = Parameter(entryPoint: string, transfers: Option<seq<Transfer>>)

  datatype TezosTx = TezosTx(applied: bool, parameter: Option<Parameter>, sender: string, target: string, amount: nat)

  datatype SaleResult =
    | Sale(books: Books, netRevenue: int, bundle: seq<TokenSaleInfo>)
    | NoSale
    | Invalid

  predicate IsSaleCall(tx: TezosTx) {
    tx.parameter.Some? && tx.parameter.value.entryPoint in {"fulfill_ask", "fulfill_offer"}
  }

  predicate IsTransferCall(tx: TezosTx) {
    tx.parameter.Some? && tx.parameter.value.entryPoint == "transfer"
  }

  predicate Decodes(tx: TezosTx) {
    IsTransferCall(tx) ==> tx.parameter.value.transfers.Some?
  }

  function ObjktRules(isFeeWallet: string -> bool): Rules {
    Rules(a => a == TREASURY_PROXY, isFeeWallet)
  }

  /** The plain transfers of the operation, which are its payments. */
  function PaymentsOf(txs: seq<TezosTx>): seq<Payment> {
    if txs == [] then [] else
    var n := |txs| - 1;
    PaymentsOf(txs[..n]) + if txs[n].parameter.None? then [Payment(txs[n].sender, txs[n].target, txs[n].amount)] else []
  }

  function Sold(contract: string, ts: seq<Transfer>): (r: seq<TokenSaleInfo>)
    ensures |r| == |ts|
  {
    seq(|ts|, i requires 0 <= i < |ts| => TokenSaleInfo(ts[i].from, ts[i].to, ts[i].tokenID, contract))
  }

  function BundleOf(txs: seq<TezosTx>): seq<TokenSaleInfo> {
    if txs == [] then [] else
    var n := |txs| - 1;
    BundleOf(txs[..n]) + Moved(txs[n])
  }

  predicate AllGood(txs: seq<TezosTx>, n: nat)
    requires n <= |txs|
  {
    forall i :: 0 <= i < n ==> txs[i].applied && Decodes(txs[i])
  }

  /** One plain transfer of an Objkt sale; transfers to the treasury proxy are ignored. */
  method AddRevenueShare(books: Books, tx: TezosTx, isFeeWallet: string -> bool) returns (r: Books)
    ensures r == Post(ObjktRules(isFeeWallet), books, Payment(tx.sender, tx.target, tx.amount))
  {
    if tx.target == TREASURY_PROXY { return books; }
    var shares, price, platformFee := books.shares, books.price, books.platformFee;
    if tx.target in shares {
      shares := shares[tx.target := shares[tx.target] + tx.amount];
    } else {
      shares := shares[tx.target := tx.amount];
    }
    price := price + tx.amount;
    if tx.sender in shares {
      shares := shares[tx.sender := shares[tx.sender] - tx.amount];
      price := price - tx.amount;
    }
    if isFeeWallet(tx.target) {
      platformFee := platformFee + tx.amount;
    }
    r := Books(shares, price, platformFee);
  }

  lemma PaymentsStep(rules: Rules, txs: seq<TezosTx>, i: nat)
    requires i < |txs|
    ensures PostAll(rules, PaymentsOf(txs[..i + 1])) ==
            if txs[i].parameter.None? then Post(rules, PostAll(rules, PaymentsOf(txs[..i])), Payment(txs[i].sender, txs[i].target, txs[i].amount))
            else PostAll(rules, PaymentsOf(txs[..i]))
    ensures BundleOf(txs[..i + 1]) == BundleOf(txs[..i]) + Moved(txs[i])
  {
    assert txs[..i + 1][..i] == txs[..i];
    var ps := PaymentsOf(txs[..i + 1]);
    if txs[i].parameter.None? {
      assert ps[..|ps| - 1] == PaymentsOf(txs[..i]);
    } else {
      assert ps == PaymentsOf(txs[..i]);
    }
  }

  predicate FirstBadIsUnapplied(txs: seq<TezosTx>, i: nat)
    requires i < |txs|
  {
    AllGood(txs, i) && !txs[i].applied
  }

  predicate CallsSale(txs: seq<TezosTx>, n: nat)
    requires n <= |txs|
  {
    exists i :: 0 <= i < n && IsSaleCall(txs[i])
  }

  lemma CallsSaleStep(txs: seq<TezosTx>, n: nat)
    requires n < |txs|
    ensures CallsSale(txs, n + 1) <==> CallsSale(txs, n) || IsSaleCall(txs[n])
  {
  }

  /** The tokens one part moves. */
  function Moved(tx: TezosTx): seq<TokenSaleInfo> {
    if IsTransferCall(tx) && Decodes(tx) then Sold(tx.target, tx.parameter.value.transfers.value) else []
  }

  // ---- what an operation is about, read off its parts alone ----

  /** The plain transfers, but for those to the treasury proxy. */
  function Revenue(txs: seq<TezosTx>): seq<Payment> {
    if txs == [] then [] else
    var n := |txs| - 1;
    Revenue(txs[..n]) +
    if txs[n].parameter.None? && txs[n].target != "KT19kCpYFxrNPegMBYKKH44szaqv8offqBRz"
    then [Payment(txs[n].sender, txs[n].target, txs[n].amount)] else []
  }

  /** The fold without skipped destinations. */
  function Plainly(isFeeWallet: string -> bool): Rules {
    Rules(a => false, isFeeWallet)
  }

  lemma {:induction false} BooksAreOfRevenue(isFeeWallet: string -> bool, txs: seq<TezosTx>)
    ensures PostAll(ObjktRules(isFeeWallet), PaymentsOf(txs)) == PostAll(Plainly(isFeeWallet), Revenue(txs))
  {
    if txs != [] {
      var n := |txs| - 1;
      BooksAreOfRevenue(isFeeWallet, txs[..n]);
      var p := Payment(txs[n].sender, txs[n].target, txs[n].amount);
      if txs[n].parameter.None? {
        PostAllSnoc(ObjktRules(isFeeWallet), PaymentsOf(txs[..n]), p);
        PostAllSnoc(Plainly(isFeeWallet), Revenue(txs[..n]), p);
        OnlyTheProxyIsSkipped(isFeeWallet, PostAll(ObjktRules(isFeeWallet), PaymentsOf(txs[..n])), p);
      }
      NothingMore(PaymentsOf(txs[..n]));
      NothingMore(Revenue(txs[..n]));
    }
  }

  lemma NothingMore(ps: seq<Payment>)
    ensures ps + [] == ps
  {
  }

  lemma OnlyTheProxyIsSkipped(isFeeWallet: string -> bool, b: Books, p: Payment)
    ensures Post(ObjktRules(isFeeWallet), b, p) ==
            if p.to == "KT19kCpYFxrNPegMBYKKH44szaqv8offqBRz" then b else Post(Plainly(isFeeWallet), b, p)
  {
  }

  lemma PostAllSnoc(rules: Rules, ps: seq<Payment>, p: Payment)
    ensures PostAll(rules, ps + [p]) == Post(rules, PostAll(rules, ps), p)
  {
    assert (ps + [p])[..|ps|] == ps;
  }

  /** Whether a part moves this token: a transfer call that lists it, with the seller it comes from and the buyer it goes to. */
  predicate Moves(tx: TezosTx, x: TokenSaleInfo) {
    && tx.parameter.Some? && tx.parameter.value.entryPoint == "transfer" && tx.parameter.value.transfers.Some?
    && x.contract == tx.target
    && exists t :: t in tx.parameter.value.transfers.value && t.from == x.seller && t.to == x.buyer && t.tokenID == x.tokenID
  }

  lemma MovedAre(tx: TezosTx, x: TokenSaleInfo)
    ensures x in Moved(tx) <==> Moves(tx, x)
  {
    if x in Moved(tx) {
      var i :| 0 <= i < |Moved(tx)| && Moved(tx)[i] == x;
      assert tx.parameter.value.transfers.value[i] in tx.parameter.value.transfers.value;
    }
    if Moves(tx, x) {
      var ts := tx.parameter.value.transfers.value;
      var t :| t in ts && t.from == x.seller && t.to == x.buyer && t.tokenID == x.tokenID;
      var i :| 0 <= i < |ts| && ts[i] == t;
      assert Moved(tx)[i] == x;
    }
  }

  lemma {:induction false} BundleIs(txs: seq<TezosTx>, x: TokenSaleInfo)
    ensures x in BundleOf(txs) <==> exists tx :: tx in txs && Moves(tx, x)
  {
    if txs != [] {
      var n := |txs| - 1;
      BundleIs(txs[..n], x);
      MovedAre(txs[n], x);
      assert txs == txs[..n] + [txs[n]];
    }
  }

  /** What a sale's books and bundle are, in terms of the operation's parts. */
  lemma SaleTells(txs: seq<TezosTx>, isFeeWallet: string -> bool)
    ensures var b, ps, rules := PostAll(ObjktRules(isFeeWallet), PaymentsOf(txs)), Revenue(txs), Plainly(isFeeWallet);
            && (forall a :: a in b.shares <==> Recipient(rules, ps, a))
            && (forall a :: a in b.shares ==> b.shares[a] == Received(rules, ps, a) - SentOn(rules, ps, a))
            && b.price == Outside(rules, ps) == Sum(b.shares)
            && b.platformFee == FeesPaid(rules, ps)
    ensures forall x :: x in BundleOf(txs) <==> exists tx :: tx in txs && Moves(tx, x)
  {
    BooksAreOfRevenue(isFeeWallet, txs);
    PriceIsOutsideMoney(Plainly(isFeeWallet), Revenue(txs));
    SharesSumToPrice(Plainly(isFeeWallet), Revenue(txs));
    forall a ensures a in PostAll(Plainly(isFeeWallet), Revenue(txs)).shares <==> Recipient(Plainly(isFeeWallet), Revenue(txs), a) {
      SharesAreBalances(Plainly(isFeeWallet), Revenue(txs), a);
    }
    forall a | a in PostAll(Plainly(isFeeWallet), Revenue(txs)).shares
      ensures PostAll(Plainly(isFeeWallet), Revenue(txs)).shares[a] == Received(Plainly(isFeeWallet), Revenue(txs), a) - SentOn(Plainly(isFeeWallet), Revenue(txs), a)
    {
      SharesAreBalances(Plainly(isFeeWallet), Revenue(txs), a);
    }
    forall x ensures x in BundleOf(txs) <==> exists tx :: tx in txs && Moves(tx, x) { BundleIs(txs, x); }
  }

  /** One applied part that decodes: a sale call, token transfers, another call, or a plain transfer. */
  method AddPart(tx: TezosTx, isFeeWallet: string -> bool, sawSaleCall: bool, bundle: seq<TokenSaleInfo>, books: Books)
    returns (saw: bool, bundle': seq<TokenSaleInfo>, books': Books)
    requires Decodes(tx)
    ensures saw == (sawSaleCall || IsSaleCall(tx))
    ensures bundle' == bundle + Moved(tx)
    ensures books' == if tx.parameter.None? then Post(ObjktRules(isFeeWallet), books, Payment(tx.sender, tx.target, tx.amount)) else books
  {
    saw, bundle', books' := sawSaleCall, bundle, books;
    if tx.parameter.Some? {
      if tx.parameter.value.entryPoint == "fulfill_ask" || tx.parameter.value.entryPoint == "fulfill_offer" {
        saw := true;
      } else if tx.parameter.value.entryPoint == "transfer" {
        bundle' := bundle + Sold(tx.target, tx.parameter.value.transfers.value);
      }
    } else {
      books' := AddRevenueShare(books, tx, isFeeWallet);
    }
  }

  /**
    An operation is a sale exactly if every part of it was applied and decodes, it calls a sale entry
    point and it moves a token; its books are then the fold of its plain transfers. It is no sale when
    the first bad part was not applied, and otherwise invalid.
   */
  method ParseTezosObjktTokenSale(txs: seq<TezosTx>, isFeeWallet: string -> bool) returns (r: SaleResult)
    ensures r.Sale? <==> |txs| >= 2 && AllGood(txs, |txs|) && BundleOf(txs) != [] && CallsSale(txs, |txs|)
    ensures r.Sale? ==>
              && r.books == PostAll(ObjktRules(isFeeWallet), PaymentsOf(txs))
              && r.netRevenue == r.books.price - r.books.platformFee
              && r.bundle == BundleOf(txs)
    ensures r.Sale? ==>
              var ps, rules := Revenue(txs), Plainly(isFeeWallet);
              && (forall a :: a in r.books.shares <==> Recipient(rules, ps, a))
              && (forall a :: a in r.books.shares ==> r.books.shares[a] == Received(rules, ps, a) - SentOn(rules, ps, a))
              && r.books.price == Outside(rules, ps) == Sum(r.books.shares)
              && r.books.platformFee == FeesPaid(rules, ps)
              && (forall x :: x in r.bundle <==> exists tx :: tx in txs && Moves(tx, x))
    ensures r.NoSale? <==> |txs| >= 2 && exists i :: 0 <= i < |txs| && FirstBadIsUnapplied(txs, i)
  {
    if |txs| < 2 { return Invalid; }
    var sawSaleCall := false;
    var bundle: seq<TokenSaleInfo> := [];
    var books := EMPTY;
    for i := 0 to |txs|
      invariant AllGood(txs, i)
      invariant sawSaleCall <==> CallsSale(txs, i)
      invariant bundle == BundleOf(txs[..i])
      invariant books == PostAll(ObjktRules(isFeeWallet), PaymentsOf(txs[..i]))
    {
      var tx := txs[i];
      if !tx.applied {
        assert FirstBadIsUnapplied(txs, i);
        return NoSale;
      }
      if tx.parameter.Some? && tx.parameter.value.entryPoint == "transfer" && tx.parameter.value.transfers.None? {
        return Invalid;
      }
      PaymentsStep(ObjktRules(isFeeWallet), txs, i);
      CallsSaleStep(txs, i);
      sawSaleCall, bundle, books := AddPart(tx, isFeeWallet, sawSaleCall, bundle, books);
    }
    assert txs[..|txs|] == txs;
    if !sawSaleCall { return Invalid; }
    if |bundle| == 0 { return Invalid; }
    SaleTells(txs, isFeeWallet);
    r := Sale(books, books.price - books.platformFee, bundle);
  }
}
