/**
  The paging loop of GetDetailedAccountTokensByOwners over a fixed snapshot: `rows` are the account
  tokens the query's filter matches, in its sort order, and `view` has one document per token.
 */
module PagedQuery {
  import opened Tokens

  const QUERY_PAGE_SIZE := 25

  datatype Row = Row(key: AccountKey, token: AccountToken)

  datatype ViewDoc = ViewDoc(token: Token, source: string)

  type View = map<string, ViewDoc>

  /** An empty source means that no source was given. */
  datatype Filter = Filter(source: string, burnedIncluded: bool)

  datatype DetailedToken = DetailedToken(
    indexID: string, doc: ViewDoc, balance: int, owner: string, lastRefreshedTime: int, lastActivityTime: int)

  predicate Visible(view: View, f: Filter, id: string) {
    && id in view
    && (f.burnedIncluded || !view[id].token.burned)
    && (f.source == "" || view[id].source == f.source)
  }

  /** A view document as fetched, before its account's values are put in. */
  function FromView(id: string, doc: ViewDoc): DetailedToken {
    DetailedToken(id, doc, 0, doc.token.owner, doc.token.lastRefreshedTime, doc.token.lastActivityTime)
  }

  function WithAccount(t: DetailedToken, a: Row): DetailedToken {
    t.(balance := a.token.balance, owner := a.key.owner, lastRefreshedTime := a.token.lastRefreshedTime,
       lastActivityTime := if a.token.lastActivityTime != 0 then a.token.lastActivityTime else t.lastActivityTime)
  }

  function Join(view: View, a: Row): DetailedToken
    requires a.key.indexID in view
  {
    WithAccount(FromView(a.key.indexID, view[a.key.indexID]), a)
  }

  // ---- what a page is ----

  function Take<T>(n: nat, s: seq<T>): seq<T> {
    if n <= |s| then s[..n] else s
  }

  function Drop<T>(n: nat, s: seq<T>): seq<T> {
    if n <= |s| then s[n..] else []
  }

  /** A query with skip and limit. */
  function Slice<T>(s: seq<T>, skip: nat, limit: nat): seq<T> {
    Take(limit, Drop(skip, s))
  }

  /** The visible rows joined with their documents, in the rows' order. */
  function Joined(view: View, f: Filter, rows: seq<Row>): seq<DetailedToken> {
    if rows == [] then []
    else Joined(view, f, rows[..|rows| - 1]) +
         if Visible(view, f, rows[|rows| - 1].key.indexID) then [Join(view, rows[|rows| - 1])] else []
  }

  /** The offset counts raw rows when no source is given, and visible rows when one is. */
  function Page(rows: seq<Row>, view: View, f: Filter, offset: nat, size: nat): seq<DetailedToken> {
    if f.source == "" then Take(size, Joined(view, f, Drop(offset, rows)))
    else Take(size, Drop(offset, Joined(view, f, rows)))
  }

  lemma {:induction false} JoinedConcat(view: View, f: Filter, a: seq<Row>, b: seq<Row>)
    ensures Joined(view, f, a + b) == Joined(view, f, a) + Joined(view, f, b)
  {
    if b == [] {
      assert a + b == a;
    } else {
      assert (a + b)[..|a + b| - 1] == a + b[..|b| - 1];
      JoinedConcat(view, f, a, b[..|b| - 1]);
    }
  }

  // ---- the view query ----

  /** `$in` over the ids: each visible token once, in the order its id first occurs. */
  function InView(view: View, f: Filter, ids: seq<string>): (r: seq<DetailedToken>) {
    if ids == [] then []
    else
      var n := |ids| - 1;
      InView(view, f, ids[..n]) +
      if ids[n] !in ids[..n] && Visible(view, f, ids[n]) then [FromView(ids[n], view[ids[n]])] else []
  }

  function CountVisible(view: View, f: Filter, ids: seq<string>): (n: nat)
    ensures n <= |ids|
  {
    if ids == [] then 0
    else CountVisible(view, f, ids[..|ids| - 1]) + if Visible(view, f, ids[|ids| - 1]) then 1 else 0
  }

  /** The documents fetched for some ids: exactly those of the visible ids, and no more of them than visible occurrences. */
  ghost predicate Covers(view: View, f: Filter, docs: seq<DetailedToken>, ids: seq<string>) {
    && (forall d {:trigger d in docs} :: d in docs ==> Visible(view, f, d.indexID) && d == FromView(d.indexID, view[d.indexID]))
    && (forall id {:trigger id in ids} :: id in ids && Visible(view, f, id) ==> FromView(id, view[id]) in docs)
    && |docs| <= CountVisible(view, f, ids)
  }

  lemma {:induction false} InViewCovers(view: View, f: Filter, ids: seq<string>)
    ensures Covers(view, f, InView(view, f, ids), ids)
  {
    if ids != [] {
      var n := |ids| - 1;
      InViewCovers(view, f, ids[..n]);
      assert ids == ids[..n] + [ids[n]];
    }
  }

  lemma {:induction false} CountConcat(view: View, f: Filter, a: seq<string>, b: seq<string>)
    ensures CountVisible(view, f, a + b) == CountVisible(view, f, a) + CountVisible(view, f, b)
  {
    if b == [] {
      assert a + b == a;
    } else {
      assert (a + b)[..|a + b| - 1] == a + b[..|b| - 1];
      CountConcat(view, f, a, b[..|b| - 1]);
    }
  }

  lemma CoversConcat(view: View, f: Filter, docs: seq<DetailedToken>, ids: seq<string>, docs': seq<DetailedToken>, ids': seq<string>)
    requires Covers(view, f, docs, ids) && Covers(view, f, docs', ids')
    ensures Covers(view, f, docs + docs', ids + ids')
  {
    CountConcat(view, f, ids, ids');
  }

  function GetPageCounts(itemLength: nat, pageSize: nat): (pages: nat)
    requires pageSize > 0
    ensures itemLength <= pages * pageSize < itemLength + pageSize
  {
    itemLength / pageSize + if itemLength % pageSize != 0 then 1 else 0
  }

  lemma WholeSlice<T>(s: seq<T>, size: nat)
    ensures size >= |s| ==> Slice(s, 0, size) == s
  {
  }

  /** The aggregation over the view, with its skip and limit. */
  method GetDetailedTokensV2InView(view: View, f: Filter, ids: seq<string>, offset: nat, size: nat) returns (tokens: seq<DetailedToken>)
    ensures tokens == Slice(InView(view, f, ids), offset, size)
    ensures offset == 0 && size >= |ids| ==> Covers(view, f, tokens, ids)
    ensures forall d :: d in tokens ==> Fetched(view, f, d) && d.indexID in ids
    ensures OnceEach(tokens)
    ensures offset == 0 && size >= |ids| ==>
              forall id :: id in ids && id in view && Admits(f, view[id]) ==> exists d :: d in tokens && d.indexID == id
  {
    tokens := Slice(InView(view, f, ids), offset, size);
    InViewCovers(view, f, ids);
    WholeSlice(InView(view, f, ids), size);
    InViewIDs(view, f, ids);
    InViewOnce(view, f, ids);
    CoveredAreFetched(view, f, InView(view, f, ids), ids);
  }

  predicate OnceEach(docs: seq<DetailedToken>) {
    forall i, j :: 0 <= i < j < |docs| ==> docs[i].indexID != docs[j].indexID
  }

  /** However often an id is asked for, its document comes once. */
  lemma {:induction false} InViewOnce(view: View, f: Filter, ids: seq<string>)
    ensures OnceEach(InView(view, f, ids))
  {
    if ids != [] {
      var n := |ids| - 1;
      var before := InView(view, f, ids[..n]);
      InViewOnce(view, f, ids[..n]);
      InViewIDs(view, f, ids[..n]);
      if ids[n] !in ids[..n] && Visible(view, f, ids[n]) {
        OneMoreDoc(before, FromView(ids[n], view[ids[n]]), ids[..n]);
      } else {
        assert InView(view, f, ids) == before;
      }
    }
  }

  lemma OneMoreDoc(docs: seq<DetailedToken>, d: DetailedToken, ids: seq<string>)
    requires OnceEach(docs) && (forall x :: x in docs ==> x.indexID in ids) && d.indexID !in ids
    ensures OnceEach(docs + [d])
  {
    forall i | 0 <= i < |docs| ensures docs[i].indexID != d.indexID { assert docs[i] in docs; }
  }

  lemma {:induction false} InViewIDs(view: View, f: Filter, ids: seq<string>)
    ensures forall d :: d in InView(view, f, ids) ==> d.indexID in ids
  {
    if ids != [] { InViewIDs(view, f, ids[..|ids| - 1]); }
  }

  lemma CoversMore(view: View, f: Filter, ids: seq<string>, start: nat, end: nat, docs: seq<DetailedToken>, paged: seq<DetailedToken>)
    requires start <= end <= |ids| && Covers(view, f, docs, ids[..start]) && Covers(view, f, paged, ids[start..end])
    ensures Covers(view, f, docs + paged, ids[..end])
  {
    CoversConcat(view, f, docs, ids[..start], paged, ids[start..end]);
    assert ids[..start] + ids[start..end] == ids[..end];
  }

  /** The view query in sub-pages. Its caller passes offset 0 and the number of ids. */
  method GetDetailedTokensV2(view: View, f: Filter, ids: seq<string>) returns (tokens: seq<DetailedToken>)
    ensures Covers(view, f, tokens, ids)
    ensures forall d :: d in tokens ==> Fetched(view, f, d)
    ensures forall id :: id in ids && id in view && Admits(f, view[id]) ==> exists d :: d in tokens && d.indexID == id
  {
    tokens := [];
    var pages := GetPageCounts(|ids|, QUERY_PAGE_SIZE);
    ghost var done := 0;
    for i := 0 to pages
      invariant done == (if i * QUERY_PAGE_SIZE < |ids| then i * QUERY_PAGE_SIZE else |ids|)
      invariant Covers(view, f, tokens, ids[..done])
    {
      var start, end := i * QUERY_PAGE_SIZE, (i + 1) * QUERY_PAGE_SIZE;
      if end > |ids| { end := |ids|; }
      var paged := GetDetailedTokensV2InView(view, f, ids[start..end], 0, end - start);
      CoversMore(view, f, ids, start, end, tokens, paged);
      tokens, done := tokens + paged, end;
    }
    assert ids[..done] == ids;
    CoveredAreFetched(view, f, tokens, ids);
  }

  // ---- what a query shows, told by the documents alone ----

  /** Whether the filter lets a document through: burned ones only when asked for, and the asked source if one is. */
  predicate Admits(f: Filter, doc: ViewDoc) {
    (doc.token.burned ==> f.burnedIncluded) && (f.source != "" ==> doc.source == f.source)
  }

  /** A fetched document is one that the view has under its id and the filter lets through, with the document's own values. */
  predicate Fetched(view: View, f: Filter, d: DetailedToken) {
    && d.indexID in view && d.doc == view[d.indexID] && Admits(f, d.doc)
    && d.owner == d.doc.token.owner && d.lastRefreshedTime == d.doc.token.lastRefreshedTime && d.lastActivityTime == d.doc.token.lastActivityTime
  }

  /** A result is such a document with the owner, balance and times of an account row; a row without an activity time leaves the document's. */
  predicate Shows(view: View, f: Filter, a: Row, d: DetailedToken) {
    && a.key == AccountKey(d.indexID, d.owner) && d.balance == a.token.balance
    && d.indexID in view && d.doc == view[d.indexID] && Admits(f, d.doc)
    && d.lastRefreshedTime == a.token.lastRefreshedTime
    && d.lastActivityTime == if a.token.lastActivityTime != 0 then a.token.lastActivityTime else d.doc.token.lastActivityTime
  }

  lemma CoveredAreFetched(view: View, f: Filter, docs: seq<DetailedToken>, ids: seq<string>)
    requires Covers(view, f, docs, ids)
    ensures forall d :: d in docs ==> Fetched(view, f, d)
    ensures forall id :: id in ids && id in view && Admits(f, view[id]) ==> exists d :: d in docs && d.indexID == id
  {
    forall id | id in ids && id in view && Admits(f, view[id]) ensures exists d :: d in docs && d.indexID == id {
      assert Visible(view, f, id);
      assert FromView(id, view[id]) in docs;
    }
  }

  lemma {:induction false} JoinedShow(view: View, f: Filter, rows: seq<Row>, d: DetailedToken)
    requires d in Joined(view, f, rows)
    ensures exists i :: 0 <= i < |rows| && Shows(view, f, rows[i], d)
  {
    var n := |rows| - 1;
    if d in Joined(view, f, rows[..n]) {
      JoinedShow(view, f, rows[..n], d);
      var i :| 0 <= i < n && Shows(view, f, rows[..n][i], d);
      assert Shows(view, f, rows[i], d);
    } else {
      assert Shows(view, f, rows[n], d);
    }
  }

  lemma {:induction false} AdmittedAreJoined(view: View, f: Filter, rows: seq<Row>, i: nat) returns (d: DetailedToken)
    requires i < |rows| && rows[i].key.indexID in view && Admits(f, view[rows[i].key.indexID])
    ensures d in Joined(view, f, rows) && Shows(view, f, rows[i], d)
  {
    var n := |rows| - 1;
    if i < n {
      d := AdmittedAreJoined(view, f, rows[..n], i);
    } else {
      d := Join(view, rows[n]);
    }
  }

  /** Everything on a page is shown from a row; and a page that is long enough for all rows shows every row the filter lets through. */
  lemma PageShows(rows: seq<Row>, view: View, f: Filter, offset: nat, size: nat)
    ensures forall d :: d in Page(rows, view, f, offset, size) ==> exists i :: 0 <= i < |rows| && Shows(view, f, rows[i], d)
    ensures offset == 0 && size >= |rows| ==>
              forall i :: 0 <= i < |rows| && rows[i].key.indexID in view && Admits(f, view[rows[i].key.indexID]) ==>
                exists d :: d in Page(rows, view, f, offset, size) && Shows(view, f, rows[i], d)
  {
    forall d | d in Page(rows, view, f, offset, size) ensures exists i :: 0 <= i < |rows| && Shows(view, f, rows[i], d) {
      PageIsJoined(rows, view, f, offset, size, d);
      JoinedShow(view, f, rows, d);
    }
    if offset == 0 && size >= |rows| {
      VisibleRowsAllJoin(rows, view, f);
      assert Drop(0, rows) == rows && Drop(0, Joined(view, f, rows)) == Joined(view, f, rows);
      assert Page(rows, view, f, offset, size) == Joined(view, f, rows);
      forall i | 0 <= i < |rows| && rows[i].key.indexID in view && Admits(f, view[rows[i].key.indexID])
        ensures exists d :: d in Page(rows, view, f, offset, size) && Shows(view, f, rows[i], d)
      {
        var d := AdmittedAreJoined(view, f, rows, i);
      }
    }
  }

  lemma PageIsJoined(rows: seq<Row>, view: View, f: Filter, offset: nat, size: nat, d: DetailedToken)
    requires d in Page(rows, view, f, offset, size)
    ensures d in Joined(view, f, rows)
  {
    if f.source == "" {
      TakenIsThere(Joined(view, f, Drop(offset, rows)), 0, size, d);
      DroppedJoin(rows, view, f, offset, d);
    } else {
      TakenIsThere(Joined(view, f, rows), offset, size, d);
    }
  }

  lemma TakenIsThere<T>(s: seq<T>, o: nat, n: nat, x: T)
    ensures x in Take(n, Drop(o, s)) || x in Take(n, s) ==> x in s
  {
  }

  lemma DroppedJoin(rows: seq<Row>, view: View, f: Filter, offset: nat, d: DetailedToken)
    requires d in Joined(view, f, Drop(offset, rows))
    ensures d in Joined(view, f, rows)
  {
    if offset <= |rows| {
      JoinedConcat(view, f, rows[..offset], rows[offset..]);
      assert rows[..offset] + rows[offset..] == rows;
    }
  }

  // ---- the paging loop ----

  function IDs(rows: seq<Row>): (r: seq<string>)
    ensures |r| == |rows| && forall i :: 0 <= i < |r| ==> r[i] == rows[i].key.indexID
  {
    seq(|rows|, i requires 0 <= i < |rows| => rows[i].key.indexID)
  }

  lemma {:induction false} JoinedLength(view: View, f: Filter, rows: seq<Row>)
    ensures |Joined(view, f, rows)| == CountVisible(view, f, IDs(rows))
  {
    if rows != [] {
      var n := |rows| - 1;
      JoinedLength(view, f, rows[..n]);
      assert IDs(rows)[..n] == IDs(rows[..n]);
    }
  }

  /** The next page of the raw rows continues what was fetched. */
  lemma NextPage<T>(rows: seq<T>, base: nat, k: nat, limit: nat)
    requires limit > 0
    ensures Take(k, Drop(base, rows)) + Slice(rows, base + k, limit) == Take(k + limit, Drop(base, rows))
    ensures Slice(rows, base + k, limit) == [] ==> Take(k, Drop(base, rows)) == Drop(base, rows)
  {
  }

  lemma TakeIsPrefix<T>(n: nat, s: seq<T>)
    ensures Take(n, s) <= s
  {
  }

  /** The query of the account tokens with its skip and limit. */
  method QueryRows<T>(rows: seq<T>, ghost base: nat, ghost fetched: nat, queryOffset: nat) returns (batch: seq<T>)
    requires queryOffset == base + fetched
    ensures batch == Slice(rows, queryOffset, QUERY_PAGE_SIZE)
    ensures |batch| <= QUERY_PAGE_SIZE && Take(fetched, Drop(base, rows)) + batch == Take(fetched + QUERY_PAGE_SIZE, Drop(base, rows))
    ensures batch == [] ==> Take(fetched, Drop(base, rows)) == Drop(base, rows)
  {
    batch := Slice(rows, queryOffset, QUERY_PAGE_SIZE);
    NextPage(rows, base, fetched, QUERY_PAGE_SIZE);
  }

  /** One more page of rows, after the first ones from the base, with its documents. */
  method FetchPage(rows: seq<Row>, view: View, f: Filter, ghost base: nat, ghost fetched: nat, queryOffset: nat,
                   accountTokens: seq<Row>, detailTokens: seq<DetailedToken>)
    returns (batch: seq<Row>, docs: seq<DetailedToken>)
    requires queryOffset == base + fetched && accountTokens == Take(fetched, Drop(base, rows))
    requires Covers(view, f, detailTokens, IDs(accountTokens))
    ensures |batch| <= QUERY_PAGE_SIZE && accountTokens + batch == Take(fetched + QUERY_PAGE_SIZE, Drop(base, rows))
    ensures batch == [] ==> accountTokens == Drop(base, rows)
    ensures Covers(view, f, docs, IDs(accountTokens + batch))
    ensures |docs| <= |Joined(view, f, accountTokens + batch)|
  {
    batch := QueryRows(rows, base, fetched, queryOffset);
    docs := GetDetailedTokensV2(view, f, IDs(batch));
    CoversPage(view, f, accountTokens, batch, detailTokens, docs);
    docs := detailTokens + docs;
  }

  lemma CoversPage(view: View, f: Filter, fetched: seq<Row>, batch: seq<Row>, detailTokens: seq<DetailedToken>, docs: seq<DetailedToken>)
    requires Covers(view, f, detailTokens, IDs(fetched)) && Covers(view, f, docs, IDs(batch))
    ensures Covers(view, f, detailTokens + docs, IDs(fetched + batch))
    ensures |detailTokens + docs| <= |Joined(view, f, fetched + batch)|
  {
    CoversConcat(view, f, detailTokens, IDs(fetched), docs, IDs(batch));
    assert IDs(fetched) + IDs(batch) == IDs(fetched + batch);
    JoinedLength(view, f, fetched + batch);
  }

  function Base(f: Filter, offset: nat): nat {
    if f.source == "" then offset else 0
  }

  /** How many visible joined rows the page needs, and how many of them it skips. */
  function Skips(f: Filter, offset: nat): nat {
    if f.source == "" then 0 else offset
  }

  /** What is fetched after some pages: that many rows from the base, and their documents. */
  ghost predicate PagesFetched(rows: seq<Row>, view: View, f: Filter, offset: nat, page: nat, accountTokens: seq<Row>, detailTokens: seq<DetailedToken>) {
    && accountTokens == Take(page * QUERY_PAGE_SIZE, Drop(Base(f, offset), rows))
    && Covers(view, f, detailTokens, IDs(accountTokens))
  }

  /** Whether the fetched rows hold the page: they are all, or hold enough visible ones. */
  ghost predicate HoldsPage(rows: seq<Row>, view: View, f: Filter, offset: nat, size: nat, accountTokens: seq<Row>) {
    || accountTokens == Drop(Base(f, offset), rows)
    || |Joined(view, f, accountTokens)| >= Skips(f, offset) + size
  }

  /** One turn of the loop: the next page, and whether the loop is over. */
  method FetchNext(rows: seq<Row>, view: View, f: Filter, offset: nat, size: nat, page: nat,
                   accountTokens: seq<Row>, detailTokens: seq<DetailedToken>)
    returns (over: bool, accountTokens': seq<Row>, detailTokens': seq<DetailedToken>)
    requires PagesFetched(rows, view, f, offset, page, accountTokens, detailTokens)
    ensures PagesFetched(rows, view, f, offset, page + 1, accountTokens', detailTokens')
    ensures over ==> HoldsPage(rows, view, f, offset, size, accountTokens')
    ensures size == 0 && f.source == "" ==> over
    ensures !over ==> |accountTokens'| > |accountTokens|
  {
    var queryOffset := page * QUERY_PAGE_SIZE;
    var expectedSize := size;
    if f.source == "" {
      queryOffset := offset + queryOffset;
    } else {
      expectedSize := offset + expectedSize;
    }
    var batch, docs := FetchPage(rows, view, f, Base(f, offset), page * QUERY_PAGE_SIZE, queryOffset, accountTokens, detailTokens);
    accountTokens', detailTokens' := accountTokens + batch, docs;
    over := |batch| == 0 || |detailTokens'| >= expectedSize;
  }

  /** Fetches pages of rows and their documents until the documents suffice or the rows run out. */
  method FetchPages(rows: seq<Row>, view: View, f: Filter, offset: nat, size: nat)
    returns (accountTokens: seq<Row>, detailTokens: seq<DetailedToken>)
    ensures accountTokens <= Drop(Base(f, offset), rows)
    ensures Covers(view, f, detailTokens, IDs(accountTokens))
    ensures HoldsPage(rows, view, f, offset, size, accountTokens)
    ensures size == 0 && f.source == "" ==> accountTokens == Take(QUERY_PAGE_SIZE, Drop(Base(f, offset), rows))
  {
    accountTokens, detailTokens := [], [];
    var page, over := 0, false;
    while !over
      invariant PagesFetched(rows, view, f, offset, page, accountTokens, detailTokens)
      invariant over ==> HoldsPage(rows, view, f, offset, size, accountTokens)
      invariant size == 0 && f.source == "" ==> page == if over then 1 else 0
      decreases !over, |rows| - |accountTokens|
    {
      over, accountTokens, detailTokens := FetchNext(rows, view, f, offset, size, page, accountTokens, detailTokens);
      page := page + 1;
    }
    TakeIsPrefix(page * QUERY_PAGE_SIZE, Drop(Base(f, offset), rows));
  }

  /** The documents by id; a row is joined exactly when it is visible. */
  method ByIndexID(view: View, f: Filter, detailTokens: seq<DetailedToken>, ghost ids: seq<string>) returns (m: map<string, DetailedToken>)
    requires Covers(view, f, detailTokens, ids)
    ensures forall id :: id in ids ==> (id in m <==> Visible(view, f, id))
    ensures forall id :: id in m ==> Visible(view, f, id) && m[id] == FromView(id, view[id])
  {
    m := map[];
    for i := 0 to |detailTokens|
      invariant forall id :: id in m ==> Visible(view, f, id) && m[id] == FromView(id, view[id])
      invariant forall j :: 0 <= j < i ==> detailTokens[j].indexID in m
    {
      assert detailTokens[i] in detailTokens;
      m := m[detailTokens[i].indexID := detailTokens[i]];
    }
    forall id | id in ids && Visible(view, f, id) ensures id in m {
      var j :| 0 <= j < |detailTokens| && detailTokens[j] == FromView(id, view[id]);
      assert detailTokens[j].indexID in m;
    }
  }

  method SelectPage(accountTokens: seq<Row>, view: View, f: Filter, m: map<string, DetailedToken>, offset: nat, size: nat)
    returns (results: seq<DetailedToken>)
    requires forall id :: id in IDs(accountTokens) ==> (id in m <==> Visible(view, f, id))
    requires forall id :: id in m ==> Visible(view, f, id) && m[id] == FromView(id, view[id])
    ensures var visible := Drop(Skips(f, offset), Joined(view, f, accountTokens));
            results == if size > 0 then Take(size, visible) else visible
  {
    results := [];
    var skipped := 0;
    ghost var joined: seq<DetailedToken> := [];
    for i := 0 to |accountTokens|
      invariant joined == Joined(view, f, accountTokens[..i])
      invariant skipped == |Take(Skips(f, offset), joined)|
      invariant results == Drop(Skips(f, offset), joined)
      invariant size > 0 ==> |results| < size
    {
      var a := accountTokens[i];
      JoinedStep(view, f, accountTokens, i);
      assert IDs(accountTokens)[i] == a.key.indexID;
      if a.key.indexID in m {
        var token := WithAccount(m[a.key.indexID], a);
        skipped, results := SelectOne(f, offset, skipped, results, token, joined);
        joined := joined + [token];
        if |results| == size && size > 0 {
          PageIsComplete(accountTokens, i + 1, view, f, Skips(f, offset), size);
          return;
        }
      }
    }
    assert accountTokens[..|accountTokens|] == accountTokens;
  }

  /** One joined row: skipped while the offset of a page with a source lasts, a result afterwards. */
  method SelectOne(f: Filter, offset: nat, skipped: nat, results: seq<DetailedToken>, token: DetailedToken, ghost joined: seq<DetailedToken>)
    returns (skipped': nat, results': seq<DetailedToken>)
    requires skipped == |Take(Skips(f, offset), joined)| && results == Drop(Skips(f, offset), joined)
    ensures skipped' == |Take(Skips(f, offset), joined + [token])| && results' == Drop(Skips(f, offset), joined + [token])
    ensures |results'| <= |results| + 1
  {
    skipped', results' := skipped, results;
    TakeDropSnoc(Skips(f, offset), joined, token);
    if f.source != "" && skipped < offset {
      skipped' := skipped + 1;
    } else {
      results' := results + [token];
    }
  }

  lemma PageIsComplete(rows: seq<Row>, i: nat, view: View, f: Filter, skip: nat, size: nat)
    requires i <= |rows| && size > 0 && |Drop(skip, Joined(view, f, rows[..i]))| == size
    ensures Drop(skip, Joined(view, f, rows[..i])) == Take(size, Drop(skip, Joined(view, f, rows)))
  {
    PrefixSuffices(rows, rows[..i], view, f, skip, size);
  }

  lemma TakeDropSnoc<T>(n: nat, s: seq<T>, x: T)
    ensures Drop(n, s + [x]) == if |s| >= n then Drop(n, s) + [x] else []
    ensures |Take(n, s + [x])| == if |s| >= n then n else |Take(n, s)| + 1
    ensures |s| >= n <==> |Take(n, s)| == n
    ensures |s| < n ==> Drop(n, s) == []
  {
  }

  lemma JoinedStep(view: View, f: Filter, rows: seq<Row>, i: nat)
    requires i < |rows|
    ensures Joined(view, f, rows[..i + 1]) ==
            Joined(view, f, rows[..i]) + if Visible(view, f, rows[i].key.indexID) then [Join(view, rows[i])] else []
  {
    assert rows[..i + 1][..i] == rows[..i];
  }

  lemma EnoughIsEnough<T>(s: seq<T>, more: seq<T>, skip: nat, size: nat)
    requires more == [] || |s| >= skip + size
    ensures Take(size, Drop(skip, s)) == Take(size, Drop(skip, s + more))
  {
    if more == [] { assert s + more == s; }
  }

  lemma PrefixSuffices(rows: seq<Row>, fetched: seq<Row>, view: View, f: Filter, skip: nat, size: nat)
    requires fetched <= rows && (fetched == rows || |Joined(view, f, fetched)| >= skip + size)
    ensures Take(size, Drop(skip, Joined(view, f, fetched))) == Take(size, Drop(skip, Joined(view, f, rows)))
  {
    if fetched != rows {
      var rest := rows[|fetched|..];
      JoinedConcat(view, f, fetched, rest);
      assert fetched + rest == rows;
      EnoughIsEnough(Joined(view, f, fetched), Joined(view, f, rest), skip, size);
    }
  }

  /** A page of detailed tokens: for a positive size, the page the specification names, whatever the number of queries it took. */
  method GetDetailedAccountTokensByOwners(rows: seq<Row>, view: View, f: Filter, offset: nat, size: nat) returns (results: seq<DetailedToken>)
    ensures size > 0 ==> results == Page(rows, view, f, offset, size)
    ensures size == 0 && f.source == "" ==> results == Joined(view, f, Take(25, Drop(offset, rows)))
    ensures size == 0 && f.source != "" ==> results <= Drop(offset, Joined(view, f, rows))
    ensures size > 0 ==> |results| <= size && forall d :: d in results ==> exists i :: 0 <= i < |rows| && Shows(view, f, rows[i], d)
    ensures offset == 0 && size >= |rows| && size > 0 ==>
              forall i :: 0 <= i < |rows| && rows[i].key.indexID in view && Admits(f, view[rows[i].key.indexID]) ==>
                exists d :: d in results && Shows(view, f, rows[i], d)
  {
    var accountTokens, detailTokens := FetchPages(rows, view, f, offset, size);
    var detailedTokenMap := ByIndexID(view, f, detailTokens, IDs(accountTokens));
    results := SelectPage(accountTokens, view, f, detailedTokenMap, offset, size);
    PrefixSuffices(Drop(Base(f, offset), rows), accountTokens, view, f, Skips(f, offset), size);
    DropOfPrefix(rows, accountTokens, view, f, offset);
    assert Drop(0, rows) == rows && Drop(0, Joined(view, f, accountTokens)) == Joined(view, f, accountTokens);
    assert Drop(0, Joined(view, f, Drop(offset, rows))) == Joined(view, f, Drop(offset, rows));
    PageShows(rows, view, f, offset, size);
  }

  lemma DropOfPrefix(rows: seq<Row>, fetched: seq<Row>, view: View, f: Filter, skip: nat)
    ensures fetched <= rows ==> Drop(skip, Joined(view, f, fetched)) <= Drop(skip, Joined(view, f, rows))
  {
    if fetched <= rows {
      JoinedConcat(view, f, fetched, rows[|fetched|..]);
      assert fetched + rows[|fetched|..] == rows;
    }
  }

  // ---- tiling ----

  lemma TakeDropTiles<T>(s: seq<T>, o: nat, m: nat, n: nat)
    ensures Take(m, Drop(o, s)) + Take(n, Drop(o + m, s)) == Take(m + n, Drop(o, s))
  {
  }

  /** Pages with a source tile: adjacent pages are the longer page, with nothing lost or repeated. */
  lemma SourcePagesTile(rows: seq<Row>, view: View, f: Filter, o: nat, m: nat, n: nat)
    requires f.source != ""
    ensures TilesAt(rows, view, f, o, m, n)
  {
    TakeDropTiles(Joined(view, f, rows), o, m, n);
  }

  predicate VisibleAt(rows: seq<Row>, view: View, f: Filter, i: nat)
    requires i < |rows|
  {
    Visible(view, f, rows[i].key.indexID)
  }

  /** No visible row comes after a hidden one. */
  predicate HiddenLast(rows: seq<Row>, view: View, f: Filter) {
    forall i, j :: 0 <= i < j < |rows| && VisibleAt(rows, view, f, j) ==> VisibleAt(rows, view, f, i)
  }

  ghost predicate PagesTile(rows: seq<Row>, view: View, f: Filter) {
    forall o: nat, m: nat, n: nat :: TilesAt(rows, view, f, o, m, n)
  }

  predicate TilesAt(rows: seq<Row>, view: View, f: Filter, o: nat, m: nat, n: nat) {
    Page(rows, view, f, o, m) + Page(rows, view, f, o + m, n) == Page(rows, view, f, o, m + n)
  }

  lemma {:induction false} VisibleRowsAllJoin(rows: seq<Row>, view: View, f: Filter)
    ensures |Joined(view, f, rows)| <= |rows|
    ensures (forall i :: 0 <= i < |rows| ==> VisibleAt(rows, view, f, i)) ==> |Joined(view, f, rows)| == |rows|
    ensures (forall i :: 0 <= i < |rows| ==> !VisibleAt(rows, view, f, i)) ==> Joined(view, f, rows) == []
  {
    if rows != [] {
      var n := |rows| - 1;
      VisibleRowsAllJoin(rows[..n], view, f);
      forall i | 0 <= i < n ensures VisibleAt(rows[..n], view, f, i) == VisibleAt(rows, view, f, i) { }
      assert VisibleAt(rows, view, f, n) == Visible(view, f, rows[n].key.indexID);
    }
  }

  lemma DropsCommute(rows: seq<Row>, view: View, f: Filter, o: nat)
    requires HiddenLast(rows, view, f)
    ensures Joined(view, f, Drop(o, rows)) == Drop(o, Joined(view, f, rows))
  {
    VisibleRowsAllJoin(rows, view, f);
    if o < |rows| {
      var head, tail := rows[..o], rows[o..];
      JoinedConcat(view, f, head, tail);
      assert head + tail == rows;
      OneSideIsUniform(rows, view, f, o);
      VisibleRowsAllJoin(head, view, f);
      VisibleRowsAllJoin(tail, view, f);
    }
  }

  /** At any cut, all rows before it are visible or none after it is. */
  lemma OneSideIsUniform(rows: seq<Row>, view: View, f: Filter, o: nat)
    requires HiddenLast(rows, view, f) && o <= |rows|
    ensures (forall i :: 0 <= i < o ==> VisibleAt(rows[..o], view, f, i)) ||
            (forall i :: 0 <= i < |rows| - o ==> !VisibleAt(rows[o..], view, f, i))
  {
    if i :| 0 <= i < |rows| - o && VisibleAt(rows[o..], view, f, i) {
      assert VisibleAt(rows, view, f, o + i);
      forall j | 0 <= j < o ensures VisibleAt(rows[..o], view, f, j) { assert VisibleAt(rows, view, f, j); }
    }
  }

  lemma {:induction false} LastHiddenBefore(rows: seq<Row>, view: View, f: Filter, i: nat, j: nat) returns (k: nat)
    requires i < j < |rows| && !VisibleAt(rows, view, f, i) && VisibleAt(rows, view, f, j)
    ensures k + 1 < |rows| && !VisibleAt(rows, view, f, k) && VisibleAt(rows, view, f, k + 1)
    decreases j - i
  {
    if VisibleAt(rows, view, f, i + 1) { k := i; } else { k := LastHiddenBefore(rows, view, f, i + 1, j); }
  }

  lemma {:induction false} JoinedHeads(view: View, f: Filter, rows: seq<Row>, d: DetailedToken)
    requires d in Joined(view, f, rows)
    ensures exists i :: 0 <= i < |rows| && VisibleAt(rows, view, f, i) && d == Join(view, rows[i])
  {
    var n := |rows| - 1;
    if d in Joined(view, f, rows[..n]) {
      JoinedHeads(view, f, rows[..n], d);
      var i :| 0 <= i < n && VisibleAt(rows[..n], view, f, i) && d == Join(view, rows[..n][i]);
      assert VisibleAt(rows, view, f, i);
    } else {
      assert VisibleAt(rows, view, f, n);
    }
  }

  lemma JoinedFrom(rows: seq<Row>, view: View, f: Filter, k: nat)
    requires k < |rows|
    ensures Joined(view, f, Drop(k, rows)) ==
            (if VisibleAt(rows, view, f, k) then [Join(view, rows[k])] else []) + Joined(view, f, Drop(k + 1, rows))
  {
    JoinedConcat(view, f, [rows[k]], Drop(k + 1, rows));
    assert Drop(k, rows) == [rows[k]] + Drop(k + 1, rows);
    JoinedOne(view, f, rows[k]);
  }

  lemma JoinedOne(view: View, f: Filter, a: Row)
    ensures Joined(view, f, [a]) == if Visible(view, f, a.key.indexID) then [Join(view, a)] else []
  {
    assert [a][..0] == [];
  }

  lemma HiddenThenVisibleRepeats(rows: seq<Row>, view: View, f: Filter, k: nat)
    requires f.source == "" && k + 1 < |rows| && !VisibleAt(rows, view, f, k) && VisibleAt(rows, view, f, k + 1)
    requires forall i, j :: 0 <= i < j < |rows| ==> rows[i].key != rows[j].key
    ensures !TilesAt(rows, view, f, k, 1, 1)
  {
    var d, tail := Join(view, rows[k + 1]), Joined(view, f, Drop(k + 2, rows));
    JoinedFrom(rows, view, f, k + 1);
    JoinedFrom(rows, view, f, k);
    HeadDiffers(rows, view, f, k + 1);
    RepeatsHead(d, tail);
    assert Joined(view, f, Drop(k, rows)) == [d] + tail == Joined(view, f, Drop(k + 1, rows));
  }

  lemma HeadDiffers(rows: seq<Row>, view: View, f: Filter, k: nat)
    requires k < |rows| && VisibleAt(rows, view, f, k)
    requires forall i, j :: 0 <= i < j < |rows| ==> rows[i].key != rows[j].key
    ensures var tail := Joined(view, f, Drop(k + 1, rows)); tail != [] ==> tail[0] != Join(view, rows[k])
  {
    var rest := Drop(k + 1, rows);
    if Joined(view, f, rest) != [] {
      var d := Joined(view, f, rest)[0];
      JoinedHeads(view, f, rest, d);
      var i :| 0 <= i < |rest| && VisibleAt(rest, view, f, i) && d == Join(view, rest[i]);
      assert rows[k + 1 + i].key != rows[k].key;
    }
  }

  lemma RepeatsHead<T>(d: T, tail: seq<T>)
    requires tail != [] ==> tail[0] != d
    ensures Take(1, [d] + tail) + Take(1, [d] + tail) != Take(2, [d] + tail)
  {
    assert (Take(1, [d] + tail) + Take(1, [d] + tail))[1] == d;
  }

  /** Pages without a source may repeat rows, but they lose none: a visible row is in the page of every raw range it lies in. */
  lemma UnsourcedPagesLoseNothing(rows: seq<Row>, view: View, f: Filter, o: nat, n: nat, r: nat)
    requires f.source == "" && o <= r < |rows| && r < o + n && VisibleAt(rows, view, f, r)
    ensures Join(view, rows[r]) in Page(rows, view, f, o, n)
  {
    var before, rest := rows[o..r], Drop(r, rows);
    assert Drop(o, rows) == before + rest;
    JoinedConcat(view, f, before, rest);
    JoinedFrom(rows, view, f, r);
    VisibleRowsAllJoin(before, view, f);
    InTake(Joined(view, f, before), Join(view, rows[r]), Joined(view, f, Drop(r + 1, rows)), n);
  }

  lemma InTake<T>(before: seq<T>, x: T, after: seq<T>, n: nat)
    requires |before| < n
    ensures x in Take(n, before + ([x] + after))
  {
    assert Take(n, before + ([x] + after))[|before|] == x;
  }

  /**
    Exactly when pages without a source tile: when no hidden row comes before a visible one. Otherwise
    two adjacent pages repeat a token, since the offset counts the hidden rows.
   */
  lemma UnsourcedPagesTileIff(rows: seq<Row>, view: View, f: Filter)
    requires f.source == ""
    requires forall i, j :: 0 <= i < j < |rows| ==> rows[i].key != rows[j].key
    ensures PagesTile(rows, view, f) <==> HiddenLast(rows, view, f)
  {
    if HiddenLast(rows, view, f) {
      forall o: nat, m: nat, n: nat ensures TilesAt(rows, view, f, o, m, n) {
        HiddenLastTiles(rows, view, f, o, m, n);
      }
    } else {
      var i, j :| 0 <= i < j < |rows| && VisibleAt(rows, view, f, j) && !VisibleAt(rows, view, f, i);
      var k := LastHiddenBefore(rows, view, f, i, j);
      HiddenThenVisibleRepeats(rows, view, f, k);
    }
  }

  lemma HiddenLastTiles(rows: seq<Row>, view: View, f: Filter, o: nat, m: nat, n: nat)
    requires f.source == "" && HiddenLast(rows, view, f)
    ensures TilesAt(rows, view, f, o, m, n)
  {
    DropsCommute(rows, view, f, o);
    DropsCommute(rows, view, f, o + m);
    SlicesTile(Joined(view, f, rows), Joined(view, f, Drop(o, rows)), Joined(view, f, Drop(o + m, rows)), o, m, n);
  }

  lemma SlicesTile<T>(s: seq<T>, a: seq<T>, b: seq<T>, o: nat, m: nat, n: nat)
    requires a == Drop(o, s) && b == Drop(o + m, s)
    ensures Take(m, a) + Take(n, b) == Take(m + n, a)
  {
    TakeDropTiles(s, o, m, n);
  }

  // ---- collections ----

  /** A query with skip and limit in which limit zero is no limit. */
  function Find<T>(rows: seq<T>, skip: nat, limit: nat): seq<T> {
    if limit == 0 then Drop(skip, rows) else Slice(rows, skip, limit)
  }

  /** What a page of collections holds: a size that is a multiple of the page size stands for all that follows the offset. */
  function CollectionPage<T>(found: seq<T>, offset: nat, size: nat): seq<T> {
    if size % QUERY_PAGE_SIZE == 0 then Drop(offset, found) else Take(size, Drop(offset, found))
  }

  /** The collections of some creators. The last query of a size that is a multiple of the page size has limit zero. */
  method GetCollectionsByCreators<T>(found: seq<T>, offset: nat, size: nat) returns (collections: seq<T>)
    ensures collections == CollectionPage(found, offset, size)
    ensures collections == if size % 25 == 0 then Drop(offset, found) else Take(size, Drop(offset, found))
  {
    collections := [];
    var page := 0;
    ghost var fetched := 0;
    while true
      invariant fetched == page * QUERY_PAGE_SIZE <= size && collections == Take(fetched, Drop(offset, found))
      decreases size - fetched
    {
      var isLastPage := false;
      var queryOffset := offset + page * QUERY_PAGE_SIZE;
      var queryLimit := QUERY_PAGE_SIZE;
      if queryOffset + QUERY_PAGE_SIZE > offset + size {
        queryLimit, isLastPage := offset + size - queryOffset, true;
        RestOfPages(size, page);
      }
      NextFind(found, offset, fetched, queryLimit);
      collections := collections + Find(found, queryOffset, queryLimit);
      if |collections| < queryLimit || isLastPage {
        ShortIsAll(Drop(offset, found), fetched + queryLimit, size);
        return;
      }
      page, fetched := page + 1, fetched + QUERY_PAGE_SIZE;
    }
  }

  lemma RestOfPages(size: nat, page: nat)
    requires page * QUERY_PAGE_SIZE <= size < page * QUERY_PAGE_SIZE + QUERY_PAGE_SIZE
    ensures size % QUERY_PAGE_SIZE == size - page * QUERY_PAGE_SIZE
  {
  }

  lemma ShortIsAll<T>(s: seq<T>, n: nat, size: nat)
    requires n <= size
    ensures |Take(n, s)| < n ==> Take(n, s) == s == Take(size, s)
  {
  }

  lemma NextFind<T>(rows: seq<T>, base: nat, k: nat, limit: nat)
    ensures Take(k, Drop(base, rows)) + Find(rows, base + k, limit) ==
            if limit == 0 then Drop(base, rows) else Take(k + limit, Drop(base, rows))
  {
  }

  /** Exactly when a page of collections is not longer than asked for: the size is no multiple of the page size, or nothing follows the page. */
  lemma CollectionsArePagedIff<T>(found: seq<T>, offset: nat, size: nat)
    ensures CollectionPage(found, offset, size) == Take(size, Drop(offset, found)) <==> size % 25 != 0 || |found| <= offset + size
  {
    assert |found| > offset + size ==> |Drop(offset, found)| > |Take(size, Drop(offset, found))|;
  }
}
