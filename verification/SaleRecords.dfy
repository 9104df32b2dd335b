/**
  The sales time series: records are validated one by one, documents with the same key are deleted as
  the records pass, and the new documents are inserted together at the end. The SHA-1 of the key text is
  a parameter `hash`.
 */
module SaleRecords {
  import opened Options
  import opened CanonicalKeys

  datatype Json = Null | Text(text: string) | List(items: seq<Json>) | Object(fields: map<string, Json>) | Other

  /** A record as decoded from a request; a time or decimal that does not parse is None. */
  datatype Record = Record(
    timestamp: Option<int>, metadata: map<string, Json>, values: map<string, Option<int>>, shares: map<string, Option<int>>)

  datatype Doc = Doc(timestamp: int, metadata: map<string, Json>, values: map<string, int>, shares: map<string, int>)

  const RESERVED := {"_id", "id", "metadata", "shares", "timestamp", "values", "uniqueID"}

  // ---- the key of a record ----

  function TextOf(j: Option<Json>): Option<string> {
    if j.Some? && j.value.Text? then Some(j.value.text) else None
  }

  function Field(m: map<string, Json>, k: string): Option<Json> {
    if k in m then Some(m[k]) else None
  }

  /** A bundle item's contract: absent and null count as empty. */
  function ContractOf(item: map<string, Json>): Option<string> {
    var c := Field(item, "contractAddress");
    if c.None? || c.value.Null? then Some("") else TextOf(c)
  }

  /** `blockchain-contract-token`; None when the item or the record's blockchain is not of the form the code needs. */
  function TokenKey(metadata: map<string, Json>, item: Json): Option<string> {
    if !item.Object? then None else
    var chain, c, t := TextOf(Field(metadata, "blockchain")), ContractOf(item.fields), TextOf(Field(item.fields, "tokenID"));
    if chain.None? || c.None? || t.None? then None else Some(chain.value + "-" + c.value + "-" + t.value)
  }

  function TokenKeys(metadata: map<string, Json>, items: seq<Json>): Option<seq<string>> {
    if items == [] then Some([]) else
    var before, last := TokenKeys(metadata, items[..|items| - 1]), TokenKey(metadata, items[|items| - 1]);
    if before.None? || last.None? then None else Some(before.value + [last.value])
  }

  /** A record without a bundle has no token keys. */
  function BundleKeys(metadata: map<string, Json>): Option<seq<string>> {
    if "bundleTokenInfo" !in metadata then Some([])
    else if !metadata["bundleTokenInfo"].List? then None
    else TokenKeys(metadata, metadata["bundleTokenInfo"].items)
  }

  function Texts(items: seq<Json>): Option<seq<string>> {
    if items == [] then Some([]) else
    var before, last := Texts(items[..|items| - 1]), items[|items| - 1];
    if before.None? || !last.Text? then None else Some(before.value + [last.text])
  }

  function TransactionIDs(metadata: map<string, Json>): Option<seq<string>> {
    if "transactionIDs" in metadata && metadata["transactionIDs"].List? then Texts(metadata["transactionIDs"].items) else None
  }

  /** The unique id of a record; None when the record fails before it is computed. */
  function UniqueID(r: Record, hash: string -> string): Option<string> {
    var tokens, txs := BundleKeys(r.metadata), TransactionIDs(r.metadata);
    if r.timestamp.None? || r.metadata.Keys * RESERVED != {} || tokens.None? || txs.None? then None
    else Some(hash(PreHash(txs.value, tokens.value)))
  }

  /** The checks on values and shares, which a repeated key skips. */
  predicate Converts(m: map<string, Option<int>>) {
    m.Keys * RESERVED == {} && forall k :: k in m ==> m[k].Some?
  }

  function Converted(m: map<string, Option<int>>): map<string, int> {
    map k | k in m && m[k].Some? :: m[k].value
  }

  function DocOf(r: Record, uniqueID: string): Doc
    requires r.timestamp.Some?
  {
    Doc(r.timestamp.value, r.metadata["uniqueID" := Text(uniqueID)], Converted(r.values), Converted(r.shares))
  }

  function KeyOf(d: Doc): Option<Json> {
    Field(d.metadata, "uniqueID")
  }

  // ---- a batch ----

  /** The first document per key. */
  function Firsts(records: seq<Record>, hash: string -> string): map<string, Doc> {
    if records == [] then map[] else
    var m, r := Firsts(records[..|records| - 1], hash), records[|records| - 1];
    var id := UniqueID(r, hash);
    if id.None? || id.value in m then m else m[id.value := DocOf(r, id.value)]
  }

  /** Record i passes: it has a key, and if it is the first with that key, its values and shares convert. */
  predicate Passes(records: seq<Record>, hash: string -> string, i: nat)
    requires i < |records|
  {
    var id := UniqueID(records[i], hash);
    id.Some? && (id.value !in Firsts(records[..i], hash) ==> Converts(records[i].values) && Converts(records[i].shares))
  }

  predicate Acceptable(records: seq<Record>, hash: string -> string, n: nat)
    requires n <= |records|
  {
    forall i :: 0 <= i < n ==> Passes(records, hash, i)
  }

  /** The documents none of the keys names. */
  function Without(docs: seq<Doc>, keys: set<string>): seq<Doc> {
    if docs == [] then [] else
    var d := docs[|docs| - 1];
    Without(docs[..|docs| - 1], keys) + if Named(d, keys) then [] else [d]
  }

  /** The map's documents, each once, in some order. */
  ghost predicate Lists(docs: seq<Doc>, m: map<string, Doc>) {
    && |docs| == |m|
    && (forall i :: 0 <= i < |docs| ==> exists k :: k in m && m[k] == docs[i])
    && (forall k :: k in m ==> m[k] in docs)
    && (forall i, j :: 0 <= i < j < |docs| ==> KeyOf(docs[i]) != KeyOf(docs[j]))
  }

  lemma {:induction false} FirstsCarryTheirKeys(records: seq<Record>, hash: string -> string)
    ensures forall k :: k in Firsts(records, hash) ==> KeyOf(Firsts(records, hash)[k]) == Some(Text(k))
  {
    if records != [] {
      FirstsCarryTheirKeys(records[..|records| - 1], hash);
    }
  }

  lemma {:induction false} WithoutTwice(docs: seq<Doc>, a: set<string>, b: set<string>)
    ensures Without(Without(docs, a), b) == Without(docs, a + b)
  {
    if docs != [] {
      var n := |docs| - 1;
      WithoutTwice(docs[..n], a, b);
      var before, d := Without(docs[..n], a), docs[n];
      assert (before + [d])[..|before|] == before;
      assert before + [] == before;
    }
  }

  /** The insertion of the collected documents, in the order iterating over the map happens to take. */
  method ListDocs(m: map<string, Doc>) returns (docs: seq<Doc>)
    requires forall k :: k in m ==> KeyOf(m[k]) == Some(Text(k))
    ensures Lists(docs, m)
  {
    docs := [];
    var todo := m.Keys;
    ghost var ks: seq<string> := [];
    while todo != {}
      invariant todo <= m.Keys && |docs| + |todo| == |m|
      invariant AreDocsOf(docs, m, ks)
      invariant forall k :: k in ks <==> k in m && k !in todo
    {
      var k :| k in todo;
      OneMoreDoc(docs, m, ks, k);
      docs, ks := docs + [m[k]], ks + [k];
      todo := todo - {k};
    }
    ListedByKeys(docs, m, ks);
  }

  ghost predicate AreDocsOf(docs: seq<Doc>, m: map<string, Doc>, ks: seq<string>) {
    && |docs| == |ks|
    && (forall i :: 0 <= i < |ks| ==> ks[i] in m && docs[i] == m[ks[i]])
    && (forall i, j :: 0 <= i < j < |ks| ==> ks[i] != ks[j])
  }

  lemma OneMoreDoc(docs: seq<Doc>, m: map<string, Doc>, ks: seq<string>, k: string)
    requires AreDocsOf(docs, m, ks) && k in m && k !in ks
    ensures AreDocsOf(docs + [m[k]], m, ks + [k])
    ensures forall j :: j in ks + [k] <==> j in ks || j == k
  {
    forall i | 0 <= i < |ks| ensures ks[i] != k { assert ks[i] in ks; }
  }

  lemma ListedByKeys(docs: seq<Doc>, m: map<string, Doc>, ks: seq<string>)
    requires forall k :: k in m ==> KeyOf(m[k]) == Some(Text(k))
    requires AreDocsOf(docs, m, ks) && |docs| == |m| && forall k :: k in ks <==> k in m
    ensures Lists(docs, m)
  {
    forall k | k in m ensures m[k] in docs {
      assert k in ks;
      var i :| 0 <= i < |ks| && ks[i] == k;
      assert docs[i] == m[k];
    }
  }

  datatype Verdict = Fails | Repeated | New(uniqueID: string, doc: Doc)

  /** One record: its key, then, unless the key was seen, its values and shares. */
  method CheckRecord(records: seq<Record>, hash: string -> string, i: nat, insertsMap: map<string, Doc>) returns (v: Verdict)
    requires i < |records| && insertsMap == Firsts(records[..i], hash)
    ensures v.Fails? <==> !Passes(records, hash, i)
    ensures v.Repeated? ==> Firsts(records[..i + 1], hash) == insertsMap
    ensures v.New? ==> v.uniqueID !in insertsMap && Firsts(records[..i + 1], hash) == insertsMap[v.uniqueID := v.doc]
  {
    assert records[..i + 1][..i] == records[..i];
    var r := records[i];
    var id := UniqueID(r, hash);
    if id.None? { return Fails; }
    if id.value in insertsMap { return Repeated; }
    if !Converts(r.values) { return Fails; }
    if !Converts(r.shares) { return Fails; }
    v := New(id.value, DocOf(r, id.value));
  }

  class SalesStore {
    var docs: seq<Doc>

    constructor (docs: seq<Doc>)
      ensures this.docs == docs
    {
      this.docs := docs;
    }

    /**
      On success exactly the documents with a key of the batch are replaced, by the first record of each
      key. On failure nothing is inserted, and the documents of the keys before the failing record are gone.
     */
    method WriteTimeSeriesData(records: seq<Record>, hash: string -> string) returns (ok: bool, ghost inserted: seq<Doc>, ghost n: nat)
      modifies this
      ensures ok <==> Acceptable(records, hash, |records|)
      ensures ok ==> Lists(inserted, Firsts(records, hash)) && docs == Without(old(docs), Firsts(records, hash).Keys) + inserted
      ensures ok ==> forall d :: d in inserted ==> ComesFrom(d, records, hash)
      ensures ok ==> forall d :: d in docs <==> d in inserted || (d in old(docs) && !HasKeyIn(d, Firsts(records, hash).Keys))
      ensures !ok ==> n < |records| && forall d :: d in docs <==> d in old(docs) && !HasKeyIn(d, Firsts(records[..n], hash).Keys)
      ensures ok ==> forall i :: 0 <= i < |records| ==> UniqueID(records[i], hash).Some? && UniqueID(records[i], hash).value in Firsts(records, hash)
      ensures !ok ==>
                && n < |records| && Acceptable(records, hash, n) && !Passes(records, hash, n)
                && docs == Without(old(docs), Firsts(records[..n], hash).Keys)
    {
      inserted := [];
      var insertsMap: map<string, Doc>;
      ghost var before := docs;
      ok, insertsMap, n := DeleteAndCollect(records, hash);
      WithoutIs(before, insertsMap.Keys);
      if !ok { return; }
      assert records[..|records|] == records;
      FirstsCarryTheirKeys(records, hash);
      var inserts := ListDocs(insertsMap);
      docs := docs + inserts;
      inserted := inserts;
      InsertedTell(records, hash, inserted);
      RecordsAreKept(records, hash);
    }

    /** The loop over the records: it deletes as it goes, and collects what is to be inserted. */
    method DeleteAndCollect(records: seq<Record>, hash: string -> string) returns (ok: bool, insertsMap: map<string, Doc>, ghost n: nat)
      modifies this
      ensures n <= |records| && Acceptable(records, hash, n)
      ensures ok <==> n == |records|
      ensures !ok ==> !Passes(records, hash, n)
      ensures insertsMap == Firsts(records[..n], hash)
      ensures docs == Without(old(docs), insertsMap.Keys)
    {
      insertsMap := map[];
      NothingNamed(docs);
      assert insertsMap.Keys == {};
      for i := 0 to |records|
        invariant Acceptable(records, hash, i)
        invariant insertsMap == Firsts(records[..i], hash)
        invariant docs == Without(old(docs), insertsMap.Keys)
      {
        var v := CheckRecord(records, hash, i, insertsMap);
        if v.Fails? { return false, insertsMap, i; }
        if v.New? {
          WithoutTwice(old(docs), insertsMap.Keys, {v.uniqueID});
          docs := Without(docs, {v.uniqueID});
          insertsMap := insertsMap[v.uniqueID := v.doc];
          assert insertsMap.Keys == Firsts(records[..i], hash).Keys + {v.uniqueID};
        }
      }
      ok, n := true, |records|;
    }
  }

  lemma {:induction false} NothingNamed(docs: seq<Doc>)
    ensures Without(docs, {}) == docs
  {
    if docs != [] {
      NothingNamed(docs[..|docs| - 1]);
    }
  }

  // ---- what a write keeps ----

  predicate Named(d: Doc, keys: set<string>) {
    KeyOf(d).Some? && KeyOf(d).value.Text? && KeyOf(d).value.text in keys
  }

  /** At most one document per unique id. */
  predicate KeysUnique(docs: seq<Doc>) {
    forall i, j :: 0 <= i < j < |docs| && KeyOf(docs[i]).Some? ==> KeyOf(docs[i]) != KeyOf(docs[j])
  }

  lemma {:induction false} WithoutKeeps(docs: seq<Doc>, keys: set<string>)
    ensures forall d :: d in Without(docs, keys) <==> d in docs && !Named(d, keys)
    ensures |Without(docs, keys)| <= |docs|
  {
    if docs != [] {
      var n := |docs| - 1;
      WithoutKeeps(docs[..n], keys);
      assert docs == docs[..n] + [docs[n]];
    }
  }

  lemma {:induction false} WithoutKeepsUnique(docs: seq<Doc>, keys: set<string>)
    requires KeysUnique(docs)
    ensures KeysUnique(Without(docs, keys))
  {
    if docs != [] {
      var n := |docs| - 1;
      assert KeysUnique(docs[..n]);
      WithoutKeepsUnique(docs[..n], keys);
      WithoutKeeps(docs[..n], keys);
      forall d | d in docs[..n] && KeyOf(d).Some? ensures KeyOf(d) != KeyOf(docs[n]) { }
    }
  }

  /** The documents of a listing are named by the batch's keys, and every key names one. */
  lemma ListedAreNamed(inserted: seq<Doc>, records: seq<Record>, hash: string -> string)
    requires Lists(inserted, Firsts(records, hash))
    ensures forall d :: d in inserted ==> Named(d, Firsts(records, hash).Keys)
    ensures forall k :: k in Firsts(records, hash) ==> exists d :: d in inserted && KeyOf(d) == Some(Text(k))
  {
    FirstsCarryTheirKeys(records, hash);
    forall d | d in inserted ensures Named(d, Firsts(records, hash).Keys) {
      var i :| 0 <= i < |inserted| && inserted[i] == d;
    }
    forall k | k in Firsts(records, hash) ensures exists d :: d in inserted && KeyOf(d) == Some(Text(k)) {
      assert Firsts(records, hash)[k] in inserted;
    }
  }

  /** A successful write keeps keys unique, and leaves one document for every key of the batch: that of the key's first record. */
  lemma WriteKeepsKeysUnique(docs: seq<Doc>, records: seq<Record>, hash: string -> string, inserted: seq<Doc>)
    requires KeysUnique(docs) && Lists(inserted, Firsts(records, hash))
    ensures var docs' := Without(docs, Firsts(records, hash).Keys) + inserted;
            && KeysUnique(docs')
            && forall k :: k in Firsts(records, hash) ==>
                 Firsts(records, hash)[k] in docs' && forall d :: d in docs' && KeyOf(d) == Some(Text(k)) ==> d == Firsts(records, hash)[k]
  {
    var m := Firsts(records, hash);
    var kept := Without(docs, m.Keys);
    var docs' := kept + inserted;
    WithoutKeeps(docs, m.Keys);
    WithoutKeepsUnique(docs, m.Keys);
    ListedAreNamed(inserted, records, hash);
    FirstsCarryTheirKeys(records, hash);
    forall i, j | 0 <= i < j < |docs'| && KeyOf(docs'[i]).Some? ensures KeyOf(docs'[i]) != KeyOf(docs'[j]) {
      if i < |kept| <= j {
        assert kept[i] in kept && inserted[j - |kept|] in inserted;
      }
    }
    forall k, d | k in m && d in docs' && KeyOf(d) == Some(Text(k)) ensures d == m[k] {
      assert Named(d, m.Keys);
      assert d in inserted;
      var i :| 0 <= i < |inserted| && inserted[i] == d;
    }
  }

  lemma {:induction false} WithoutConcat(a: seq<Doc>, b: seq<Doc>, keys: set<string>)
    ensures Without(a + b, keys) == Without(a, keys) + Without(b, keys)
  {
    if b == [] {
      assert a + b == a;
    } else {
      assert (a + b)[..|a + b| - 1] == a + b[..|b| - 1];
      WithoutConcat(a, b[..|b| - 1], keys);
    }
  }

  lemma {:induction false} AllNamedGoes(docs: seq<Doc>, keys: set<string>)
    requires forall d :: d in docs ==> Named(d, keys)
    ensures Without(docs, keys) == []
  {
    if docs != [] {
      AllNamedGoes(docs[..|docs| - 1], keys);
      assert docs[|docs| - 1] in docs;
    }
  }

  lemma {:induction false} SameListing(a: seq<Doc>, b: seq<Doc>, m: map<string, Doc>)
    requires Lists(a, m) && Lists(b, m)
    ensures multiset(a) == multiset(b)
  {
    forall d ensures multiset(a)[d] == multiset(b)[d] {
      ListedOnce(a, m, d);
      ListedOnce(b, m, d);
    }
  }

  lemma OnlyOnce(a: seq<Doc>, i: nat)
    requires i < |a| && forall j :: 0 <= j < |a| && j != i ==> a[j] != a[i]
    ensures multiset(a)[a[i]] == 1
  {
    assert a == a[..i] + [a[i]] + a[i + 1..];
    assert a[i] !in a[..i] && a[i] !in a[i + 1..];
  }

  lemma ListedOnce(a: seq<Doc>, m: map<string, Doc>, d: Doc)
    requires Lists(a, m)
    ensures multiset(a)[d] == if exists k :: k in m && m[k] == d then 1 else 0
  {
    if d in a {
      var i :| 0 <= i < |a| && a[i] == d;
      forall j | 0 <= j < |a| && j != i ensures a[j] != a[i] {
        assert KeyOf(a[j]) != KeyOf(a[i]);
      }
      OnlyOnce(a, i);
    } else {
      assert d !in multiset(a);
    }
  }

  /** Writing the same records again leaves the same documents. */
  lemma WritingAgainChangesNothing(docs: seq<Doc>, records: seq<Record>, hash: string -> string, inserted: seq<Doc>, inserted': seq<Doc>)
    requires Lists(inserted, Firsts(records, hash)) && Lists(inserted', Firsts(records, hash))
    ensures var keys := Firsts(records, hash).Keys;
            multiset(Without(Without(docs, keys) + inserted, keys) + inserted') == multiset(Without(docs, keys) + inserted)
  {
    var keys := Firsts(records, hash).Keys;
    NamedGo(docs, keys, inserted) by {
      ListedAreNamed(inserted, records, hash);
    }
    SameListing(inserted, inserted', Firsts(records, hash));
  }

  lemma NamedGo(docs: seq<Doc>, keys: set<string>, inserted: seq<Doc>)
    requires forall d :: d in inserted ==> Named(d, keys)
    ensures Without(Without(docs, keys) + inserted, keys) == Without(docs, keys)
  {
    WithoutConcat(Without(docs, keys), inserted, keys);
    WithoutTwice(docs, keys, keys);
    assert keys + keys == keys;
    AllNamedGoes(inserted, keys);
    assert Without(docs, keys) + [] == Without(docs, keys);
  }

  /**
    The code stamps the unique id into the caller's own metadata. A record that went through a write is
    therefore refused if it is submitted again as it is.
   */
  lemma StampedRecordFails(r: Record, hash: string -> string, records: seq<Record>, i: nat)
    requires i < |records| && UniqueID(r, hash).Some?
    requires records[i] == r.(metadata := DocOf(r, UniqueID(r, hash).value).metadata)
    ensures !Passes(records, hash, i)
  {
    assert "uniqueID" in records[i].metadata.Keys * RESERVED;
  }

  // ---- records in plain terms ----

  predicate IsText(m: map<string, Json>, k: string) {
    k in m && m[k].Text?
  }

  predicate NoReservedName(names: set<string>) {
    && "_id" !in names && "id" !in names && "metadata" !in names && "shares" !in names
    && "timestamp" !in names && "values" !in names && "uniqueID" !in names
  }

  /** An item of a bundle: an object with a token id, and a contract that is text, null or absent; the record names its blockchain. */
  predicate IsItem(metadata: map<string, Json>, item: Json) {
    && item.Object? && IsText(metadata, "blockchain") && IsText(item.fields, "tokenID")
    && ("contractAddress" in item.fields ==> item.fields["contractAddress"].Null? || item.fields["contractAddress"].Text?)
  }

  /** What a record must have for a key: a time that parses, no reserved name, a list of transaction ids, and, if there is a bundle, a list of items. */
  predicate HasKey(r: Record) {
    && r.timestamp.Some? && NoReservedName(r.metadata.Keys)
    && "transactionIDs" in r.metadata && r.metadata["transactionIDs"].List?
    && (forall i :: 0 <= i < |r.metadata["transactionIDs"].items| ==> r.metadata["transactionIDs"].items[i].Text?)
    && ("bundleTokenInfo" in r.metadata ==>
         && r.metadata["bundleTokenInfo"].List?
         && forall i :: 0 <= i < |r.metadata["bundleTokenInfo"].items| ==> IsItem(r.metadata, r.metadata["bundleTokenInfo"].items[i]))
  }

  /** What values and shares must be: decimals that parse, under names that are not reserved. */
  predicate AllDecimals(m: map<string, Option<int>>) {
    NoReservedName(m.Keys) && forall k :: k in m ==> m[k].Some?
  }

  lemma ReservedNames(names: set<string>)
    ensures names * RESERVED == {} <==> NoReservedName(names)
  {
    if names * RESERVED == {} {
      forall n | n in RESERVED ensures n !in names { assert n !in names * RESERVED; }
    }
  }

  lemma {:induction false} TextsAre(items: seq<Json>)
    ensures Texts(items).Some? <==> forall i :: 0 <= i < |items| ==> items[i].Text?
    ensures Texts(items).Some? ==> |Texts(items).value| == |items| && forall i :: 0 <= i < |items| ==> items[i].Text? && Texts(items).value[i] == items[i].text
  {
    if items != [] {
      var n := |items| - 1;
      TextsAre(items[..n]);
      assert forall i :: 0 <= i < n ==> items[..n][i] == items[i];
    }
  }

  /** The text of a bundle item's key. */
  predicate IsKeyOf(key: string, metadata: map<string, Json>, item: Json)
    requires IsItem(metadata, item)
  {
    var contract := if "contractAddress" in item.fields && item.fields["contractAddress"].Text? then item.fields["contractAddress"].text else "";
    key == metadata["blockchain"].text + "-" + contract + "-" + item.fields["tokenID"].text
  }

  lemma ItemKey(metadata: map<string, Json>, item: Json)
    ensures TokenKey(metadata, item).Some? <==> IsItem(metadata, item)
    ensures TokenKey(metadata, item).Some? ==> IsKeyOf(TokenKey(metadata, item).value, metadata, item)
  {
  }

  lemma {:induction false} ItemKeys(metadata: map<string, Json>, items: seq<Json>)
    ensures TokenKeys(metadata, items).Some? <==> forall i :: 0 <= i < |items| ==> IsItem(metadata, items[i])
    ensures TokenKeys(metadata, items).Some? ==>
              |TokenKeys(metadata, items).value| == |items|
              && forall i :: 0 <= i < |items| ==> IsItem(metadata, items[i]) && IsKeyOf(TokenKeys(metadata, items).value[i], metadata, items[i])
  {
    if items != [] {
      var n := |items| - 1;
      ItemKeys(metadata, items[..n]);
      ItemKey(metadata, items[n]);
      assert forall i :: 0 <= i < n ==> items[..n][i] == items[i];
    }
  }

  /**
    Exactly when a record has a unique id, and what the id is made of: the transaction ids, and for every
    bundle item its blockchain, contract and token id.
   */
  lemma UniqueIDTells(r: Record, hash: string -> string)
    ensures UniqueID(r, hash).Some? <==> HasKey(r)
    ensures HasKey(r) ==>
              var items := if "bundleTokenInfo" in r.metadata then r.metadata["bundleTokenInfo"].items else [];
              exists txs, tokens ::
                && UniqueID(r, hash) == Some(hash(PreHash(txs, tokens)))
                && |txs| == |r.metadata["transactionIDs"].items| && |tokens| == |items|
                && (forall i :: 0 <= i < |txs| ==> r.metadata["transactionIDs"].items[i] == Text(txs[i]))
                && (forall i :: 0 <= i < |tokens| ==> IsItem(r.metadata, items[i]) && IsKeyOf(tokens[i], r.metadata, items[i]))
  {
    ReservedNames(r.metadata.Keys);
    if "transactionIDs" in r.metadata && r.metadata["transactionIDs"].List? { TextsAre(r.metadata["transactionIDs"].items); }
    if "bundleTokenInfo" in r.metadata && r.metadata["bundleTokenInfo"].List? { ItemKeys(r.metadata, r.metadata["bundleTokenInfo"].items); }
    if HasKey(r) {
      var txs, tokens := TransactionIDs(r.metadata).value, BundleKeys(r.metadata).value;
      assert UniqueID(r, hash) == Some(hash(PreHash(txs, tokens)));
    }
  }

  /** The document of a record: its time, its metadata with the unique id added, its decimals. */
  predicate IsDocOf(d: Doc, r: Record, uniqueID: string) {
    && r.timestamp == Some(d.timestamp)
    && d.metadata.Keys == r.metadata.Keys + {"uniqueID"} && d.metadata["uniqueID"] == Text(uniqueID)
    && (forall k :: k in r.metadata && k != "uniqueID" ==> d.metadata[k] == r.metadata[k])
    && d.values.Keys == r.values.Keys && (forall k :: k in r.values ==> r.values[k] == Some(d.values[k]))
    && d.shares.Keys == r.shares.Keys && (forall k :: k in r.shares ==> r.shares[k] == Some(d.shares[k]))
  }

  /** Whether record i is the first of its key. */
  predicate IsFirst(records: seq<Record>, hash: string -> string, i: nat, key: string) {
    && i < |records| && UniqueID(records[i], hash) == Some(key)
    && forall j :: 0 <= j < i ==> UniqueID(records[j], hash) != Some(key)
  }

  lemma DocTells(r: Record, key: string)
    requires r.timestamp.Some? && Converts(r.values) && Converts(r.shares)
    ensures IsDocOf(DocOf(r, key), r, key)
  {
    assert Converted(r.values).Keys == r.values.Keys && Converted(r.shares).Keys == r.shares.Keys;
  }

  lemma {:induction false} KeysOfFirsts(records: seq<Record>, hash: string -> string, key: string)
    ensures key in Firsts(records, hash) <==> exists i :: 0 <= i < |records| && UniqueID(records[i], hash) == Some(key)
  {
    if records != [] {
      var n := |records| - 1;
      KeysOfFirsts(records[..n], hash, key);
      if i :| 0 <= i < n && UniqueID(records[..n][i], hash) == Some(key) { assert UniqueID(records[i], hash) == Some(key); }
      if i :| 0 <= i < n && UniqueID(records[i], hash) == Some(key) { assert UniqueID(records[..n][i], hash) == Some(key); }
    }
  }

  /** In an acceptable batch the document of every key is that of its first record. */
  lemma {:induction false} FirstsTell(records: seq<Record>, hash: string -> string, key: string) returns (i: nat)
    requires Acceptable(records, hash, |records|) && key in Firsts(records, hash)
    ensures IsFirst(records, hash, i, key) && IsDocOf(Firsts(records, hash)[key], records[i], key)
  {
    var n := |records| - 1;
    if key in Firsts(records[..n], hash) {
      forall j | 0 <= j < n ensures Passes(records[..n], hash, j) {
        assert records[..n][..j] == records[..j] && Passes(records, hash, j);
      }
      i := FirstsTell(records[..n], hash, key);
      assert forall j :: 0 <= j < n ==> records[..n][j] == records[j];
    } else {
      i := n;
      assert Passes(records, hash, n);
      DocTells(records[n], key);
      forall j | 0 <= j < n ensures UniqueID(records[j], hash) != Some(key) {
        KeysOfFirsts(records[..n], hash, key);
        assert records[..n][j] == records[j];
      }
    }
  }

  /** Whether a document's unique id is one of the keys. */
  predicate HasKeyIn(d: Doc, keys: set<string>) {
    IsText(d.metadata, "uniqueID") && d.metadata["uniqueID"].text in keys
  }

  lemma WithoutIs(docs: seq<Doc>, keys: set<string>)
    ensures forall d :: d in Without(docs, keys) <==> d in docs && !HasKeyIn(d, keys)
  {
    WithoutKeeps(docs, keys);
  }

  /** Whether a document is that of the first record of some key. */
  ghost predicate ComesFrom(d: Doc, records: seq<Record>, hash: string -> string) {
    exists i: nat, key :: IsFirst(records, hash, i, key) && IsDocOf(d, records[i], key)
  }

  lemma InsertedTell(records: seq<Record>, hash: string -> string, inserted: seq<Doc>)
    requires Acceptable(records, hash, |records|) && Lists(inserted, Firsts(records, hash))
    ensures forall d :: d in inserted ==> ComesFrom(d, records, hash)
  {
    forall d | d in inserted ensures ComesFrom(d, records, hash) {
      var i, key := InsertedDocTells(records, hash, inserted, d);
      assert IsFirst(records, hash, i, key) && IsDocOf(d, records[i], key);
    }
  }

  lemma RecordsAreKept(records: seq<Record>, hash: string -> string)
    requires Acceptable(records, hash, |records|)
    ensures forall i :: 0 <= i < |records| ==> UniqueID(records[i], hash).Some? && UniqueID(records[i], hash).value in Firsts(records, hash)
  {
    forall i | 0 <= i < |records| ensures UniqueID(records[i], hash).Some? && UniqueID(records[i], hash).value in Firsts(records, hash) {
      RecordIsKept(records, hash, i);
    }
  }

  lemma InsertedDocTells(records: seq<Record>, hash: string -> string, inserted: seq<Doc>, d: Doc) returns (i: nat, key: string)
    requires Acceptable(records, hash, |records|) && Lists(inserted, Firsts(records, hash)) && d in inserted
    ensures IsFirst(records, hash, i, key) && IsDocOf(d, records[i], key)
  {
    var j :| 0 <= j < |inserted| && inserted[j] == d;
    key :| key in Firsts(records, hash) && Firsts(records, hash)[key] == d;
    i := FirstsTell(records, hash, key);
  }

  lemma RecordIsKept(records: seq<Record>, hash: string -> string, i: nat)
    requires Acceptable(records, hash, |records|) && i < |records|
    ensures UniqueID(records[i], hash).Some? && UniqueID(records[i], hash).value in Firsts(records, hash)
  {
    assert Passes(records, hash, i);
    KeysOfFirsts(records, hash, UniqueID(records[i], hash).value);
  }

  /** Exactly when record i passes: it has a key, and unless an earlier record has the same one, its values and shares are decimals. */
  lemma PassesIff(records: seq<Record>, hash: string -> string, i: nat)
    requires i < |records|
    ensures Passes(records, hash, i) <==>
            && HasKey(records[i])
            && ((exists j :: 0 <= j < i && UniqueID(records[j], hash) == UniqueID(records[i], hash))
                || (AllDecimals(records[i].values) && AllDecimals(records[i].shares)))
  {
    UniqueIDTells(records[i], hash);
    ReservedNames(records[i].values.Keys);
    ReservedNames(records[i].shares.Keys);
    if HasKey(records[i]) {
      var key := UniqueID(records[i], hash).value;
      KeysOfFirsts(records[..i], hash, key);
      assert forall j :: 0 <= j < i ==> records[..i][j] == records[j];
    }
  }

  /** Two records with plain ids share a unique id exactly when they sell the same tokens in the same transactions, counted. */
  lemma SameUniqueIDIff(a: Record, b: Record, hash: string -> string)
    requires forall s, t :: hash(s) == hash(t) ==> s == t
    requires UniqueID(a, hash).Some? && UniqueID(b, hash).Some?
    requires AllPlain(TransactionIDs(a.metadata).value) && AllPlain(BundleKeys(a.metadata).value)
    requires AllPlain(TransactionIDs(b.metadata).value) && AllPlain(BundleKeys(b.metadata).value)
    ensures UniqueID(a, hash) == UniqueID(b, hash) <==>
            && multiset(TransactionIDs(a.metadata).value) == multiset(TransactionIDs(b.metadata).value)
            && multiset(BundleKeys(a.metadata).value) == multiset(BundleKeys(b.metadata).value)
  {
    SameKeyIff(TransactionIDs(a.metadata).value, BundleKeys(a.metadata).value, TransactionIDs(b.metadata).value, BundleKeys(b.metadata).value);
  }
}
