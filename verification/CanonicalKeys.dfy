/** Sorting and joining of id lists into one key, as the sale records are identified. */
module CanonicalKeys {

  /** The order of sort.Strings. */
  predicate Leq(a: string, b: string)
    decreases |a|
  {
    a == "" || (b != "" && (a[0] < b[0] || (a[0] == b[0] && Leq(a[1..], b[1..]))))
  }

  lemma {:induction false} LeqIsTotal(a: string, b: string)
    ensures Leq(a, b) || Leq(b, a)
    ensures Leq(a, b) && Leq(b, a) ==> a == b
    decreases |a|
  {
    if a != "" && b != "" && a[0] == b[0] {
      LeqIsTotal(a[1..], b[1..]);
      assert a == [a[0]] + a[1..] && b == [b[0]] + b[1..];
    }
  }

  /** The order is that of Go's strings: the first difference decides, and a beginning comes before what it begins. */
  lemma {:induction false} FirstDifferenceDecides(p: string, a: string, b: string)
    requires a != [] && b != [] && a[0] != b[0]
    ensures Leq(p + a, p + b) <==> a[0] < b[0]
    ensures Leq(p, p + a) && !Leq(p + a, p)
    decreases |p|
  {
    if p == [] {
      assert p + a == a && p + b == b;
    } else {
      assert (p + a)[1..] == p[1..] + a && (p + b)[1..] == p[1..] + b;
      FirstDifferenceDecides(p[1..], a, b);
    }
  }

  lemma {:induction false} LeqIsTransitive(a: string, b: string, c: string)
    requires Leq(a, b) && Leq(b, c)
    ensures Leq(a, c)
    decreases |a|
  {
    if a != "" && a[0] == b[0] == c[0] {
      LeqIsTransitive(a[1..], b[1..], c[1..]);
    }
  }

  predicate Sorted(s: seq<string>) {
    forall i, j :: 0 <= i < j < |s| ==> Leq(s[i], s[j])
  }

  function Insert(x: string, s: seq<string>): seq<string> {
    if s == [] || Leq(x, s[0]) then [x] + s else [s[0]] + Insert(x, s[1..])
  }

  function Sort(s: seq<string>): seq<string> {
    if s == [] then [] else Insert(s[0], Sort(s[1..]))
  }

  lemma {:induction false} InsertSorts(x: string, s: seq<string>)
    requires Sorted(s)
    ensures Sorted(Insert(x, s)) && multiset(Insert(x, s)) == multiset{x} + multiset(s)
  {
    if s == [] {
    } else if Leq(x, s[0]) {
      forall i | 0 <= i < |s| ensures Leq(x, s[i]) {
        if i > 0 { LeqIsTransitive(x, s[0], s[i]); }
      }
    } else {
      InsertSorts(x, s[1..]);
      LeqIsTotal(x, s[0]);
      var r := Insert(x, s[1..]);
      assert s == [s[0]] + s[1..];
      forall i | 0 <= i < |r| ensures Leq(s[0], r[i]) {
        assert r[i] in multiset(r);
        if r[i] != x {
          assert r[i] in s[1..];
        }
      }
    }
  }

  lemma {:induction false} SortSorts(s: seq<string>)
    ensures Sorted(Sort(s)) && multiset(Sort(s)) == multiset(s)
  {
    if s != [] {
      SortSorts(s[1..]);
      InsertSorts(s[0], Sort(s[1..]));
      assert s == [s[0]] + s[1..];
    }
  }

  lemma LeastIsFirst(a: seq<string>, b: seq<string>)
    requires Sorted(a) && a != [] && b != [] && multiset(a) == multiset(b)
    ensures Leq(a[0], b[0])
  {
    assert b[0] in multiset(a);
    var i :| 0 <= i < |a| && a[i] == b[0];
    LeqIsTotal(a[0], a[0]);
  }

  lemma SameHead(a: seq<string>, b: seq<string>)
    requires Sorted(a) && Sorted(b) && a != [] && b != [] && multiset(a) == multiset(b)
    ensures a[0] == b[0]
  {
    LeastIsFirst(a, b);
    LeastIsFirst(b, a);
    LeqIsTotal(a[0], b[0]);
  }

  lemma HeadOff(a: seq<string>)
    requires Sorted(a) && a != []
    ensures multiset(a[1..]) == multiset(a) - multiset{a[0]} && Sorted(a[1..])
  {
    assert a == [a[0]] + a[1..];
  }

  lemma HeadAndTail(a: seq<string>, b: seq<string>)
    requires a != [] && b != [] && a[0] == b[0] && a[1..] == b[1..]
    ensures a == b
  {
    assert a == [a[0]] + a[1..] && b == [b[0]] + b[1..];
  }

  lemma {:induction false} SortedIsUnique(a: seq<string>, b: seq<string>)
    requires Sorted(a) && Sorted(b) && multiset(a) == multiset(b)
    ensures a == b
  {
    assert |a| == |multiset(a)| == |multiset(b)| == |b|;
    if a != [] {
      SameHead(a, b);
      HeadOff(a);
      HeadOff(b);
      SortedIsUnique(a[1..], b[1..]);
      HeadAndTail(a, b);
    }
  }

  /** Two lists sort alike exactly when they have the same members with the same multiplicities. */
  lemma SortsAlikeIff(a: seq<string>, b: seq<string>)
    ensures Sort(a) == Sort(b) <==> multiset(a) == multiset(b)
  {
    SortSorts(a);
    SortSorts(b);
    if multiset(a) == multiset(b) {
      SortedIsUnique(Sort(a), Sort(b));
    }
  }

  /** strings.Join with a comma. */
  function Join(s: seq<string>): string {
    if s == [] then "" else if |s| == 1 then s[0] else s[0] + "," + Join(s[1..])
  }

  predicate Plain(id: string) {
    id != "" && ',' !in id && '|' !in id
  }

  predicate AllPlain(s: seq<string>) {
    forall i :: 0 <= i < |s| ==> Plain(s[i])
  }

  /** Strings without a separator are recovered from what stands before its first occurrence. */
  lemma CutAt(sep: char, a: string, b: string, c: string, d: string)
    requires sep !in a && sep !in c && a + [sep] + b == c + [sep] + d
    ensures a == c && b == d
  {
    var s := a + [sep] + b;
    assert s[|a|] == sep && s[|c|] == sep;
    assert forall i :: 0 <= i < |a| ==> s[i] == a[i] && a[i] in a;
    assert forall i :: 0 <= i < |c| ==> s[i] == c[i] && c[i] in c;
    assert |a| == |c|;
    assert a == s[..|a|] && c == s[..|c|] && b == s[|a| + 1..] && d == s[|c| + 1..];
  }

  lemma {:induction false} JoinHasNoPipe(s: seq<string>)
    requires AllPlain(s)
    ensures '|' !in Join(s)
    ensures s != [] ==> Join(s) != ""
    ensures ',' in Join(s) <==> |s| > 1
  {
    if |s| > 1 {
      JoinHasNoPipe(s[1..]);
      assert Join(s)[|s[0]|] == ',';
    }
  }

  lemma {:induction false} JoinIsInjective(a: seq<string>, b: seq<string>)
    requires AllPlain(a) && AllPlain(b) && Join(a) == Join(b)
    ensures a == b
  {
    JoinHasNoPipe(a);
    JoinHasNoPipe(b);
    if |a| > 1 && |b| > 1 {
      CutAt(',', a[0], Join(a[1..]), b[0], Join(b[1..]));
      JoinIsInjective(a[1..], b[1..]);
      assert a == [a[0]] + a[1..] && b == [b[0]] + b[1..];
    }
  }

  /** The text that is hashed into a record's unique id. */
  function PreHash(txIDs: seq<string>, tokenIDs: seq<string>): string {
    Bar(Join(Sort(txIDs)), Join(Sort(tokenIDs)))
  }

  lemma SortKeepsPlain(s: seq<string>)
    requires AllPlain(s)
    ensures AllPlain(Sort(s))
  {
    SortSorts(s);
    forall i | 0 <= i < |Sort(s)| ensures Plain(Sort(s)[i]) {
      assert Sort(s)[i] in multiset(s);
    }
  }

  /** With plain ids, two records share a key exactly when they have the same transactions and the same tokens, counted. */
  lemma SameKeyIff(tx: seq<string>, tokens: seq<string>, tx': seq<string>, tokens': seq<string>)
    requires AllPlain(tx) && AllPlain(tokens) && AllPlain(tx') && AllPlain(tokens')
    ensures PreHash(tx, tokens) == PreHash(tx', tokens') <==> multiset(tx) == multiset(tx') && multiset(tokens) == multiset(tokens')
  {
    SortsAlikeIff(tx, tx');
    SortsAlikeIff(tokens, tokens');
    SortKeepsPlain(tx);
    SortKeepsPlain(tokens);
    SortKeepsPlain(tx');
    SortKeepsPlain(tokens');
    JoinHasNoPipe(Sort(tx));
    JoinHasNoPipe(Sort(tx'));
    if PreHash(tx, tokens) == PreHash(tx', tokens') {
      CutAt('|', Join(Sort(tx)), Join(Sort(tokens)), Join(Sort(tx')), Join(Sort(tokens')));
      JoinIsInjective(Sort(tx), Sort(tx'));
      JoinIsInjective(Sort(tokens), Sort(tokens'));
    }
  }

  /** The key of one transaction and one token, and of two in either order. */
  lemma KeyOfOne(tx: string, a: string, b: string)
    ensures PreHash([tx], [a]) == tx + "|" + a
    ensures Leq(a, b) ==> PreHash([tx], [b, a]) == tx + "|" + a + "," + b == PreHash([tx], [a, b])
  {
    SortOfOne(tx);
    SortOfOne(a);
    SortOfOne(b);
    LeqIsTotal(a, b);
    assert [b, a][1..] == [a] && [a, b][1..] == [b] && [a] + [b] == [a, b];
    assert multiset([a, b]) == multiset([b, a]);
    SortsAlikeIff([a, b], [b, a]);
    if Leq(a, b) {
      assert Sort([a, b]) == [a, b];
      assert Join([a, b]) == a + "," + b;
    }
  }

  /**
    Ids that are not plain collide: one id with commas stands for any list of ids, a bar moves between
    transactions and tokens, and an empty id stands for none.
   */
  lemma OtherIDsCollide(ids: seq<string>, tokens: seq<string>, a: string, b: string, c: string)
    requires ids != []
    ensures PreHash(ids, tokens) == PreHash([Join(Sort(ids))], tokens)
    ensures PreHash([Bar(a, b)], [c]) == PreHash([a], [Bar(b, c)])
    ensures PreHash([], tokens) == PreHash([""], tokens)
  {
    SortOfOne(Join(Sort(ids)));
    SortOfOne("");
    SortOfOne(a);
    SortOfOne(c);
    SortOfOne(Bar(a, b));
    SortOfOne(Bar(b, c));
    assert Bar(Bar(a, b), c) == Bar(a, Bar(b, c));
  }

  function Bar(a: string, b: string): string {
    a + "|" + b
  }

  lemma SortOfOne(x: string)
    ensures Sort([x]) == [x]
  {
    assert [x][1..] == [];
  }
}
