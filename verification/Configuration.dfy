/**
  The update of a token's configuration: nested fields are flattened to dotted paths, and the database
  sets every path on the document. Lists and scalars are leaves.
 */
module Configuration {
  import opened Options

  datatype Value = Leaf(text: string) | Node(fields: map<string, Value>)

  /** A field name that the database takes as one plain step of a path. */
  predicate GoodKey(k: string) {
    k != "" && '.' !in k && k[0] != '$'
  }

  predicate GoodKeys(v: Value) {
    v.Node? ==> forall k :: k in v.fields ==> GoodKey(k) && GoodKeys(v.fields[k])
  }

  /** The leaf at the end of a path. */
  function Get(v: Value, path: seq<string>): Option<string>
    decreases |path|
  {
    if path == [] then (if v.Leaf? then Some(v.text) else None)
    else if v.Node? && path[0] in v.fields then Get(v.fields[path[0]], path[1..])
    else None
  }

  // ---- flattening ----

  function Dotted(prefix: string, k: string): string {
    prefix + "." + k
  }

  function Text(prefix: string, path: seq<string>): string
    decreases |path|
  {
    if path == [] then prefix else Text(Dotted(prefix, path[0]), path[1..])
  }

  ghost predicate Writes(input: Value, prefix: string, path: seq<string>, field: string, value: string) {
    Get(input, path) == Some(value) && Text(prefix, path) == field
  }

  /** Whether some leaf of the input has this dotted path and this value. */
  ghost predicate Holds(input: Value, prefix: string, field: string, value: string) {
    exists path :: Writes(input, prefix, path, field, value)
  }

  /** Every leaf is written at its path; a field has the value of a leaf with that path, or none has it and the field is as before. */
  ghost predicate Flattened(input: Value, prefix: string, before: map<string, string>, after: map<string, string>) {
    && (forall f :: f in before ==> f in after)
    && (forall f, v :: Holds(input, prefix, f, v) ==> f in after)
    && (forall f :: f in after ==> Explained(input, prefix, before, f, after[f]))
  }

  ghost predicate Explained(input: Value, prefix: string, before: map<string, string>, f: string, v: string) {
    Holds(input, prefix, f, v) || (f in before && before[f] == v && forall w :: !Holds(input, prefix, f, w))
  }

  lemma HoldsByKey(fields: map<string, Value>, k: string, prefix: string, f: string, v: string)
    requires k in fields
    ensures Holds(Node(fields), prefix, f, v)
       <==> Holds(fields[k], Dotted(prefix, k), f, v) || Holds(Node(fields - {k}), prefix, f, v)
  {
    var all, rest := Node(fields), Node(fields - {k});
    if Holds(all, prefix, f, v) {
      var path :| Writes(all, prefix, path, f, v);
      if path[0] == k { assert Writes(fields[k], Dotted(prefix, k), path[1..], f, v); }
      else { assert Writes(rest, prefix, path, f, v); }
    }
    if Holds(rest, prefix, f, v) {
      var path :| Writes(rest, prefix, path, f, v);
      assert Writes(all, prefix, path, f, v);
    }
    if Holds(fields[k], Dotted(prefix, k), f, v) {
      var path :| Writes(fields[k], Dotted(prefix, k), path, f, v);
      assert ([k] + path)[1..] == path;
      assert Writes(all, prefix, [k] + path, f, v);
    }
  }

  lemma FlattenedByKey(fields: map<string, Value>, k: string, prefix: string,
                       before: map<string, string>, middle: map<string, string>, after: map<string, string>)
    requires k in fields
    requires Flattened(fields[k], Dotted(prefix, k), before, middle)
    requires Flattened(Node(fields - {k}), prefix, middle, after)
    ensures Flattened(Node(fields), prefix, before, after)
  {
    forall f, v ensures Holds(Node(fields), prefix, f, v)
       <==> Holds(fields[k], Dotted(prefix, k), f, v) || Holds(Node(fields - {k}), prefix, f, v)
    {
      HoldsByKey(fields, k, prefix, f, v);
    }
    forall f | f in after ensures Explained(Node(fields), prefix, before, f, after[f]) {
      assert Explained(Node(fields - {k}), prefix, middle, f, after[f]);
      if f in middle { assert Explained(fields[k], Dotted(prefix, k), before, f, middle[f]); }
    }
  }

  lemma LeafFlattened(text: string, prefix: string, before: map<string, string>)
    ensures Flattened(Leaf(text), prefix, before, before[prefix := text])
  {
    assert Writes(Leaf(text), prefix, [], prefix, text);
  }

  lemma NothingFlattened(prefix: string, before: map<string, string>)
    ensures Flattened(Node(map[]), prefix, before, before)
  {
  }

  // ---- the order of the keys ----

  /** An order in which the keys of a map and of the maps below it are visited. */
  datatype Order = Tip(text: string) | Done | Visit(key: string, below: Order, rest: Order)

  predicate Orders(o: Order, v: Value)
    decreases o
  {
    match o
    case Tip(text) => v == Leaf(text)
    case Done => v == Node(map[])
    case Visit(k, below, rest) =>
      v.Node? && k in v.fields && Orders(below, v.fields[k]) && Orders(rest, Node(v.fields - {k}))
  }

  /** What visiting the leaves in an order writes. */
  function Flatten(o: Order, prefix: string, result: map<string, string>): map<string, string>
    decreases o
  {
    match o
    case Tip(text) => result[prefix := text]
    case Done => result
    case Visit(k, below, rest) => Flatten(rest, prefix, Flatten(below, Dotted(prefix, k), result))
  }

  /** Whatever the order, every leaf is written, and every field is explained. */
  lemma {:induction false} EveryOrderFlattens(o: Order, v: Value, prefix: string, before: map<string, string>)
    requires Orders(o, v)
    ensures Flattened(v, prefix, before, Flatten(o, prefix, before))
    decreases o
  {
    match o
    case Tip(text) => LeafFlattened(text, prefix, before);
    case Done => NothingFlattened(prefix, before);
    case Visit(k, below, rest) =>
      var middle := Flatten(below, Dotted(prefix, k), before);
      EveryOrderFlattens(below, v.fields[k], Dotted(prefix, k), before);
      EveryOrderFlattens(rest, Node(v.fields - {k}), prefix, middle);
      FlattenedByKey(v.fields, k, prefix, before, middle, Flatten(o, prefix, before));
  }

  /** One more key after all others. */
  function Then(o: Order, k: string, below: Order): Order {
    if o.Visit? then o.(rest := Then(o.rest, k, below)) else Visit(k, below, Done)
  }

  lemma {:induction false} ThenOrders(o: Order, fields: map<string, Value>, k: string, below: Order, v: Value)
    requires Orders(o, Node(fields)) && k !in fields && Orders(below, v)
    ensures Orders(Then(o, k, below), Node(fields[k := v]))
    decreases o
  {
    if o.Visit? {
      ThenOrders(o.rest, fields - {o.key}, k, below, v);
      assert fields[k := v] - {o.key} == (fields - {o.key})[k := v];
    } else {
      assert fields[k := v] - {k} == map[];
    }
  }

  lemma {:induction false} ThenFlattens(o: Order, fields: map<string, Value>, k: string, below: Order, prefix: string, result: map<string, string>)
    requires Orders(o, Node(fields))
    ensures Flatten(Then(o, k, below), prefix, result) == Flatten(below, Dotted(prefix, k), Flatten(o, prefix, result))
    decreases o
  {
    if o.Visit? {
      ThenFlattens(o.rest, fields - {o.key}, k, below, prefix, Flatten(o.below, Dotted(prefix, o.key), result));
    }
  }

  /** The map that the flattening writes into. */
  class FieldSet {
    var fields: map<string, string>

    constructor ()
      ensures fields == map[]
    {
      fields := map[];
    }
  }

  /** The keys of a map come in any order; `order` is the one they came in. */
  method FlattenMap(input: map<string, Value>, prefix: string, result: FieldSet) returns (ghost order: Order)
    modifies result
    ensures Orders(order, Node(input)) && result.fields == Flatten(order, prefix, old(result.fields))
    ensures Flattened(Node(input), prefix, old(result.fields), result.fields)
    decreases Node(input)
  {
    var todo := input.Keys;
    ghost var done: map<string, Value> := map[];
    order := Done;
    while todo != {}
      invariant todo <= input.Keys && done == input - todo
      invariant Orders(order, Node(done)) && result.fields == Flatten(order, prefix, old(result.fields))
    {
      var k :| k in todo;
      var key := Dotted(prefix, k);
      ghost var below := Done;
      if input[k].Node? {
        Smaller(input, k);
        below := FlattenMap(input[k].fields, key, result);
      } else {
        below := Tip(input[k].text);
        result.fields := result.fields[key := input[k].text];
      }
      ThenOrders(order, done, k, below, input[k]);
      ThenFlattens(order, done, k, below, prefix, old(result.fields));
      todo := todo - {k};
      done, order := done[k := input[k]], Then(order, k, below);
    }
    assert done == input;
    EveryOrderFlattens(order, Node(input), prefix, old(result.fields));
  }

  lemma Smaller(input: map<string, Value>, k: string)
    requires k in input && input[k].Node?
    ensures Node(input[k].fields) == input[k]
  {
  }

  /** The steps of a dotted path. */
  function Steps(text: string): (r: seq<string>)
    ensures r != []
  {
    if text == "" then [""]
    else
      var rest := Steps(text[1..]);
      if text[0] == '.' then [""] + rest else [[text[0]] + rest[0]] + rest[1..]
  }

  lemma StepsAfter(c: char, text: string)
    ensures Steps([c] + text) == if c == '.' then [""] + Steps(text) else [[c] + Steps(text)[0]] + Steps(text)[1..]
  {
    assert ([c] + text)[1..] == text;
  }

  lemma {:induction false} StepsOfKey(k: string)
    requires '.' !in k
    ensures Steps(k) == [k]
  {
    if k != "" {
      StepsOfKey(k[1..]);
      StepsAfter(k[0], k[1..]);
      assert [k[0]] + k[1..] == k;
    }
  }

  lemma {:induction false} StepsJoin(a: string, b: string)
    ensures Steps(Dotted(a, b)) == Steps(a) + Steps(b)
  {
    if a == "" {
      assert Dotted(a, b) == ['.'] + b;
      StepsAfter('.', b);
    } else {
      StepsJoin(a[1..], b);
      StepsJoinAfter(a[0], a[1..], b);
      assert [a[0]] + a[1..] == a;
    }
  }

  lemma StepsJoinAfter(c: char, a: string, b: string)
    requires Steps(Dotted(a, b)) == Steps(a) + Steps(b)
    ensures Steps(Dotted([c] + a, b)) == Steps([c] + a) + Steps(b)
  {
    assert Dotted([c] + a, b) == [c] + Dotted(a, b);
    StepsAfter(c, Dotted(a, b));
    StepsAfter(c, a);
    Regroup(c, Steps(a), Steps(b));
  }

  lemma Regroup(c: char, x: seq<string>, y: seq<string>)
    requires x != []
    ensures (if c == '.' then [""] + (x + y) else [[c] + (x + y)[0]] + (x + y)[1..])
         == (if c == '.' then [""] + x else [[c] + x[0]] + x[1..]) + y
  {
  }

  /** The database reads a flattened path as the steps of its prefix and then the keys that led to the leaf. */
  lemma {:induction false} TextIsReadBack(v: Value, prefix: string, path: seq<string>)
    requires GoodKeys(v) && Get(v, path).Some?
    ensures Steps(Text(prefix, path)) == Steps(prefix) + path
    decreases |path|
  {
    if path != [] {
      TextIsReadBack(v.fields[path[0]], Dotted(prefix, path[0]), path[1..]);
      StepsJoin(prefix, path[0]);
      StepsOfKey(path[0]);
      assert path == [path[0]] + path[1..];
    } else {
      assert Steps(prefix) + path == Steps(prefix);
    }
  }

  /** With keys free of dots, a field is one path of the input and the flattening has one outcome, whatever the order of the keys. */
  lemma FlatteningHasOneOutcome(input: Value, prefix: string, before: map<string, string>,
                                after: map<string, string>, after': map<string, string>)
    requires GoodKeys(input)
    requires Flattened(input, prefix, before, after) && Flattened(input, prefix, before, after')
    ensures Unambiguous(input, prefix) && after == after'
  {
    forall f, v, w | Holds(input, prefix, f, v) && Holds(input, prefix, f, w) ensures v == w {
      OneValuePerField(input, prefix, f);
    }
    FlattenedOneWay(input, prefix, before, after, after');
  }

  lemma FlattenedOneWay(input: Value, prefix: string, before: map<string, string>,
                        after: map<string, string>, after': map<string, string>)
    requires Unambiguous(input, prefix)
    requires Flattened(input, prefix, before, after) && Flattened(input, prefix, before, after')
    ensures after == after'
  {
    forall f | f in after ensures f in after' && after'[f] == after[f] {
      assert Explained(input, prefix, before, f, after[f]);
      assert f in after' ==> Explained(input, prefix, before, f, after'[f]);
    }
    forall f | f in after' ensures f in after {
      assert Explained(input, prefix, before, f, after'[f]);
    }
  }

  lemma OneValuePerField(input: Value, prefix: string, f: string)
    requires GoodKeys(input)
    ensures forall v, w :: Holds(input, prefix, f, v) && Holds(input, prefix, f, w) ==> v == w
  {
    forall v, w | Holds(input, prefix, f, v) && Holds(input, prefix, f, w) ensures v == w {
      var p :| Writes(input, prefix, p, f, v);
      var q :| Writes(input, prefix, q, f, w);
      TextIsReadBack(input, prefix, p);
      TextIsReadBack(input, prefix, q);
      assert p == Steps(f)[|Steps(prefix)|..] == q;
    }
  }

  /** What flattening can end in, for some order of the keys. */
  ghost predicate Outcome(v: Value, prefix: string, before: map<string, string>, after: map<string, string>) {
    exists o :: Orders(o, v) && Flatten(o, prefix, before) == after
  }

  /** No two leaves with the same dotted path carry different values. */
  ghost predicate Unambiguous(v: Value, prefix: string) {
    forall f, x, y :: Holds(v, prefix, f, x) && Holds(v, prefix, f, y) ==> x == y
  }

  lemma {:induction false} AnOrder(v: Value) returns (o: Order)
    ensures Orders(o, v)
    decreases v, 1
  {
    match v
    case Leaf(text) => o := Tip(text);
    case Node(fields) =>
      o := AnOrderOf(v, fields.Keys);
      assert (map k | k in fields && k in fields.Keys :: fields[k]) == fields;
  }

  lemma {:induction false} AnOrderOf(v: Value, keys: set<string>) returns (o: Order)
    requires v.Node? && keys <= v.fields.Keys
    ensures Orders(o, Node(map k | k in v.fields && k in keys :: v.fields[k]))
    decreases v, 0, keys
  {
    var part := map k | k in v.fields && k in keys :: v.fields[k];
    if keys == {} {
      o := Done;
      assert part == map[];
    } else {
      var k :| k in keys;
      var below := AnOrder(v.fields[k]);
      var rest := AnOrderOf(v, keys - {k});
      o := Visit(k, below, rest);
      assert part - {k} == map j | j in v.fields && j in keys - {k} :: v.fields[j];
    }
  }

  /** Any leaf can be the last one visited, and then its field has its value. */
  lemma {:induction false} LeafComesLast(v: Value, path: seq<string>, prefix: string, before: map<string, string>) returns (o: Order)
    requires Get(v, path).Some?
    ensures Orders(o, v)
    ensures Text(prefix, path) in Flatten(o, prefix, before) && Flatten(o, prefix, before)[Text(prefix, path)] == Get(v, path).value
    decreases |path|
  {
    if path == [] {
      o := Tip(v.text);
    } else {
      var k, others := path[0], v.fields - {path[0]};
      var o1 := AnOrder(Node(others));
      var below := LeafComesLast(v.fields[k], path[1..], Dotted(prefix, k), Flatten(o1, prefix, before));
      o := Then(o1, k, below);
      ThenOrders(o1, others, k, below, v.fields[k]);
      ThenFlattens(o1, others, k, below, prefix, before);
      assert others[k := v.fields[k]] == v.fields;
    }
  }

  /** Exactly when the order of the keys does not matter: when no two leaves with the same dotted path carry different values. */
  lemma FlatteningHasOneOutcomeIff(v: Value, prefix: string, before: map<string, string>)
    ensures (forall a, b :: Outcome(v, prefix, before, a) && Outcome(v, prefix, before, b) ==> a == b) <==> Unambiguous(v, prefix)
  {
    if Unambiguous(v, prefix) {
      forall a, b | Outcome(v, prefix, before, a) && Outcome(v, prefix, before, b) ensures a == b {
        OutcomeIsFlattened(v, prefix, before, a);
        OutcomeIsFlattened(v, prefix, before, b);
        FlattenedOneWay(v, prefix, before, a, b);
      }
    } else {
      var f, x, y :| Holds(v, prefix, f, x) && Holds(v, prefix, f, y) && x != y;
      var p :| Writes(v, prefix, p, f, x);
      var q :| Writes(v, prefix, q, f, y);
      var o1 := LeafComesLast(v, p, prefix, before);
      var o2 := LeafComesLast(v, q, prefix, before);
      assert Outcome(v, prefix, before, Flatten(o1, prefix, before)) && Outcome(v, prefix, before, Flatten(o2, prefix, before));
    }
  }

  lemma OutcomeIsFlattened(v: Value, prefix: string, before: map<string, string>, after: map<string, string>)
    requires Outcome(v, prefix, before, after)
    ensures Flattened(v, prefix, before, after)
  {
    var o :| Orders(o, v) && Flatten(o, prefix, before) == after;
    EveryOrderFlattens(o, v, prefix, before);
  }

  /** A map with a key below another and the same two keys joined by a dot. */
  function DottedInput(j: string, k: string, a: string, b: string): Value {
    Node(map[j := Node(map[k := Leaf(a)]), Dotted(j, k) := Leaf(b)])
  }

  lemma OneKeyOrders(k: string, below: Order, v: Value)
    requires Orders(below, v)
    ensures Orders(Visit(k, below, Done), Node(map[k := v]))
  {
    assert map[k := v] - {k} == map[];
  }

  lemma TwoKeysOrder(j: string, below: Order, v: Value, k: string, below': Order, w: Value)
    requires j != k && Orders(below, v) && Orders(below', w)
    ensures Orders(Visit(j, below, Visit(k, below', Done)), Node(map[j := v, k := w]))
  {
    OneKeyOrders(k, below', w);
    var fields := map[j := v, k := w];
    assert fields - {j} == map[k := w];
    assert fields[j] == v;
  }

  /** A key with a dot can name the path of another leaf; the outcome is then the value that is written last. */
  lemma DottedKeyHasTwoOutcomes(j: string, k: string, a: string, b: string, prefix: string)
    requires a != b
    ensures var f := Text(prefix, [j, k]);
            && Outcome(DottedInput(j, k, a, b), prefix, map[], map[f := a])
            && Outcome(DottedInput(j, k, a, b), prefix, map[], map[f := b])
            && !Unambiguous(DottedInput(j, k, a, b), prefix)
  {
    var input, f := DottedInput(j, k, a, b), Dotted(prefix, Dotted(j, k));
    TextOfTwo(prefix, j, k);
    var below, v, w := Visit(k, Tip(a), Done), Node(map[k := Leaf(a)]), Leaf(b);
    OneKeyOrders(k, Tip(a), Leaf(a));
    assert |Dotted(j, k)| > |j|;
    TwoKeysOrder(j, below, v, Dotted(j, k), Tip(b), w);
    TwoKeysOrder(Dotted(j, k), Tip(b), w, j, below, v);
    assert map[Dotted(j, k) := w, j := v] == map[j := v, Dotted(j, k) := w];
    TwoWritesToOneField(j, k, a, b, prefix);
    FlatteningHasOneOutcomeIff(input, prefix, map[]);
    var x, y := map[f := a], map[f := b];
    assert Outcome(input, prefix, map[], x) && Outcome(input, prefix, map[], y);
    assert x[f] != y[f];
  }

  lemma TextOfTwo(prefix: string, j: string, k: string)
    ensures Text(prefix, [j, k]) == Dotted(prefix, Dotted(j, k))
  {
    assert [j, k][1..] == [k] && [k][1..] == [];
    assert Text(Dotted(prefix, j), [k]) == Text(Dotted(Dotted(prefix, j), k), []);
    assert Dotted(Dotted(prefix, j), k) == Dotted(prefix, Dotted(j, k));
  }

  lemma TwoWritesToOneField(j: string, k: string, a: string, b: string, prefix: string)
    ensures var below, f := Visit(k, Tip(a), Done), Dotted(prefix, Dotted(j, k));
            && Flatten(Visit(j, below, Visit(Dotted(j, k), Tip(b), Done)), prefix, map[]) == map[f := b]
            && Flatten(Visit(Dotted(j, k), Tip(b), Visit(j, below, Done)), prefix, map[]) == map[f := a]
  {
    var below, f := Visit(k, Tip(a), Done), Dotted(prefix, Dotted(j, k));
    assert Dotted(Dotted(prefix, j), k) == f;
    assert Flatten(below, Dotted(prefix, j), map[]) == map[f := a];
    assert Flatten(below, Dotted(prefix, j), map[f := b]) == map[f := a];
    assert Flatten(Visit(Dotted(j, k), Tip(b), Visit(j, below, Done)), prefix, map[]) == Flatten(Visit(j, below, Done), prefix, map[f := b]);
    assert Flatten(Visit(j, below, Done), prefix, map[f := b]) == Flatten(Done, prefix, map[f := a]);
    assert Flatten(Visit(Dotted(j, k), Tip(b), Done), prefix, map[f := a]) == map[f := b];
  }

  // ---- setting paths ----

  function Lookup(d: Option<Value>, k: string): Option<Value> {
    if d.Some? && d.value.Node? && k in d.value.fields then Some(d.value.fields[k]) else None
  }

  function FieldsOf(d: Option<Value>): map<string, Value> {
    if d.Some? && d.value.Node? then d.value.fields else map[]
  }

  /** Sets one path, adding what is missing on the way; a leaf in the way makes the database refuse. */
  function SetPath(d: Option<Value>, path: seq<string>, v: string): Option<Value>
    decreases |path|
  {
    if path == [] then Some(Leaf(v))
    else if d.Some? && d.value.Leaf? then None
    else match SetPath(Lookup(d, path[0]), path[1..], v)
      case None => None
      case Some(sub) => Some(Node(FieldsOf(d)[path[0] := sub]))
  }

  datatype Entry = Entry(path: seq<string>, value: string)

  function SetAll(d: Value, es: seq<Entry>): Option<Value> {
    if es == [] then Some(d)
    else match SetAll(d, es[..|es| - 1])
      case None => None
      case Some(x) => SetPath(Some(x), es[|es| - 1].path, es[|es| - 1].value)
  }

  /** The recursive merge: leaves replace, maps merge, and a map does not merge into a leaf. */
  function Merge(d: Option<Value>, t: Value): Option<Value>
    decreases t
  {
    match t
    case Leaf(_) => Some(t)
    case Node(fields) =>
      if d.Some? && d.value.Leaf? then None
      else if exists k :: k in fields && Merge(Lookup(d, k), fields[k]).None? then None
      else Some(Node(map k | k in FieldsOf(d).Keys + fields.Keys ::
        if k in fields then Merge(Lookup(d, k), fields[k]).value else FieldsOf(d)[k]))
  }

  /** Whether the path is not used: no leaf lies on it and nothing is at its end. */
  predicate Free(t: Value, path: seq<string>)
    decreases |path|
  {
    path != [] && t.Node? && (path[0] in t.fields ==> Free(t.fields[path[0]], path[1..]))
  }

  lemma {:induction false} NewPathIsSet(path: seq<string>, v: string)
    ensures SetPath(None, path, v).Some?
    decreases |path|
  {
    if path != [] { NewPathIsSet(path[1..], v); }
  }

  lemma {:induction false} MergeOnePath(d: Option<Value>, path: seq<string>, v: string)
    requires SetPath(None, path, v).Some?
    ensures Merge(d, SetPath(None, path, v).value) == SetPath(d, path, v)
    decreases |path|
  {
    if path != [] && !(d.Some? && d.value.Leaf?) {
      MergeOnePath(Lookup(d, path[0]), path[1..], v);
      MergeOneField(d, path[0], SetPath(None, path[1..], v).value);
      assert map[][path[0] := SetPath(None, path[1..], v).value] == map[path[0] := SetPath(None, path[1..], v).value];
    }
  }

  lemma MergeOneField(d: Option<Value>, k: string, sub: Value)
    requires !(d.Some? && d.value.Leaf?)
    ensures Merge(d, Node(map[k := sub]))
         == match Merge(Lookup(d, k), sub) case None => None case Some(m) => Some(Node(FieldsOf(d)[k := m]))
  {
    var fields := map[k := sub];
    assert fields[k] == sub;
    var m := Merge(Lookup(d, k), sub);
    if m.Some? {
      assert Merge(d, Node(fields)).Some?;
      assert Merge(d, Node(fields)).value.fields == FieldsOf(d)[k := m.value];
    }
  }

  ghost function MergeThenSet(d: Option<Value>, t: Value, path: seq<string>, v: string): Option<Value> {
    match Merge(d, t) case None => None case Some(m) => SetPath(Some(m), path, v)
  }

  /** Merging and setting an unused path commute. */
  lemma {:induction false} MergeCommutesWithSet(d: Option<Value>, t: Value, path: seq<string>, v: string)
    requires Free(t, path) && SetPath(Some(t), path, v).Some?
    ensures MergeThenSet(d, t, path, v) == Merge(d, SetPath(Some(t), path, v).value)
    decreases |path|
  {
    if !(d.Some? && d.value.Leaf?) {
      var k := path[0];
      var sub := SetPath(Lookup(Some(t), k), path[1..], v).value;
      if k in t.fields {
        MergeCommutesWithSet(Lookup(d, k), t.fields[k], path[1..], v);
      } else {
        NewPathIsSet(path[1..], v);
        MergeOnePath(Lookup(d, k), path[1..], v);
      }
      MergeUpdated(d, t.fields, k, sub, path[1..], v);
    }
  }

  /** One field of a merge. */
  function MergedField(d: Option<Value>, fields: map<string, Value>, k: string): Option<Value> {
    if k in fields then Merge(Lookup(d, k), fields[k]) else Lookup(d, k)
  }

  ghost predicate Refused(d: Option<Value>, fields: map<string, Value>) {
    exists k :: k in fields && MergedField(d, fields, k).None?
  }

  lemma MergeByField(d: Option<Value>, fields: map<string, Value>)
    requires !(d.Some? && d.value.Leaf?)
    ensures var m := Merge(d, Node(fields));
            if Refused(d, fields) then m.None? else
            && m.Some? && m.value.Node?
            && m.value.fields.Keys == FieldsOf(d).Keys + fields.Keys
            && forall k :: Lookup(m, k) == MergedField(d, fields, k)
  {
    if Refused(d, fields) {
      var k :| k in fields && MergedField(d, fields, k).None?;
      assert Merge(Lookup(d, k), fields[k]).None?;
    } else {
      forall k | k in fields ensures Merge(Lookup(d, k), fields[k]).Some? {
        assert MergedField(d, fields, k).Some?;
      }
    }
  }

  lemma MergeUpdated(d: Option<Value>, fields: map<string, Value>, k: string, sub: Value, path: seq<string>, v: string)
    requires !(d.Some? && d.value.Leaf?)
    requires match MergedField(d, fields, k) {
      case None => if k in fields then Merge(Lookup(d, k), sub).None? else SetPath(None, path, v) == Merge(Lookup(d, k), sub)
      case Some(m) => SetPath(Some(m), path, v) == Merge(Lookup(d, k), sub)
    }
    ensures MergeThenSet(d, Node(fields), [k] + path, v) == Merge(d, Node(fields[k := sub]))
  {
    var more := fields[k := sub];
    MergeByField(d, fields);
    MergeByField(d, more);
    assert ([k] + path)[1..] == path;
    if Refused(d, fields) {
      UpdatedField(d, fields, k, sub);
      var j :| j in fields && MergedField(d, fields, j).None?;
      assert j in more && MergedField(d, more, j).None?;
    } else if Refused(d, more) {
      OnlyTheNewFieldRefuses(d, fields, k, sub);
    } else {
      OnlyOneFieldChanges(d, fields, k, sub);
    }
  }

  lemma OnlyOneFieldChanges(d: Option<Value>, fields: map<string, Value>, k: string, sub: Value)
    requires !(d.Some? && d.value.Leaf?) && !Refused(d, fields) && !Refused(d, fields[k := sub])
    ensures var m, n := Merge(d, Node(fields)), Merge(d, Node(fields[k := sub]));
            && m.Some? && n.Some? && m.value.Node? && n.value.Node? && Merge(Lookup(d, k), sub).Some?
            && n.value.fields == m.value.fields[k := Merge(Lookup(d, k), sub).value]
  {
    var more := fields[k := sub];
    MergeByField(d, fields);
    MergeByField(d, more);
    UpdatedField(d, fields, k, sub);
    var m, n := Merge(d, Node(fields)), Merge(d, Node(more));
    assert MergedField(d, more, k).Some?;
    SameFields(m.value.fields[k := n.value.fields[k]], n.value.fields, m, n, k);
  }

  lemma OnlyTheNewFieldRefuses(d: Option<Value>, fields: map<string, Value>, k: string, sub: Value)
    requires !Refused(d, fields) && Refused(d, fields[k := sub])
    ensures Merge(Lookup(d, k), sub).None?
  {
    UpdatedField(d, fields, k, sub);
    var j :| j in fields[k := sub] && MergedField(d, fields[k := sub], j).None?;
    assert j != k ==> MergedField(d, fields, j).None?;
  }

  lemma UpdatedField(d: Option<Value>, fields: map<string, Value>, k: string, sub: Value)
    ensures MergedField(d, fields[k := sub], k) == Merge(Lookup(d, k), sub)
    ensures forall j :: j != k ==> MergedField(d, fields[k := sub], j) == MergedField(d, fields, j)
    ensures forall j :: j != k ==> (j in fields[k := sub] <==> j in fields)
  {
  }

  lemma SameFields(x: map<string, Value>, y: map<string, Value>, m: Option<Value>, n: Option<Value>, k: string)
    requires m.Some? && m.value.Node? && n.Some? && n.value.Node? && k in n.value.fields
    requires x == m.value.fields[k := n.value.fields[k]] && y == n.value.fields
    requires m.value.fields.Keys + {k} == n.value.fields.Keys
    requires forall j :: j != k ==> Lookup(m, j) == Lookup(n, j)
    ensures x == y
  {
    forall j | j in x ensures j in y && x[j] == y[j] {
      if j != k { assert Lookup(m, j) == Lookup(n, j); }
    }
    assert x.Keys == y.Keys;
  }

  // ---- what the flattening keeps ----

  /** Whether every map below has a leaf. */
  predicate Full(v: Value) {
    v.Node? ==> v.fields != map[] && forall k :: k in v.fields ==> Full(v.fields[k])
  }

  predicate FullBelow(v: Value) {
    v.Node? && forall k :: k in v.fields ==> Full(v.fields[k])
  }

  predicate Empty(v: Value) {
    v.Node? && forall k :: k in v.fields ==> Empty(v.fields[k])
  }

  /** Leaves out the maps without a leaf. */
  function Prune(v: Value): Value {
    match v
    case Leaf(_) => v
    case Node(fields) => Node(map k | k in fields && !Empty(fields[k]) :: Prune(fields[k]))
  }

  lemma {:induction false} PrunedIsFull(v: Value)
    ensures if Empty(v) then Prune(v) == Node(map[]) else Full(Prune(v))
  {
    if v.Node? {
      forall k | k in v.fields ensures if Empty(v.fields[k]) then Prune(v.fields[k]) == Node(map[]) else Full(Prune(v.fields[k])) {
        PrunedIsFull(v.fields[k]);
      }
      if Empty(v) {
        assert Prune(v).fields == map[];
      } else {
        var k :| k in v.fields && !Empty(v.fields[k]);
        assert k in Prune(v).fields;
      }
    }
  }

  lemma {:induction false} EmptyHasNoLeaf(v: Value, path: seq<string>)
    requires Empty(v)
    ensures Get(v, path).None?
    decreases |path|
  {
    if path != [] && path[0] in v.fields { EmptyHasNoLeaf(v.fields[path[0]], path[1..]); }
  }

  lemma {:induction false} PruneKeepsLeaves(v: Value, path: seq<string>)
    ensures Get(Prune(v), path) == Get(v, path)
    decreases |path|
  {
    if path != [] && v.Node? && path[0] in v.fields {
      if Empty(v.fields[path[0]]) { EmptyHasNoLeaf(v.fields[path[0]], path[1..]); }
      else { PruneKeepsLeaves(v.fields[path[0]], path[1..]); }
    }
  }

  /** Whether one tree is part of another. */
  predicate Within(r: Value, t: Value) {
    match r
    case Leaf(_) => r == t
    case Node(fields) => t.Node? && forall k :: k in fields ==> k in t.fields && Within(fields[k], t.fields[k])
  }

  lemma {:induction false} MissingLeafIsFree(r: Value, t: Value, path: seq<string>)
    requires Within(r, t) && Get(t, path).Some? && Get(r, path).None?
    ensures Free(r, path)
    decreases |path|
  {
    if path != [] && path[0] in r.fields { MissingLeafIsFree(r.fields[path[0]], t.fields[path[0]], path[1..]); }
  }

  lemma {:induction false} SetStaysWithin(r: Option<Value>, t: Value, path: seq<string>, v: string)
    requires r.Some? ==> Within(r.value, t)
    requires Get(t, path) == Some(v)
    ensures SetPath(r, path, v).Some? && Within(SetPath(r, path, v).value, t)
    decreases |path|
  {
    if path != [] {
      SetStaysWithin(Lookup(r, path[0]), t.fields[path[0]], path[1..], v);
    }
  }

  lemma {:induction false} SetGives(r: Option<Value>, path: seq<string>, v: string)
    requires SetPath(r, path, v).Some?
    ensures Get(SetPath(r, path, v).value, path) == Some(v)
    decreases |path|
  {
    if path != [] { SetGives(Lookup(r, path[0]), path[1..], v); }
  }

  /** Setting an unused path adds one leaf and keeps the others. */
  lemma {:induction false} SetKeeps(r: Option<Value>, path: seq<string>, v: string, q: seq<string>)
    requires SetPath(r, path, v).Some? && (r.Some? ==> Free(r.value, path)) && q != path
    ensures Get(SetPath(r, path, v).value, q) == if r.Some? then Get(r.value, q) else None
    decreases |path|
  {
    if path != [] && q != [] && q[0] == path[0] {
      assert [q[0]] + q[1..] == q && [path[0]] + path[1..] == path;
      SetKeeps(Lookup(r, path[0]), path[1..], v, q[1..]);
    }
  }

  /** A tree within a full one that has all its leaves is all of it. */
  lemma {:induction false} AllLeavesIsAll(r: Value, t: Value)
    requires Within(r, t) && (Full(t) || FullBelow(t))
    requires forall p :: Get(t, p).Some? ==> Get(r, p).Some?
    ensures r == t
  {
    if t.Node? && r.Node? {
      forall k | k in t.fields ensures k in r.fields && r.fields[k] == t.fields[k] {
        var q := ALeafOf(t.fields[k]);
        assert ([k] + q)[1..] == q;
        assert Get(t, [k] + q).Some?;
        forall p | Get(t.fields[k], p).Some? ensures Get(r.fields[k], p).Some? {
          assert ([k] + p)[1..] == p;
          assert Get(t, [k] + p).Some?;
        }
        AllLeavesIsAll(r.fields[k], t.fields[k]);
      }
      assert r.fields == t.fields;
    }
  }

  lemma {:induction false} ALeafOf(t: Value) returns (path: seq<string>)
    requires Full(t)
    ensures Get(t, path).Some?
  {
    path := [];
    if t.Node? {
      var k :| k in t.fields;
      var q := ALeafOf(t.fields[k]);
      path := [k] + q;
      assert path[1..] == q;
    }
  }

  // ---- an update as a whole ----

  /** A list of the leaves of a tree, in any order and each once. */
  ghost predicate Lists(es: seq<Entry>, t: Value) {
    && (forall i :: 0 <= i < |es| ==> Get(t, es[i].path) == Some(es[i].value))
    && (forall i, j :: 0 <= i < j < |es| ==> es[i].path != es[j].path)
    && (forall p :: Get(t, p).Some? ==> Listed(es, p))
  }

  ghost predicate Listed(es: seq<Entry>, p: seq<string>) {
    exists i :: 0 <= i < |es| && es[i].path == p
  }

  /** Part of such a list. */
  ghost predicate ListsSome(es: seq<Entry>, t: Value) {
    && (forall i :: 0 <= i < |es| ==> Get(t, es[i].path) == Some(es[i].value))
    && (forall i, j :: 0 <= i < j < |es| ==> es[i].path != es[j].path)
  }

  lemma {:induction false} SetSome(d: Value, t: Value, es: seq<Entry>) returns (r: Value)
    requires d.Node? && t.Node? && ListsSome(es, t)
    ensures r.Node? && Within(r, t) && SetAll(Node(map[]), es) == Some(r)
    ensures SetAll(d, es) == Merge(Some(d), r)
    ensures forall p :: Get(r, p).Some? <==> Listed(es, p)
  {
    if es == [] {
      r := Node(map[]);
      assert Merge(Some(d), r).value.fields == d.fields;
    } else {
      var n := |es| - 1;
      var e := es[n];
      var r0 := SetSome(d, t, es[..n]);
      assert Get(r0, e.path).None? by {
        assert forall i :: 0 <= i < n ==> es[..n][i].path != e.path;
        assert !Listed(es[..n], e.path);
      }
      MissingLeafIsFree(r0, t, e.path);
      SetStaysWithin(Some(r0), t, e.path, e.value);
      r := SetPath(Some(r0), e.path, e.value).value;
      MergeCommutesWithSet(Some(d), r0, e.path, e.value);
      forall p ensures Get(r, p).Some? <==> Listed(es, p) {
        SetGives(Some(r0), e.path, e.value);
        if p != e.path { SetKeeps(Some(r0), e.path, e.value, p); }
        ListedStep(es, p);
      }
    }
  }

  lemma ListedStep(es: seq<Entry>, p: seq<string>)
    requires es != []
    ensures Listed(es, p) <==> Listed(es[..|es| - 1], p) || es[|es| - 1].path == p
  {
    var n := |es| - 1;
    if Listed(es, p) {
      var i :| 0 <= i < |es| && es[i].path == p;
      if i < n { assert es[..n][i].path == p; }
    }
    if Listed(es[..n], p) {
      var i :| 0 <= i < n && es[..n][i].path == p;
      assert es[i].path == p;
    }
  }

  /**
    Setting every leaf of a tree, in any order, is the recursive merge of the tree without its empty
    maps; on the empty document it gives back that tree.
   */
  lemma SettingLeavesIsMerging(d: Value, t: Value, es: seq<Entry>)
    requires d.Node? && t.Node? && Lists(es, t)
    ensures SetAll(d, es) == Merge(Some(d), Prune(t))
    ensures SetAll(Node(map[]), es) == Some(Prune(t))
  {
    forall p ensures Get(Prune(t), p) == Get(t, p) { PruneKeepsLeaves(t, p); }
    PrunedIsFull(t);
    var r := SetSome(d, Prune(t), es);
    AllLeavesIsAll(r, Prune(t));
  }

  ghost predicate SameLeaves(a: Value, b: Value) {
    forall p :: Get(a, p) == Get(b, p)
  }

  /** Flattening tells two trees apart exactly when they differ in more than empty maps. */
  lemma FlatteningLosesEmptyMapsOnly(a: Value, b: Value)
    requires a.Node? && b.Node?
    ensures SameLeaves(a, b) <==> Prune(a) == Prune(b)
  {
    PrunedHasSameLeaves(a);
    PrunedHasSameLeaves(b);
    if SameLeaves(a, b) {
      PrunedBelow(a);
      PrunedBelow(b);
      assert SameLeaves(Prune(a), Prune(b)) by { Chain(Prune(a), a, b, Prune(b)); }
      SameLeavesSameTree(Prune(a), Prune(b));
    } else {
      assert !SameLeaves(Prune(a), Prune(b)) by {
        if SameLeaves(Prune(a), Prune(b)) { Chain(a, Prune(a), Prune(b), b); }
      }
    }
  }

  lemma PrunedHasSameLeaves(v: Value)
    ensures SameLeaves(v, Prune(v)) && SameLeaves(Prune(v), v)
  {
    forall p ensures Get(Prune(v), p) == Get(v, p) { PruneKeepsLeaves(v, p); }
  }

  lemma PrunedBelow(v: Value)
    requires v.Node?
    ensures FullBelow(Prune(v))
  {
    PrunedIsFull(v);
  }

  lemma Chain(a: Value, b: Value, c: Value, d: Value)
    requires SameLeaves(a, b) && SameLeaves(b, c) && SameLeaves(c, d)
    ensures SameLeaves(a, d)
  {
  }

  lemma {:induction false} SameLeavesSameTree(a: Value, b: Value)
    requires (Full(a) && Full(b)) || (FullBelow(a) && FullBelow(b))
    requires SameLeaves(a, b)
    ensures a == b
  {
    assert Get(a, []) == Get(b, []);
    if a.Node? {
      forall k ensures k in a.fields <==> k in b.fields
                ensures k in a.fields && k in b.fields ==> a.fields[k] == b.fields[k]
      {
        if k in a.fields {
          var q := ALeafOf(a.fields[k]);
          assert ([k] + q)[1..] == q;
          assert Get(a, [k] + q).Some?;
        }
        if k in b.fields {
          var q := ALeafOf(b.fields[k]);
          assert ([k] + q)[1..] == q;
          assert Get(b, [k] + q).Some?;
        }
        if k in a.fields && k in b.fields {
          forall p ensures Get(a.fields[k], p) == Get(b.fields[k], p) {
            assert ([k] + p)[1..] == p;
            assert Get(a, [k] + p) == Get(b, [k] + p);
          }
          assert SameLeaves(a.fields[k], b.fields[k]);
          SameLeavesSameTree(a.fields[k], b.fields[k]);
        }
      }
      assert a.fields == b.fields;
    }
  }

  // ---- the store ----

  const PREFIX := Dotted("attributes", "configuration")

  /** The configuration in its place in an asset. */
  function Nest(t: Value): Value {
    Node(map["attributes" := Node(map["configuration" := t])])
  }

  lemma NestedLeaves(t: Value, p: seq<string>)
    ensures Get(Nest(t), ["attributes", "configuration"] + p) == Get(t, p)
    ensures Get(Nest(t), p).Some? ==> |p| >= 2 && p == ["attributes", "configuration"] + p[2..]
  {
    var q := ["attributes", "configuration"] + p;
    assert q[1..] == ["configuration"] + p && q[1..][1..] == p;
    if Get(Nest(t), p).Some? {
      assert p != [] && p[0] == "attributes";
      assert Get(Nest(t), p) == Get(Node(map["configuration" := t]), p[1..]);
      assert p[1..] != [] && p[1..][0] == "configuration";
      assert p == [p[0]] + [p[1..][0]] + p[2..];
    }
  }

  lemma PrefixSteps()
    ensures Steps(PREFIX) == ["attributes", "configuration"]
  {
    StepsOfTwo("attributes", "configuration");
  }

  lemma StepsOfTwo(a: string, b: string)
    requires '.' !in a && '.' !in b
    ensures Steps(Dotted(a, b)) == [a, b]
  {
    StepsJoin(a, b);
    StepsOfKey(a);
    StepsOfKey(b);
  }

  function EntryOf(fields: map<string, string>, f: string): Entry
    requires f in fields
  {
    Entry(Steps(f), fields[f])
  }

  /** A field of the update is a leaf of the configuration in its place, and the other way round. */
  lemma FieldsAreLeaves(t: Value, fields: map<string, string>)
    requires GoodKeys(t) && Flattened(t, PREFIX, map[], fields)
    ensures forall f :: f in fields ==> Get(Nest(t), Steps(f)) == Some(fields[f])
    ensures DistinctPaths(fields)
    ensures forall p :: Get(Nest(t), p).Some? ==> IsField(fields, p)
  {
    PrefixSteps();
    forall f | f in fields ensures exists p :: FieldAt(t, fields, f, p) {
      assert Explained(t, PREFIX, map[], f, fields[f]);
      var p :| Writes(t, PREFIX, p, f, fields[f]);
      TextIsReadBack(t, PREFIX, p);
      assert FieldAt(t, fields, f, p);
    }
    forall f | f in fields ensures Get(Nest(t), Steps(f)) == Some(fields[f]) {
      var p :| FieldAt(t, fields, f, p);
      NestedLeaves(t, p);
    }
    forall f, g | f in fields && g in fields && Steps(f) == Steps(g) ensures f == g {
      var p :| FieldAt(t, fields, f, p);
      var q :| FieldAt(t, fields, g, q);
      assert p == Steps(f)[2..] == q;
    }
    forall p | Get(Nest(t), p).Some? ensures IsField(fields, p) {
      NestedLeaves(t, p);
      NestedLeaves(t, p[2..]);
      var f := Text(PREFIX, p[2..]);
      assert Writes(t, PREFIX, p[2..], f, Get(t, p[2..]).value);
      assert Holds(t, PREFIX, f, Get(t, p[2..]).value);
      TextIsReadBack(t, PREFIX, p[2..]);
      assert f in fields && Steps(f) == p;
    }
  }

  ghost predicate FieldAt(t: Value, fields: map<string, string>, f: string, p: seq<string>)
    requires f in fields
  {
    Writes(t, PREFIX, p, f, fields[f]) && Steps(f) == ["attributes", "configuration"] + p
  }

  ghost predicate IsField(fields: map<string, string>, p: seq<string>) {
    exists f :: f in fields && Steps(f) == p
  }

  /** The entries of some fields, in some order. */
  ghost predicate ListsFields(es: seq<Entry>, fields: map<string, string>, done: set<string>) {
    && (forall i :: 0 <= i < |es| ==> IsEntry(es[i], fields, done))
    && (forall i, j :: 0 <= i < j < |es| ==> es[i].path != es[j].path)
    && (forall f :: f in done ==> Listed(es, Steps(f)))
  }

  ghost predicate IsEntry(e: Entry, fields: map<string, string>, done: set<string>) {
    exists f :: f in done && f in fields && e == EntryOf(fields, f)
  }

  ghost predicate DistinctPaths(fields: map<string, string>) {
    forall f, g :: f in fields && g in fields && Steps(f) == Steps(g) ==> f == g
  }

  lemma ListsFieldsStep(es: seq<Entry>, t: Value, fields: map<string, string>, done: set<string>, f: string)
    requires GoodKeys(t) && Flattened(t, PREFIX, map[], fields)
    requires ListsFields(es, fields, done) && done <= fields.Keys && f in fields && f !in done
    ensures ListsFields(es + [EntryOf(fields, f)], fields, done + {f})
  {
    FieldsAreLeaves(t, fields);
    OneMoreField(es, fields, done, f);
  }

  lemma OneMoreField(es: seq<Entry>, fields: map<string, string>, done: set<string>, f: string)
    requires DistinctPaths(fields) && ListsFields(es, fields, done) && f in fields && f !in done
    ensures ListsFields(es + [EntryOf(fields, f)], fields, done + {f})
  {
    var more := es + [EntryOf(fields, f)];
    forall i | 0 <= i < |more| ensures IsEntry(more[i], fields, done + {f}) {
      IsEntryStep(more[i], fields, done, f);
    }
    forall i | 0 <= i < |es| ensures es[i].path != Steps(f) {
      EntryIsOther(es[i], fields, done, f);
    }
    forall g | g in done + {f} ensures Listed(more, Steps(g)) {
      assert more[..|more| - 1] == es;
      ListedStep(more, Steps(g));
    }
  }

  lemma EntryIsOther(e: Entry, fields: map<string, string>, done: set<string>, f: string)
    requires DistinctPaths(fields) && IsEntry(e, fields, done) && f in fields && f !in done
    ensures e.path != Steps(f)
  {
    var g :| g in done && g in fields && e == EntryOf(fields, g);
  }

  lemma IsEntryStep(e: Entry, fields: map<string, string>, done: set<string>, f: string)
    requires f in fields
    ensures IsEntry(e, fields, done) || e == EntryOf(fields, f) ==> IsEntry(e, fields, done + {f})
  {
    if IsEntry(e, fields, done) {
      var g :| g in done && g in fields && e == EntryOf(fields, g);
      assert g in done + {f};
    } else if e == EntryOf(fields, f) {
      assert f in done + {f};
    }
  }

  lemma AllFieldsListed(es: seq<Entry>, t: Value, fields: map<string, string>)
    requires GoodKeys(t) && Flattened(t, PREFIX, map[], fields)
    requires ListsFields(es, fields, fields.Keys)
    ensures Lists(es, Nest(t))
  {
    FieldsAreLeaves(t, fields);
    forall p | Get(Nest(t), p).Some? ensures Listed(es, p) {
      var f :| f in fields && Steps(f) == p;
    }
  }

  /** What an update with a configuration makes of an asset. */
  function Configured(doc: Value, configuration: map<string, Value>): Option<Value> {
    Merge(Some(doc), Prune(Nest(Node(configuration))))
  }

  /** Whether no path of the tree meets this one. */
  predicate Untouched(t: Value, path: seq<string>)
    decreases |path|
  {
    path != [] && t.Node? && (path[0] in t.fields ==> Untouched(t.fields[path[0]], path[1..]))
  }

  lemma {:induction false} UntouchedHasNoLeaf(t: Value, path: seq<string>)
    requires Untouched(t, path)
    ensures Get(t, path).None?
    decreases |path|
  {
    if path[0] in t.fields { UntouchedHasNoLeaf(t.fields[path[0]], path[1..]); }
  }

  lemma {:induction false} MergeGives(d: Option<Value>, t: Value, path: seq<string>)
    requires Merge(d, t).Some? && Get(t, path).Some?
    ensures Get(Merge(d, t).value, path) == Get(t, path)
    decreases |path|
  {
    if path != [] {
      MergeByField(d, t.fields);
      MergeGives(Lookup(d, path[0]), t.fields[path[0]], path[1..]);
      assert Lookup(Merge(d, t), path[0]) == MergedField(d, t.fields, path[0]);
    }
  }

  lemma {:induction false} MergeKeeps(d: Value, t: Value, path: seq<string>)
    requires Merge(Some(d), t).Some? && Untouched(t, path)
    ensures Get(Merge(Some(d), t).value, path) == Get(d, path)
    decreases |path|
  {
    if d.Node? {
      MergeByField(Some(d), t.fields);
      assert Lookup(Merge(Some(d), t), path[0]) == MergedField(Some(d), t.fields, path[0]);
      if path[0] in t.fields {
        if path[0] in d.fields {
          MergeKeeps(d.fields[path[0]], t.fields[path[0]], path[1..]);
        } else {
          MergeIntoNothing(t.fields[path[0]], path[1..]);
          UntouchedHasNoLeaf(t.fields[path[0]], path[1..]);
        }
      }
    }
  }

  lemma {:induction false} MergeIntoNothing(t: Value, path: seq<string>)
    requires Merge(None, t).Some?
    ensures Get(Merge(None, t).value, path) == Get(t, path)
    decreases |path|
  {
    if t.Node? {
      MergeByField(None, t.fields);
      if path != [] {
        assert Lookup(Merge(None, t), path[0]) == MergedField(None, t.fields, path[0]);
        if path[0] in t.fields { MergeIntoNothing(t.fields[path[0]], path[1..]); }
      }
    }
  }

  lemma {:induction false} MergeAddsNothingElse(d: Value, t: Value, path: seq<string>)
    requires Merge(Some(d), t).Some? && Get(Merge(Some(d), t).value, path).Some?
    ensures Get(Merge(Some(d), t).value, path) == Get(t, path) || Get(Merge(Some(d), t).value, path) == Get(d, path)
    decreases |path|
  {
    if t.Node? && d.Node? && path != [] {
      MergeByField(Some(d), t.fields);
      assert Lookup(Merge(Some(d), t), path[0]) == MergedField(Some(d), t.fields, path[0]);
      if path[0] in t.fields {
        if path[0] in d.fields {
          MergeAddsNothingElse(d.fields[path[0]], t.fields[path[0]], path[1..]);
        } else {
          MergeIntoNothing(t.fields[path[0]], path[1..]);
        }
      }
    }
  }

  lemma {:induction false} PrunedTouchesLess(t: Value, path: seq<string>)
    requires Untouched(t, path)
    ensures Untouched(Prune(t), path)
    decreases |path|
  {
    if path[0] in t.fields { PrunedTouchesLess(t.fields[path[0]], path[1..]); }
  }

  /**
    What an asset holds after a configuration, leaf by leaf: under `attributes.configuration` every leaf of
    the configuration; anywhere that no path of it meets, what the asset held; and nothing else.
   */
  lemma ConfiguredTells(doc: Value, configuration: map<string, Value>, path: seq<string>)
    requires doc.Node? && Configured(doc, configuration).Some?
    ensures var r, placed := Configured(doc, configuration).value, ["attributes", "configuration"] + path;
            && (Get(Node(configuration), path).Some? ==> Get(r, placed) == Get(Node(configuration), path))
            && (Untouched(Node(configuration), path) ==> Get(r, placed) == Get(doc, placed))
            && (path != [] && path[0] != "attributes" ==> Get(r, path) == Get(doc, path))
            && (|path| >= 2 && path[0] == "attributes" && path[1] != "configuration" ==> Get(r, path) == Get(doc, path))
            && (Get(r, placed).Some? ==> Get(r, placed) == Get(Node(configuration), path) || Get(r, placed) == Get(doc, placed))
  {
    var t, tree := Node(configuration), Prune(Nest(Node(configuration)));
    var r, placed := Configured(doc, configuration).value, ["attributes", "configuration"] + path;
    assert placed[1..] == ["configuration"] + path && placed[1..][1..] == path;
    NestedLeaves(t, path);
    PruneKeepsLeaves(Nest(t), placed);
    if Get(t, path).Some? { MergeGives(Some(doc), tree, placed); }
    if Untouched(t, path) {
      assert Untouched(Nest(t), placed);
      PrunedTouchesLess(Nest(t), placed);
      MergeKeeps(doc, tree, placed);
    }
    if path != [] && (path[0] != "attributes" || (|path| >= 2 && path[1] != "configuration")) {
      assert Untouched(Nest(t), path);
      PrunedTouchesLess(Nest(t), path);
      MergeKeeps(doc, tree, path);
    }
    if Get(r, placed).Some? { MergeAddsNothingElse(doc, tree, placed); }
  }

  /** Whether a leaf of the document lies on a path before its end. */
  predicate Blocked(d: Value, path: seq<string>)
    decreases |path|
  {
    path != [] && (d.Leaf? || (path[0] in d.fields && Blocked(d.fields[path[0]], path[1..])))
  }

  lemma {:induction false} MergeIntoNothingIsDone(t: Value)
    ensures Merge(None, t).Some?
  {
    if t.Node? {
      forall k | k in t.fields ensures Merge(None, t.fields[k]).Some? { MergeIntoNothingIsDone(t.fields[k]); }
      assert forall k :: k in t.fields ==> Lookup(None, k) == None;
    }
  }

  lemma {:induction false} RefusedByPath(d: Value, t: Value, path: seq<string>)
    requires Get(t, path).Some? && Blocked(d, path)
    ensures Merge(Some(d), t).None?
    decreases |path|
  {
    if d.Node? {
      RefusedByPath(d.fields[path[0]], t.fields[path[0]], path[1..]);
      assert Merge(Lookup(Some(d), path[0]), t.fields[path[0]]).None?;
    }
  }

  lemma {:induction false} RefusalHasAPath(d: Value, t: Value) returns (path: seq<string>)
    requires Merge(Some(d), t).None? && (Full(t) || (FullBelow(t) && d.Node?))
    ensures Get(t, path).Some? && Blocked(d, path)
  {
    if d.Leaf? {
      path := ALeafOf(t);
    } else {
      var k :| k in t.fields && Merge(Lookup(Some(d), k), t.fields[k]).None?;
      if k !in d.fields { MergeIntoNothingIsDone(t.fields[k]); }
      var q := RefusalHasAPath(d.fields[k], t.fields[k]);
      path := [k] + q;
      assert path[1..] == q;
    }
  }

  /** Exactly when an asset refuses a configuration: when one of its own leaves lies on the path of a leaf of the configuration. */
  lemma RefusedIff(doc: Value, configuration: map<string, Value>)
    requires doc.Node?
    ensures Configured(doc, configuration).None? <==>
            exists path :: Get(Node(configuration), path).Some? && Blocked(doc, ["attributes", "configuration"] + path)
  {
    var t, tree := Node(configuration), Prune(Nest(Node(configuration)));
    if path :| Get(t, path).Some? && Blocked(doc, ["attributes", "configuration"] + path) {
      NestedLeaves(t, path);
      PruneKeepsLeaves(Nest(t), ["attributes", "configuration"] + path);
      RefusedByPath(doc, tree, ["attributes", "configuration"] + path);
    }
    if Configured(doc, configuration).None? {
      PrunedIsFull(Nest(t));
      var placed := RefusalHasAPath(doc, tree);
      PruneKeepsLeaves(Nest(t), placed);
      NestedLeaves(t, placed);
      NestedLeaves(t, placed[2..]);
      assert Get(t, placed[2..]).Some? && Blocked(doc, ["attributes", "configuration"] + placed[2..]);
    }
  }

  /** Sets all fields on a document, in any order; a refused field leaves the document as it was. */
  method SetFields(doc: Value, fields: map<string, string>, ghost configuration: map<string, Value>) returns (r: Option<Value>)
    requires doc.Node? && GoodKeys(Node(configuration)) && Flattened(Node(configuration), PREFIX, map[], fields)
    ensures r == Configured(doc, configuration)
  {
    var todo, es := fields.Keys, [];
    r := Some(doc);
    while todo != {}
      invariant todo <= fields.Keys && ListsFields(es, fields, fields.Keys - todo)
      invariant r == SetAll(doc, es)
    {
      var f :| f in todo;
      ListsFieldsStep(es, Node(configuration), fields, fields.Keys - todo, f);
      assert (es + [EntryOf(fields, f)])[..|es|] == es;
      if r.Some? { r := SetPath(r, Steps(f), fields[f]); }
      assert fields.Keys - (todo - {f}) == fields.Keys - todo + {f};
      es, todo := es + [EntryOf(fields, f)], todo - {f};
    }
    assert fields.Keys - todo == fields.Keys;
    AllFieldsListed(es, Node(configuration), fields);
    SettingLeavesIsMerging(doc, Nest(Node(configuration)), es);
  }

  datatype UpdateResult = Updated(matched: nat) | NilConfiguration | Failed

  class AssetStore {
    var assets: map<string, Value>

    constructor ()
      ensures assets == map[]
    {
      assets := map[];
    }

    /**
      Every matched asset gets the configuration merged in. A configuration without leaves updates
      nothing and reports no match; a refused asset stops the update after some of the others.
     */
    method UpdateAssetsConfiguration(IDs: set<string>, configuration: Option<map<string, Value>>) returns (r: UpdateResult)
      requires forall id :: id in assets ==> assets[id].Node?
      requires configuration.Some? ==> GoodKeys(Node(configuration.value))
      modifies this
      ensures assets.Keys == old(assets.Keys)
      ensures configuration.None? ==> r == NilConfiguration && assets == old(assets)
      ensures configuration.Some? ==> forall id :: id in assets ==>
        assets[id] == old(assets)[id] || (id in IDs && Configured(old(assets)[id], configuration.value) == Some(assets[id]))
      ensures r.Updated? ==> configuration.Some? && r.matched == if Empty(Node(configuration.value)) then 0 else |IDs * assets.Keys|
      ensures r.Updated? ==> forall id :: id in IDs && id in assets ==> Configured(old(assets)[id], configuration.value) == Some(assets[id])
      ensures r.Failed? ==> configuration.Some? && exists id :: id in IDs && id in assets && Configured(old(assets)[id], configuration.value).None?
    {
      if configuration.None? { return NilConfiguration; }
      var updateFields := new FieldSet();
      ghost var order := FlattenMap(configuration.value, PREFIX, updateFields);
      var fields := updateFields.fields;
      NoFieldsIff(Node(configuration.value), fields);
      if fields == map[] {
        EmptyConfiguresNothing(configuration.value);
        return Updated(0);
      }
      var ok := SetOnAll(IDs, fields, configuration.value);
      r := if ok then Updated(|IDs * assets.Keys|) else Failed;
    }

    /** The database's update of every matched asset; it stops at the first one that refuses. */
    method SetOnAll(IDs: set<string>, fields: map<string, string>, ghost configuration: map<string, Value>) returns (ok: bool)
      requires forall id :: id in assets ==> assets[id].Node?
      requires GoodKeys(Node(configuration)) && Flattened(Node(configuration), PREFIX, map[], fields)
      modifies this
      ensures assets.Keys == old(assets.Keys)
      ensures forall id :: id in assets ==>
        assets[id] == old(assets)[id] || (id in IDs && Configured(old(assets)[id], configuration) == Some(assets[id]))
      ensures ok ==> forall id :: id in IDs && id in assets ==> Configured(old(assets)[id], configuration) == Some(assets[id])
      ensures !ok ==> exists id :: id in IDs && id in assets && Configured(old(assets)[id], configuration).None?
    {
      var todo := IDs * assets.Keys;
      while todo != {}
        invariant assets.Keys == old(assets.Keys) && todo <= IDs * assets.Keys
        invariant forall id :: id in assets && id !in IDs - todo ==> assets[id] == old(assets)[id]
        invariant forall id :: id in assets && id in IDs - todo ==> Configured(old(assets)[id], configuration) == Some(assets[id])
      {
        var id :| id in todo;
        var doc := SetFields(assets[id], fields, configuration);
        if doc.None? { return false; }
        assets := assets[id := doc.value];
        todo := todo - {id};
      }
      ok := true;
    }
  }

  lemma NoFieldsIff(t: Value, fields: map<string, string>)
    requires t.Node? && Flattened(t, PREFIX, map[], fields)
    ensures fields == map[] <==> Empty(t)
  {
    if Empty(t) {
      forall f | f in fields ensures false {
        assert Explained(t, PREFIX, map[], f, fields[f]);
        var p :| Writes(t, PREFIX, p, f, fields[f]);
        EmptyHasNoLeaf(t, p);
      }
    } else {
      PrunedIsFull(t);
      var p := ALeafOf(Prune(t));
      PruneKeepsLeaves(t, p);
      assert Writes(t, PREFIX, p, Text(PREFIX, p), Get(t, p).value);
      assert Holds(t, PREFIX, Text(PREFIX, p), Get(t, p).value);
    }
  }

  lemma EmptyConfiguresNothing(configuration: map<string, Value>)
    requires Empty(Node(configuration))
    ensures forall doc: Value :: doc.Node? ==> Configured(doc, configuration) == Some(doc)
  {
    var t := Nest(Node(configuration));
    assert Empty(t.fields["attributes"].fields["configuration"]);
    assert Empty(t);
    PrunedIsFull(t);
    forall doc: Value | doc.Node? ensures Configured(doc, configuration) == Some(doc) {
      MergeByField(Some(doc), map[]);
      assert Merge(Some(doc), Node(map[])).value.fields == doc.fields;
    }
  }
}
