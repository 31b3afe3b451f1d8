/** `make_response`: a response tree rebuilt from a form's node path map, one
    fake leaf per map entry, the inverse of flattening. */
module Factories {
  import opened Py
  import opened Dicts
  import opened Json
  import opened Constants
  import opened Paths
  import opened SchemaMap
  import opened Flatten

  // ----- Fake leaf values -----

  /** What the faker table is looked up with. */
  datatype FakerKey = TypeKey(t: AnswerType) | InfoKey(info: NodeInfo)

  /** `JSON_FAKERS.make_fake_value(key)`: the table has one faker for each
      of the four answer types, and `fake` stands for the random value each
      returns. Any other key is missing (KeyError), or cannot even be hashed
      (TypeError) when it is a NodeInfo whose tag is a list or a dict. */
  function MakeFakeValue(fake: AnswerType -> Value, key: FakerKey): (r: Result<Value>)
    ensures r.Ok? <==> key.TypeKey?
    ensures r.Ok? ==> r.value == fake(key.t)
    ensures r.Raise? ==> r.exc == (if key.info.tag.List? || key.info.tag.Obj? then TypeError else KeyError)
  {
    match key
    case TypeKey(t) => Ok(fake(t))
    case InfoKey(info) => if info.tag.List? || info.tag.Obj? then Raise(TypeError) else Raise(KeyError)
  }

  /** The JSON fakers: an int for a number, a bool for a boolean, a string
      for text and for a date. */
  predicate JsonFakes(fake: AnswerType -> Value) {
    fake(Number).Num? && fake(Boolean).Bool? && fake(Text).Str? && fake(Date).Str?
  }

  /** The leaf value as written: the map entry's value, a NodeInfo, is used
      as the faker key. */
  function AsWrittenLeaf(fake: AnswerType -> Value): NodeInfo -> Result<Value> {
    (info: NodeInfo) => MakeFakeValue(fake, InfoKey(info))
  }

  /** The leaf value as intended: the entry's answer type is the faker key. */
  function CorrectedLeaf(fake: AnswerType -> Value): NodeInfo -> Result<Value> {
    (info: NodeInfo) => MakeFakeValue(fake, TypeKey(info.answerType))
  }

  // ----- The tree being built -----

  /** One entry: `d[c] = d.get(c, {}); d = d[c]` for every component but the
      last, then `d[leaf_key] = value`. Calling `.get` on something that is
      not a dict raises AttributeError, assigning into it raises TypeError,
      and the leaf value is computed after the descent, before the
      assignment. */
  function Insert(d: Value, q: seq<string>, v: Result<Value>): Result<Value>
    requires q != []
    decreases |q|
  {
    if |q| == 1 then
      if v.Raise? then Raise(v.exc)
      else if !d.Obj? then Raise(TypeError)
      else Ok(Obj(Put(d.fields, q[0], v.value)))
    else if !d.Obj? then Raise(AttributeError)
    else
      match Insert(Get(d.fields, q[0]).GetOr(Obj([])), q[1..], v)
      case Raise(e) => Raise(e)
      case Ok(c) => Ok(Obj(Put(d.fields, q[0], c)))
  }

  /** The loop over `node_map.items()`, from the tree `acc`. */
  function InsertAll(acc: Value, entries: NodeMap, leaf: NodeInfo -> Result<Value>): Result<Value>
    decreases |entries|
  {
    if entries == [] then Ok(acc)
    else
      match Insert(acc, Split(entries[0].0), leaf(entries[0].1))
      case Raise(e) => Raise(e)
      case Ok(acc') => InsertAll(acc', entries[1..], leaf)
  }

  /** `make_response(get_node_path_map, form_id)`, given what the map lookup
      returns. */
  function MakeResponseSpec(load: Result<NodeMap>, leaf: NodeInfo -> Result<Value>): Result<Value> {
    match load
    case Raise(e) => Raise(e)
    case Ok(M) => InsertAll(Obj([]), M, leaf)
  }

  /** The dicts above the cursor, outermost first, each with the key the
      cursor went down by. */
  type Trail = seq<(Dict<string, Value>, string)>

  /** The whole tree, once the dict under the cursor has become `v`: the
      dicts on the trail are the ones the cursor aliases, so each of them now
      holds its child under the key it was entered by. */
  function Zip(trail: Trail, v: Value): Value
    decreases |trail|
  {
    if trail == [] then v
    else
      var last := trail[|trail| - 1];
      Zip(trail[..|trail| - 1], Obj(Put(last.0, last.1, v)))
  }

  function Lift(trail: Trail, r: Result<Value>): Result<Value> {
    if r.Raise? then r else Ok(Zip(trail, r.value))
  }

  /** `make_response`: the map is fetched, then every entry's path is
      split, the cursor walks down creating missing dicts, and the fake leaf
      is stored under the last component. */
  method MakeResponse(schemas: Uuid -> Option<Value>, formId: Uuid, leaf: NodeInfo -> Result<Value>)
    returns (r: Result<Value>)
    ensures r == MakeResponseSpec(LoadNodePathMap(schemas, formId), leaf)
  {
    var load := LoadNodePathMap(schemas, formId);
    if load.Raise? {
      return Raise(load.exc);
    }
    var nodeMap := load.value;
    var responses := Obj([]);
    var n := 0;
    while n < |nodeMap|
      invariant 0 <= n <= |nodeMap|
      invariant InsertAll(Obj([]), nodeMap, leaf) == InsertAll(responses, nodeMap[n..], leaf)
    {
      var path := nodeMap[n].0;
      var info := nodeMap[n].1;
      var q := Split(path);
      var leafKey := q[|q| - 1];
      var d := responses;
      var trail: Trail := [];
      var i := 0;
      while i < |q| - 1
        invariant 0 <= i <= |q| - 1
        invariant Insert(responses, q, leaf(info)) == Lift(trail, Insert(d, q[i..], leaf(info)))
      {
        if !d.Obj? {
          assert Insert(d, q[i..], leaf(info)) == Raise(AttributeError);
          return Raise(AttributeError);
        }
        var c := q[i];
        var child := Get(d.fields, c).GetOr(Obj([]));
        assert q[i..][1..] == q[i + 1..];
        assert Zip(trail + [(d.fields, c)], child) == Zip(trail, Obj(Put(d.fields, c, child))) by {
          assert (trail + [(d.fields, c)])[..|trail|] == trail;
        }
        ghost var below := Insert(child, q[i + 1..], leaf(info));
        if below.Ok? {
          assert Zip(trail + [(d.fields, c)], below.value) == Zip(trail, Obj(Put(d.fields, c, below.value))) by {
            assert (trail + [(d.fields, c)])[..|trail|] == trail;
          }
        }
        trail := trail + [(d.fields, c)];
        d := child;
        i := i + 1;
      }
      assert q[i..] == [leafKey];
      var value := leaf(info);
      if value.Raise? {
        return Raise(value.exc);
      }
      if !d.Obj? {
        return Raise(TypeError);
      }
      responses := Zip(trail, Obj(Put(d.fields, leafKey, value.value)));
      assert nodeMap[n..][1..] == nodeMap[n + 1..];
      n := n + 1;
    }
    assert nodeMap[n..] == [];
    r := Ok(responses);
  }

  // ----- Keys at the top -----

  /** The first component of every entry's path. */
  function FirstComponents(M: NodeMap): set<string> {
    set i | 0 <= i < |M| :: Split(M[i].0)[0]
  }

  lemma {:induction false} InsertAllTopKeys(acc: Value, entries: NodeMap, leaf: NodeInfo -> Result<Value>)
    requires acc.Obj? && InsertAll(acc, entries, leaf).Ok?
    ensures InsertAll(acc, entries, leaf).value.Obj?
    ensures Keys(InsertAll(acc, entries, leaf).value.fields) == Keys(acc.fields) + FirstComponents(entries)
    decreases |entries|
  {
    if entries != [] {
      var acc' := Insert(acc, Split(entries[0].0), leaf(entries[0].1)).value;
      InsertAllTopKeys(acc', entries[1..], leaf);
      assert FirstComponents(entries) == {Split(entries[0].0)[0]} + FirstComponents(entries[1..]) by {
        forall x | x in FirstComponents(entries) ensures x in {Split(entries[0].0)[0]} + FirstComponents(entries[1..]) {
          var i :| 0 <= i < |entries| && Split(entries[i].0)[0] == x;
          if i > 0 {
            assert entries[1..][i - 1] == entries[i];
          }
        }
        forall x | x in FirstComponents(entries[1..]) ensures x in FirstComponents(entries) {
          var i :| 0 <= i < |entries[1..]| && Split(entries[1..][i].0)[0] == x;
          assert entries[1..][i] == entries[i + 1];
        }
      }
    } else {
      assert FirstComponents(entries) == {};
    }
  }

  /** When `make_response` succeeds, the top-level keys of the response are
      exactly the first components of the map's paths; an empty map gives an
      empty response. */
  lemma ResponseTopKeys(M: NodeMap, leaf: NodeInfo -> Result<Value>)
    requires MakeResponseSpec(Ok(M), leaf).Ok?
    ensures MakeResponseSpec(Ok(M), leaf).value.Obj?
    ensures Keys(MakeResponseSpec(Ok(M), leaf).value.fields) == FirstComponents(M)
    ensures M == [] ==> MakeResponseSpec(Ok(M), leaf) == Ok(Obj([]))
  {
    InsertAllTopKeys(Obj([]), M, leaf);
  }

  // ----- The finding: the faker key -----

  /** Descending into an empty dict only ever meets fresh empty dicts, so
      the first thing that can fail is the leaf value. */
  lemma {:induction false} InsertIntoEmpty(q: seq<string>, e: Exception)
    requires q != []
    ensures Insert(Obj([]), q, Raise(e)) == Raise(e)
    decreases |q|
  {
    if |q| > 1 {
      InsertIntoEmpty(q[1..], e);
    }
  }

  /** As written, `make_response` fails on every non-empty map, at its first
      entry: a NodeInfo is never a key of the faker table. */
  lemma AsWrittenRaises(M: NodeMap, fake: AnswerType -> Value)
    requires M != []
    ensures MakeResponseSpec(Ok(M), AsWrittenLeaf(fake))
            == Raise(if M[0].1.tag.List? || M[0].1.tag.Obj? then TypeError else KeyError)
  {
    var e := if M[0].1.tag.List? || M[0].1.tag.Obj? then TypeError else KeyError;
    assert AsWrittenLeaf(fake)(M[0].1) == Raise(e);
    InsertIntoEmpty(Split(M[0].0), e);
  }

  lemma SplitTwo(a: string, b: string)
    requires NoDot(a) && NoDot(b)
    ensures Split(a + "." + b) == [a, b]
  {
    SplitAtDot(a, b);
    SplitOfDotless(b);
  }

  /** A map with one two-component path `a.b` gives `{a: {b: leaf}}`. */
  lemma TwoComponentEntry(a: string, b: string, info: NodeInfo, leaf: NodeInfo -> Result<Value>)
    requires NoDot(a) && NoDot(b) && leaf(info).Ok?
    ensures MakeResponseSpec(Ok([(a + "." + b, info)]), leaf) == Ok(Obj([(a, Obj([(b, leaf(info).value)]))]))
  {
    SplitTwo(a, b);
    var v := leaf(info).value;
    assert [a, b][1..] == [b];
    assert Get<string, Value>([], a) == None;
    assert Insert(Obj([]), [b], Ok(v)) == Ok(Obj([(b, v)]));
    assert Insert(Obj([]), [a, b], Ok(v)) == Ok(Obj([(a, Obj([(b, v)]))]));
    var M := [(a + "." + b, info)];
    assert M[1..] == [];
    assert Insert(Obj([]), Split(M[0].0), leaf(M[0].1)) == Ok(Obj([(a, Obj([(b, v)]))]));
    assert InsertAll(Obj([]), M, leaf) == InsertAll(Obj([(a, Obj([(b, v)]))]), [], leaf);
  }

  /** A one-entry map: as written the call raises KeyError; keyed by the
      answer type it yields the nested response. */
  lemma AsWrittenCounterexample(fake: AnswerType -> Value)
    ensures MakeResponseSpec(Ok([("root.age", NodeInfo(Number, Null))]), AsWrittenLeaf(fake)) == Raise(KeyError)
    ensures MakeResponseSpec(Ok([("root.age", NodeInfo(Number, Null))]), CorrectedLeaf(fake))
            == Ok(Obj([("root", Obj([("age", fake(Number))]))]))
  {
    AsWrittenRaises([("root.age", NodeInfo(Number, Null))], fake);
    assert "root" + "." + "age" == "root.age";
    assert NoDot("root") && NoDot("age");
    TwoComponentEntry("root", "age", NodeInfo(Number, Null), CorrectedLeaf(fake));
  }

  // ----- The inverse of flattening -----

  predicate IsPrefix(p: seq<string>, q: seq<string>) {
    |p| <= |q| && q[..|p|] == p
  }

  predicate StrictPrefix(p: seq<string>, q: seq<string>) {
    |p| < |q| && q[..|p|] == p
  }

  lemma ConsPrefix(c: string, p: seq<string>, q: seq<string>)
    ensures IsPrefix([c] + q, [c] + p) <==> IsPrefix(q, p)
    ensures StrictPrefix([c] + q, [c] + p) <==> StrictPrefix(q, p)
  {
    if |q| <= |p| {
      var x := p[..|q|];
      assert ([c] + p)[..|q| + 1] == [c] + x;
      if [c] + x == [c] + q {
        assert x == ([c] + x)[1..] == ([c] + q)[1..] == q;
      }
    }
  }

  /** A scalar found at the end of a non-empty path. */
  predicate LeafAt(t: Value, p: seq<string>, w: Value) {
    p != [] && Lookup(t, p) == Some(w) && IsScalar(w)
  }

  /** The shape `make_response` builds: dicts with distinct, dot-free keys
      whose values are dicts or scalars, never lists. */
  predicate DictTree(v: Value) {
    match v
    case List(_) => false
    case Obj(f) => DistinctKeys(f) && forall i :: 0 <= i < |f| ==> NoDot(f[i].0) && DictTree(f[i].1)
    case _ => true
  }

  lemma {:induction false} DictTreeIsWellFormed(v: Value)
    requires DictTree(v)
    ensures WellFormed(v) && DotlessKeys(v)
  {
    if v.Obj? {
      forall i | 0 <= i < |v.fields| ensures WellFormed(v.fields[i].1) && DotlessKeys(v.fields[i].1) {
        FieldSmaller(v.fields, i);
        DictTreeIsWellFormed(v.fields[i].1);
      }
    }
  }

  lemma DictTreeGet(f: Dict<string, Value>, k: string)
    requires DictTree(Obj(f)) && Get(f, k).Some?
    ensures DictTree(Get(f, k).value)
  {
    var i :| 0 <= i < |f| && f[i] == (k, Get(f, k).value);
  }

  lemma DictTreePut(f: Dict<string, Value>, k: string, x: Value)
    requires DictTree(Obj(f)) && NoDot(k) && DictTree(x)
    ensures DictTree(Obj(Put(f, k, x)))
  {
    var r := Put(f, k, x);
    forall i | 0 <= i < |r| ensures NoDot(r[i].0) && DictTree(r[i].1) {
      PutPairs(f, k, x, r[i]);
    }
  }

  /** Storing a scalar at a dot-free path into a dict tree succeeds when no
      proper prefix of the path holds a scalar. Afterwards the scalar sits at
      the path, and the tree's other leaves are the old ones, except those
      the path leads to or through, which the new value replaced. */
  lemma {:induction false} InsertLeaves(d: Value, q: seq<string>, v: Value)
    requires DictTree(d) && d.Obj? && IsScalar(v) && q != []
    requires forall i :: 0 <= i < |q| ==> NoDot(q[i])
    requires forall p, w :: LeafAt(d, p, w) ==> !StrictPrefix(p, q)
    ensures Insert(d, q, Ok(v)).Ok?
    ensures DictTree(Insert(d, q, Ok(v)).value) && Insert(d, q, Ok(v)).value.Obj?
    ensures forall p, w :: LeafAt(Insert(d, q, Ok(v)).value, p, w) <==> (p == q && w == v) || (LeafAt(d, p, w) && !IsPrefix(q, p))
    decreases |q|
  {
    if |q| == 1 {
      InsertLeavesLast(d, q[0], v);
      assert q == [q[0]];
    } else {
      InsertLeavesStep(d, q, v);
    }
  }

  lemma InsertLeavesLast(d: Value, c: string, v: Value)
    requires DictTree(d) && d.Obj? && IsScalar(v) && NoDot(c)
    ensures Insert(d, [c], Ok(v)) == Ok(Obj(Put(d.fields, c, v)))
    ensures DictTree(Obj(Put(d.fields, c, v)))
    ensures forall p, w :: LeafAt(Obj(Put(d.fields, c, v)), p, w) <==> (p == [c] && w == v) || (LeafAt(d, p, w) && !IsPrefix([c], p))
  {
    var f := d.fields;
    var r := Put(f, c, v);
    DictTreePut(f, c, v);
    forall p, w ensures LeafAt(Obj(r), p, w) <==> (p == [c] && w == v) || (LeafAt(d, p, w) && !IsPrefix([c], p)) {
      if p != [] {
        assert p[..1] == [p[0]];
        if p[0] != c {
          PutOther(f, c, v, p[0]);
          assert [p[0]][0] != [c][0];
          assert !IsPrefix([c], p);
        } else if |p| > 1 {
          assert Lookup(Obj(r), p) == Lookup(v, p[1..]) == None;
          assert IsPrefix([c], p) && p != [c];
        } else {
          assert p == [c];
          assert Lookup(Obj(r), p) == Lookup(v, []) == Some(v);
        }
      }
    }
  }

  lemma {:induction false} InsertLeavesStep(d: Value, q: seq<string>, v: Value)
    requires DictTree(d) && d.Obj? && IsScalar(v) && |q| > 1
    requires forall i :: 0 <= i < |q| ==> NoDot(q[i])
    requires forall p, w :: LeafAt(d, p, w) ==> !StrictPrefix(p, q)
    ensures Insert(d, q, Ok(v)).Ok?
    ensures DictTree(Insert(d, q, Ok(v)).value) && Insert(d, q, Ok(v)).value.Obj?
    ensures forall p, w :: LeafAt(Insert(d, q, Ok(v)).value, p, w) <==> (p == q && w == v) || (LeafAt(d, p, w) && !IsPrefix(q, p))
    decreases |q|, 0
  {
    var f := d.fields;
    var c := q[0];
    var q' := q[1..];
    assert q == [c] + q';
    var found := Get(f, c);
    var child := found.GetOr(Obj([]));
    assert StrictPrefix([c], q);
    if found.Some? {
      DictTreeGet(f, c);
      assert Lookup(d, [c]) == Some(found.value);
      assert !LeafAt(d, [c], found.value);
    }
    assert DictTree(child) && child.Obj?;
    // The descent below `c` meets no scalar either.
    forall p', w ensures LeafAt(child, p', w) <==> LeafAt(d, [c] + p', w) {
      assert ([c] + p')[0] == c && ([c] + p')[1..] == p';
    }
    forall p', w ensures LeafAt(child, p', w) ==> !StrictPrefix(p', q') {
      ConsPrefix(c, q', p');
    }
    forall i | 0 <= i < |q'| ensures NoDot(q'[i]) {
      assert q'[i] == q[i + 1];
    }
    InsertLeaves(child, q', v);
    var c' := Insert(child, q', Ok(v)).value;
    assert Insert(d, q, Ok(v)) == Ok(Obj(Put(f, c, c')));
    DictTreePut(f, c, c');
    var r := Put(f, c, c');
    forall p, w ensures LeafAt(Obj(r), p, w) <==> (p == q && w == v) || (LeafAt(d, p, w) && !IsPrefix(q, p)) {
      if p != [] {
        var p' := p[1..];
        assert p == [p[0]] + p';
        if p[0] != c {
          PutOther(f, c, c', p[0]);
          assert !IsPrefix(q, p) by {
            if |q| <= |p| {
              assert p[..|q|][0] == p[0];
            }
          }
        } else {
          assert Lookup(Obj(r), p) == Lookup(c', p');
          ConsPrefix(c, p', q');
          if p' == [] {
            assert Lookup(d, p) == found;
            assert !LeafAt(Obj(r), p, w) && !LeafAt(d, p, w) && p != q;
          } else {
            assert LeafAt(Obj(r), p, w) <==> LeafAt(c', p', w);
            assert LeafAt(child, p', w) <==> LeafAt(d, p, w);
          }
        }
      }
    }
  }

  /** No entry's path is a prefix of another entry's path (equal paths
      included), so no leaf ever has to be stored inside another. */
  predicate PrefixFree(M: NodeMap) {
    forall i, j :: 0 <= i < |M| && 0 <= j < |M| && i != j ==> !IsPrefix(Split(M[i].0), Split(M[j].0))
  }

  /** Every entry's leaf value can be made, and is a scalar. */
  predicate ScalarLeaves(entries: NodeMap, leaf: NodeInfo -> Result<Value>) {
    forall j :: 0 <= j < |entries| ==> leaf(entries[j].1).Ok? && IsScalar(leaf(entries[j].1).value)
  }

  /** Some entry has path `p` and leaf value `w`. */
  predicate EntryLeaf(entries: NodeMap, leaf: NodeInfo -> Result<Value>, p: seq<string>, w: Value) {
    exists j :: 0 <= j < |entries| && p == Split(entries[j].0) && leaf(entries[j].1) == Ok(w)
  }

  /** Some entry's path leads to or through `p`. */
  predicate Covered(entries: NodeMap, p: seq<string>) {
    exists j :: 0 <= j < |entries| && IsPrefix(Split(entries[j].0), p)
  }

  lemma EntryLeafCons(entries: NodeMap, leaf: NodeInfo -> Result<Value>, p: seq<string>, w: Value)
    requires entries != []
    ensures EntryLeaf(entries, leaf, p, w) <==>
            (p == Split(entries[0].0) && leaf(entries[0].1) == Ok(w)) || EntryLeaf(entries[1..], leaf, p, w)
  {
    if EntryLeaf(entries, leaf, p, w) {
      var j :| 0 <= j < |entries| && p == Split(entries[j].0) && leaf(entries[j].1) == Ok(w);
      if j > 0 {
        assert entries[1..][j - 1] == entries[j];
      }
    }
    if EntryLeaf(entries[1..], leaf, p, w) {
      var j :| 0 <= j < |entries[1..]| && p == Split(entries[1..][j].0) && leaf(entries[1..][j].1) == Ok(w);
      assert entries[1..][j] == entries[j + 1];
    }
  }

  lemma CoveredCons(entries: NodeMap, p: seq<string>)
    requires entries != []
    ensures Covered(entries, p) <==> IsPrefix(Split(entries[0].0), p) || Covered(entries[1..], p)
  {
    if Covered(entries, p) {
      var j :| 0 <= j < |entries| && IsPrefix(Split(entries[j].0), p);
      if j > 0 {
        assert entries[1..][j - 1] == entries[j];
      }
    }
    if Covered(entries[1..], p) {
      var j :| 0 <= j < |entries[1..]| && IsPrefix(Split(entries[1..][j].0), p);
      assert entries[1..][j] == entries[j + 1];
    }
  }

  lemma PrefixFreeTail(M: NodeMap)
    requires M != [] && PrefixFree(M)
    ensures PrefixFree(M[1..])
    ensures !Covered(M[1..], Split(M[0].0))
    ensures forall j :: 1 <= j < |M| ==> !StrictPrefix(Split(M[0].0), Split(M[j].0))
  {
    var t := M[1..];
    forall i, j | 0 <= i < |t| && 0 <= j < |t| && i != j ensures !IsPrefix(Split(t[i].0), Split(t[j].0)) {
      assert t[i] == M[i + 1] && t[j] == M[j + 1];
    }
    forall j | 0 <= j < |t| ensures !IsPrefix(Split(t[j].0), Split(M[0].0)) {
      assert t[j] == M[j + 1];
    }
  }

  /** The loop over the entries, from a tree `acc` none of whose leaves lies
      strictly above an entry's path: it succeeds, and the leaves of the
      result are the entries' leaves plus those of `acc` that no entry
      reached. */
  lemma {:induction false} InsertAllLeaves(acc: Value, entries: NodeMap, leaf: NodeInfo -> Result<Value>)
    requires DictTree(acc) && acc.Obj?
    requires ScalarLeaves(entries, leaf) && PrefixFree(entries)
    requires forall j, p, w :: 0 <= j < |entries| && LeafAt(acc, p, w) ==> !StrictPrefix(p, Split(entries[j].0))
    ensures InsertAll(acc, entries, leaf).Ok?
    ensures DictTree(InsertAll(acc, entries, leaf).value) && InsertAll(acc, entries, leaf).value.Obj?
    ensures forall p, w :: LeafAt(InsertAll(acc, entries, leaf).value, p, w) <==>
              EntryLeaf(entries, leaf, p, w) || (LeafAt(acc, p, w) && !Covered(entries, p))
    decreases |entries|
  {
    if entries == [] {
      forall p, w ensures !EntryLeaf(entries, leaf, p, w) && !Covered(entries, p) {
      }
    } else {
      var e := entries[0];
      var q := Split(e.0);
      var v := leaf(e.1).value;
      SplitNoDot(e.0);
      InsertLeaves(acc, q, v);
      var acc' := Insert(acc, q, Ok(v)).value;
      var rest := entries[1..];
      PrefixFreeTail(entries);
      forall j | 0 <= j < |rest| ensures leaf(rest[j].1).Ok? && IsScalar(leaf(rest[j].1).value) {
        assert rest[j] == entries[j + 1];
      }
      forall j, p, w | 0 <= j < |rest| && LeafAt(acc', p, w) ensures !StrictPrefix(p, Split(rest[j].0)) {
        assert rest[j] == entries[j + 1];
      }
      InsertAllLeaves(acc', rest, leaf);
      assert InsertAll(acc, entries, leaf) == InsertAll(acc', rest, leaf);
      forall p, w ensures LeafAt(InsertAll(acc', rest, leaf).value, p, w) <==>
                          EntryLeaf(entries, leaf, p, w) || (LeafAt(acc, p, w) && !Covered(entries, p)) {
        EntryLeafCons(entries, leaf, p, w);
        CoveredCons(entries, p);
      }
    }
  }

  /** `make_response` on a prefix-free map whose leaf values are scalars
      succeeds, builds a tree of dicts, and the tree's leaves are exactly
      the entries: the path split at the dots leads to the entry's value. */
  lemma ResponseLeaves(M: NodeMap, leaf: NodeInfo -> Result<Value>)
    requires ScalarLeaves(M, leaf) && PrefixFree(M)
    ensures MakeResponseSpec(Ok(M), leaf).Ok?
    ensures DictTree(MakeResponseSpec(Ok(M), leaf).value) && MakeResponseSpec(Ok(M), leaf).value.Obj?
    ensures forall p, w :: LeafAt(MakeResponseSpec(Ok(M), leaf).value, p, w) <==> EntryLeaf(M, leaf, p, w)
  {
    forall p, w ensures !LeafAt(Obj([]), p, w) {
      if p != [] {
        assert Lookup(Obj([]), p) == None;
      }
    }
    InsertAllLeaves(Obj([]), M, leaf);
  }

  /** Every dict on the way down a path exists: each proper prefix of the
      path leads to a dict. */
  predicate Navigable(t: Value, q: seq<string>) {
    Lookup(t, q).Some? && forall k :: 0 <= k < |q| ==> Lookup(t, q[..k]).Some? && Lookup(t, q[..k]).value.Obj?
  }

  lemma LookupNavigable(t: Value, q: seq<string>)
    requires Lookup(t, q).Some?
    ensures Navigable(t, q)
  {
    forall k | 0 <= k < |q| ensures Lookup(t, q[..k]).Some? && Lookup(t, q[..k]).value.Obj? {
      assert q == q[..k] + q[k..];
      LookupConcat(t, q[..k], q[k..]);
    }
  }

  /** Every map path can be followed through the response: dicts all the way
      down, and the entry's leaf value at the end. */
  lemma ResponseNavigable(M: NodeMap, leaf: NodeInfo -> Result<Value>)
    requires ScalarLeaves(M, leaf) && PrefixFree(M)
    ensures MakeResponseSpec(Ok(M), leaf).Ok?
    ensures forall i :: 0 <= i < |M| ==>
              Navigable(MakeResponseSpec(Ok(M), leaf).value, Split(M[i].0)) &&
              Lookup(MakeResponseSpec(Ok(M), leaf).value, Split(M[i].0)) == Some(leaf(M[i].1).value)
  {
    ResponseLeaves(M, leaf);
    var t := MakeResponseSpec(Ok(M), leaf).value;
    forall i | 0 <= i < |M| ensures Navigable(t, Split(M[i].0)) && Lookup(t, Split(M[i].0)) == Some(leaf(M[i].1).value) {
      assert EntryLeaf(M, leaf, Split(M[i].0), leaf(M[i].1).value);
      LookupNavigable(t, Split(M[i].0));
    }
  }

  /** The answer flattening gives for an entry whose leaf was faked by type. */
  function ExpectedAnswer(info: NodeInfo, fake: AnswerType -> Value): Answer {
    Answer(info.answerType, Serialize(info.answerType, fake(info.answerType)), info.tag)
  }

  lemma CorrectedLeavesAreScalars(M: NodeMap, fake: AnswerType -> Value)
    requires JsonFakes(fake)
    ensures ScalarLeaves(M, CorrectedLeaf(fake))
  {
    forall j | 0 <= j < |M| ensures CorrectedLeaf(fake)(M[j].1).Ok? && IsScalar(CorrectedLeaf(fake)(M[j].1).value) {
      match M[j].1.answerType
      case Number =>
      case Text =>
      case Boolean =>
      case Date =>
    }
  }

  /** Flattening a dict whose leaves are exactly the map's entries, faked by
      type, finds every entry. */
  lemma FlattenFindsEntries(t: Value, M: NodeMap, fake: AnswerType -> Value)
    requires t.Obj? && DistinctKeys(M)
    requires forall p, w :: LeafAt(t, p, w) <==> EntryLeaf(M, CorrectedLeaf(fake), p, w)
    ensures forall i :: 0 <= i < |M| ==> (M[i].0, ExpectedAnswer(M[i].1, fake)) in FlattenResponses(t, M).items
  {
    forall i | 0 <= i < |M| ensures (M[i].0, ExpectedAnswer(M[i].1, fake)) in FlattenResponses(t, M).items {
      var q := Split(M[i].0);
      var w := fake(M[i].1.answerType);
      assert EntryLeaf(M, CorrectedLeaf(fake), q, w);
      JoinSplit(M[i].0);
      GetAt(M, i);
      FlattenComplete(t, M, q, w);
    }
  }

  /** ... and nothing else. */
  lemma FlattenOnlyEntries(t: Value, M: NodeMap, fake: AnswerType -> Value)
    requires WellFormed(t) && DistinctKeys(M)
    requires forall p, w :: LeafAt(t, p, w) <==> EntryLeaf(M, CorrectedLeaf(fake), p, w)
    ensures forall y :: y in FlattenResponses(t, M).items ==> y.0 in Keys(M) && y.1 == ExpectedAnswer(Get(M, y.0).value, fake)
  {
    forall y | y in FlattenResponses(t, M).items ensures y.0 in Keys(M) && y.1 == ExpectedAnswer(Get(M, y.0).value, fake) {
      var q, v := FlattenSound(t, M, y);
      assert LeafAt(t, q, v);
      var j :| 0 <= j < |M| && q == Split(M[j].0) && CorrectedLeaf(fake)(M[j].1) == Ok(v);
      JoinSplit(M[j].0);
      GetAt(M, j);
    }
  }

  /** Round trip: flattening the response made from a prefix-free node path
      map, with the same map, raises nothing and yields every map path
      exactly once, each with the answer for its entry's faked value. */
  lemma RoundTrip(M: NodeMap, fake: AnswerType -> Value)
    requires DistinctKeys(M) && PrefixFree(M) && JsonFakes(fake)
    ensures MakeResponseSpec(Ok(M), CorrectedLeaf(fake)).Ok?
    ensures FlattenResponses(MakeResponseSpec(Ok(M), CorrectedLeaf(fake)).value, M).raised.None?
    ensures DistinctPaths(FlattenResponses(MakeResponseSpec(Ok(M), CorrectedLeaf(fake)).value, M).items)
    ensures forall i :: 0 <= i < |M| ==>
              (M[i].0, ExpectedAnswer(M[i].1, fake)) in FlattenResponses(MakeResponseSpec(Ok(M), CorrectedLeaf(fake)).value, M).items
    ensures forall y :: y in FlattenResponses(MakeResponseSpec(Ok(M), CorrectedLeaf(fake)).value, M).items ==>
              y.0 in Keys(M) && y.1 == ExpectedAnswer(Get(M, y.0).value, fake)
  {
    CorrectedLeavesAreScalars(M, fake);
    ResponseLeaves(M, CorrectedLeaf(fake));
    var t := MakeResponseSpec(Ok(M), CorrectedLeaf(fake)).value;
    DictTreeIsWellFormed(t);
    FlattenRaise(t, M);
    FlattenDistinct(t, M);
    FlattenFindsEntries(t, M, fake);
    FlattenOnlyEntries(t, M, fake);
  }

  // ----- Paths sharing a prefix, and paths that are prefixes of others -----

  /** Two paths with the same first component share one dict for it. */
  lemma SharedPrefix(a: string, b: string, c: string, i1: NodeInfo, i2: NodeInfo, leaf: NodeInfo -> Result<Value>)
    requires NoDot(a) && NoDot(b) && NoDot(c) && b != c
    requires leaf(i1).Ok? && leaf(i2).Ok?
    ensures MakeResponseSpec(Ok([(a + "." + b, i1), (a + "." + c, i2)]), leaf)
            == Ok(Obj([(a, Obj([(b, leaf(i1).value), (c, leaf(i2).value)]))]))
  {
    var v1, v2 := leaf(i1).value, leaf(i2).value;
    var M := [(a + "." + b, i1), (a + "." + c, i2)];
    TwoComponentEntry(a, b, i1, leaf);
    var t1 := Obj([(a, Obj([(b, v1)]))]);
    SplitTwo(a, b);
    assert [a, b][1..] == [b];
    assert Insert(Obj([]), Split(M[0].0), leaf(i1)) == Ok(t1);
    SplitTwo(a, c);
    assert [a, c][1..] == [c];
    assert [(b, v1)][1..] == [] && [(a, Obj([(b, v1)]))][1..] == [];
    assert Put([(b, v1)], c, v2) == [(b, v1), (c, v2)];
    assert Insert(Obj([(b, v1)]), [c], Ok(v2)) == Ok(Obj([(b, v1), (c, v2)]));
    assert Get(t1.fields, a) == Some(Obj([(b, v1)]));
    assert Put(t1.fields, a, Obj([(b, v1), (c, v2)])) == [(a, Obj([(b, v1), (c, v2)]))];
    assert Insert(t1, [a, c], Ok(v2)) == Ok(Obj([(a, Obj([(b, v1), (c, v2)]))]));
    assert M[1..][1..] == [];
    assert InsertAll(Obj([]), M, leaf) == InsertAll(t1, M[1..], leaf);
  }

  /** A shorter path after a longer one through it replaces the whole
      subtree with its leaf. */
  lemma LaterPrefixOverwrites(a: string, b: string, i1: NodeInfo, i2: NodeInfo, leaf: NodeInfo -> Result<Value>)
    requires NoDot(a) && NoDot(b)
    requires leaf(i1).Ok? && leaf(i2).Ok?
    ensures MakeResponseSpec(Ok([(a + "." + b, i1), (a, i2)]), leaf) == Ok(Obj([(a, leaf(i2).value)]))
  {
    var M := [(a + "." + b, i1), (a, i2)];
    TwoComponentEntry(a, b, i1, leaf);
    var t1 := Obj([(a, Obj([(b, leaf(i1).value)]))]);
    SplitTwo(a, b);
    assert [a, b][1..] == [b];
    assert Insert(Obj([]), Split(M[0].0), leaf(i1)) == Ok(t1);
    SplitOfDotless(a);
    assert [(a, Obj([(b, leaf(i1).value)]))][1..] == [];
    assert Put(t1.fields, a, leaf(i2).value) == [(a, leaf(i2).value)];
    assert Insert(t1, [a], leaf(i2)) == Ok(Obj([(a, leaf(i2).value)]));
    assert M[1..][1..] == [];
    assert InsertAll(Obj([]), M, leaf) == InsertAll(t1, M[1..], leaf);
  }

  /** A longer path after a shorter one that left a scalar: the cursor
      reaches the scalar, the leaf value is made, and assigning into the
      scalar raises TypeError. */
  lemma EarlierPrefixBlocksLeaf(a: string, b: string, i1: NodeInfo, i2: NodeInfo, leaf: NodeInfo -> Result<Value>)
    requires NoDot(a) && NoDot(b)
    requires leaf(i1).Ok? && !leaf(i1).value.Obj?
    ensures MakeResponseSpec(Ok([(a, i1), (a + "." + b, i2)]), leaf)
            == if leaf(i2).Raise? then Raise(leaf(i2).exc) else Raise(TypeError)
  {
    var M := [(a, i1), (a + "." + b, i2)];
    SplitOfDotless(a);
    var t1 := Obj([(a, leaf(i1).value)]);
    assert Insert(Obj([]), [a], leaf(i1)) == Ok(t1);
    SplitTwo(a, b);
    assert [a, b][1..] == [b];
    assert Get(t1.fields, a) == Some(leaf(i1).value);
    var e := if leaf(i2).Raise? then leaf(i2).exc else TypeError;
    assert Insert(leaf(i1).value, [b], leaf(i2)) == Raise(e);
    assert Insert(t1, [a, b], leaf(i2)) == Raise(e);
    assert M[1..][1..] == [];
    assert InsertAll(Obj([]), M, leaf) == InsertAll(t1, M[1..], leaf);
  }

  /** Deeper still: the descent calls `.get` on the scalar and raises
      AttributeError before the leaf value is made. */
  lemma EarlierPrefixBlocksDescent(a: string, b: string, c: string, i1: NodeInfo, i2: NodeInfo, leaf: NodeInfo -> Result<Value>)
    requires NoDot(a) && NoDot(b) && NoDot(c)
    requires leaf(i1).Ok? && !leaf(i1).value.Obj?
    ensures MakeResponseSpec(Ok([(a, i1), (a + "." + b + "." + c, i2)]), leaf) == Raise(AttributeError)
  {
    var M := [(a, i1), (a + "." + b + "." + c, i2)];
    SplitOfDotless(a);
    var t1 := Obj([(a, leaf(i1).value)]);
    assert Insert(Obj([]), [a], leaf(i1)) == Ok(t1);
    assert a + "." + b + "." + c == a + "." + (b + "." + c);
    SplitAtDot(a, b + "." + c);
    SplitTwo(b, c);
    var q := [a, b, c];
    assert Split(M[1].0) == q;
    assert q[1..] == [b, c];
    assert Insert(leaf(i1).value, [b, c], leaf(i2)) == Raise(AttributeError);
    assert M[1..][1..] == [];
    assert InsertAll(Obj([]), M, leaf) == InsertAll(t1, M[1..], leaf);
  }
}
