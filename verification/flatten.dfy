/** The second use of the walker: a submission's nested responses flattened
    into one answer per registered scalar leaf (`_flatten_responses` and its
    inner `_answers` / `_children`, and the older `_extract_answers` /
    `_dict_children` pair, which differ only by an assertion). */
module Flatten {
  import opened Py
  import opened Dicts
  import opened Json
  import opened Walker
  import opened Constants
  import opened Paths
  import opened SchemaMap

  /** `{'answer_type': ..., 'value': ..., 'tag': ...}`: one extracted answer. */
  datatype Answer = Answer(answerType: AnswerType, value: string, tag: Value)

  function DigitChar(d: nat): char
    requires d < 10
  {
    "0123456789"[d]
  }

  function Digits(n: nat): string
    decreases n
  {
    if n < 10 then [DigitChar(n)] else Digits(n / 10) + [DigitChar(n % 10)]
  }

  /** `str(v)` for a scalar JSON value. Lists and dicts are never serialised,
      because only scalar leaves are extracted; they map to "" here. */
  function PyStr(v: Value): string {
    match v
    case Null => "None"
    case Bool(b) => if b then "True" else "False"
    case Num(n) => if n < 0 then "-" + Digits(-n) else Digits(n)
    case Str(s) => s
    case _ => ""
  }

  /** The value string of an answer: a `boolean` answer is "true" when the
      value is truthy and "false" otherwise; every other type uses `str(v)`. */
  function Serialize(t: AnswerType, v: Value): string {
    if t == Boolean then (if Truthy(v) then "true" else "false") else PyStr(v)
  }

  /** `boolean` is the only answer type whose values are not serialised by
      `str(v)`, and its strings are the lower-case JSON literals. */
  lemma BooleanOnlySpecial(t: AnswerType)
    ensures (forall v :: IsScalar(v) ==> Serialize(t, v) == PyStr(v)) <==> t != Boolean
    ensures t == Boolean ==> forall v :: (Serialize(t, v) == "true" <==> Truthy(v)) && Serialize(t, v) in {"true", "false"}
  {
    if t == Boolean {
      assert Serialize(t, Bool(true)) == "true" != "True" == PyStr(Bool(true));
    }
  }

  // ----- The two extractors over a response dict -----

  /** The scalar (non-dict, non-list) fields of a dict, each under its key
      appended to path, in key order. */
  function ScalarFields(fields: Dict<string, Value>, path: seq<string>): (r: seq<(seq<string>, Value)>)
    ensures forall x :: x in r ==> IsScalar(x.1) && |x.0| == |path| + 1 && x.0[..|path|] == path && (x.0[|path|], x.1) in fields
  {
    if fields == [] then []
    else
      (if IsScalar(fields[0].1) then [(path + [fields[0].0], fields[0].1)] else []) + ScalarFields(fields[1..], path)
  }

  /** The dict-valued fields of a dict, each under its key appended to path,
      in key order (`_dict_children`). */
  function ObjFields(fields: Dict<string, Value>, path: seq<string>): (r: seq<(seq<string>, Value)>)
    ensures forall x :: x in r ==> x.1.Obj? && |x.0| == |path| + 1 && x.0[..|path|] == path && (x.0[|path|], x.1) in fields
  {
    if fields == [] then []
    else (if fields[0].1.Obj? then [(path + [fields[0].0], fields[0].1)] else []) + ObjFields(fields[1..], path)
  }

  lemma {:induction false} ScalarFieldsComplete(fields: Dict<string, Value>, path: seq<string>, k: string, v: Value)
    requires (k, v) in fields && IsScalar(v)
    ensures (path + [k], v) in ScalarFields(fields, path)
  {
    if fields[0] != (k, v) {
      assert (k, v) in fields[1..];
      ScalarFieldsComplete(fields[1..], path, k, v);
    }
  }

  lemma {:induction false} ObjFieldsComplete(fields: Dict<string, Value>, path: seq<string>, k: string, v: Value)
    requires (k, v) in fields && v.Obj?
    ensures (path + [k], v) in ObjFields(fields, path)
  {
    if fields[0] != (k, v) {
      assert (k, v) in fields[1..];
      ObjFieldsComplete(fields[1..], path, k, v);
    }
  }

  /** Items of the reference walk: the scalar leaves of a dict node; a node
      that is not a dict has no `.items()` (AttributeError). */
  function LeafItems(node: Value, path: seq<string>): Stream<(seq<string>, Value)> {
    if !node.Obj? then Fail(AttributeError) else Stream(ScalarFields(node.fields, path), None)
  }

  /** `_dict_children` / the inner `_children`: the dict-valued fields. Lists
      are neither items nor children. */
  function DictChildren(node: Value, path: seq<string>): Stream<(seq<string>, Value)> {
    if !node.Obj? then Fail(AttributeError) else Stream(ObjFields(node.fields, path), None)
  }

  lemma DictChildrenShrink()
    ensures ChildrenShrink(DictChildren)
  {
    forall n: Value, p: seq<string>, c | c in DictChildren(n, p).items
      ensures Size(c.1) < Size(n)
    {
      var i :| 0 <= i < |n.fields| && n.fields[i] == (c.0[|p|], c.1);
      FieldSmaller(n.fields, i);
    }
  }

  /** The reference walk: every scalar leaf of a response tree with its full
      key path, in pre-order. */
  function Leaves(root: Value, path: seq<string>): Stream<(seq<string>, Value)> {
    DictChildrenShrink();
    Walk(root, path, LeafItems, DictChildren)
  }

  function LeavesAll(ghost parent: Value, kids: seq<(seq<string>, Value)>): Stream<(seq<string>, Value)>
    requires forall c :: c in kids ==> Size(c.1) < Size(parent)
  {
    DictChildrenShrink();
    WalkAll(parent, kids, LeafItems, DictChildren)
  }

  // ----- Answers -----

  /** The body of the answer loop for one scalar leaf: the dotted path is
      looked up in the node path map; an unregistered path yields nothing,
      a registered one yields its answer with the map entry's type and tag. */
  function Register(M: NodeMap, x: (seq<string>, Value)): Stream<(string, Answer)> {
    var ps := MakePathStr(x.0);
    match Get(M, ps)
    case None => Empty()
    case Some(info) => Stream([(ps, Answer(info.answerType, Serialize(info.answerType, x.1), info.tag))], None)
  }

  function FieldAnswers(M: NodeMap, fields: Dict<string, Value>, path: seq<string>): seq<(string, Answer)> {
    if fields == [] then []
    else
      var k := fields[0].0;
      var v := fields[0].1;
      (if IsScalar(v) then Register(M, (path + [k], v)).items else []) + FieldAnswers(M, fields[1..], path)
  }

  /** `_answers` (and `_extract_answers` past its assertion): for each field
      in order, a scalar value whose path is registered yields an answer. */
  function Answers(M: NodeMap, node: Value, path: seq<string>): Stream<(string, Answer)> {
    if !node.Obj? then Fail(AttributeError) else Stream(FieldAnswers(M, node.fields, path), None)
  }

  /** `_extract_answers`: the same, after `assert node_map`, which fails for
      an empty map the first time the generator runs. */
  function ExtractAnswers(M: NodeMap, node: Value, path: seq<string>): Stream<(string, Answer)> {
    if M == [] then Fail(AssertionError) else Answers(M, node, path)
  }

  /** `_flatten_responses(responses, node_map)`. */
  function FlattenResponses(responses: Value, M: NodeMap): Stream<(string, Answer)> {
    DictChildrenShrink();
    MapNested(responses, (n, p) => Answers(M, n, p), DictChildren)
  }

  /** `map_nested(submission.responses, f_extract_answers, _dict_children)`. */
  function ExtractAll(responses: Value, M: NodeMap): Stream<(string, Answer)> {
    DictChildrenShrink();
    MapNested(responses, (n, p) => ExtractAnswers(M, n, p), DictChildren)
  }

  /** The answers at a node are the registered scalar leaves at that node. */
  lemma {:induction false} FieldAnswersBind(M: NodeMap, fields: Dict<string, Value>, path: seq<string>)
    ensures Stream(FieldAnswers(M, fields, path), None) == Bind(Stream(ScalarFields(fields, path), None), x => Register(M, x))
  {
    var f := x => Register(M, x);
    if fields != [] {
      FieldAnswersBind(M, fields[1..], path);
      var head := if IsScalar(fields[0].1) then [(path + [fields[0].0], fields[0].1)] else [];
      var tail := ScalarFields(fields[1..], path);
      assert ScalarFields(fields, path) == head + tail;
      BindThen(Stream(head, None), Stream(tail, None), f);
      assert Then(Stream(head, None), Stream(tail, None)) == Stream(head + tail, None);
      if head != [] {
        assert Bind(Stream(head, None), f) == Then(f(head[0]), Bind(Stream([], None), f));
        var r := Register(M, head[0]);
        assert r.items + [] == r.items;
      }
    }
  }

  /** Flattening is the reference walk with each leaf looked up in the map. */
  lemma FlattenIsRegisteredLeaves(responses: Value, M: NodeMap)
    ensures FlattenResponses(responses, M) == Bind(Leaves(responses, []), x => Register(M, x))
  {
    DictChildrenShrink();
    var f := x => Register(M, x);
    var answers := (n, p) => Answers(M, n, p);
    forall n, p ensures answers(n, p) == Bind(LeafItems(n, p), f) {
      if n.Obj? {
        FieldAnswersBind(M, n.fields, p);
      }
    }
    WalkBind(responses, [], LeafItems, answers, DictChildren, f);
  }

  // ----- The reference walk -----

  /** Only a truthy non-dict node makes the walk raise; children are always
      dicts, so only the root can be one. */
  lemma {:induction false} LeavesRaise(root: Value, path: seq<string>)
    ensures Leaves(root, path).raised.None? <==> root.Obj? || !Truthy(root)
    ensures Leaves(root, path).raised.Some? ==> Leaves(root, path).raised.value == AttributeError
    decreases Size(root), 1
  {
    DictChildrenShrink();
    if root.Obj? && Truthy(root) {
      forall c | c in ObjFields(root.fields, path) ensures Size(c.1) < Size(root) {
        assert c in DictChildren(root, path).items;
      }
      LeavesAllNoRaise(root, ObjFields(root.fields, path));
    }
  }

  lemma {:induction false} LeavesAllNoRaise(parent: Value, kids: seq<(seq<string>, Value)>)
    requires forall c :: c in kids ==> c.1.Obj? && Size(c.1) < Size(parent)
    ensures LeavesAll(parent, kids).raised.None?
    decreases Size(parent), 0, |kids|
  {
    DictChildrenShrink();
    if kids != [] {
      LeavesRaise(kids[0].1, kids[0].0);
      LeavesAllNoRaise(parent, kids[1..]);
    }
  }

  /** Every leaf of the walk is a scalar found in the tree along its own path
      (below the starting path), at depth one or more. */
  lemma {:induction false} LeavesSound(root: Value, path: seq<string>, x: (seq<string>, Value))
    requires WellFormed(root)
    requires x in Leaves(root, path).items
    ensures |x.0| > |path| && x.0[..|path|] == path
    ensures Lookup(root, x.0[|path|..]) == Some(x.1) && IsScalar(x.1)
    decreases Size(root), 1
  {
    DictChildrenShrink();
    WalkItemOrigin(root, path, LeafItems, DictChildren, x);
    var kids := DictChildren(root, path).items;
    if x in LeafItems(root, path).items {
      var k := x.0[|path|];
      var i :| 0 <= i < |root.fields| && root.fields[i] == (k, x.1);
      GetAt(root.fields, i);
      assert x.0[|path|..] == [k];
    } else {
      var j := WalkAllItemOrigin(root, kids, LeafItems, DictChildren, x);
      LeavesSoundStep(root, path, kids[j], x);
    }
  }

  lemma {:induction false} LeavesSoundStep(root: Value, path: seq<string>, c: (seq<string>, Value), x: (seq<string>, Value))
    requires WellFormed(root)
    requires c in DictChildren(root, path).items
    requires x in Leaves(c.1, c.0).items
    ensures |x.0| > |path| && x.0[..|path|] == path
    ensures Lookup(root, x.0[|path|..]) == Some(x.1) && IsScalar(x.1)
    decreases Size(root), 0
  {
    DictChildrenShrink();
    var k := c.0[|path|];
    var i :| 0 <= i < |root.fields| && root.fields[i] == (k, c.1);
    GetAt(root.fields, i);
    assert WellFormed(c.1);
    LeavesSound(c.1, c.0, x);
    var rest := x.0[|path| + 1..];
    assert c.0 == path + [k];
    PrefixStep(x.0, path, k);
    assert x.0[|path|..][1..] == rest;
  }

  /** Conversely, every scalar found in a dict tree along a non-empty path is
      a leaf of the walk. */
  lemma {:induction false} LeavesComplete(root: Value, path: seq<string>, q: seq<string>, v: Value)
    requires root.Obj? && q != [] && Lookup(root, q) == Some(v) && IsScalar(v)
    ensures (path + q, v) in Leaves(root, path).items
    decreases |q|
  {
    DictChildrenShrink();
    LeavesRaise(root, path);
    var k := q[0];
    var c := Get(root.fields, k).value;
    assert (k, c) in root.fields;
    assert Truthy(root);
    WalkNoRaise(root, path, LeafItems, DictChildren);
    if q[1..] == [] {
      ScalarFieldsComplete(root.fields, path, k, c);
      assert q == [k];
    } else {
      assert c.Obj? && c.fields != [];
      ObjFieldsComplete(root.fields, path, k, c);
      var kids := ObjFields(root.fields, path);
      var j := IndexOf(kids, (path + [k], c));
      WalkAllNoRaise(root, kids, LeafItems, DictChildren, j);
      LeavesComplete(c, path + [k], q[1..], v);
      ConsSplit(path, q);
    }
  }

  // ----- What flattening yields -----

  /** Flattening raises only for a truthy root that is not a dict
      (AttributeError); a dict or an empty root never raises. */
  lemma FlattenRaise(responses: Value, M: NodeMap)
    ensures FlattenResponses(responses, M).raised.None? <==> responses.Obj? || !Truthy(responses)
    ensures FlattenResponses(responses, M).raised.Some? ==> FlattenResponses(responses, M).raised.value == AttributeError
  {
    FlattenIsRegisteredLeaves(responses, M);
    LeavesRaise(responses, []);
    BindQuiet(Leaves(responses, []), x => Register(M, x));
  }

  /** Every answer comes from a scalar leaf of the responses whose dotted
      path is registered in the map; it carries the map entry's answer type
      and tag and the leaf's serialised value. */
  lemma FlattenSound(responses: Value, M: NodeMap, y: (string, Answer)) returns (q: seq<string>, v: Value)
    requires WellFormed(responses)
    requires y in FlattenResponses(responses, M).items
    ensures q != [] && Lookup(responses, q) == Some(v) && IsScalar(v)
    ensures y.0 == MakePathStr(q) && Get(M, y.0).Some?
    ensures y.1 == Answer(Get(M, y.0).value.answerType, Serialize(Get(M, y.0).value.answerType, v), Get(M, y.0).value.tag)
  {
    var f := x => Register(M, x);
    FlattenIsRegisteredLeaves(responses, M);
    BindItemOrigin(Leaves(responses, []), f, y);
    var x :| x in Leaves(responses, []).items && y in f(x).items;
    LeavesSound(responses, [], x);
    q, v := x.0, x.1;
    assert x.0[0..] == q;
  }

  /** Every scalar leaf of a dict of responses whose dotted path is
      registered yields its answer. */
  lemma FlattenComplete(responses: Value, M: NodeMap, q: seq<string>, v: Value)
    requires responses.Obj? && q != [] && Lookup(responses, q) == Some(v) && IsScalar(v)
    requires Get(M, MakePathStr(q)).Some?
    ensures var info := Get(M, MakePathStr(q)).value;
            (MakePathStr(q), Answer(info.answerType, Serialize(info.answerType, v), info.tag)) in FlattenResponses(responses, M).items
  {
    var f := x => Register(M, x);
    FlattenIsRegisteredLeaves(responses, M);
    FlattenRaise(responses, M);
    LeavesComplete(responses, [], q, v);
    assert [] + q == q;
    var info := Get(M, MakePathStr(q)).value;
    BindItemComplete(Leaves(responses, []), f, (q, v), (MakePathStr(q), Answer(info.answerType, Serialize(info.answerType, v), info.tag)));
  }

  /** An unregistered scalar leaf yields nothing. */
  lemma FlattenDropsUnregistered(responses: Value, M: NodeMap, y: (string, Answer))
    requires y in FlattenResponses(responses, M).items
    ensures y.0 in Keys(M)
  {
    var f := x => Register(M, x);
    FlattenIsRegisteredLeaves(responses, M);
    BindItemOrigin(Leaves(responses, []), f, y);
  }

  /** With an empty map `_flatten_responses` yields no answers at all. */
  lemma FlattenEmptyMap(responses: Value)
    ensures FlattenResponses(responses, []).items == []
  {
    var f := x => Register([], x);
    FlattenIsRegisteredLeaves(responses, []);
    BindNothing(Leaves(responses, []), f);
  }

  /** The two copies agree whenever the map is non-empty; with an empty map
      `_extract_answers` fails its assertion at the first truthy root, where
      `_flatten_responses` yields nothing. */
  lemma ExtractVsFlatten(responses: Value, M: NodeMap)
    ensures M != [] ==> ExtractAll(responses, M) == FlattenResponses(responses, M)
    ensures M == [] ==> ExtractAll(responses, M) == if Truthy(responses) then Fail(AssertionError) else Empty()
  {
    DictChildrenShrink();
    if M != [] {
      var unit := x => Stream([x], None);
      var answers := (n, p) => Answers(M, n, p);
      var extract := (n, p) => ExtractAnswers(M, n, p);
      forall n, p ensures extract(n, p) == Bind(answers(n, p), unit) {
        BindUnit(answers(n, p));
      }
      WalkBind(responses, [], answers, extract, DictChildren, unit);
      BindUnit(FlattenResponses(responses, M));
    }
  }

  // ----- Each leaf once -----

  /** No two items share a path. */
  predicate DistinctPaths<T(==), U>(s: seq<(T, U)>) {
    forall i, j :: 0 <= i < j < |s| ==> s[i].0 != s[j].0
  }

  lemma DistinctConcat<T, U>(a: seq<(T, U)>, b: seq<(T, U)>)
    requires DistinctPaths(a) && DistinctPaths(b)
    requires forall x, y :: x in a && y in b ==> x.0 != y.0
    ensures DistinctPaths(a + b)
  {
    forall i, j | 0 <= i < j < |a + b| ensures (a + b)[i].0 != (a + b)[j].0 {
      if j < |a| {
        assert (a + b)[i] == a[i] && (a + b)[j] == a[j];
      } else if i >= |a| {
        assert (a + b)[i] == b[i - |a|] && (a + b)[j] == b[j - |a|];
      } else {
        assert (a + b)[i] in a && (a + b)[j] in b;
      }
    }
  }

  lemma {:induction false} ScalarFieldsDistinct(fields: Dict<string, Value>, path: seq<string>)
    requires DistinctKeys(fields)
    ensures DistinctPaths(ScalarFields(fields, path))
  {
    if fields != [] {
      ScalarFieldsDistinct(fields[1..], path);
      var head := if IsScalar(fields[0].1) then [(path + [fields[0].0], fields[0].1)] else [];
      var tail := ScalarFields(fields[1..], path);
      forall x, y | x in head && y in tail ensures x.0 != y.0 {
        PairInKeys(fields[1..], y.0[|path|], y.1);
        assert x.0[|path|] == fields[0].0;
      }
      DistinctConcat(head, tail);
    }
  }

  lemma {:induction false} ObjFieldsDistinct(fields: Dict<string, Value>, path: seq<string>)
    requires DistinctKeys(fields)
    ensures DistinctPaths(ObjFields(fields, path))
  {
    if fields != [] {
      ObjFieldsDistinct(fields[1..], path);
      var head := if fields[0].1.Obj? then [(path + [fields[0].0], fields[0].1)] else [];
      var tail := ObjFields(fields[1..], path);
      forall x, y | x in head && y in tail ensures x.0 != y.0 {
        PairInKeys(fields[1..], y.0[|path|], y.1);
        assert x.0[|path|] == fields[0].0;
      }
      DistinctConcat(head, tail);
    }
  }

  /** In a tree without repeated keys, the walk meets every leaf path once. */
  lemma {:induction false} LeavesDistinct(root: Value, path: seq<string>)
    requires WellFormed(root)
    ensures DistinctPaths(Leaves(root, path).items)
    decreases Size(root), 1
  {
    DictChildrenShrink();
    if root.Obj? && Truthy(root) {
      var S := ScalarFields(root.fields, path);
      var kids := ObjFields(root.fields, path);
      forall c | c in kids ensures Size(c.1) < Size(root) && WellFormed(c.1) {
        assert c in DictChildren(root, path).items;
        var i :| 0 <= i < |root.fields| && root.fields[i] == (c.0[|path|], c.1);
      }
      ScalarFieldsDistinct(root.fields, path);
      ObjFieldsDistinct(root.fields, path);
      LeavesAllDistinct(root, path, kids);
      LeavesRaise(root, path);
      WalkNoRaise(root, path, LeafItems, DictChildren);
      var W := LeavesAll(root, kids).items;
      assert Leaves(root, path).items == S + W;
      forall x, y | x in S && y in W ensures x.0 != y.0 {
        assert |x.0| == |path| + 1;
      }
      DistinctConcat(S, W);
    }
  }

  lemma {:induction false} LeavesAllDistinct(parent: Value, path: seq<string>, kids: seq<(seq<string>, Value)>)
    requires forall c :: c in kids ==> Size(c.1) < Size(parent) && WellFormed(c.1) && c.1.Obj?
    requires forall c :: c in kids ==> |c.0| == |path| + 1 && c.0[..|path|] == path
    requires DistinctPaths(kids)
    ensures DistinctPaths(LeavesAll(parent, kids).items)
    ensures forall x :: x in LeavesAll(parent, kids).items ==>
              |x.0| > |path| + 1 && exists c :: c in kids && x.0[..|path| + 1] == c.0
    decreases Size(parent), 0, |kids|
  {
    DictChildrenShrink();
    if kids != [] {
      var c0 := kids[0];
      assert DistinctPaths(kids[1..]) by {
        forall i, j | 0 <= i < j < |kids[1..]| ensures kids[1..][i].0 != kids[1..][j].0 {
          assert kids[1..][i] == kids[i + 1] && kids[1..][j] == kids[j + 1];
        }
      }
      LeavesDistinct(c0.1, c0.0);
      LeavesAllDistinct(parent, path, kids[1..]);
      LeavesRaise(c0.1, c0.0);
      var L := Leaves(c0.1, c0.0).items;
      var R := LeavesAll(parent, kids[1..]).items;
      assert LeavesAll(parent, kids).items == L + R;
      forall x | x in L ensures |x.0| > |path| + 1 && x.0[..|path| + 1] == c0.0 {
        LeavesSound(c0.1, c0.0, x);
        assert x.0[..|path| + 1] == x.0[..|c0.0|];
      }
      forall x, y | x in L && y in R ensures x.0 != y.0 {
        var c :| c in kids[1..] && y.0[..|path| + 1] == c.0;
        var j :| 0 <= j < |kids[1..]| && kids[1..][j] == c;
        assert kids[j + 1] == c;
      }
      DistinctConcat(L, R);
    }
  }

  /** Every key of every object in the document is free of dots, so the
      dotted path string of a leaf determines its path. */
  predicate DotlessKeys(v: Value) {
    match v
    case List(e) => forall i :: 0 <= i < |e| ==> DotlessKeys(e[i])
    case Obj(f) => forall i :: 0 <= i < |f| ==> NoDot(f[i].0) && DotlessKeys(f[i].1)
    case _ => true
  }

  lemma {:induction false} LookupDotless(v: Value, p: seq<string>)
    requires DotlessKeys(v) && Lookup(v, p).Some?
    ensures forall i :: 0 <= i < |p| ==> NoDot(p[i])
    decreases |p|
  {
    if p != [] {
      var c := Get(v.fields, p[0]).value;
      var i :| 0 <= i < |v.fields| && v.fields[i] == (p[0], c);
      LookupDotless(c, p[1..]);
      forall k | 0 <= k < |p| ensures NoDot(p[k]) {
        if k > 0 {
          assert p[k] == p[1..][k - 1];
        }
      }
    }
  }

  lemma {:induction false} RegisterDistinct(M: NodeMap, s: Stream<(seq<string>, Value)>)
    requires forall i, j :: 0 <= i < j < |s.items| ==> MakePathStr(s.items[i].0) != MakePathStr(s.items[j].0)
    ensures DistinctPaths(Bind(s, x => Register(M, x)).items)
    decreases |s.items|
  {
    if s.items != [] {
      var f := x => Register(M, x);
      var tail := Stream(s.items[1..], s.raised);
      RegisterDistinct(M, tail);
      var H := f(s.items[0]).items;
      var T := Bind(tail, f).items;
      assert Bind(s, f).items == H + T;
      forall x, y | x in H && y in T ensures x.0 != y.0 {
        BindItemOrigin(tail, f, y);
        var z :| z in tail.items && y in f(z).items;
        var j :| 0 <= j < |tail.items| && tail.items[j] == z;
        assert s.items[j + 1] == z;
      }
      DistinctConcat(H, T);
    }
  }

  /** In a document without repeated or dotted keys, no path string is
      answered twice. */
  lemma FlattenDistinct(responses: Value, M: NodeMap)
    requires WellFormed(responses) && DotlessKeys(responses)
    ensures DistinctPaths(FlattenResponses(responses, M).items)
  {
    FlattenIsRegisteredLeaves(responses, M);
    var L := Leaves(responses, []);
    LeavesDistinct(responses, []);
    forall i, j | 0 <= i < j < |L.items| ensures MakePathStr(L.items[i].0) != MakePathStr(L.items[j].0) {
      var p, q := L.items[i].0, L.items[j].0;
      LeavesSound(responses, [], L.items[i]);
      LeavesSound(responses, [], L.items[j]);
      assert p[0..] == p && q[0..] == q;
      LookupDotless(responses, p);
      LookupDotless(responses, q);
      SplitJoin(p);
      SplitJoin(q);
    }
    RegisterDistinct(M, L);
  }

  // ----- The nested samples -----

  /** The leaves under a sequence of dict children, one child after the other. */
  function ChildLeaves(kids: seq<(seq<string>, Value)>): seq<(seq<string>, Value)> {
    if kids == [] then [] else Leaves(kids[0].1, kids[0].0).items + ChildLeaves(kids[1..])
  }

  lemma {:induction false} LeavesAllIsChildLeaves(parent: Value, kids: seq<(seq<string>, Value)>)
    requires forall c :: c in kids ==> c.1.Obj? && Size(c.1) < Size(parent)
    ensures LeavesAll(parent, kids) == Stream(ChildLeaves(kids), None)
    decreases |kids|
  {
    if kids != [] {
      LeavesRaise(kids[0].1, kids[0].0);
      LeavesAllIsChildLeaves(parent, kids[1..]);
    }
  }

  /** One step of the reference walk on a non-empty dict: its own scalar
      leaves first, then the leaves under each dict child in field order. */
  lemma LeavesStep(n: Value, path: seq<string>)
    requires n.Obj? && n.fields != []
    ensures Leaves(n, path) == Stream(ScalarFields(n.fields, path) + ChildLeaves(ObjFields(n.fields, path)), None)
  {
    DictChildrenShrink();
    var kids := ObjFields(n.fields, path);
    forall c | c in kids ensures c.1.Obj? && Size(c.1) < Size(n) {
      assert c in DictChildren(n, path).items;
    }
    LeavesAllIsChildLeaves(n, kids);
  }

  /** The fields of a one-field dict. */
  lemma OneField(k: string, v: Value, path: seq<string>)
    ensures ScalarFields([(k, v)], path) == if IsScalar(v) then [(path + [k], v)] else []
    ensures ObjFields([(k, v)], path) == if v.Obj? then [(path + [k], v)] else []
  {
    assert [(k, v)][1..] == [];
  }

  lemma {:induction false} ScalarFieldsConcat(a: Dict<string, Value>, b: Dict<string, Value>, path: seq<string>)
    ensures ScalarFields(a + b, path) == ScalarFields(a, path) + ScalarFields(b, path)
  {
    if a == [] {
      assert a + b == b;
    } else {
      var head := if IsScalar(a[0].1) then [(path + [a[0].0], a[0].1)] else [];
      assert (a + b)[0] == a[0] && (a + b)[1..] == a[1..] + b;
      ScalarFieldsConcat(a[1..], b, path);
      assert ScalarFields(a + b, path) == head + (ScalarFields(a[1..], path) + ScalarFields(b, path));
      assert ScalarFields(a, path) == head + ScalarFields(a[1..], path);
    }
  }

  lemma {:induction false} ObjFieldsConcat(a: Dict<string, Value>, b: Dict<string, Value>, path: seq<string>)
    ensures ObjFields(a + b, path) == ObjFields(a, path) + ObjFields(b, path)
  {
    if a == [] {
      assert a + b == b;
    } else {
      var head := if a[0].1.Obj? then [(path + [a[0].0], a[0].1)] else [];
      assert (a + b)[0] == a[0] && (a + b)[1..] == a[1..] + b;
      ObjFieldsConcat(a[1..], b, path);
      assert ObjFields(a + b, path) == head + (ObjFields(a[1..], path) + ObjFields(b, path));
      assert ObjFields(a, path) == head + ObjFields(a[1..], path);
    }
  }

  /** The leaves of a dict whose fields are all scalars. */
  lemma FlatLeaves(n: Value, path: seq<string>, k: string, v: Value)
    requires n == Obj([(k, v)]) && IsScalar(v)
    ensures Leaves(n, path) == Stream([(path + [k], v)], None)
  {
    OneField(k, v, path);
    LeavesStep(n, path);
  }

  /** One step of the reference walk on a two-field dict. */
  lemma TwoFieldStep(n: Value, path: seq<string>, f1: (string, Value), f2: (string, Value))
    requires n == Obj([f1, f2])
    ensures Leaves(n, path).items ==
            ScalarFields([f1], path) + ScalarFields([f2], path) + ChildLeaves(ObjFields([f1], path) + ObjFields([f2], path))
  {
    ScalarFieldsConcat([f1], [f2], path);
    ObjFieldsConcat([f1], [f2], path);
    assert n.fields == [f1] + [f2];
    LeavesStep(n, path);
  }

  lemma OneChild(c: (seq<string>, Value))
    ensures ChildLeaves([c]) == Leaves(c.1, c.0).items
  {
    assert [c][1..] == [];
  }

  /** One step of the reference walk on a dict holding a scalar and then a
      dict: the scalar's leaf first, then the leaves under the dict. */
  lemma ScalarThenDictStep(n: Value, path: seq<string>, k1: string, s: Value, k2: string, d: Value)
    requires n == Obj([(k1, s), (k2, d)]) && IsScalar(s) && d.Obj?
    ensures Leaves(n, path) == Stream([(path + [k1], s)] + Leaves(d, path + [k2]).items, None)
  {
    OneField(k1, s, path);
    OneField(k2, d, path);
    TwoFieldStep(n, path, (k1, s), (k2, d));
    OneChild((path + [k2], d));
    LeavesRaise(n, path);
  }

  const SimpleNested: Value := Obj([("foo", Str("bar")), ("child", Obj([("hello", Str("world"))]))])

  /** A scalar beside a nested dict: the scalar comes first, then the nested
      leaf with its two-component path. */
  lemma SimpleNestedLeaves()
    ensures Leaves(SimpleNested, []) == Stream([(["foo"], Str("bar")), (["child", "hello"], Str("world"))], None)
  {
    var child := Obj([("hello", Str("world"))]);
    FlatLeaves(child, ["child"], "hello", Str("world"));
    assert [] + ["child"] == ["child"] && [] + ["foo"] == ["foo"];
    assert ["child"] + ["hello"] == ["child", "hello"];
    ScalarThenDictStep(SimpleNested, [], "foo", Str("bar"), "child", child);
  }

  const DeepNode: Value := Obj([("hello", Str("world"))])
  const BNode: Value := Obj([("foo", Str("bar")), ("deep", DeepNode)])
  const ANode: Value := Obj([("foo", Str("bar"))])
  const MultiNested: Value := Obj([("a", ANode), ("b", BNode)])

  lemma BNodeLeaves()
    ensures Leaves(BNode, ["b"]) == Stream([(["b", "foo"], Str("bar")), (["b", "deep", "hello"], Str("world"))], None)
  {
    FlatLeaves(DeepNode, ["b", "deep"], "hello", Str("world"));
    assert ["b", "deep"] + ["hello"] == ["b", "deep", "hello"];
    assert ["b"] + ["foo"] == ["b", "foo"] && ["b"] + ["deep"] == ["b", "deep"];
    ScalarThenDictStep(BNode, ["b"], "foo", Str("bar"), "deep", DeepNode);
  }

  lemma TwoChildren(c1: (seq<string>, Value), c2: (seq<string>, Value))
    ensures ChildLeaves([c1, c2]) == Leaves(c1.1, c1.0).items + Leaves(c2.1, c2.0).items
  {
    assert [c1, c2][1..] == [c2];
    OneChild(c2);
  }

  /** A dict holding just two dicts: the leaves under the first, then the
      leaves under the second. */
  lemma TwoDictsStep(n: Value, path: seq<string>, k1: string, d1: Value, k2: string, d2: Value)
    requires n == Obj([(k1, d1), (k2, d2)]) && d1.Obj? && d2.Obj?
    ensures Leaves(n, path) == Stream(Leaves(d1, path + [k1]).items + Leaves(d2, path + [k2]).items, None)
  {
    OneField(k1, d1, path);
    OneField(k2, d2, path);
    TwoFieldStep(n, path, (k1, d1), (k2, d2));
    TwoChildren((path + [k1], d1), (path + [k2], d2));
    LeavesRaise(n, path);
  }

  /** Two nested levels: pre-order, so `b.foo` comes before `b.deep.hello`;
      sorted by path this is the order the walker's test expects. */
  lemma MultiNestedLeaves()
    ensures Leaves(MultiNested, []) ==
            Stream([(["a", "foo"], Str("bar")), (["b", "foo"], Str("bar")), (["b", "deep", "hello"], Str("world"))], None)
  {
    FlatLeaves(ANode, ["a"], "foo", Str("bar"));
    assert ["a"] + ["foo"] == ["a", "foo"];
    BNodeLeaves();
    TwoDictsStep(MultiNested, [], "a", ANode, "b", BNode);
    assert [] + ["a"] == ["a"] && [] + ["b"] == ["b"];
  }
}
