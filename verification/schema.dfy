/** `_load_node_path_map`: a form's schema walked into the node path map, from
    the dotted path of every answer node to its answer type and tag. */
module SchemaMap {
  import opened Py
  import opened Dicts
  import opened Json
  import opened Walker
  import opened Constants
  import opened Paths

  /** Database identifiers (UUID primary keys), abstracted as numbers. */
  type Uuid = nat

  /** `NodeInfo(answer_type, tag)`; an absent tag is Null (`None`). */
  datatype NodeInfo = NodeInfo(answerType: AnswerType, tag: Value)

  /** The node path map: an insertion-ordered dict from path string to NodeInfo. */
  type NodeMap = Dict<string, NodeInfo>

  /** `node.get(key)` on a dict: the value, or Null when the key is absent. */
  function Field(fields: Dict<string, Value>, key: string): Value {
    Get(fields, key).GetOr(Null)
  }

  /** A schema node's `slug`; Null for anything that is not a dict. */
  function Slug(v: Value): Value {
    if v.Obj? then Field(v.fields, "slug") else Null
  }

  /** A schema node's `answerType`; Null for anything that is not a dict. */
  function AnswerTypeField(v: Value): Value {
    if v.Obj? then Field(v.fields, "answerType") else Null
  }

  predicate AllStr(path: seq<Value>) {
    forall i :: 0 <= i < |path| ==> path[i].Str?
  }

  function Strs(path: seq<Value>): (r: seq<string>)
    requires AllStr(path)
    ensures |r| == |path| && forall i :: 0 <= i < |path| ==> r[i] == path[i].s
  {
    if path == [] then [] else [path[0].s] + Strs(path[1..])
  }

  /** `'.'.join(path)` over slugs taken from the schema: TypeError as soon as
      one of them is not a string. */
  function JoinSlugs(path: seq<Value>): (r: Result<string>)
    ensures r.Ok? <==> AllStr(path)
    ensures r.Raise? ==> r.exc == TypeError
  {
    if AllStr(path) then Ok(MakePathStr(Strs(path))) else Raise(TypeError)
  }

  /** `AnswerType[v]`: a string is looked up by member name (KeyError when
      unknown), any other hashable value is never a member name (KeyError),
      a list or dict is unhashable (TypeError). */
  function AnswerTypeOf(v: Value): (r: Result<AnswerType>)
    ensures r.Ok? <==> v.Str? && v.s in Names
    ensures r.Ok? ==> r.value.Name() == v.s
    ensures r.Raise? ==> r.exc == (if v.List? || v.Obj? then TypeError else KeyError)
  {
    match v
    case Str(s) => FromName(s)
    case List(_) => Raise(TypeError)
    case Obj(_) => Raise(TypeError)
    case _ => Raise(KeyError)
  }

  /** A node that contributes an entry: a dict with a truthy `answerType`. */
  predicate IsAnswerNode(n: Value) {
    n.Obj? && Truthy(AnswerTypeField(n))
  }

  /** `_node_info`: one (path string, NodeInfo) item for a node with a truthy
      `answerType`, none otherwise. The tuple is evaluated left to right: the
      path join first, then the type lookup, then `node.get('tag')`; a node
      that is not a dict has no `.get` (AttributeError). */
  function NodeInfoItems(node: Value, path: seq<Value>): (r: Stream<(string, NodeInfo)>)
    ensures r.raised.None? <==> node.Obj? && (Truthy(AnswerTypeField(node)) ==>
                                                JoinSlugs(path).Ok? && AnswerTypeOf(AnswerTypeField(node)).Ok?)
    ensures r.raised.None? && IsAnswerNode(node) ==>
              r.items == [(JoinSlugs(path).value, NodeInfo(AnswerTypeOf(AnswerTypeField(node)).value, Field(node.fields, "tag")))]
    ensures !IsAnswerNode(node) ==> r.items == []
  {
    if !node.Obj? then Fail(AttributeError)
    else
      var at := Field(node.fields, "answerType");
      if !Truthy(at) then Empty()
      else match JoinSlugs(path)
        case Raise(e) => Fail(e)
        case Ok(p) =>
          match AnswerTypeOf(at)
          case Raise(e) => Fail(e)
          case Ok(t) => Stream([(p, NodeInfo(t, Field(node.fields, "tag")))], None)
  }

  /** The inner loop of `_children`: every child must be a dict (`child.get`),
      and only children with a truthy slug are yielded, with the slug
      appended to the parent's path. */
  function SlugChildren(elems: seq<Value>, path: seq<Value>): (r: Stream<(seq<Value>, Value)>)
    ensures r.raised.None? <==> forall i :: 0 <= i < |elems| ==> elems[i].Obj?
    ensures r.raised.Some? ==> r.raised.value == AttributeError
    ensures |r.items| <= |elems|
  {
    if elems == [] then Empty()
    else if !elems[0].Obj? then Fail(AttributeError)
    else
      var slug := Slug(elems[0]);
      Then(if Truthy(slug) then Stream([(path + [slug], elems[0])], None) else Empty(),
           SlugChildren(elems[1..], path))
  }

  /** The children list of a schema node, when it is a list. */
  function Kids(n: Value): seq<Value> {
    if n.Obj? && Field(n.fields, "children").List? then Field(n.fields, "children").elems else []
  }

  /** `_children`: followed only when the node's own slug and its `children`
      are both truthy. Iterating a number or boolean is a TypeError; iterating
      a string or dict yields strings, which have no `.get` (AttributeError). */
  function SchemaChildren(node: Value, path: seq<Value>): Stream<(seq<Value>, Value)> {
    if !node.Obj? then Fail(AttributeError)
    else
      var slug := Field(node.fields, "slug");
      var kids := Field(node.fields, "children");
      if !(Truthy(slug) && Truthy(kids)) then Empty()
      else match kids
        case List(elems) => SlugChildren(elems, path)
        case Num(_) => Fail(TypeError)
        case Bool(_) => Fail(TypeError)
        case _ => Fail(AttributeError)
  }

  /** The i-th element of n's children list is a dict whose truthy slug s the
      walk follows. */
  predicate ChildAt(n: Value, i: int, s: Value) {
    n.Obj? && Truthy(Slug(n)) && 0 <= i < |Kids(n)| && Kids(n)[i].Obj? && Slug(Kids(n)[i]) == s && Truthy(s)
  }

  lemma {:induction false} SlugChildrenOrigin(elems: seq<Value>, path: seq<Value>, c: (seq<Value>, Value)) returns (i: nat)
    requires c in SlugChildren(elems, path).items
    ensures i < |elems| && elems[i].Obj? && Truthy(Slug(elems[i])) && c == (path + [Slug(elems[i])], elems[i])
  {
    var slug := Slug(elems[0]);
    if Truthy(slug) && c == (path + [slug], elems[0]) {
      i := 0;
    } else {
      var i' := SlugChildrenOrigin(elems[1..], path, c);
      assert elems[1..][i'] == elems[i' + 1];
      i := i' + 1;
    }
  }

  lemma {:induction false} SlugChildrenComplete(elems: seq<Value>, path: seq<Value>, i: nat)
    requires SlugChildren(elems, path).raised.None?
    requires i < |elems| && Truthy(Slug(elems[i]))
    ensures (path + [Slug(elems[i])], elems[i]) in SlugChildren(elems, path).items
  {
    if i > 0 {
      SlugChildrenComplete(elems[1..], path, i - 1);
      assert elems[1..][i - 1] == elems[i];
    }
  }

  /** What `_children` yields is exactly the slugged dict children of a node
      with a slug, each under the parent path plus its own slug. */
  lemma SchemaChildOrigin(n: Value, path: seq<Value>, c: (seq<Value>, Value)) returns (i: nat)
    requires c in SchemaChildren(n, path).items
    ensures i < |Kids(n)| && ChildAt(n, i, Slug(Kids(n)[i])) && c == (path + [Slug(Kids(n)[i])], Kids(n)[i])
  {
    i := SlugChildrenOrigin(Kids(n), path, c);
  }

  lemma SchemaChildComplete(n: Value, path: seq<Value>, i: int, s: Value)
    requires SchemaChildren(n, path).raised.None?
    requires ChildAt(n, i, s)
    ensures (path + [s], Kids(n)[i]) in SchemaChildren(n, path).items
  {
    SlugChildrenComplete(Kids(n), path, i);
  }

  /** Every child `_children` yields is part of its parent, so the walk ends. */
  lemma SchemaChildrenShrink()
    ensures ChildrenShrink(SchemaChildren)
  {
    forall n: Value, p: seq<Value>, c | c in SchemaChildren(n, p).items
      ensures Size(c.1) < Size(n)
    {
      var i := SchemaChildOrigin(n, p, c);
      GetSmaller(n.fields, "children");
      ListElemSmaller(Kids(n), i);
    }
  }

  /** The walk of `_load_node_path_map` below a node reached along path. */
  function SchemaWalkFrom(node: Value, path: seq<Value>): Stream<(string, NodeInfo)> {
    SchemaChildrenShrink();
    Walk(node, path, NodeInfoItems, SchemaChildren)
  }

  /** The walk of `_load_node_path_map`, from the root with the empty path. */
  function SchemaWalk(schema: Value): Stream<(string, NodeInfo)> {
    SchemaChildrenShrink();
    MapNested(schema, NodeInfoItems, SchemaChildren)
  }

  /** The dict comprehension over the walk: the walk's exception if it raised,
      else the dict of its items, a later path overwriting an earlier one. */
  function BuildNodePathMap(schema: Value): Result<NodeMap> {
    var s := SchemaWalk(schema);
    if s.raised.Some? then Raise(s.raised.value) else Ok(FromPairs(s.items))
  }

  /** `_load_node_path_map(session, form_id)`: the database query becomes a
      lookup of the form's schema, None when no form has that id; `scalar()`
      then returns None, which the walk treats like any empty node. */
  function LoadNodePathMap(schemas: Uuid -> Option<Value>, formId: Uuid): Result<NodeMap> {
    BuildNodePathMap(schemas(formId).GetOr(Null))
  }

  /** An absent or empty schema gives an empty map. */
  lemma EmptySchema(schema: Value)
    requires !Truthy(schema)
    ensures BuildNodePathMap(schema) == Ok([])
  {
  }

  // ----- Which nodes the schema walk reaches -----

  /** Walking with an extractor that yields the (path, node) pair itself lists
      every node the walk visits, in visiting order. */
  function VisitItems(n: Value, p: seq<Value>): Stream<(seq<Value>, Value)> {
    Stream([(p, n)], None)
  }

  function Visits(root: Value, path: seq<Value>): Stream<(seq<Value>, Value)> {
    SchemaChildrenShrink();
    Walk(root, path, VisitItems, SchemaChildren)
  }

  function NodeEntry(x: (seq<Value>, Value)): Stream<(string, NodeInfo)> {
    NodeInfoItems(x.1, x.0)
  }

  /** Node m is reached from n by following the slugs in p: each step goes to
      a dict child whose truthy slug is the next component, through a parent
      that has a truthy slug itself. */
  ghost predicate Reaches(n: Value, p: seq<Value>, m: Value)
    decreases |p|
  {
    if p == [] then m == n
    else exists i :: 0 <= i < |Kids(n)| && ChildAt(n, i, p[0]) && Reaches(Kids(n)[i], p[1..], m)
  }

  /** The schema walk is the visit walk with `_node_info` applied to each visit. */
  lemma SchemaWalkIsVisits(root: Value)
    ensures SchemaWalk(root) == Bind(Visits(root, []), NodeEntry)
  {
    SchemaChildrenShrink();
    forall n, p ensures NodeInfoItems(n, p) == Bind(VisitItems(n, p), NodeEntry) {
      var a := NodeInfoItems(n, p);
      assert Bind(Stream([], None), NodeEntry) == Stream([], None);
      assert a.raised.None? ==> a.items + [] == a.items;
    }
    WalkBind(root, [], VisitItems, NodeInfoItems, SchemaChildren, NodeEntry);
  }

  lemma ReachesStep(n: Value, i: int, s: Value, rest: seq<Value>, m: Value)
    requires ChildAt(n, i, s) && Reaches(Kids(n)[i], rest, m)
    ensures Reaches(n, [s] + rest, m)
  {
    assert ([s] + rest)[1..] == rest;
  }

  /** Every visit is a truthy node reached from the root along its own path. */
  lemma {:induction false} VisitsSound(root: Value, path: seq<Value>, x: (seq<Value>, Value))
    requires x in Visits(root, path).items
    ensures |path| <= |x.0| && x.0[..|path|] == path
    ensures Reaches(root, x.0[|path|..], x.1) && Truthy(x.1)
    decreases Size(root), 1
  {
    SchemaChildrenShrink();
    WalkItemOrigin(root, path, VisitItems, SchemaChildren, x);
    if x in VisitItems(root, path).items {
      assert x == (path, root);
      assert x.0[|path|..] == [];
    } else {
      var kids := SchemaChildren(root, path).items;
      var j := WalkAllItemOrigin(root, kids, VisitItems, SchemaChildren, x);
      VisitsSoundStep(root, path, kids[j], x);
    }
  }

  lemma {:induction false} VisitsSoundStep(root: Value, path: seq<Value>, c: (seq<Value>, Value), x: (seq<Value>, Value))
    requires c in SchemaChildren(root, path).items
    requires x in Visits(c.1, c.0).items
    ensures |path| <= |x.0| && x.0[..|path|] == path
    ensures Reaches(root, x.0[|path|..], x.1) && Truthy(x.1)
    decreases Size(root), 0
  {
    SchemaChildrenShrink();
    var i := SchemaChildOrigin(root, path, c);
    var s := Slug(Kids(root)[i]);
    VisitsSound(Kids(root)[i], path + [s], x);
    PrefixStep(x.0, path, s);
    ReachesStep(root, i, s, x.0[|path| + 1..], x.1);
  }

  lemma ConsSplit<T>(path: seq<T>, q: seq<T>)
    requires q != []
    ensures path + [q[0]] + q[1..] == path + q
  {
    assert q == [q[0]] + q[1..];
  }

  lemma PrefixStep<T>(xs: seq<T>, path: seq<T>, s: T)
    requires |path| + 1 <= |xs| && xs[..|path| + 1] == path + [s]
    ensures xs[..|path|] == path && xs[|path|..] == [s] + xs[|path| + 1..]
  {
    assert xs[..|path|] == xs[..|path| + 1][..|path|];
    assert xs[|path|] == xs[..|path| + 1][|path|];
  }

  /** Conversely, when the walk raises nothing, every truthy node reached from
      the root is visited, under the path that reaches it. */
  lemma {:induction false} VisitsComplete(root: Value, path: seq<Value>, q: seq<Value>, m: Value)
    requires Visits(root, path).raised.None?
    requires Truthy(root) && Reaches(root, q, m)
    ensures (path + q, m) in Visits(root, path).items
    decreases |q|
  {
    SchemaChildrenShrink();
    WalkNoRaise(root, path, VisitItems, SchemaChildren);
    if q == [] {
      assert path + q == path;
    } else {
      var i :| 0 <= i < |Kids(root)| && ChildAt(root, i, q[0]) && Reaches(Kids(root)[i], q[1..], m);
      var kids := SchemaChildren(root, path).items;
      SchemaChildComplete(root, path, i, q[0]);
      var j := IndexOf(kids, (path + [q[0]], Kids(root)[i]));
      WalkAllNoRaise(root, kids, VisitItems, SchemaChildren, j);
      VisitsComplete(Kids(root)[i], path + [q[0]], q[1..], m);
      ConsSplit(path, q);
    }
  }

  // ----- What the map holds -----

  /** Visit j is an answer node whose path joins to k. */
  predicate AnswerAt(V: seq<(seq<Value>, Value)>, j: int, k: string) {
    0 <= j < |V| && IsAnswerNode(V[j].1) && AnswerTypeOf(AnswerTypeField(V[j].1)).Ok? && JoinSlugs(V[j].0) == Ok(k)
  }

  /** The NodeInfo an answer node contributes. */
  function InfoOf(n: Value): NodeInfo
    requires AnswerTypeOf(AnswerTypeField(n)).Ok? && n.Obj?
  {
    NodeInfo(AnswerTypeOf(AnswerTypeField(n)).value, Field(n.fields, "tag"))
  }

  function Entries(V: seq<(seq<Value>, Value)>): Stream<(string, NodeInfo)> {
    Bind(Stream(V, None), NodeEntry)
  }

  /** Building entries from a list of visits raises exactly when one of the
      visits does. */
  lemma {:induction false} EntriesRaise(V: seq<(seq<Value>, Value)>)
    ensures Entries(V).raised.None? <==> forall j :: 0 <= j < |V| ==> NodeEntry(V[j]).raised.None?
  {
    if V != [] {
      EntriesRaise(V[1..]);
      assert Stream(V, None).items[1..] == V[1..];
      forall j | 0 <= j < |V| - 1 ensures V[1..][j] == V[j + 1] { }
      if Entries(V).raised.None? {
        assert NodeEntry(V[0]).raised.None?;
      }
    }
  }

  lemma EntriesCons(V: seq<(seq<Value>, Value)>)
    requires V != [] && NodeEntry(V[0]).raised.None?
    ensures Entries(V).items == NodeEntry(V[0]).items + Entries(V[1..]).items
    ensures Entries(V).raised == Entries(V[1..]).raised
  {
    assert Stream(V, None).items[1..] == V[1..];
  }

  lemma TailNoRaise(V: seq<(seq<Value>, Value)>)
    requires V != [] && forall j :: 0 <= j < |V| ==> NodeEntry(V[j]).raised.None?
    ensures forall j :: 0 <= j < |V[1..]| ==> NodeEntry(V[1..][j]).raised.None?
  {
    forall j | 0 <= j < |V[1..]| ensures NodeEntry(V[1..][j]).raised.None? {
      assert V[1..][j] == V[j + 1];
    }
  }

  /** The entries of raise-free visits carry a key exactly for the path of
      each answer node. */
  lemma {:induction false} EntriesKeys(V: seq<(seq<Value>, Value)>)
    requires forall j :: 0 <= j < |V| ==> NodeEntry(V[j]).raised.None?
    ensures forall k :: k in Keys(Entries(V).items) <==> exists j :: AnswerAt(V, j, k)
  {
    if V != [] {
      var tail := V[1..];
      TailNoRaise(V);
      EntriesKeys(tail);
      EntriesCons(V);
      var head := NodeEntry(V[0]).items;
      KeysConcat(head, Entries(tail).items);
      if IsAnswerNode(V[0].1) {
        assert head == [(JoinSlugs(V[0].0).value, InfoOf(V[0].1))];
      }
      forall k ensures k in Keys(Entries(V).items) <==> exists j :: AnswerAt(V, j, k) {
        if k in Keys(head) {
          assert AnswerAt(V, 0, k);
        }
        if k in Keys(Entries(tail).items) {
          var j :| AnswerAt(tail, j, k);
          assert tail[j] == V[j + 1];
          assert AnswerAt(V, j + 1, k);
        }
        if exists j :: AnswerAt(V, j, k) {
          var j :| AnswerAt(V, j, k);
          if j > 0 {
            assert tail[j - 1] == V[j];
            assert AnswerAt(tail, j - 1, k);
          }
        }
      }
    }
  }

  /** A key the first visit contributes: that visit is an answer node with
      this path, and the one-pair dict it builds maps the key to its NodeInfo. */
  lemma HeadEntry(V: seq<(seq<Value>, Value)>, k: string)
    requires V != [] && NodeEntry(V[0]).raised.None?
    requires k in Keys(NodeEntry(V[0]).items)
    ensures AnswerAt(V, 0, k)
    ensures Get(FromPairs(NodeEntry(V[0]).items), k) == Some(InfoOf(V[0].1))
  {
    var head := NodeEntry(V[0]).items;
    assert IsAnswerNode(V[0].1);
    assert head == [(k, InfoOf(V[0].1))];
    assert head[..0] == [];
    assert FromPairs(head) == Put([], k, InfoOf(V[0].1));
  }

  /** Visit j' of V is visit j' - 1 of its tail. */
  lemma AnswerAtTail(V: seq<(seq<Value>, Value)>, j': int, k: string)
    requires 0 < j' < |V|
    ensures AnswerAt(V, j', k) <==> AnswerAt(V[1..], j' - 1, k)
  {
    assert V[1..][j' - 1] == V[j'];
  }

  /** No answer for k in the tail after visit lo means none in V after visit lo + 1. */
  lemma NoLaterAnswer(V: seq<(seq<Value>, Value)>, lo: int, k: string)
    requires V != [] && -1 <= lo
    requires forall j' :: lo < j' < |V| - 1 ==> !AnswerAt(V[1..], j', k)
    ensures forall j' :: lo + 1 < j' < |V| ==> !AnswerAt(V, j', k)
  {
    forall j' | lo + 1 < j' < |V| ensures !AnswerAt(V, j', k) {
      AnswerAtTail(V, j', k);
    }
  }

  /** The dict built from the entries of raise-free visits maps each of its
      keys to the NodeInfo of the LAST answer node with that path. */
  lemma {:induction false} EntriesLastWins(V: seq<(seq<Value>, Value)>, k: string) returns (j: nat)
    requires forall j :: 0 <= j < |V| ==> NodeEntry(V[j]).raised.None?
    requires k in Keys(Entries(V).items)
    ensures AnswerAt(V, j, k) && (forall j' :: j < j' < |V| ==> !AnswerAt(V, j', k))
    ensures Get(FromPairs(Entries(V).items), k) == Some(InfoOf(V[j].1))
  {
    var tail := V[1..];
    TailNoRaise(V);
    EntriesCons(V);
    var head := NodeEntry(V[0]).items;
    var rest := Entries(tail).items;
    KeysConcat(head, rest);
    FromPairsConcat(head, rest, k);
    if k in Keys(rest) {
      var j0 := EntriesLastWins(tail, k);
      j := j0 + 1;
      AnswerAtTail(V, j, k);
      NoLaterAnswer(V, j0, k);
    } else {
      j := 0;
      HeadEntry(V, k);
      EntriesKeys(tail);
      assert forall j' :: -1 < j' < |V| - 1 ==> !AnswerAt(tail, j', k);
      NoLaterAnswer(V, -1, k);
    }
  }

  /** The map loads exactly when the walk raises nothing and every node it
      visits is a dict whose truthy `answerType`, if any, names a member and
      whose path is all strings. */
  lemma NodePathMapLoads(root: Value)
    ensures BuildNodePathMap(root).Ok? <==>
              Visits(root, []).raised.None? &&
              forall x :: x in Visits(root, []).items ==>
                x.1.Obj? && (Truthy(AnswerTypeField(x.1)) ==> AllStr(x.0) && AnswerTypeField(x.1).Str? && AnswerTypeField(x.1).s in Names)
  {
    SchemaWalkIsVisits(root);
    var vis := Visits(root, []);
    if vis.raised.Some? {
      BindKeepsRaise(vis, NodeEntry);
    } else {
      assert vis == Stream(vis.items, None);
      EntriesRaise(vis.items);
      forall x | x in vis.items ensures x == vis.items[IndexOf(vis.items, x)] {
      }
    }
  }

  /** A loaded map is the dict of the entries of the visits, none of which raised. */
  lemma LoadedFromVisits(root: Value)
    requires BuildNodePathMap(root).Ok?
    ensures Visits(root, []).raised.None?
    ensures forall j :: 0 <= j < |Visits(root, []).items| ==> NodeEntry(Visits(root, []).items[j]).raised.None?
    ensures BuildNodePathMap(root).value == FromPairs(Entries(Visits(root, []).items).items)
  {
    SchemaWalkIsVisits(root);
    var vis := Visits(root, []);
    if vis.raised.Some? {
      BindKeepsRaise(vis, NodeEntry);
    }
    assert vis == Stream(vis.items, None);
    EntriesRaise(vis.items);
  }

  /** A loaded map holds a key for each answer node the walk reaches, and for
      nothing else; its value is the NodeInfo of the last answer node visited
      with that path. */
  lemma NodePathMapContents(root: Value, M: NodeMap)
    requires BuildNodePathMap(root) == Ok(M)
    ensures Visits(root, []).raised.None?
    ensures forall k :: k in Keys(M) <==> exists j :: AnswerAt(Visits(root, []).items, j, k)
    ensures forall k :: k in Keys(M) ==>
              exists j :: AnswerAt(Visits(root, []).items, j, k)
                          && (forall j' :: j < j' < |Visits(root, []).items| ==> !AnswerAt(Visits(root, []).items, j', k))
                          && Get(M, k) == Some(InfoOf(Visits(root, []).items[j].1))
  {
    LoadedFromVisits(root);
    var V := Visits(root, []).items;
    KeysOfLoaded(V, M);
    LastWinsAll(V, M);
  }

  /** The keys of the dict built from raise-free visits are the paths of
      the answer nodes among them. */
  lemma KeysOfLoaded(V: seq<(seq<Value>, Value)>, M: NodeMap)
    requires forall j :: 0 <= j < |V| ==> NodeEntry(V[j]).raised.None?
    requires M == FromPairs(Entries(V).items)
    ensures forall k :: k in Keys(M) <==> exists j :: AnswerAt(V, j, k)
  {
    EntriesKeys(V);
    FromPairsLastWins(Entries(V).items);
  }

  /** Every key of the dict built from raise-free visits has a last answer
      node, whose NodeInfo it maps to. */
  lemma LastWinsAll(V: seq<(seq<Value>, Value)>, M: NodeMap)
    requires forall j :: 0 <= j < |V| ==> NodeEntry(V[j]).raised.None?
    requires M == FromPairs(Entries(V).items)
    ensures forall k :: k in Keys(M) ==>
              exists j :: AnswerAt(V, j, k) && (forall j' :: j < j' < |V| ==> !AnswerAt(V, j', k))
                          && Get(M, k) == Some(InfoOf(V[j].1))
  {
    forall k | k in Keys(M)
      ensures exists j :: AnswerAt(V, j, k) && (forall j' :: j < j' < |V| ==> !AnswerAt(V, j', k))
                          && Get(M, k) == Some(InfoOf(V[j].1))
    {
      FromPairsLastWins(Entries(V).items);
      var j := EntriesLastWins(V, k);
    }
  }

  /** The map holds a key for every answer node reached from the root, under
      the dotted path of slugs that reaches it. */
  lemma ReachedAnswerIsMapped(root: Value, M: NodeMap, q: seq<Value>, m: Value)
    requires BuildNodePathMap(root) == Ok(M)
    requires Truthy(root) && Reaches(root, q, m) && IsAnswerNode(m)
    ensures JoinSlugs(q).Ok? && JoinSlugs(q).value in Keys(M)
    ensures AnswerTypeOf(AnswerTypeField(m)).Ok?
  {
    NodePathMapContents(root, M);
    var V := Visits(root, []).items;
    VisitsComplete(root, [], q, m);
    assert [] + q == q;
    var j := IndexOf(V, (q, m));
    LoadedFromVisits(root);
    assert NodeEntry(V[j]).raised.None?;
    assert AnswerAt(V, j, JoinSlugs(q).value);
  }

  /** Conversely, every key of the map is the dotted path of an answer node
      reached from the root. */
  lemma MappedKeyIsReached(root: Value, M: NodeMap, k: string) returns (q: seq<Value>, m: Value)
    requires BuildNodePathMap(root) == Ok(M)
    requires k in Keys(M)
    ensures Reaches(root, q, m) && IsAnswerNode(m) && JoinSlugs(q) == Ok(k)
  {
    NodePathMapContents(root, M);
    var V := Visits(root, []).items;
    var j :| AnswerAt(V, j, k);
    q, m := V[j].0, V[j].1;
    VisitsSound(root, [], V[j]);
    assert q[0..] == q;
  }

  lemma ChildrenOfList(n: Value, path: seq<Value>, elems: seq<Value>)
    requires n.Obj? && Truthy(Slug(n)) && Field(n.fields, "children") == List(elems) && elems != []
    ensures SchemaChildren(n, path) == SlugChildren(elems, path)
  {
  }

  /** The schema walk of a node whose children, if any, are at most one. */
  lemma WalkStep(n: Value, path: seq<Value>, kids: seq<(seq<Value>, Value)>)
    requires Truthy(n) && SchemaChildren(n, path) == Stream(kids, None) && |kids| <= 1
    requires NodeInfoItems(n, path).raised.None?
    ensures SchemaWalkFrom(n, path)
              == Then(NodeInfoItems(n, path), if kids == [] then Empty() else SchemaWalkFrom(kids[0].1, kids[0].0))
  {
    SchemaChildrenShrink();
    var rest := if kids == [] then Empty() else SchemaWalkFrom(kids[0].1, kids[0].0);
    if kids != [] {
      assert kids[0] in SchemaChildren(n, path).items;
      assert kids[1..] == [];
      assert rest.items + [] == rest.items;
    }
    assert WalkAll(n, kids, NodeInfoItems, SchemaChildren) == rest;
  }

  // ----- A two-level schema -----

  const BmiNode: Value := Obj([("slug", Str("bmi")), ("answerType", Str("number")), ("tag", Str("member_bmi"))])
  const BasicInfoNode: Value := Obj([("slug", Str("basic_info")), ("children", List([BmiNode]))])
  const SimpleSchema: Value := Obj([("slug", Str("root")), ("children", List([BasicInfoNode]))])

  lemma BmiNodeWalk()
    ensures NodeInfoItems(BmiNode, [Str("basic_info"), Str("bmi")])
            == Stream([("basic_info.bmi", NodeInfo(Number, Str("member_bmi")))], None)
    ensures SchemaChildren(BmiNode, [Str("basic_info"), Str("bmi")]) == Empty()
  {
    var p2 := [Str("basic_info"), Str("bmi")];
    assert Field(BmiNode.fields, "answerType") == Str("number");
    assert Field(BmiNode.fields, "tag") == Str("member_bmi");
    assert Field(BmiNode.fields, "children") == Null;
    assert Strs(p2) == ["basic_info", "bmi"];
    assert MakePathStr(["basic_info", "bmi"]) == "basic_info.bmi";
  }

  lemma BasicInfoNodeWalk()
    ensures NodeInfoItems(BasicInfoNode, [Str("basic_info")]) == Empty()
    ensures SchemaChildren(BasicInfoNode, [Str("basic_info")]) == Stream([([Str("basic_info"), Str("bmi")], BmiNode)], None)
  {
    assert Field(BasicInfoNode.fields, "answerType") == Null && Field(BasicInfoNode.fields, "slug") == Str("basic_info");
    assert Field(BasicInfoNode.fields, "children") == List([BmiNode]) && Slug(BmiNode) == Str("bmi");
    assert [BmiNode][1..] == [];
    assert [Str("basic_info")] + [Str("bmi")] == [Str("basic_info"), Str("bmi")];
  }

  lemma SimpleSchemaRootWalk()
    ensures NodeInfoItems(SimpleSchema, []) == Empty()
    ensures SchemaChildren(SimpleSchema, []) == Stream([([Str("basic_info")], BasicInfoNode)], None)
  {
    assert Field(SimpleSchema.fields, "answerType") == Null && Field(SimpleSchema.fields, "slug") == Str("root");
    assert Field(SimpleSchema.fields, "children") == List([BasicInfoNode]) && Slug(BasicInfoNode) == Str("basic_info");
    assert [BasicInfoNode][1..] == [];
    assert [] + [Str("basic_info")] == [Str("basic_info")];
    ChildrenOfList(SimpleSchema, [], [BasicInfoNode]);
  }

  /** A two-level schema: the root's slug is not part of any path, the answer
      node under `basic_info` is keyed `basic_info.bmi`, and nodes without an
      `answerType` contribute nothing. */
  lemma SimpleSchemaMap()
    ensures BuildNodePathMap(SimpleSchema) == Ok([("basic_info.bmi", NodeInfo(Number, Str("member_bmi")))])
  {
    var entries := Stream([("basic_info.bmi", NodeInfo(Number, Str("member_bmi")))], None);
    BmiNodeWalk();
    WalkStep(BmiNode, [Str("basic_info"), Str("bmi")], []);
    assert entries.items + [] == entries.items;
    assert SchemaWalkFrom(BmiNode, [Str("basic_info"), Str("bmi")]) == entries;
    BasicInfoNodeWalk();
    WalkStep(BasicInfoNode, [Str("basic_info")], [([Str("basic_info"), Str("bmi")], BmiNode)]);
    assert [] + entries.items == entries.items;
    assert SchemaWalkFrom(BasicInfoNode, [Str("basic_info")]) == entries;
    SimpleSchemaRootWalk();
    WalkStep(SimpleSchema, [], [([Str("basic_info")], BasicInfoNode)]);
    assert SchemaWalk(SimpleSchema) == entries;
  }

  function IndexOf<T(==)>(s: seq<T>, x: T): (i: nat)
    requires x in s
    ensures i < |s| && s[i] == x
  {
    if s[0] == x then 0 else 1 + IndexOf(s[1..], x)
  }
}
