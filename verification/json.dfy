/** Decoded JSON documents, as the transformer sees them: a form's schema and
    a submission's responses are both nested Python values built from JSON. */
module Json {
  import opened Py
  import opened Dicts

  /** A JSON value. Objects keep their key order, as Python dicts do;
      numbers are integers (fractional numbers are not modelled). */
  datatype Value =
    | Null
    | Bool(b: bool)
    | Num(n: int)
    | Str(s: string)
    | List(elems: seq<Value>)
    | Obj(fields: Dict<string, Value>)

  /** Python truthiness: `None`, `False`, `0`, `""`, `[]` and `{}` are false. */
  predicate Truthy(v: Value) {
    match v
    case Null => false
    case Bool(b) => b
    case Num(n) => n != 0
    case Str(s) => s != ""
    case List(e) => e != []
    case Obj(f) => f != []
  }

  /** `not isinstance(v, (dict, list))`. */
  predicate IsScalar(v: Value) {
    !v.List? && !v.Obj?
  }

  /** Number of constructors in a value; every child is strictly smaller. */
  function Size(v: Value): nat {
    match v
    case List(e) => 1 + SizeOfList(e)
    case Obj(f) => 1 + SizeOfFields(f)
    case _ => 1
  }

  function SizeOfList(e: seq<Value>): nat {
    if e == [] then 0 else Size(e[0]) + SizeOfList(e[1..])
  }

  function SizeOfFields(f: Dict<string, Value>): nat {
    if f == [] then 0
    else
      var field := f[0];
      assert field in f && field.1 < field;
      Size(field.1) + SizeOfFields(f[1..])
  }

  lemma {:induction false} ListElemSmaller(e: seq<Value>, i: nat)
    requires i < |e|
    ensures Size(e[i]) < Size(List(e))
    ensures Size(e[i]) <= SizeOfList(e)
  {
    if i > 0 {
      ListElemSmaller(e[1..], i - 1);
    }
  }

  lemma {:induction false} FieldSmaller(f: Dict<string, Value>, i: nat)
    requires i < |f|
    ensures Size(f[i].1) < Size(Obj(f))
    ensures Size(f[i].1) <= SizeOfFields(f)
  {
    if i > 0 {
      FieldSmaller(f[1..], i - 1);
    }
  }

  /** What JSON decoding guarantees: no object holds a key twice, at any depth. */
  predicate WellFormed(v: Value) {
    match v
    case List(e) => forall i :: 0 <= i < |e| ==> WellFormed(e[i])
    case Obj(f) => DistinctKeys(f) && forall i :: 0 <= i < |f| ==> WellFormed(f[i].1)
    case _ => true
  }

  /** `v[p[0]][p[1]]...` through nested objects; None when a key is missing or
      a step meets something that is not an object. */
  function Lookup(v: Value, p: seq<string>): Option<Value>
    decreases |p|
  {
    if p == [] then Some(v)
    else if !v.Obj? then None
    else match Get(v.fields, p[0])
      case None => None
      case Some(c) => Lookup(c, p[1..])
  }

  /** Looking up a longer path is looking up its first part, then the rest. */
  lemma {:induction false} LookupConcat(v: Value, p: seq<string>, q: seq<string>)
    ensures Lookup(v, p + q) == match Lookup(v, p) case None => None case Some(w) => Lookup(w, q)
    decreases |p|
  {
    if p == [] {
      assert p + q == q;
    } else if v.Obj? && Get(v.fields, p[0]).Some? {
      assert (p + q)[1..] == p[1..] + q;
      LookupConcat(Get(v.fields, p[0]).value, p[1..], q);
    }
  }

  /** A value found in an object is strictly smaller than the object. */
  lemma GetSmaller(f: Dict<string, Value>, k: string)
    requires Get(f, k).Some?
    ensures Size(Get(f, k).value) < Size(Obj(f))
  {
    var i :| 0 <= i < |f| && f[i] == (k, Get(f, k).value);
    FieldSmaller(f, i);
  }
}
