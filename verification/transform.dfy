/** `transform_submissions` and `_transform_submission`: every submission's
    responses flattened against its form's node path map, each answer turned
    into one output record carrying the submission's common fields. */
module Transform {
  import opened Py
  import opened Dicts
  import opened Json
  import opened Constants
  import opened Paths
  import opened SchemaMap
  import opened Flatten
  import opened Cache

  /** A point in time, as the database stores it. */
  type Timestamp = nat

  datatype User = User(id: Uuid, fullName: string)

  datatype Form = Form(name: string)

  /** A submission with its two relationships, either of which may be absent. */
  datatype Submission = Submission(id: Uuid, formId: Uuid, form: Option<Form>, user: Option<User>,
                                   dateCreated: Timestamp, responses: Value)

  /** `common_kwargs`: the fields shared by every record of one submission. */
  datatype Common = Common(processedOn: Timestamp, formId: Uuid, formName: string, submissionId: Uuid,
                           submissionCreated: Timestamp, userId: Uuid, userFullName: string)

  /** A `ResponseEvent`. */
  datatype Record = Record(schemaPath: string, value: string, tag: Value, answerType: AnswerType, common: Common)

  /** The plain-dictionary output shape: the answer type by its name. */
  datatype Row = Row(answerType: string, schemaPath: string, value: string, tag: Value, common: Common)

  datatype Output = Event(rec: Record) | Dict(row: Row)

  /** The two copies of the transformer: the one whose answer extractor
      asserts a non-empty node path map, and the one that inlines it without
      the assertion. */
  datatype Copy = AppCopy | SrcCopy

  /** The flattening step each copy uses. */
  function AnswersOf(copy: Copy, responses: Value, M: NodeMap): Stream<(string, Answer)> {
    match copy
    case AppCopy => ExtractAll(responses, M)
    case SrcCopy => FlattenResponses(responses, M)
  }

  /** Building `common_kwargs`: dereferencing a missing form or user raises
      AttributeError. */
  function CommonFields(sub: Submission, processedOn: Timestamp): (r: Result<Common>)
    ensures r.Ok? <==> sub.form.Some? && sub.user.Some?
    ensures r.Raise? ==> r.exc == AttributeError
    ensures r.Ok? ==> r.value.processedOn == processedOn && r.value.formId == sub.formId
                      && r.value.formName == sub.form.value.name && r.value.submissionId == sub.id
                      && r.value.submissionCreated == sub.dateCreated && r.value.userId == sub.user.value.id
                      && r.value.userFullName == sub.user.value.fullName
  {
    if sub.form.None? || sub.user.None? then Raise(AttributeError)
    else Ok(Common(processedOn, sub.formId, sub.form.value.name, sub.id, sub.dateCreated,
                   sub.user.value.id, sub.user.value.fullName))
  }

  function MakeRecord(c: Common, y: (string, Answer)): Record {
    Record(y.0, y.1.value, y.1.tag, y.1.answerType, c)
  }

  /** `_make_output_dictionary`: the answer type is replaced by its name and
      every other field passes through. */
  function OutputDictionary(r: Record): (row: Row)
    ensures FromName(row.answerType) == Ok(r.answerType)
    ensures row.schemaPath == r.schemaPath && row.value == r.value && row.tag == r.tag && row.common == r.common
  {
    NameRoundTrip(r.answerType);
    Row(r.answerType.Name(), r.schemaPath, r.value, r.tag, r.common)
  }

  /** `output_mapper`. */
  function Emit(toDict: bool, r: Record): Output {
    if toDict then Dict(OutputDictionary(r)) else Event(r)
  }

  /** `_transform_submission`, given what the node path map lookup returns:
      the common fields are built first, then the map is fetched, then one
      record is yielded per answer. */
  function TransformSubmission(copy: Copy, load: Result<NodeMap>, sub: Submission,
                               processedOn: Timestamp, toDict: bool): Stream<Output> {
    match CommonFields(sub, processedOn)
    case Raise(e) => Fail(e)
    case Ok(c) =>
      match load
      case Raise(e) => Fail(e)
      case Ok(M) => Map(AnswersOf(copy, sub.responses, M), y => Emit(toDict, MakeRecord(c, y)))
  }

  /** The records of all submissions one after the other, with the map of
      each submission's form as the loader computes it (the cache is
      transparent), stopping at the first exception. */
  function TransformAll(copy: Copy, schemas: Uuid -> Option<Value>, subs: seq<Submission>,
                        processedOn: Timestamp, toDict: bool): Stream<Output> {
    Bind(Stream(subs, None), (sub: Submission) => TransformSubmission(copy, LoadNodePathMap(schemas, sub.formId), sub, processedOn, toDict))
  }

  /** Whether processing the submission consults the cache: only once its
      common fields were built (which does not depend on the timestamp). */
  predicate Consults(sub: Submission) {
    CommonFields(sub, 0).Ok?
  }

  /** What `_transform_submission` raises, if anything. */
  function Outcome(copy: Copy, load: Result<NodeMap>, sub: Submission): Option<Exception> {
    if !Consults(sub) then Some(AttributeError)
    else if load.Raise? then Some(load.exc)
    else AnswersOf(copy, sub.responses, load.value).raised
  }

  /** The exception a submission raises depends neither on the timestamp nor
      on the output shape, and it is, in this order, a missing form or user,
      a failing map load, or a failing walk. */
  lemma TransformRaised(copy: Copy, load: Result<NodeMap>, sub: Submission,
                        t1: Timestamp, d1: bool, t2: Timestamp, d2: bool)
    ensures TransformSubmission(copy, load, sub, t1, d1).raised == TransformSubmission(copy, load, sub, t2, d2).raised
    ensures TransformSubmission(copy, load, sub, t1, d1).raised == Outcome(copy, load, sub)
  {
  }

  /** The cache state after processing `subs` from state `s`. */
  function CacheAfter(s: LruState, copy: Copy, schemas: Uuid -> Option<Value>, subs: seq<Submission>): LruState
    decreases |subs|
  {
    if subs == [] then s
    else
      var sub := subs[0];
      var load := LoadNodePathMap(schemas, sub.formId);
      var s' := if Consults(sub) then Step(s, sub.formId, load).0 else s;
      if Outcome(copy, load, sub).Some? then s' else CacheAfter(s', copy, schemas, subs[1..])
  }

  /** `_transform_submission` with the call's cache. */
  method TransformOne(copy: Copy, cache: NodePathMapCache, sub: Submission, processedOn: Timestamp, toDict: bool)
    returns (out: Stream<Output>)
    requires cache.Valid()
    modifies cache
    ensures cache.Valid()
    ensures out == TransformSubmission(copy, LoadNodePathMap(cache.schemas, sub.formId), sub, processedOn, toDict)
    ensures cache.State() == if Consults(sub) then Step(old(cache.State()), sub.formId, LoadNodePathMap(cache.schemas, sub.formId)).0
                             else old(cache.State())
  {
    var common := CommonFields(sub, processedOn);
    if common.Raise? {
      return Fail(common.exc);
    }
    var nodeMap := cache.Get(sub.formId);
    if nodeMap.Raise? {
      return Fail(nodeMap.exc);
    }
    var c := common.value;
    out := Map(AnswersOf(copy, sub.responses, nodeMap.value), y => Emit(toDict, MakeRecord(c, y)));
  }

  /** `transform_submissions`: the timestamp defaults to `now`; one fresh
      cache serves the whole call; the submission count is reported once,
      after every submission was processed, and not at all when one raised. */
  method TransformSubmissions(copy: Copy, schemas: Uuid -> Option<Value>, submissions: seq<Submission>,
                              processedOn: Option<Timestamp>, now: Timestamp, toDict: bool)
    returns (out: seq<Output>, raised: Option<Exception>, logged: Option<nat>, cacheHits: nat)
    ensures Stream(out, raised) == TransformAll(copy, schemas, submissions, processedOn.GetOr(now), toDict)
    ensures logged == if raised.None? then Some(|submissions|) else None
    ensures cacheHits == CacheAfter(Fresh, copy, schemas, submissions).hits
  {
    var stamp := processedOn.GetOr(now);
    var cache := new NodePathMapCache(schemas);
    ghost var f := (sub: Submission) => TransformSubmission(copy, LoadNodePathMap(schemas, sub.formId), sub, stamp, toDict);
    out := [];
    raised := None;
    var count := 0;
    var i := 0;
    while i < |submissions| && raised.None?
      invariant 0 <= i <= |submissions| && count == i
      invariant cache.Valid() && cache.schemas == schemas
      invariant raised.None? ==>
                  TransformAll(copy, schemas, submissions, stamp, toDict)
                  == Then(Stream(out, None), Bind(Stream(submissions[i..], None), f))
      invariant raised.None? ==>
                  CacheAfter(Fresh, copy, schemas, submissions) == CacheAfter(cache.State(), copy, schemas, submissions[i..])
      invariant raised.Some? ==> TransformAll(copy, schemas, submissions, stamp, toDict) == Stream(out, raised)
      invariant raised.Some? ==> CacheAfter(Fresh, copy, schemas, submissions) == cache.State()
      decreases |submissions| - i, if raised.None? then 1 else 0
    {
      var sub := submissions[i];
      ghost var before := cache.State();
      var s := TransformOne(copy, cache, sub, stamp, toDict);
      TransformRaised(copy, LoadNodePathMap(schemas, sub.formId), sub, stamp, toDict, stamp, toDict);
      ghost var rest := Bind(Stream(submissions[i + 1..], None), f);
      assert submissions[i..][1..] == submissions[i + 1..];
      assert Bind(Stream(submissions[i..], None), f) == Then(s, rest);
      ThenAssoc(Stream(out, None), s, rest);
      out := out + s.items;
      if s.raised.Some? {
        raised := s.raised;
      } else {
        count := count + 1;
        i := i + 1;
      }
    }
    if raised.None? {
      assert submissions[i..] == [];
      logged := Some(count);
    } else {
      logged := None;
    }
    cacheHits := cache.hits;
  }

  // ----- What the records say -----

  /** Either copy yields the registered scalar leaves of the responses; the
      copy with the assertion yields nothing more (it may only raise). */
  lemma AnswersAreFlattened(copy: Copy, responses: Value, M: NodeMap, y: (string, Answer))
    requires y in AnswersOf(copy, responses, M).items
    ensures y in FlattenResponses(responses, M).items
  {
    ExtractVsFlatten(responses, M);
  }

  /** Every record stands for one registered scalar leaf of the submission's
      responses: its path is the leaf's dotted path, its type and tag come
      from the map entry, its value is the leaf serialised for that type, and
      its common fields are the submission's. */
  lemma RecordSound(copy: Copy, M: NodeMap, sub: Submission, processedOn: Timestamp, o: Output)
    returns (q: seq<string>, v: Value)
    requires WellFormed(sub.responses)
    requires o in TransformSubmission(copy, Ok(M), sub, processedOn, false).items
    ensures Consults(sub) && o.Event?
    ensures o.rec.common == CommonFields(sub, processedOn).value
    ensures q != [] && Lookup(sub.responses, q) == Some(v) && IsScalar(v)
    ensures o.rec.schemaPath == MakePathStr(q) && Get(M, o.rec.schemaPath).Some?
    ensures var info := Get(M, o.rec.schemaPath).value;
            o.rec.answerType == info.answerType && o.rec.value == Serialize(info.answerType, v) && o.rec.tag == info.tag
  {
    var A := AnswersOf(copy, sub.responses, M);
    var out := TransformSubmission(copy, Ok(M), sub, processedOn, false);
    var i :| 0 <= i < |out.items| && out.items[i] == o;
    var y := A.items[i];
    AnswersAreFlattened(copy, sub.responses, M, y);
    q, v := FlattenSound(sub.responses, M, y);
  }

  /** Every registered scalar leaf of a submission whose form and user are
      present gives a record. */
  lemma RecordComplete(copy: Copy, M: NodeMap, sub: Submission, processedOn: Timestamp, q: seq<string>, v: Value)
    requires Consults(sub) && sub.responses.Obj?
    requires q != [] && Lookup(sub.responses, q) == Some(v) && IsScalar(v)
    requires Get(M, MakePathStr(q)).Some?
    ensures var info := Get(M, MakePathStr(q)).value;
            Event(Record(MakePathStr(q), Serialize(info.answerType, v), info.tag, info.answerType,
                         CommonFields(sub, processedOn).value))
            in TransformSubmission(copy, Ok(M), sub, processedOn, false).items
  {
    var info := Get(M, MakePathStr(q)).value;
    var y := (MakePathStr(q), Answer(info.answerType, Serialize(info.answerType, v), info.tag));
    FlattenComplete(sub.responses, M, q, v);
    ExtractVsFlatten(sub.responses, M);
    var A := AnswersOf(copy, sub.responses, M);
    assert A == FlattenResponses(sub.responses, M);
    var i :| 0 <= i < |A.items| && A.items[i] == y;
    assert TransformSubmission(copy, Ok(M), sub, processedOn, false).items[i] == Event(MakeRecord(CommonFields(sub, processedOn).value, y));
  }

  /** The dictionary output is the record output with each record passed
      through `_make_output_dictionary`, item for item. */
  lemma DictShape(copy: Copy, load: Result<NodeMap>, sub: Submission, processedOn: Timestamp)
    ensures var events := TransformSubmission(copy, load, sub, processedOn, false);
            var rows := TransformSubmission(copy, load, sub, processedOn, true);
            && |rows.items| == |events.items| && rows.raised == events.raised
            && forall i :: 0 <= i < |rows.items| ==> events.items[i].Event? && rows.items[i] == Dict(OutputDictionary(events.items[i].rec))
  {
  }

  /** Every record of one call carries the call's timestamp and the common
      fields of the submission it came from. */
  lemma RecordsShareTimestamp(copy: Copy, schemas: Uuid -> Option<Value>, subs: seq<Submission>,
                              processedOn: Timestamp, o: Output)
    requires o in TransformAll(copy, schemas, subs, processedOn, false).items
    ensures o.Event? && o.rec.common.processedOn == processedOn
    ensures exists sub :: sub in subs && Consults(sub) && o.rec.common == CommonFields(sub, processedOn).value
  {
    var f := (sub: Submission) => TransformSubmission(copy, LoadNodePathMap(schemas, sub.formId), sub, processedOn, false);
    BindItemOrigin(Stream(subs, None), f, o);
    var sub :| sub in subs && o in f(sub).items;
  }

  // ----- Cache hits of one call -----

  /** The form ids of the submissions, in order. */
  function FormIds(subs: seq<Submission>): (r: seq<Uuid>)
    ensures |r| == |subs| && forall i :: 0 <= i < |subs| ==> r[i] == subs[i].formId
  {
    if subs == [] then [] else [subs[0].formId] + FormIds(subs[1..])
  }

  /** When no submission raises, the call's cache sees exactly the form ids
      of the submissions, one call each, in order. */
  lemma {:induction false} CacheSeesFormIds(s: LruState, copy: Copy, schemas: Uuid -> Option<Value>, subs: seq<Submission>)
    requires forall i :: 0 <= i < |subs| ==> Outcome(copy, LoadNodePathMap(schemas, subs[i].formId), subs[i]).None?
    ensures CacheAfter(s, copy, schemas, subs) == Run(s, FormIds(subs), Loader(schemas))
    decreases |subs|
  {
    if subs != [] {
      assert Outcome(copy, LoadNodePathMap(schemas, subs[0].formId), subs[0]).None?;
      forall i | 0 <= i < |subs[1..]| ensures Outcome(copy, LoadNodePathMap(schemas, subs[1..][i].formId), subs[1..][i]).None? {
        assert subs[1..][i] == subs[i + 1];
      }
      CacheSeesFormIds(Step(s, subs[0].formId, LoadNodePathMap(schemas, subs[0].formId)).0, copy, schemas, subs[1..]);
      assert FormIds(subs)[1..] == FormIds(subs[1..]);
    }
  }

  /** When no submission raises and the call meets at most 16 forms, each
      form's map is loaded once and every other submission is a cache hit. */
  lemma CallHits(copy: Copy, schemas: Uuid -> Option<Value>, subs: seq<Submission>)
    requires forall i :: 0 <= i < |subs| ==> Outcome(copy, LoadNodePathMap(schemas, subs[i].formId), subs[i]).None?
    requires |Ids(FormIds(subs))| <= NodePathCacheSize
    ensures CacheAfter(Fresh, copy, schemas, subs).hits == |subs| - |Ids(FormIds(subs))|
  {
    CacheSeesFormIds(Fresh, copy, schemas, subs);
    forall i | 0 <= i < |FormIds(subs)| ensures Loader(schemas)(FormIds(subs)[i]).Ok? {
      assert Outcome(copy, LoadNodePathMap(schemas, subs[i].formId), subs[i]).None?;
    }
    RunHits(FormIds(subs), Loader(schemas));
  }

  lemma IdsOfRepeat(ks: seq<Uuid>, n: nat, a: Uuid, b: Uuid, c: Uuid)
    requires |ks| == n + 2 && a != b && b != c && a != c
    requires forall i :: 0 <= i < n ==> ks[i] == a
    requires ks[n] == b && ks[n + 1] == c
    ensures |Ids(ks)| == if n == 0 then 2 else 3
  {
    var want := if n == 0 then {b, c} else {a, b, c};
    forall x | x in Ids(ks) ensures x in want {
      var i :| 0 <= i < |ks| && ks[i] == x;
    }
    assert ks[n] in Ids(ks) && ks[n + 1] in Ids(ks);
    if n > 0 {
      assert ks[0] in Ids(ks);
    }
    assert Ids(ks) == want;
  }

  /** `n` submissions of one form followed by one submission each of two
      other forms, none raising, give `max(0, n - 1)` cache hits. */
  lemma RepeatedFormHits(copy: Copy, schemas: Uuid -> Option<Value>, subs: seq<Submission>, n: nat, a: Uuid, b: Uuid, c: Uuid)
    requires |subs| == n + 2 && a != b && b != c && a != c
    requires forall i :: 0 <= i < n ==> subs[i].formId == a
    requires subs[n].formId == b && subs[n + 1].formId == c
    requires forall i :: 0 <= i < |subs| ==> Outcome(copy, LoadNodePathMap(schemas, subs[i].formId), subs[i]).None?
    ensures CacheAfter(Fresh, copy, schemas, subs).hits == if n == 0 then 0 else n - 1
  {
    IdsOfRepeat(FormIds(subs), n, a, b, c);
    CallHits(copy, schemas, subs);
  }
}
