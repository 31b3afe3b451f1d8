# Nested-form flattening ETL, modelled in Dafny

The system stores form submissions as nested JSON documents. A form's schema is a
tree of nodes. A node that asks a question carries an `answerType` (`number`,
`text`, `boolean` or `date`) and an optional `tag`. A node that groups questions
carries a `slug` and a `children` list.

The transformer turns every submission into flat "response events", one per
answered question:

1. The form's schema is walked into a **node path map**. Each answer node's
   dotted path of slugs maps to its `NodeInfo(answer_type, tag)`.
2. The map is served by a per-call **LRU cache** with 16 entries.
3. The submission's responses are walked with the **same generic pre-order
   walker** (`map_nested`). Every scalar leaf whose dotted key path is
   registered in the map yields one answer. A boolean serialises to
   `"true"`/`"false"`; every other value uses `str(v)`.
4. Each answer becomes a record carrying the submission's common fields
   (timestamp, form, submission and user), either as an event or as a plain
   dictionary.

The fixture generator `make_response` runs the other way. It builds a nested
response dictionary from a node path map by walking a cursor down the dotted
path and storing a fake value at the end.

The model has one module per concern:

| file | module | models |
|---|---|---|
| `py.dfy` | `Py` | Python generators as `Stream(items, raised)`: `yield from` is `Then`, a `for … yield from` loop is `Bind`, a `for … yield` loop is `Map` |
| `dicts.dfy` | `Dicts` | insertion-ordered `dict` as a sequence of pairs: `get`, `d[k] = v`, the dict comprehension |
| `json.dfy` | `Json` | JSON values, truthiness, nested lookup |
| `walker.dfy` | `Walker` | `map_nested` / `_recursive_map_nested`, generic in both extractors |
| `constants.dfy` | `Constants` | the `AnswerType` enumeration |
| `paths.dfy` | `Paths` | `'.'.join(path)` and `str.split('.')` |
| `schema.dfy` | `SchemaMap` | `_load_node_path_map` with `_node_info` and `_children` |
| `flatten.dfy` | `Flatten` | `_flatten_responses`, `_extract_answers`, `_dict_children` |
| `cache.dfy` | `Cache` | `get_node_path_map_cache` as an LRU state machine and a class |
| `transform.dfy` | `Transform` | `transform_submissions`, `_transform_submission`, `_make_output_dictionary` |
| `factories.dfy` | `Factories` | `make_response`, with the faker table lookup it calls |

There are two copies of the transformer, `app/etl/transformers.py` and
`src/app/etl/transformers.py`. They differ in one way that matters:
`_extract_answers` in the first copy asserts that the node path map is
non-empty. `Transform.Copy` selects a copy, and `Flatten.ExtractVsFlatten`
proves the two agree on every non-empty map.

The root's own slug never becomes part of a path: the root's path is `[]`,
and only children append their slug. So a schema whose root is slugged `root`
with a child `age` registers `age`, not `root.age`, and a response
`{"root": {"age": 42}}` yields no record for it. `SchemaMap.SimpleSchemaMap`
shows this on the two-level schema used by the caching test: the root is
slugged `root` and the map key is `basic_info.bmi`.

## Model

| member | source | states |
|---|---|---|
| Dicts.Get | app/etl/transformers.py:222 | `node_map.get(k)` finds a value exactly when `k` is a key, and the found pair is in the dict |
| Dicts.Put | src/app/factories.py:193 | after `d[k] = v` the keys are the old keys plus `k`, keys stay distinct, and `k` finds `v` |
| Dicts.PutOther | src/app/factories.py:197 | storing under one key leaves what every other key finds unchanged |
| Dicts.FromPairsLastWins | src/app/etl/transformers.py:91-94 | the dict comprehension has distinct keys, exactly the keys of the pairs, and each key maps to the value of the last pair carrying it |
| Walker.WalkEmptyNode | app/etl/transformers.py:40-41 | an empty or absent node yields nothing, raises nothing, and gives the same result whatever the extractors are, so neither is consulted |
| Walker.WalkItemsFirst | app/etl/transformers.py:43 | pre-order: a node's own items are a prefix of its walk, and if producing them raises, the walk ends there and no child is visited |
| Walker.WalkItemOrigin | app/etl/transformers.py:43-46 | every item of a walk is one of the node's own items or an item of the walk over the children the extractor yielded |
| Walker.WalkAllItemOrigin | app/etl/transformers.py:45-46 | an item of the children's walks belongs to the walk of one specific child |
| Walker.WalkNoRaise | app/etl/transformers.py:43-46 | a walk that raised nothing contains all of the node's items and every item of every child's walk, and neither extractor raised |
| Walker.WalkAllNoRaise | app/etl/transformers.py:45-46 | if the children's walks raised nothing, each child's walk raised nothing and is contained in them |
| Walker.WalkBind | src/app/etl/transformers.py:45-52 | walking with an items extractor post-processed by `f` equals walking first and applying `f` to every item afterwards |
| Walker.WalkAllBind | src/app/etl/transformers.py:51-52 | the same commutation for the loop over the children |
| Constants.FromName | src/app/constants.py:8-12 | `AnswerType[name]` succeeds exactly for the four member names and returns the member with that name; anything else raises KeyError |
| Constants.NameRoundTrip | src/app/constants.py:8-12 | `AnswerType[t.name] == t` for every member |
| Constants.FourMembers | src/app/constants.py:8-12 | exactly four members, `number`, `text`, `boolean`, `date`, with distinct names and distinct ordinals between 1 and 4 |
| Paths.Split | src/app/factories.py:187 | `split('.')` never returns an empty list |
| Paths.JoinSplit | app/etl/transformers.py:49-56 | joining the pieces of a split with dots gives back the string |
| Paths.SplitJoin | app/etl/transformers.py:49-56 | splitting the dotted join of a non-empty list of dot-free components gives back the components |
| Paths.SplitNoDot | src/app/factories.py:187 | no piece of a split contains a dot |
| Paths.SplitOfDotless | src/app/factories.py:187 | a dot-free string splits into itself alone |
| Paths.SplitAtDot | src/app/factories.py:187 | splitting `a + "." + b` with a dot-free `a` gives `a` followed by the pieces of `b` |
| SchemaMap.JoinSlugs | app/etl/transformers.py:81 | joining the slugs of a path succeeds exactly when they are all strings, and raises TypeError otherwise |
| SchemaMap.AnswerTypeOf | app/etl/transformers.py:81 | `AnswerType[answer_type]` succeeds exactly for a string naming a member; an unhashable list or dict raises TypeError, any other value KeyError |
| SchemaMap.NodeInfoItems | app/etl/transformers.py:74-81 | a node yields one `(path, NodeInfo(type, tag))` item exactly when it has a truthy `answerType`; it raises when the path join or the type lookup fails, or when the node is not a dict |
| SchemaMap.SlugChildren | app/etl/transformers.py:93-96 | the loop over `children` raises AttributeError exactly when some child is not a dict, and yields at most one pair per child |
| SchemaMap.SlugChildrenOrigin | app/etl/transformers.py:93-96 | every yielded pair is a dict child with a truthy slug, paired with the parent path plus that slug |
| SchemaMap.SlugChildrenComplete | app/etl/transformers.py:93-96 | every child with a truthy slug is yielded |
| SchemaMap.SchemaChildOrigin | app/etl/transformers.py:90-96 | children are followed only from a node whose slug and children list are truthy; each is a child with a truthy slug, under the parent path plus that slug |
| SchemaMap.SchemaChildComplete | app/etl/transformers.py:90-96 | every such child is followed |
| SchemaMap.SchemaChildrenShrink | app/etl/transformers.py:83-96 | every child followed is a strict part of its parent, so the schema walk terminates |
| SchemaMap.EmptySchema | src/app/etl/transformers.py:90-94 | a falsy schema (absent, `None` or empty) gives the empty map |
| SchemaMap.SchemaWalkIsVisits | app/etl/transformers.py:99-101 | the schema walk equals `_node_info` applied, in order, to each node the walk visits |
| SchemaMap.VisitsSound | app/etl/transformers.py:83-96 | every visited node is reached from the root by following truthy slugs through slugged parents, so the root's own slug never appears in a path |
| SchemaMap.VisitsComplete | app/etl/transformers.py:83-96 | when the walk from a truthy root raises nothing, every node reachable that way is visited, under the path of slugs that reaches it |
| SchemaMap.NodePathMapLoads | app/etl/transformers.py:74-102 | the map loads exactly when the walk raises nothing and every visited node is a dict whose truthy `answerType`, if any, names a member under an all-string path |
| SchemaMap.LoadedFromVisits | app/etl/transformers.py:99-102 | a loaded map is the dict built from the entries of the visited nodes, in visiting order |
| SchemaMap.EntriesKeys | app/etl/transformers.py:99-102 | a path is a key exactly when some visited answer node has that path |
| SchemaMap.EntriesLastWins | src/app/etl/transformers.py:91-94 | a key's value is the NodeInfo of the last visited answer node with that path; later duplicates overwrite earlier ones |
| SchemaMap.NodePathMapContents | src/app/etl/transformers.py:90-94 | the map has a key for each answer node the walk visits and for nothing else; its value is the NodeInfo of the last such node |
| SchemaMap.ReachedAnswerIsMapped | app/etl/transformers.py:79-81 | every answer node reachable from the root has its dotted slug path as a key, and its answer type names a member |
| SchemaMap.MappedKeyIsReached | app/etl/transformers.py:99-102 | every key is the dotted slug path of a reachable answer node |
| SchemaMap.SimpleSchemaMap | etl_nested/tests/unit/etl/test_transformers.py:227-273 | the two-level schema (root slugged `root`, section `basic_info`, question `bmi`) gives exactly `{"basic_info.bmi": NodeInfo(number, "member_bmi")}` |
| Flatten.BooleanOnlySpecial | src/app/etl/transformers.py:166-169 | `boolean` is the only answer type not serialised by `str(v)`; its value is `"true"` exactly when truthy, otherwise `"false"` |
| Flatten.ScalarFields | app/etl/transformers.py:219-220 | the items at a node are non-dict, non-list fields, each under its key appended to the node's path |
| Flatten.ObjFields | app/etl/transformers.py:208-212 | the children of a node are its dict-valued fields, each under its key appended to the node's path |
| Flatten.ScalarFieldsComplete | app/etl/transformers.py:219-220 | every scalar field is an item |
| Flatten.ObjFieldsComplete | app/etl/transformers.py:210-212 | every dict-valued field is a child |
| Flatten.DictChildrenShrink | src/app/etl/transformers.py:172-175 | every child is a strict part of its node, so the response walk terminates |
| Flatten.FieldAnswersBind | src/app/etl/transformers.py:159-170 | the answers at a node are its scalar fields passed one by one through the registration check |
| Flatten.FlattenIsRegisteredLeaves | src/app/etl/transformers.py:158-177 | flattening equals walking the scalar leaves and registering each one in order |
| Flatten.LeavesRaise | src/app/etl/transformers.py:158-177 | the leaf walk raises only for a truthy root that is not a dict, and then raises AttributeError |
| Flatten.LeavesSound | app/etl/transformers.py:208-220 | in a document without repeated keys, every item of the leaf walk is a scalar (neither dict nor list) found by following its key path through dicts, and the path extends the starting path |
| Flatten.LeavesComplete | app/etl/transformers.py:208-220 | every scalar (neither dict nor list) found by following a non-empty key path through dicts from a dict is an item, under that path; values inside lists are never reached |
| Flatten.FlattenRaise | src/app/etl/transformers.py:177 | flattening raises nothing exactly when the responses are a dict or empty; otherwise it raises AttributeError |
| Flatten.FlattenSound | src/app/etl/transformers.py:158-177 | every answer comes from a scalar leaf: its path is the leaf's dotted path, the path is registered, and the type, serialised value and tag come from the map entry |
| Flatten.FlattenComplete | src/app/etl/transformers.py:158-177 | every registered scalar leaf of a response dict yields its answer |
| Flatten.FlattenDropsUnregistered | src/app/etl/transformers.py:162-164 | every answer's path is a key of the map, so unregistered leaves are dropped |
| Flatten.FlattenEmptyMap | src/app/etl/transformers.py:158-177 | with an empty map, flattening yields no answers |
| Flatten.ExtractVsFlatten | app/etl/transformers.py:215-217 | with a non-empty map the asserting copy equals the other copy; with an empty map it raises AssertionError on any non-empty response and yields nothing otherwise |
| Flatten.DistinctConcat | app/etl/transformers.py:43-46 | two path-distinct sequences with no path in common concatenate to a path-distinct sequence, as a node's items followed by its children's walks do |
| Flatten.ScalarFieldsDistinct | app/etl/transformers.py:219-220 | the items of a dict with distinct keys have distinct paths |
| Flatten.ObjFieldsDistinct | app/etl/transformers.py:210-212 | the children of a dict with distinct keys have distinct paths |
| Flatten.LeavesDistinct | app/etl/transformers.py:208-220 | in a document without repeated keys, every leaf path occurs once in the walk |
| Flatten.LeavesAllDistinct | app/etl/transformers.py:45-46 | the leaves of distinct children have distinct paths, and each extends its child's path |
| Flatten.FlattenDistinct | src/app/etl/transformers.py:158-177 | when no key of the responses contains a dot, no dotted path is yielded twice |
| Flatten.SimpleNestedLeaves | etl_nested/tests/unit/etl/test_transformers.py:22-27 | `{foo: bar, child: {hello: world}}` walks to `[foo]: bar` then `[child, hello]: world` |
| Flatten.BNodeLeaves | etl_nested/tests/unit/etl/test_transformers.py:32-37 | the `b` subtree walks to `[b, foo]: bar` then `[b, deep, hello]: world` |
| Flatten.MultiNestedLeaves | etl_nested/tests/unit/etl/test_transformers.py:28-38 | the two-subtree sample walks to `[a, foo]`, `[b, foo]`, `[b, deep, hello]` in pre-order, the test's sorted paths and values |
| Cache.FreshConsistent | app/etl/transformers.py:120-122 | a new cache is empty and consistent with the loader |
| Cache.StepTransparent | app/etl/transformers.py:119-122 | every call returns what the loader returns for that id; the cache stays bounded by 16 and consistent; each call counts one hit or one miss, and a hit exactly when the id is cached |
| Cache.StepWithoutEviction | app/etl/transformers.py:120 | for a consistent cache whose misses equal its number of cached ids, a call whose load succeeds and whose id still fits within 16 entries adds its id to the cached ids, keeps misses equal to their number, and counts one call |
| Cache.RunWithoutEviction | app/etl/transformers.py:120 | from a consistent cache whose misses equal its number of cached ids, over a run whose loads all succeed and whose ids fit within 16 entries, misses equal the number of distinct ids seen, and hits plus misses grow by the number of calls |
| Cache.RunHits | etl_nested/tests/unit/etl/test_transformers.py:285-289 | from a fresh cache, over at most 16 distinct ids all of whose loads succeed, misses equal the number of distinct ids and hits equal the number of calls minus that |
| Cache.NodePathMapCache.constructor | app/etl/transformers.py:119-122 | a new cache object is empty, consistent, and wraps the given loader |
| Cache.NodePathMapCache.Get | app/etl/transformers.py:105-122 | a call returns exactly what `_load_node_path_map` would, and the cache fields move to the next state of the LRU policy |
| Transform.CommonFields | app/etl/transformers.py:170-185 | the common fields are built exactly when the submission has a form and a user, and hold the timestamp, form id and name, submission id and date, and user id and name; otherwise AttributeError |
| Transform.OutputDictionary | src/app/etl/transformers.py:117-121 | the dictionary shape names the answer type by a name that looks up back to it, and passes every other field through unchanged |
| Transform.TransformRaised | app/etl/transformers.py:154-205 | what a submission raises is the same for any two timestamps and either output shape; it is AttributeError for a missing form or user, otherwise the map load's exception, otherwise the flattening walk's |
| Transform.TransformOne | app/etl/transformers.py:154-205 | one submission's output is its records in flattening order; the cache is consulted, and advanced one LRU step, only once the common fields were built |
| Transform.TransformSubmissions | app/etl/transformers.py:125-140 | the output is every submission's records in order, stopping at the first exception; the timestamp defaults to `now`; the count is reported once, after the last submission, and equals the number of submissions; the cache hits are those of the cache state after the call |
| Transform.AnswersAreFlattened | app/etl/transformers.py:198 | every answer of either copy is an answer of `_flatten_responses` |
| Transform.RecordSound | app/etl/transformers.py:198-205 | every record stands for a registered scalar leaf: its path is the leaf's dotted path, its type and tag come from the map entry, its value is the leaf serialised for that type, and its common fields are the submission's |
| Transform.RecordComplete | app/etl/transformers.py:198-205 | every registered scalar leaf of a submission with a form and user gives its record |
| Transform.DictShape | app/etl/transformers.py:193-196 | the dictionary output is the event output with each record passed through `_make_output_dictionary`, item for item, raising the same |
| Transform.RecordsShareTimestamp | src/app/etl/transformers.py:22-26 | every record of one call carries the call's timestamp and the common fields of one of the submissions |
| Transform.FormIds | app/etl/transformers.py:188 | the form ids the cache is asked for, one per submission, in order |
| Transform.CacheSeesFormIds | app/etl/transformers.py:135-138 | when no submission raises, the call's cache sees exactly the submissions' form ids, in order |
| Transform.CallHits | etl_nested/tests/unit/etl/test_transformers.py:285-289 | when no submission raises and at most 16 forms occur, hits equal the number of submissions minus the number of distinct forms |
| Transform.RepeatedFormHits | etl_nested/tests/unit/etl/test_transformers.py:285-289 | `n` submissions of one form followed by one submission each of two other forms give `max(0, n - 1)` hits |
| Factories.MakeFakeValue | src/app/factories.py:60-62 | the faker table answers exactly for an answer type, with that type's fake value; a NodeInfo key raises KeyError, or TypeError when its tag makes it unhashable |
| Factories.MakeResponse | src/app/factories.py:172-199 | the cursor-and-trail loop computes exactly the nested-dict construction: the map is fetched, each entry is stored along its split path, and errors come in Python's order |
| Factories.InsertAllTopKeys | src/app/factories.py:185-194 | after the loop the top-level keys are the starting keys plus the first component of every entry's path |
| Factories.ResponseTopKeys | src/app/factories.py:185-194 | a successful response's top-level keys are exactly the first components of the map's paths; an empty map gives `{}` |
| Factories.InsertIntoEmpty | src/app/factories.py:191-197 | descending into fresh dicts never fails, so the leaf value's exception is the first one raised |
| Factories.AsWrittenRaises | src/app/factories.py:197 | as written, every non-empty map fails at its first entry: KeyError, or TypeError for an unhashable tag |
| Factories.SplitTwo | src/app/factories.py:187 | `a.b` with dot-free `a` and `b` splits into `[a, b]` |
| Factories.TwoComponentEntry | src/app/factories.py:187-197 | a one-entry map with path `a.b` builds `{a: {b: leaf}}` |
| Factories.AsWrittenCounterexample | src/app/factories.py:197 | the map `{"root.age": NodeInfo(number, None)}` raises KeyError as written and gives `{"root": {"age": fake(number)}}` when keyed by answer type |
| Factories.InsertLeaves | src/app/factories.py:191-197 | storing a scalar at a dot-free path with no scalar above it succeeds; the scalar sits at the path, and the other leaves are the old ones except those at or under the path |
| Factories.InsertLeavesLast | src/app/factories.py:197 | the leaf assignment into the cursor dict |
| Factories.InsertLeavesStep | src/app/factories.py:192-194 | one descent step: an existing dict is reused, a missing one is created |
| Factories.InsertAllLeaves | src/app/factories.py:186-197 | over prefix-free entries, the loop succeeds and the leaves are the entries' leaves plus those of the starting tree no entry reached |
| Factories.ResponseLeaves | src/app/factories.py:183-199 | for a prefix-free map with scalar leaf values, the response is a tree of dicts whose leaves are exactly the entries, each at its split path |
| Factories.ResponseNavigable | etl_nested/tests/unit/test_factories.py:27-38 | for a prefix-free map whose leaf values are all scalars (so with a leaf function that succeeds, as the corrected faker lookup does and the as-written one does not), the response is built and every map path can be followed through it: dicts all the way down, and the entry's leaf value at the end |
| Factories.FlattenFindsEntries | src/app/etl/transformers.py:158-177 | flattening a response whose leaves are the map's entries yields every entry's answer |
| Factories.FlattenOnlyEntries | src/app/etl/transformers.py:158-177 | and every answer it yields is a map key with the answer for that key's entry |
| Factories.RoundTrip | src/app/factories.py:186-197 | flattening the corrected response to a prefix-free map with that map raises nothing and yields every map path exactly once, each with its entry's type, serialised fake value and tag |
| Factories.SharedPrefix | src/app/factories.py:191-194 | paths `a.b` and `a.c` share one dict under `a` |
| Factories.LaterPrefixOverwrites | src/app/factories.py:197 | `a.b` then `a` replaces the whole subtree under `a` with the later leaf |
| Factories.EarlierPrefixBlocksLeaf | src/app/factories.py:197 | `a` then `a.b` raises TypeError when assigning into the scalar, after making the leaf value |
| Factories.EarlierPrefixBlocksDescent | src/app/factories.py:193 | `a` then `a.b.c` raises AttributeError from `.get` on the scalar, before the leaf value is made |

## Left out

- The database query for a form's schema is the function parameter `schemas`. It returns `None` for an unknown form.
- `utc_now()` is the parameter `now`.
- `LOGGER.info` is not modelled as output. The count it logs is returned as `logged`.
- Generator laziness is not modelled. A generator is the sequence it yields before finishing or raising, plus the exception it raised. A caller that stops consuming early is not modelled.
- `models.ResponseEvent` is the plain datatype `Transform.Record`, with no ORM session behaviour.
- JSON numbers are integers. Floats and their `str()` text are not modelled. Dates are strings, and `str()` of a list or dict is never needed.
- The fakers' random values are the function parameter `fake`, one value per answer type. The `value_strings` faker table is not modelled.
- `make_response` mutates nested dicts in place through the cursor `d`. The model rebuilds them as values: the trail of parent dicts stands for the aliasing, and `Zip` puts the tree back together.
- `Factories.MakeResponse` calls `_load_node_path_map` directly rather than a cached `get_node_path_map`. `Cache.NodePathMapCache.Get` returns the same map.
- `lru_cache` is modelled only for its hit, miss and eviction behaviour. Thread safety, `cache_clear` and typed keys are not modelled.
- A `NodeInfo` is a non-empty tuple and always truthy, so the `if node_info:` test is the same as "the path is registered".
- Transform.CallHits: stated only for calls where no submission raises and at most 16 distinct forms occur. Beyond that, eviction makes the hit count depend on the order of the forms.
- Factories.RoundTrip: stated for maps where no path is a prefix of another. The other cases are covered by the prefix lemmas above.
- Loaders, extractors, the processor, the CLI entry points, the SQL query builders, the statistics scripts, logging setup and the ORM models are not part of this model.

## Findings

| source | as written | input that shows it | evidently intended | confidence | as-written member | corrected member |
|---|---|---|---|---|---|---|
| src/app/factories.py:197 | the node path map's value, a `NodeInfo(answer_type, tag)`, is passed to `make_fake_value`, whose table is keyed by `AnswerType`; a `NodeInfo` is never a key, so the lookup raises KeyError (TypeError if the tag is a list or dict) on the first entry of every non-empty map | `{"root.age": NodeInfo(number, None)}` | look the faker up by the entry's answer type, `make_fake_value(node_info.answer_type)` | not executed | Factories.AsWrittenCounterexample | Factories.RoundTrip |
