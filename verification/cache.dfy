/** `get_node_path_map_cache`: the node path map loader wrapped in
    `functools.lru_cache(maxsize=NODE_PATH_CACHE_SIZE)`, one cache per
    transform call. */
module Cache {
  import opened Py
  import opened Json
  import opened SchemaMap

  /** `NODE_PATH_CACHE_SIZE`. */
  const NodePathCacheSize: nat := 16

  /** What the cache keeps between calls: the cached form ids from least to
      most recently used, the stored maps, and the two counters that
      `cache_info()` reports. */
  datatype LruState = LruState(recency: seq<Uuid>, entries: map<Uuid, NodeMap>, hits: nat, misses: nat)

  /** A cache that has not been called yet. */
  const Fresh: LruState := LruState([], map[], 0, 0)

  predicate DistinctIds(s: seq<Uuid>) {
    forall i, j :: 0 <= i < j < |s| ==> s[i] != s[j]
  }

  /** The set of ids a sequence mentions. */
  function Ids(s: seq<Uuid>): set<Uuid> {
    set k | k in s
  }

  /** The recency list without `k`, the others in their order. */
  function Remove(s: seq<Uuid>, k: Uuid): (r: seq<Uuid>)
    ensures forall x :: x in r <==> x in s && x != k
    ensures |r| <= |s| && (k in s ==> |r| < |s|)
  {
    if s == [] then []
    else if s[0] == k then Remove(s[1..], k)
    else [s[0]] + Remove(s[1..], k)
  }

  lemma {:induction false} RemoveDistinct(s: seq<Uuid>, k: Uuid)
    requires DistinctIds(s)
    ensures DistinctIds(Remove(s, k))
  {
    if s != [] {
      assert DistinctIds(s[1..]) by {
        forall i, j | 0 <= i < j < |s[1..]| ensures s[1..][i] != s[1..][j] {
          assert s[1..][i] == s[i + 1] && s[1..][j] == s[j + 1];
        }
      }
      RemoveDistinct(s[1..], k);
      if s[0] != k {
        assert s[0] !in s[1..];
        var rest := Remove(s[1..], k);
        forall i, j | 0 <= i < j < |[s[0]] + rest| ensures ([s[0]] + rest)[i] != ([s[0]] + rest)[j] {
          if i == 0 {
            assert ([s[0]] + rest)[j] in rest;
          } else {
            assert ([s[0]] + rest)[i] == rest[i - 1] && ([s[0]] + rest)[j] == rest[j - 1];
          }
        }
      }
    }
  }

  /** One call of the cached function with key `k`, given what calling the
      wrapped loader with `k` would return. A hit answers from the cache and
      makes `k` the most recent; a miss is counted before the loader runs;
      an exception from the loader is passed on and nothing is stored; a new
      entry in a full cache evicts the least recently used one. */
  function Step(s: LruState, k: Uuid, load: Result<NodeMap>): (LruState, Result<NodeMap>) {
    if k in s.entries then
      (s.(recency := Remove(s.recency, k) + [k], hits := s.hits + 1), Ok(s.entries[k]))
    else if load.Raise? then
      (s.(misses := s.misses + 1), load)
    else if |s.recency| >= NodePathCacheSize then
      var lru := s.recency[0];
      (LruState(s.recency[1..] + [k], (s.entries - {lru})[k := load.value], s.hits, s.misses + 1), load)
    else
      (LruState(s.recency + [k], s.entries[k := load.value], s.hits, s.misses + 1), load)
  }

  /** The cache is bounded, its recency list and its entries name the same
      ids, and every stored map is what the loader returns for its id. */
  ghost predicate Consistent(s: LruState, load: Uuid -> Result<NodeMap>) {
    && |s.recency| <= NodePathCacheSize
    && DistinctIds(s.recency)
    && (forall k :: k in s.recency <==> k in s.entries)
    && (forall k :: k in s.entries ==> Ok(s.entries[k]) == load(k))
  }

  lemma FreshConsistent(load: Uuid -> Result<NodeMap>)
    ensures Consistent(Fresh, load)
  {
  }

  /** The cache is transparent: every call returns what the loader returns,
      and the cache stays consistent; each call counts exactly one hit or one
      miss, a hit exactly when the id is cached. */
  lemma StepTransparent(s: LruState, load: Uuid -> Result<NodeMap>, k: Uuid)
    requires Consistent(s, load)
    ensures var (s', r) := Step(s, k, load(k));
            && r == load(k)
            && Consistent(s', load)
            && s'.hits + s'.misses == s.hits + s.misses + 1
            && (s'.hits == s.hits + 1 <==> k in s.entries)
  {
    var (s', r) := Step(s, k, load(k));
    if k !in s.entries && load(k).Ok? {
      assert k !in s.recency;
      if |s.recency| >= NodePathCacheSize {
        var lru := s.recency[0];
        forall x | x in s.recency[1..] ensures x != lru && x in s.recency {
          var i :| 0 <= i < |s.recency[1..]| && s.recency[1..][i] == x;
          assert s.recency[i + 1] == x;
        }
        forall x | x in s'.recency ensures x in s'.entries {
          if x != k {
            assert x in s.recency[1..];
          }
        }
        forall x | x in s'.entries ensures x in s'.recency {
          if x != k {
            var i :| 0 <= i < |s.recency| && s.recency[i] == x;
            assert i != 0;
            assert s'.recency[i - 1] == x;
          }
        }
        assert DistinctIds(s'.recency) by {
          forall i, j | 0 <= i < j < |s'.recency| ensures s'.recency[i] != s'.recency[j] {
            if j < |s'.recency| - 1 {
              assert s'.recency[i] == s.recency[i + 1] && s'.recency[j] == s.recency[j + 1];
            } else {
              assert s'.recency[i] in s.recency[1..];
            }
          }
        }
      } else {
        assert DistinctIds(s'.recency) by {
          forall i, j | 0 <= i < j < |s'.recency| ensures s'.recency[i] != s'.recency[j] {
            if j == |s.recency| {
              assert s'.recency[i] in s.recency;
            }
          }
        }
      }
    } else if k in s.entries {
      var rest := Remove(s.recency, k);
      RemoveDistinct(s.recency, k);
      assert DistinctIds(s'.recency) by {
        forall i, j | 0 <= i < j < |s'.recency| ensures s'.recency[i] != s'.recency[j] {
          if j == |rest| {
            assert s'.recency[i] in rest;
          }
        }
      }
    }
  }

  /** Successive calls with the ids `ks`, from state `s`. */
  function Run(s: LruState, ks: seq<Uuid>, load: Uuid -> Result<NodeMap>): LruState
    decreases |ks|
  {
    if ks == [] then s else Run(Step(s, ks[0], load(ks[0])).0, ks[1..], load)
  }

  lemma {:induction false} DistinctCard(s: seq<Uuid>)
    requires DistinctIds(s)
    ensures |Ids(s)| == |s|
  {
    if s != [] {
      DistinctCard(s[1..]);
      assert Ids(s) == {s[0]} + Ids(s[1..]);
      assert s[0] !in Ids(s[1..]);
    }
  }

  /** One call while the cache still has room: a new id is stored and
      counted as a miss, a cached one is counted as a hit. */
  lemma StepWithoutEviction(s: LruState, k: Uuid, load: Uuid -> Result<NodeMap>)
    requires Consistent(s, load)
    requires s.misses == |s.entries.Keys|
    requires |s.entries.Keys + {k}| <= NodePathCacheSize
    requires load(k).Ok?
    ensures var s' := Step(s, k, load(k)).0;
            && Consistent(s', load)
            && s'.entries.Keys == s.entries.Keys + {k}
            && s'.misses == |s'.entries.Keys|
            && s'.hits + s'.misses == s.hits + s.misses + 1
  {
    StepTransparent(s, load, k);
    var s' := Step(s, k, load(k)).0;
    if k in s.entries {
      HitKeepsEntries(s, k, load(k));
    } else {
      MissWithoutEviction(s, k, load);
      assert s'.entries.Keys == s.entries.Keys + {k};
    }
  }

  /** A hit changes neither the stored maps nor the miss count. */
  lemma HitKeepsEntries(s: LruState, k: Uuid, load: Result<NodeMap>)
    requires k in s.entries
    ensures Step(s, k, load).0.entries == s.entries
    ensures Step(s, k, load).0.misses == s.misses
    ensures s.entries.Keys + {k} == s.entries.Keys
  {
  }

  /** A miss in a cache with room appends the id and stores its map. */
  lemma MissWithoutEviction(s: LruState, k: Uuid, load: Uuid -> Result<NodeMap>)
    requires Consistent(s, load)
    requires k !in s.entries
    requires |s.entries.Keys + {k}| <= NodePathCacheSize
    requires load(k).Ok?
    ensures Step(s, k, load(k)).0 == LruState(s.recency + [k], s.entries[k := load(k).value], s.hits, s.misses + 1)
    ensures |s.entries.Keys + {k}| == |s.entries.Keys| + 1
  {
    DistinctCard(s.recency);
    assert Ids(s.recency) == s.entries.Keys;
    assert |s.entries.Keys + {k}| == |s.entries.Keys| + 1;
  }

  /** While the ids seen fit in the cache nothing is evicted, so every id
      misses once, the first time, and hits on every later call. */
  lemma IdsCons(ks: seq<Uuid>)
    requires ks != []
    ensures Ids(ks) == {ks[0]} + Ids(ks[1..])
  {
    forall x | x in Ids(ks) ensures x in {ks[0]} + Ids(ks[1..]) {
      if x != ks[0] {
        var i :| 0 <= i < |ks| && ks[i] == x;
        assert ks[1..][i - 1] == x;
      }
    }
  }

  lemma {:induction false} RunWithoutEviction(s: LruState, ks: seq<Uuid>, load: Uuid -> Result<NodeMap>)
    requires Consistent(s, load)
    requires s.misses == |s.entries.Keys|
    requires |s.entries.Keys + Ids(ks)| <= NodePathCacheSize
    requires forall i :: 0 <= i < |ks| ==> load(ks[i]).Ok?
    ensures Run(s, ks, load).misses == |s.entries.Keys + Ids(ks)|
    ensures Run(s, ks, load).hits + Run(s, ks, load).misses == s.hits + s.misses + |ks|
    decreases |ks|
  {
    if ks != [] {
      var k := ks[0];
      var s' := Step(s, k, load(k)).0;
      FirstCallFits(s, ks, load);
      RunWithoutEviction(s', ks[1..], load);
      assert Run(s, ks, load) == Run(s', ks[1..], load);
    }
  }

  /** The first call of a run that fits leaves a state from which the rest
      of the run still fits. */
  lemma FirstCallFits(s: LruState, ks: seq<Uuid>, load: Uuid -> Result<NodeMap>)
    requires ks != []
    requires Consistent(s, load)
    requires s.misses == |s.entries.Keys|
    requires |s.entries.Keys + Ids(ks)| <= NodePathCacheSize
    requires forall i :: 0 <= i < |ks| ==> load(ks[i]).Ok?
    ensures var s' := Step(s, ks[0], load(ks[0])).0;
            && Consistent(s', load)
            && s'.misses == |s'.entries.Keys|
            && s'.entries.Keys + Ids(ks[1..]) == s.entries.Keys + Ids(ks)
            && s'.hits + s'.misses == s.hits + s.misses + 1
            && (forall i :: 0 <= i < |ks[1..]| ==> load(ks[1..][i]).Ok?)
  {
    var k := ks[0];
    var K := s.entries.Keys;
    IdsCons(ks);
    assert K + {k} <= K + Ids(ks);
    SubsetCard(K + {k}, K + Ids(ks));
    assert load(ks[0]).Ok?;
    StepWithoutEviction(s, k, load);
    forall i | 0 <= i < |ks[1..]| ensures load(ks[1..][i]).Ok? {
      assert ks[1..][i] == ks[i + 1];
    }
  }

  lemma SubsetCard(a: set<Uuid>, b: set<Uuid>)
    requires a <= b
    ensures |a| <= |b|
  {
    assert b == a + (b - a);
  }

  /** From a fresh cache, calls with at most 16 distinct ids that all load
      miss once per distinct id and hit on every other call. */
  lemma RunHits(ks: seq<Uuid>, load: Uuid -> Result<NodeMap>)
    requires |Ids(ks)| <= NodePathCacheSize
    requires forall i :: 0 <= i < |ks| ==> load(ks[i]).Ok?
    ensures Run(Fresh, ks, load).misses == |Ids(ks)|
    ensures Run(Fresh, ks, load).hits == |ks| - |Ids(ks)|
  {
    assert Fresh.entries.Keys == {};
    assert {} + Ids(ks) == Ids(ks);
    RunWithoutEviction(Fresh, ks, load);
  }

  /** The wrapped function: `functools.partial(_load_node_path_map, session)`. */
  function Loader(schemas: Uuid -> Option<Value>): Uuid -> Result<NodeMap> {
    (k: Uuid) => LoadNodePathMap(schemas, k)
  }

  /** The cached loader of one transform call. */
  class NodePathMapCache {
    const schemas: Uuid -> Option<Value>
    var recency: seq<Uuid>
    var entries: map<Uuid, NodeMap>
    var hits: nat
    var misses: nat

    function State(): LruState
      reads this
    {
      LruState(recency, entries, hits, misses)
    }

    ghost predicate Valid()
      reads this
    {
      Consistent(State(), Loader(schemas))
    }

    /** `functools.lru_cache(maxsize=NODE_PATH_CACHE_SIZE)(loader)`: empty. */
    constructor(schemas: Uuid -> Option<Value>)
      ensures Valid() && State() == Fresh && this.schemas == schemas
    {
      this.schemas := schemas;
      recency := [];
      entries := map[];
      hits := 0;
      misses := 0;
    }

    /** `get_node_path_map(form_id)`: the cache answers exactly what the
        loader would, and moves to the next state of the LRU policy. */
    method Get(formId: Uuid) returns (r: Result<NodeMap>)
      requires Valid()
      modifies this
      ensures Valid()
      ensures r == LoadNodePathMap(schemas, formId)
      ensures State() == Step(old(State()), formId, r).0
    {
      ghost var s := State();
      StepTransparent(s, Loader(schemas), formId);
      if formId in entries {
        hits := hits + 1;
        recency := Remove(recency, formId) + [formId];
        r := Ok(entries[formId]);
      } else {
        misses := misses + 1;
        r := LoadNodePathMap(schemas, formId);
        if r.Ok? {
          if |recency| >= NodePathCacheSize {
            var lru := recency[0];
            entries := entries - {lru};
            recency := recency[1..];
            assert recency == s.recency[1..] && entries == s.entries - {s.recency[0]};
          }
          recency := recency + [formId];
          entries := entries[formId := r.value];
        }
        assert State() == Step(s, formId, r).0;
      }
    }
  }
}
