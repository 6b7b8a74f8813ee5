/**
  `CachedRecordTransformer`: a `RecordTransformer` whose getter table comes
  from a cache shared by all instances and keyed by the record's class name.
  The cache is modelled as a value threaded from one construction to the next.
 */
module CachedRecordTransformer {
  import opened Wrappers
  import opened Records
  import opened Engine
  import RecordTransformer

  /** `getterCache`: class name to getter table. */
  type Cache = map<string, GetterTable>

  /** The cache after a lookup, and the table the lookup returned. */
  datatype Lookup = Lookup(cache: Cache, table: GetterTable)

  /** `initGetters(rec)`: build and insert the table for the record's class
      name if there is none yet, then return the cached entry. An existing
      entry is returned as is and never rebuilt; entries for other names are
      untouched. The table is built as the `RecordTransformer` constructor
      builds it. */
  function InitGetters(cache: Cache, rec: Record): (r: Result<Lookup, Error>)
    ensures r.Success? ==> rec.cls.name in r.value.cache && r.value.table == r.value.cache[rec.cls.name]
    ensures r.Success? ==> r.value.cache.Keys == cache.Keys + {rec.cls.name}
    ensures r.Success? ==> forall n :: n in cache && n != rec.cls.name ==> r.value.cache[n] == cache[n]
    ensures rec.cls.name in cache ==> r == Success(Lookup(cache, cache[rec.cls.name]))
    ensures rec.cls.name !in cache ==> (r.Success? <==> DistinctNames(rec.cls))
    ensures rec.cls.name !in cache && r.Success? ==>
      Success(r.value.table) == RecordTransformer.GetterTableOf(rec.cls)
  {
    var name := rec.cls.name;
    if name in cache then Success(Lookup(cache, cache[name]))
    else
      var table :- RecordTransformer.GetterTableOf(rec.cls);
      var cache' := cache[name := table];
      Success(Lookup(cache', cache'[name]))
  }

  /** The cache holds, under the class's name, nothing or exactly the table
      of that class. */
  predicate Coherent(cache: Cache, cls: RecordClass)
  {
    cls.name in cache ==> RecordTransformer.GetterTableOf(cls) == Success(cache[cls.name])
  }

  /** A transformer together with the cache after its construction. */
  datatype Built = Built(transformer: State, cache: Cache)

  /** `new CachedRecordTransformer(rec)`: construct as `RecordTransformer`
      does, then take the getter table from the cache. */
  function New(cache: Cache, rec: Record): (r: Result<Built, Error>)
    ensures r.Success? <==> DistinctNames(rec.cls)
    ensures r.Success? ==> r.value.transformer.rec == rec && r.value.transformer.updates == map[]
    ensures r.Success? ==> rec.cls.name in r.value.cache && r.value.transformer.getters == r.value.cache[rec.cls.name]
    ensures r.Success? ==> Coherent(cache, rec.cls) ==> Coherent(r.value.cache, rec.cls)
    ensures r.Success? ==> Coherent(cache, rec.cls) ==> Success(r.value.transformer) == RecordTransformer.New(rec)
    ensures r.Success? ==> InitGetters(cache, rec) == Success(Lookup(r.value.cache, r.value.transformer.getters))
    ensures r.Success? ==> rec.cls.name in cache ==> r.value.cache == cache
    ensures r.Success? ==> forall n :: n in cache && n != rec.cls.name ==> n in r.value.cache && r.value.cache[n] == cache[n]
  {
    var base :- RecordTransformer.New(rec);
    var lookup :- InitGetters(cache, rec);
    Success(Built(base.(getters := lookup.table), lookup.cache))
  }

  /** Looking a class up never breaks coherence for any class: an absent entry
      is filled with the right table and other entries are left alone. */
  lemma InitGettersKeepsCoherent(cache: Cache, rec: Record, other: RecordClass)
    requires Coherent(cache, other) && Coherent(cache, rec.cls)
    requires other.name == rec.cls.name ==> other == rec.cls
    requires InitGetters(cache, rec).Success?
    ensures Coherent(InitGetters(cache, rec).value.cache, other)
  {
  }

  /** A second transformer built for a record of the same class hits the
      cache: the cache is left as it was, and the transformer is exactly the one
      the uncached constructor builds, so for an equal record it transforms
      identically to the first under any constructor. */
  lemma CacheHitTransformsIdentically(rec1: Record, rec2: Record, ctor: Constructor)
    requires DistinctNames(rec1.cls) && rec2.cls == rec1.cls
    ensures New(map[], rec1).Success?
    ensures New(New(map[], rec1).value.cache, rec2).Success?
    ensures New(New(map[], rec1).value.cache, rec2).value.cache == New(map[], rec1).value.cache
    ensures Success(New(New(map[], rec1).value.cache, rec2).value.transformer) == RecordTransformer.New(rec2)
    ensures rec2 == rec1 ==>
      RecordTransformer.Transform(New(New(map[], rec1).value.cache, rec2).value.transformer, ctor)
      == RecordTransformer.Transform(New(map[], rec1).value.transformer, ctor)
  {
    var first := New(map[], rec1).value;
    assert Coherent(map[], rec1.cls);
    assert Coherent(first.cache, rec2.cls);
    var second := New(first.cache, rec2).value;
    assert InitGetters(first.cache, rec2) == Success(Lookup(first.cache, first.cache[rec2.cls.name]));
  }
}
