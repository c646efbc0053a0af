/** The strategy index of the registry against a scan of all collections. */
module StrategyIndex {
  import opened Text
  import opened AuthModel

  datatype StrategyEntry = StrategyEntry(slug: string, name: string, authenticate: string)

  /** Where a strategy is looked up: by surface, or by lower-cased header and surface. */
  datatype Key = AlwaysKey(surface: Surface) | HeaderKey(header: string, surface: Surface)

  function KeyOf(a: Activation, surface: Surface): Key {
    match a
    case Always => AlwaysKey(surface)
    case Header(h) => HeaderKey(Lower(h), surface)
  }

  // ----- the scan -----

  /** One hit for every listed surface that gives the key. */
  function Hits(e: StrategyEntry, a: Activation, surfaces: seq<Surface>, key: Key): seq<StrategyEntry> {
    if surfaces == [] then []
    else (if KeyOf(a, surfaces[0]) == key then [e] else []) + Hits(e, a, surfaces[1..], key)
  }

  function MethodHits(slug: string, m: AuthMethod, key: Key): seq<StrategyEntry> {
    if m.Strategy? then Hits(StrategyEntry(slug, m.name, m.authenticate), m.activatesOn, m.surfaces, key) else []
  }

  /** The strategies of one collection that fire for a key, in the order of its methods. */
  function Scan(slug: string, methods: seq<AuthMethod>, key: Key): seq<StrategyEntry> {
    if methods == [] then [] else MethodHits(slug, methods[0], key) + Scan(slug, methods[1..], key)
  }

  function Found(collections: map<string, Collection>, slug: string, key: Key): seq<StrategyEntry> {
    if slug in collections then Scan(slug, ActiveMethods(collections[slug]), key) else []
  }

  /** The entries of one collection. */
  function Only(es: seq<StrategyEntry>, slug: string): seq<StrategyEntry> {
    if es == [] then [] else (if es[0].slug == slug then [es[0]] else []) + Only(es[1..], slug)
  }

  lemma {:induction false} OnlyTurn(es: seq<StrategyEntry>, slug: string)
    requires es != []
    ensures Only(es, slug) == (if es[0].slug == slug then [es[0]] else []) + Only(es[1..], slug)
  {}

  lemma {:induction false} OnlyAppend(a: seq<StrategyEntry>, b: seq<StrategyEntry>, slug: string)
    ensures Only(a + b, slug) == Only(a, slug) + Only(b, slug)
  {
    if a == [] {
      assert a + b == b;
    } else {
      hide Only;
      assert (a + b)[1..] == a[1..] + b && (a + b)[0] == a[0];
      OnlyTurn(a, slug);
      OnlyTurn(a + b, slug);
      OnlyAppend(a[1..], b, slug);
    }
  }

  lemma {:induction false} HitsOnly(e: StrategyEntry, a: Activation, surfaces: seq<Surface>, key: Key, slug: string)
    ensures var h := Hits(e, a, surfaces, key); Only(h, slug) == if e.slug == slug then h else []
  {
    if surfaces != [] {
      HitsOnly(e, a, surfaces[1..], key, slug);
      var one := if KeyOf(a, surfaces[0]) == key then [e] else [];
      OnlyAppend(one, Hits(e, a, surfaces[1..], key), slug);
      assert [e][1..] == [];
    }
  }

  lemma {:induction false} ScanOnly(owner: string, methods: seq<AuthMethod>, key: Key, slug: string)
    ensures var h := Scan(owner, methods, key); Only(h, slug) == if owner == slug then h else []
  {
    if methods != [] {
      var m := methods[0];
      ScanOnly(owner, methods[1..], key, slug);
      OnlyAppend(MethodHits(owner, m, key), Scan(owner, methods[1..], key), slug);
      if m.Strategy? { HitsOnly(StrategyEntry(owner, m.name, m.authenticate), m.activatesOn, m.surfaces, key, slug); }
    }
  }

  // ----- the index -----

  datatype Index = Index(always: map<Surface, seq<StrategyEntry>>, header: map<(string, Surface), seq<StrategyEntry>>)

  function Bucket(ix: Index, key: Key): seq<StrategyEntry> {
    match key
    case AlwaysKey(s) => if s in ix.always then ix.always[s] else []
    case HeaderKey(h, s) => if (h, s) in ix.header then ix.header[(h, s)] else []
  }

  /** No bucket is created without an entry. */
  predicate NoEmptyBucket(ix: Index) {
    (forall s <- ix.always :: ix.always[s] != []) && (forall k <- ix.header :: ix.header[k] != [])
  }

  /** Every bucket holds, collection by collection and in method order, exactly what the scan finds. */
  ghost predicate Indexes(ix: Index, collections: map<string, Collection>) {
    && NoEmptyBucket(ix)
    && forall key, slug :: Only(Bucket(ix, key), slug) == Found(collections, slug, key)
  }

  /** The same, for the collections in `slugs` only. */
  ghost predicate IndexesSome(ix: Index, collections: map<string, Collection>, slugs: set<string>) {
    && NoEmptyBucket(ix)
    && forall key, slug :: Only(Bucket(ix, key), slug) == if slug in slugs then Found(collections, slug, key) else []
  }

  /** Every bucket has grown by the hits of one collection. */
  ghost predicate Grew(before: Index, after: Index, slug: string, methods: seq<AuthMethod>) {
    forall key :: Bucket(after, key) == Bucket(before, key) + Scan(slug, methods, key)
  }

  lemma {:induction false} OneMore(before: Index, after: Index, collections: map<string, Collection>, slugs: set<string>, slug: string)
    requires IndexesSome(before, collections, slugs) && NoEmptyBucket(after) && slug in collections && slug !in slugs
    requires Grew(before, after, slug, ActiveMethods(collections[slug]))
    ensures IndexesSome(after, collections, slugs + {slug})
  {
    hide NoEmptyBucket, Bucket;
    forall key, s ensures Only(Bucket(after, key), s) == if s in slugs + {slug} then Found(collections, s, key) else [] {
      OneMoreAt(before, after, collections, slugs, slug, key, s);
    }
  }

  lemma {:induction false} OneMoreAt(before: Index, after: Index, collections: map<string, Collection>, slugs: set<string>,
                                     slug: string, key: Key, s: string)
    requires IndexesSome(before, collections, slugs) && slug in collections && slug !in slugs
    requires Grew(before, after, slug, ActiveMethods(collections[slug]))
    ensures Only(Bucket(after, key), s) == if s in slugs + {slug} then Found(collections, s, key) else []
  {
    hide NoEmptyBucket, Bucket, ActiveMethods;
    var hits := Scan(slug, ActiveMethods(collections[slug]), key);
    assert Bucket(after, key) == Bucket(before, key) + hits;
    OnlyAppend(Bucket(before, key), hits, s);
    ScanOnly(slug, ActiveMethods(collections[slug]), key, s);
    assert Only(Bucket(before, key), s) == if s in slugs then Found(collections, s, key) else [];
  }

  lemma {:induction false} GrewMore(a: Index, b: Index, c: Index, slug: string, methods: seq<AuthMethod>, m: AuthMethod)
    requires Grew(a, b, slug, methods) && forall key :: Bucket(c, key) == Bucket(b, key) + MethodHits(slug, m, key)
    ensures Grew(a, c, slug, methods + [m])
  {
    hide Bucket, MethodHits;
    forall key ensures Bucket(c, key) == Bucket(a, key) + Scan(slug, methods + [m], key) {
      ScanAppend(slug, methods, m, key);
      assert Bucket(b, key) == Bucket(a, key) + Scan(slug, methods, key);
    }
  }

  lemma {:induction false} ScanAppend(slug: string, methods: seq<AuthMethod>, m: AuthMethod, key: Key)
    ensures Scan(slug, methods + [m], key) == Scan(slug, methods, key) + MethodHits(slug, m, key)
  {
    hide MethodHits;
    if methods == [] {
      assert methods + [m] == [m] && [m][1..] == [];
    } else {
      assert (methods + [m])[1..] == methods[1..] + [m];
      ScanAppend(slug, methods[1..], m, key);
    }
  }

  lemma {:induction false} HitsAppend(e: StrategyEntry, a: Activation, surfaces: seq<Surface>, s: Surface, key: Key)
    ensures Hits(e, a, surfaces + [s], key) == Hits(e, a, surfaces, key) + (if KeyOf(a, s) == key then [e] else [])
  {
    hide KeyOf;
    if surfaces == [] {
      assert surfaces + [s] == [s] && [s][1..] == [];
    } else {
      assert (surfaces + [s])[1..] == surfaces[1..] + [s];
      HitsAppend(e, a, surfaces[1..], s, key);
    }
  }

  // ----- the registry -----

  class Registry {
    var collections: map<string, Collection>
    var always: map<Surface, seq<StrategyEntry>>
    var header: map<(string, Surface), seq<StrategyEntry>>

    constructor ()
      ensures collections == map[] && Now() == Index(map[], map[])
    {
      collections := map[];
      always := map[];
      header := map[];
    }

    function Now(): Index reads this { Index(always, header) }

    /** Overwrites a definition with the same slug; the index is not touched. */
    method RegisterCollection(def: Collection)
      modifies this`collections
      ensures collections == old(collections)[def.slug := def]
    {
      collections := collections[def.slug := def];
    }

    method Push(e: StrategyEntry, a: Activation, surface: Surface)
      modifies this`always, this`header
      ensures forall key :: Bucket(Now(), key) == Bucket(old(Now()), key) + if key == KeyOf(a, surface) then [e] else []
      ensures old(NoEmptyBucket(Now())) ==> NoEmptyBucket(Now())
    {
      match a
      case Always =>
        always := always[surface := (if surface in always then always[surface] else []) + [e]];
      case Header(h) =>
        var k := (Lower(h), surface);
        header := header[k := (if k in header then header[k] else []) + [e]];
    }

    method IndexStrategy(slug: string, m: AuthMethod)
      requires m.Strategy?
      modifies this`always, this`header
      ensures forall key :: Bucket(Now(), key) == Bucket(old(Now()), key) + MethodHits(slug, m, key)
      ensures old(NoEmptyBucket(Now())) ==> NoEmptyBucket(Now())
    {
      hide Bucket, NoEmptyBucket, KeyOf;
      var entry := StrategyEntry(slug, m.name, m.authenticate);
      var i := 0;
      while i < |m.surfaces|
        invariant 0 <= i <= |m.surfaces|
        invariant forall key :: Bucket(Now(), key) == Bucket(old(Now()), key) + Hits(entry, m.activatesOn, m.surfaces[..i], key)
        invariant old(NoEmptyBucket(Now())) ==> NoEmptyBucket(Now())
      {
        forall key ensures Hits(entry, m.activatesOn, m.surfaces[..i + 1], key)
                        == Hits(entry, m.activatesOn, m.surfaces[..i], key) + (if KeyOf(m.activatesOn, m.surfaces[i]) == key then [entry] else []) {
          assert m.surfaces[..i + 1] == m.surfaces[..i] + [m.surfaces[i]];
          HitsAppend(entry, m.activatesOn, m.surfaces[..i], m.surfaces[i], key);
        }
        Push(entry, m.activatesOn, m.surfaces[i]);
        i := i + 1;
      }
      assert m.surfaces[..i] == m.surfaces;
    }

    method IndexCollection(slug: string, methods: seq<AuthMethod>)
      modifies this`always, this`header
      ensures Grew(old(Now()), Now(), slug, methods)
      ensures old(NoEmptyBucket(Now())) ==> NoEmptyBucket(Now())
    {
      hide Bucket, NoEmptyBucket, Grew, Scan, MethodHits;
      NothingGrew(Now(), slug);
      var i := 0;
      while i < |methods|
        invariant 0 <= i <= |methods|
        invariant Grew(old(Now()), Now(), slug, methods[..i])
        invariant old(NoEmptyBucket(Now())) ==> NoEmptyBucket(Now())
      {
        ghost var before := Now();
        if methods[i].Strategy? {
          IndexStrategy(slug, methods[i]);
        } else {
          NoHits(slug, methods[i], Now());
        }
        assert methods[..i + 1] == methods[..i] + [methods[i]];
        GrewMore(old(Now()), before, Now(), slug, methods[..i], methods[i]);
        i := i + 1;
      }
      assert methods[..i] == methods;
    }

    /** Clears and refills the index; the collections are visited in any order. */
    method RebuildStrategyIndex()
      modifies this`always, this`header
      ensures Indexes(Now(), collections)
    {
      hide NoEmptyBucket, Found, Only, Bucket, Grew, ActiveMethods, IndexesSome, Indexes;
      always := map[];
      header := map[];
      EmptyIndex(collections);
      var rest := collections.Keys;
      ghost var seen := {};
      while rest != {}
        invariant rest !! seen && rest + seen == collections.Keys
        invariant IndexesSome(Now(), collections, seen) && NoEmptyBucket(Now())
        decreases |rest|
      {
        var slug :| slug in rest;
        ghost var before := Now();
        IndexCollection(slug, ActiveMethods(collections[slug]));
        OneMore(before, Now(), collections, seen, slug);
        seen := seen + {slug};
        rest := rest - {slug};
      }
      AllSeen(Now(), collections);
    }

    /** A copy with its index rebuilt; the registry itself is not touched. */
    method Snapshot() returns (snap: Registry)
      ensures fresh(snap) && snap.collections == collections
      ensures Indexes(snap.Now(), collections)
    {
      snap := new Registry();
      snap.collections := collections;
      snap.always := always;
      snap.header := header;
      snap.RebuildStrategyIndex();
    }

    method HasAnyStrategy() returns (r: bool)
      ensures r == AnyStrategy(collections)
    {
      var rest := collections.Keys;
      while rest != {}
        invariant rest <= collections.Keys
        invariant forall slug <- collections.Keys - rest :: !HasStrategy(ActiveMethods(collections[slug]))
        decreases |rest|
      {
        var slug :| slug in rest;
        if HasStrategy(ActiveMethods(collections[slug])) {
          return true;
        }
        rest := rest - {slug};
      }
      return false;
    }
  }

  lemma {:induction false} NothingGrew(ix: Index, slug: string)
    ensures Grew(ix, ix, slug, [])
  {}

  lemma {:induction false} NoHits(slug: string, m: AuthMethod, ix: Index)
    requires !m.Strategy?
    ensures forall key :: Bucket(ix, key) == Bucket(ix, key) + MethodHits(slug, m, key)
  {}

  lemma {:induction false} EmptyIndex(collections: map<string, Collection>)
    ensures IndexesSome(Index(map[], map[]), collections, {}) && NoEmptyBucket(Index(map[], map[]))
  {}

  lemma {:induction false} AllSeen(ix: Index, collections: map<string, Collection>)
    requires IndexesSome(ix, collections, collections.Keys)
    ensures Indexes(ix, collections)
  {
    hide NoEmptyBucket, Only, Bucket;
    forall key, slug ensures Only(Bucket(ix, key), slug) == Found(collections, slug, key) {
      assert Only(Bucket(ix, key), slug) == if slug in collections.Keys then Found(collections, slug, key) else [];
    }
  }

  // ----- what the index promises -----

  lemma {:induction false} OnlyCounts(es: seq<StrategyEntry>, e: StrategyEntry)
    ensures multiset(es)[e] == multiset(Only(es, e.slug))[e]
  {
    if es != [] {
      OnlyCounts(es[1..], e);
      assert es == [es[0]] + es[1..];
      var one := if es[0].slug == e.slug then [es[0]] else [];
      assert multiset(one + Only(es[1..], e.slug)) == multiset(one) + multiset(Only(es[1..], e.slug));
    }
  }

  /** A bucket holds each entry as often as the scan of its collection finds it. */
  lemma {:induction false} BucketIsScan(ix: Index, collections: map<string, Collection>, key: Key, e: StrategyEntry)
    requires Indexes(ix, collections)
    ensures multiset(Bucket(ix, key))[e] == multiset(Found(collections, e.slug, key))[e]
  {
    hide Found, Bucket, NoEmptyBucket;
    OnlyCounts(Bucket(ix, key), e);
  }

  /** Two indexes of the same collections, in whatever order these were visited, have the same
      buckets with the same entries, in the same order within a collection: rebuilding is idempotent. */
  lemma {:induction false} IndexIsUnique(a: Index, b: Index, collections: map<string, Collection>, key: Key)
    requires Indexes(a, collections) && Indexes(b, collections)
    ensures multiset(Bucket(a, key)) == multiset(Bucket(b, key))
    ensures forall slug :: Only(Bucket(a, key), slug) == Only(Bucket(b, key), slug)
    ensures a.always.Keys == b.always.Keys && a.header.Keys == b.header.Keys
  {
    SameEntries(a, b, collections, key);
    forall s: Surface ensures s in a.always <==> s in b.always { SameEntries(a, b, collections, AlwaysKey(s)); }
    forall k: (string, Surface) ensures k in a.header <==> k in b.header { SameEntries(a, b, collections, HeaderKey(k.0, k.1)); }
  }

  lemma {:induction false} SameEntries(a: Index, b: Index, collections: map<string, Collection>, key: Key)
    requires Indexes(a, collections) && Indexes(b, collections)
    ensures multiset(Bucket(a, key)) == multiset(Bucket(b, key))
    ensures forall slug :: Only(Bucket(a, key), slug) == Only(Bucket(b, key), slug)
    ensures Bucket(a, key) == [] <==> Bucket(b, key) == []
  {
    hide Found, Bucket, NoEmptyBucket, Only;
    forall slug ensures Only(Bucket(a, key), slug) == Only(Bucket(b, key), slug) {
      assert Only(Bucket(a, key), slug) == Found(collections, slug, key);
      assert Only(Bucket(b, key), slug) == Found(collections, slug, key);
    }
    forall e: StrategyEntry ensures multiset(Bucket(a, key))[e] == multiset(Bucket(b, key))[e] {
      OnlyCounts(Bucket(a, key), e);
      OnlyCounts(Bucket(b, key), e);
    }
    assert multiset(Bucket(a, key)) == multiset(Bucket(b, key));
    assert |multiset(Bucket(a, key))| == |Bucket(a, key)| && |multiset(Bucket(b, key))| == |Bucket(b, key)|;
  }

  // ----- which entry is where -----

  /** An enabled configuration lists the entry's strategy, and `e` names it. */
  predicate Offers(collections: map<string, Collection>, e: StrategyEntry, m: AuthMethod) {
    && e.slug in collections
    && collections[e.slug].auth.Some? && collections[e.slug].auth.value.enabled
    && m in collections[e.slug].auth.value.methods
    && m.Strategy? && m.name == e.name && m.authenticate == e.authenticate
  }

  lemma {:induction false} HitsIff(e: StrategyEntry, a: Activation, surfaces: seq<Surface>, key: Key, x: StrategyEntry)
    ensures x in Hits(e, a, surfaces, key) <==> x == e && exists s :: s in surfaces && KeyOf(a, s) == key
  {
    hide KeyOf;
    if surfaces != [] {
      HitsIff(e, a, surfaces[1..], key, x);
      forall s ensures s in surfaces <==> s == surfaces[0] || s in surfaces[1..] {}
    }
  }

  lemma {:induction false} ScanIff(slug: string, methods: seq<AuthMethod>, key: Key, x: StrategyEntry)
    ensures x in Scan(slug, methods, key) <==> exists m <- methods :: x in MethodHits(slug, m, key)
  {
    hide MethodHits;
    if methods != [] {
      ScanIff(slug, methods[1..], key, x);
      forall m ensures m in methods <==> m == methods[0] || m in methods[1..] {}
    }
  }

  lemma {:induction false} InOnly(es: seq<StrategyEntry>, e: StrategyEntry)
    ensures e in es <==> e in Only(es, e.slug)
  {
    OnlyCounts(es, e);
    hide Only;
    assert e in es <==> e in multiset(es);
    assert e in Only(es, e.slug) <==> e in multiset(Only(es, e.slug));
  }

  /** `m` is looked up under `key`. */
  predicate FiresAt(m: AuthMethod, key: Key)
    requires m.Strategy?
  {
    match key
    case AlwaysKey(s) => m.activatesOn.Always? && s in m.surfaces
    case HeaderKey(h, s) => m.activatesOn.Header? && Lower(m.activatesOn.header) == h && s in m.surfaces
  }

  lemma {:induction false} FiresIff(slug: string, m: AuthMethod, key: Key, e: StrategyEntry)
    requires m.Strategy?
    ensures e in MethodHits(slug, m, key) <==> e == StrategyEntry(slug, m.name, m.authenticate) && FiresAt(m, key)
  {
    HitsIff(StrategyEntry(slug, m.name, m.authenticate), m.activatesOn, m.surfaces, key, e);
    hide Hits, Lower;
    if FiresAt(m, key) { assert key.surface in m.surfaces && KeyOf(m.activatesOn, key.surface) == key; }
  }

  /** An entry is in a bucket exactly when some enabled configuration lists its strategy for the key. */
  lemma {:induction false} InBucketIff(ix: Index, collections: map<string, Collection>, key: Key, e: StrategyEntry)
    requires Indexes(ix, collections)
    ensures e in Bucket(ix, key) <==> exists m :: Offers(collections, e, m) && FiresAt(m, key)
  {
    InOnly(Bucket(ix, key), e);
    hide Bucket, NoEmptyBucket, Only, Scan, MethodHits, FiresAt;
    assert Only(Bucket(ix, key), e.slug) == Found(collections, e.slug, key);
    if e.slug in collections {
      var methods := ActiveMethods(collections[e.slug]);
      ScanIff(e.slug, methods, key, e);
      forall m | m in methods && m.Strategy?
        ensures e in MethodHits(e.slug, m, key) <==> e == StrategyEntry(e.slug, m.name, m.authenticate) && FiresAt(m, key)
      {
        FiresIff(e.slug, m, key, e);
      }
      forall m | m in methods && !m.Strategy? ensures MethodHits(e.slug, m, key) == [] { NoMethodHits(e.slug, m, key); }
    }
  }

  lemma {:induction false} NoMethodHits(slug: string, m: AuthMethod, key: Key)
    requires !m.Strategy?
    ensures MethodHits(slug, m, key) == []
  {}

  /** The always-active strategies of a surface. */
  lemma {:induction false} AlwaysIff(ix: Index, collections: map<string, Collection>, s: Surface, e: StrategyEntry)
    requires Indexes(ix, collections)
    ensures s in ix.always && e in ix.always[s]
       <==> exists m :: Offers(collections, e, m) && m.activatesOn.Always? && s in m.surfaces
  {
    InBucketIff(ix, collections, AlwaysKey(s), e);
    hide Indexes, Offers;
  }

  /** The strategies of a header and a surface: the header is looked up in lower case. */
  lemma {:induction false} HeaderIff(ix: Index, collections: map<string, Collection>, h: string, s: Surface, e: StrategyEntry)
    requires Indexes(ix, collections)
    ensures (h, s) in ix.header && e in ix.header[(h, s)]
       <==> exists m :: Offers(collections, e, m) && m.activatesOn.Header? && Lower(m.activatesOn.header) == h && s in m.surfaces
  {
    InBucketIff(ix, collections, HeaderKey(h, s), e);
    hide Indexes, Offers, Lower;
  }

  /** Every header of the index is in lower case. */
  lemma {:induction false} HeadersLower(ix: Index, collections: map<string, Collection>)
    requires Indexes(ix, collections)
    ensures forall k <- ix.header.Keys :: Lower(k.0) == k.0
  {
    forall k | k in ix.header.Keys ensures Lower(k.0) == k.0 {
      var e := ix.header[k][0];
      assert k == (k.0, k.1);
      HeaderIff(ix, collections, k.0, k.1, e);
      var m :| Offers(collections, e, m) && m.activatesOn.Header? && Lower(m.activatesOn.header) == k.0 && k.1 in m.surfaces;
      LowerTwice(m.activatesOn.header);
    }
  }

  // ----- whether anything can fire -----

  predicate HasStrategy(methods: seq<AuthMethod>) { exists m <- methods :: m.Strategy? }

  predicate AnyStrategy(collections: map<string, Collection>) {
    exists slug <- collections.Keys :: HasStrategy(ActiveMethods(collections[slug]))
  }

  lemma {:induction false} ScanHit(slug: string, methods: seq<AuthMethod>, m: AuthMethod)
    requires m in methods && m.Strategy? && m.surfaces != []
    ensures Scan(slug, methods, KeyOf(m.activatesOn, m.surfaces[0])) != []
  {
    hide KeyOf;
    if m != methods[0] { ScanHit(slug, methods[1..], m); }
  }

  lemma {:induction false} OnlyOfFirst(es: seq<StrategyEntry>)
    requires es != []
    ensures Only(es, es[0].slug) != []
  {}

  /** Some strategy lists a surface, so that it can be looked up. */
  predicate CanFire(methods: seq<AuthMethod>) { exists m <- methods :: m.Strategy? && m.surfaces != [] }

  predicate AnyCanFire(collections: map<string, Collection>) {
    exists slug <- collections.Keys :: CanFire(ActiveMethods(collections[slug]))
  }

  lemma {:induction false} ScanFires(slug: string, methods: seq<AuthMethod>, key: Key)
    requires Scan(slug, methods, key) != []
    ensures CanFire(methods)
  {
    var m := methods[0];
    if MethodHits(slug, m, key) != [] {
      assert m in methods;
    } else {
      ScanFires(slug, methods[1..], key);
      var n :| n in methods[1..] && n.Strategy? && n.surfaces != [];
      assert n in methods;
    }
  }

  lemma {:induction false} NothingOnly(slug: string)
    ensures Only([], slug) == []
  {}

  lemma {:induction false} BucketFires(ix: Index, collections: map<string, Collection>, key: Key)
    requires Indexes(ix, collections) && Bucket(ix, key) != []
    ensures AnyCanFire(collections)
  {
    hide Bucket, NoEmptyBucket, Only, Scan, ActiveMethods, CanFire;
    var slug := Bucket(ix, key)[0].slug;
    OnlyOfFirst(Bucket(ix, key));
    assert Only(Bucket(ix, key), slug) == Found(collections, slug, key);
    if slug in collections { ScanFires(slug, ActiveMethods(collections[slug]), key); }
  }

  /** Some bucket is not empty exactly when some active strategy lists a surface. */
  lemma {:induction false} NonEmptyIff(ix: Index, collections: map<string, Collection>)
    requires Indexes(ix, collections)
    ensures (exists key :: Bucket(ix, key) != []) <==> AnyCanFire(collections)
  {
    hide Bucket, NoEmptyBucket, Only, Scan, ActiveMethods;
    if key :| Bucket(ix, key) != [] { BucketFires(ix, collections, key); }
    if AnyCanFire(collections) {
      var slug :| slug in collections.Keys && CanFire(ActiveMethods(collections[slug]));
      var m :| m in ActiveMethods(collections[slug]) && m.Strategy? && m.surfaces != [];
      var key := KeyOf(m.activatesOn, m.surfaces[0]);
      ScanHit(slug, ActiveMethods(collections[slug]), m);
      assert Only(Bucket(ix, key), slug) == Found(collections, slug, key);
      NothingOnly(slug);
      assert Bucket(ix, key) != [];
    }
  }

  /** `has_any_strategy` and the index agree exactly when no strategy is active or some active one
      lists a surface. */
  lemma {:induction false} GateAgreesIff(ix: Index, collections: map<string, Collection>)
    requires Indexes(ix, collections)
    ensures (AnyStrategy(collections) <==> exists key :: Bucket(ix, key) != [])
       <==> (!AnyStrategy(collections) || AnyCanFire(collections))
  {
    NonEmptyIff(ix, collections);
    hide Bucket, Indexes, ActiveMethods;
    if AnyCanFire(collections) {
      var slug :| slug in collections.Keys && CanFire(ActiveMethods(collections[slug]));
      assert HasStrategy(ActiveMethods(collections[slug]));
    }
  }
}
