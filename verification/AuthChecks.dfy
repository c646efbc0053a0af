/** Boot-time validation of authentication methods. */
module AuthChecks {
  import opened Text
  import opened AuthModel
  import opened StrategyIndex

  datatype AuthError =
    | NoMethods(slug: string)
    | EmptySurfaces(slug: string)
    | EmptyAuthenticate(slug: string, name: string)
    | EmptyHeader(slug: string, name: string)
    | ManyPasswords(slug: string)
    | ManyBearers(slug: string)

  // ----- what is accepted -----

  predicate MethodOk(m: AuthMethod) {
    && (!m.PasswordLogin? ==> m.surfaces != [])
    && (m.Strategy? ==>
          && Trim(m.authenticate) != []
          && (m.activatesOn.Header? ==> Trim(m.activatesOn.header) != []))
  }

  /** An enabled configuration lists methods, each of good shape, and at most one of either kind of
      password or bearer. */
  predicate MethodsOk(methods: seq<AuthMethod>) {
    && methods != []
    && (forall m <- methods :: MethodOk(m))
    && (forall i, j :: 0 <= i < j < |methods| ==> !(methods[i].PasswordLogin? && methods[j].PasswordLogin?))
    && (forall i, j :: 0 <= i < j < |methods| ==> !(methods[i].Bearer? && methods[j].Bearer?))
  }

  predicate CollectionOk(c: Collection) {
    c.auth.Some? && c.auth.value.enabled ==> MethodsOk(c.auth.value.methods)
  }

  // ----- the errors of one collection -----

  function MethodErrors(slug: string, m: AuthMethod): seq<AuthError> {
    (if !m.PasswordLogin? && m.surfaces == [] then [EmptySurfaces(slug)] else [])
    + (if m.Strategy? && Trim(m.authenticate) == [] then [EmptyAuthenticate(slug, m.name)] else [])
    + (if m.Strategy? && m.activatesOn.Header? && Trim(m.activatesOn.header) == [] then [EmptyHeader(slug, m.name)] else [])
  }

  function AllMethodErrors(slug: string, methods: seq<AuthMethod>): seq<AuthError> {
    if methods == [] then [] else MethodErrors(slug, methods[0]) + AllMethodErrors(slug, methods[1..])
  }

  function Passwords(methods: seq<AuthMethod>): nat {
    if methods == [] then 0 else (if methods[0].PasswordLogin? then 1 else 0) + Passwords(methods[1..])
  }

  function Bearers(methods: seq<AuthMethod>): nat {
    if methods == [] then 0 else (if methods[0].Bearer? then 1 else 0) + Bearers(methods[1..])
  }

  function CollectionErrors(slug: string, c: Collection): seq<AuthError> {
    if c.auth.None? || !c.auth.value.enabled then []
    else if c.auth.value.methods == [] then [NoMethods(slug)]
    else
      var methods := c.auth.value.methods;
      AllMethodErrors(slug, methods)
      + (if Passwords(methods) > 1 then [ManyPasswords(slug)] else [])
      + (if Bearers(methods) > 1 then [ManyBearers(slug)] else [])
  }

  lemma {:induction false} MethodErrorsIff(slug: string, m: AuthMethod)
    ensures MethodErrors(slug, m) == [] <==> MethodOk(m)
  {
    hide Trim;
  }

  lemma {:induction false} AllMethodErrorsIff(slug: string, methods: seq<AuthMethod>)
    ensures AllMethodErrors(slug, methods) == [] <==> forall m <- methods :: MethodOk(m)
  {
    hide MethodOk, MethodErrors;
    if methods != [] {
      MethodErrorsIff(slug, methods[0]);
      AllMethodErrorsIff(slug, methods[1..]);
      assert methods[0] in methods;
      forall m | m in methods[1..] ensures m in methods {}
      if MethodOk(methods[0]) && forall m <- methods[1..] :: MethodOk(m) {
        forall m | m in methods ensures MethodOk(m) { assert m == methods[0] || m in methods[1..]; }
      }
    }
  }

  lemma {:induction false} SomePassword(methods: seq<AuthMethod>)
    ensures Passwords(methods) > 0 <==> exists i :: 0 <= i < |methods| && methods[i].PasswordLogin?
  {
    if methods != [] {
      SomePassword(methods[1..]);
      if i :| 0 <= i < |methods| && methods[i].PasswordLogin? {
        if i > 0 { assert methods[1..][i - 1].PasswordLogin?; }
      }
      if i :| 0 <= i < |methods[1..]| && methods[1..][i].PasswordLogin? { assert methods[i + 1].PasswordLogin?; }
    }
  }

  lemma {:induction false} SomeBearer(methods: seq<AuthMethod>)
    ensures Bearers(methods) > 0 <==> exists i :: 0 <= i < |methods| && methods[i].Bearer?
  {
    if methods != [] {
      SomeBearer(methods[1..]);
      if i :| 0 <= i < |methods| && methods[i].Bearer? {
        if i > 0 { assert methods[1..][i - 1].Bearer?; }
      }
      if i :| 0 <= i < |methods[1..]| && methods[1..][i].Bearer? { assert methods[i + 1].Bearer?; }
    }
  }

  lemma {:induction false} TwoPasswords(methods: seq<AuthMethod>)
    ensures Passwords(methods) > 1
       <==> exists i, j :: 0 <= i < j < |methods| && methods[i].PasswordLogin? && methods[j].PasswordLogin?
  {
    if methods != [] {
      TwoPasswords(methods[1..]);
      SomePassword(methods[1..]);
      if i, j :| 0 <= i < j < |methods| && methods[i].PasswordLogin? && methods[j].PasswordLogin? {
        assert methods[1..][j - 1].PasswordLogin?;
        if i > 0 { assert methods[1..][i - 1].PasswordLogin?; }
      }
      if i, j :| 0 <= i < j < |methods[1..]| && methods[1..][i].PasswordLogin? && methods[1..][j].PasswordLogin? {
        assert methods[i + 1].PasswordLogin? && methods[j + 1].PasswordLogin?;
      }
      if j :| 0 <= j < |methods[1..]| && methods[1..][j].PasswordLogin? { assert methods[j + 1].PasswordLogin?; }
    }
  }

  lemma {:induction false} TwoBearers(methods: seq<AuthMethod>)
    ensures Bearers(methods) > 1
       <==> exists i, j :: 0 <= i < j < |methods| && methods[i].Bearer? && methods[j].Bearer?
  {
    if methods != [] {
      TwoBearers(methods[1..]);
      SomeBearer(methods[1..]);
      if i, j :| 0 <= i < j < |methods| && methods[i].Bearer? && methods[j].Bearer? {
        assert methods[1..][j - 1].Bearer?;
        if i > 0 { assert methods[1..][i - 1].Bearer?; }
      }
      if i, j :| 0 <= i < j < |methods[1..]| && methods[1..][i].Bearer? && methods[1..][j].Bearer? {
        assert methods[i + 1].Bearer? && methods[j + 1].Bearer?;
      }
      if j :| 0 <= j < |methods[1..]| && methods[1..][j].Bearer? { assert methods[j + 1].Bearer?; }
    }
  }

  /** A collection has no errors exactly when its configuration is acceptable. */
  lemma {:induction false} NoErrorsIff(slug: string, c: Collection)
    ensures CollectionErrors(slug, c) == [] <==> CollectionOk(c)
  {
    hide MethodOk, AllMethodErrors;
    if c.auth.Some? && c.auth.value.enabled {
      var methods := c.auth.value.methods;
      AllMethodErrorsIff(slug, methods);
      TwoPasswords(methods);
      TwoBearers(methods);
    }
  }

  /** What is wrong with one method. */
  predicate Fault(m: AuthMethod, e: AuthError) {
    match e
    case EmptySurfaces(_) => !m.PasswordLogin? && m.surfaces == []
    case EmptyAuthenticate(_, name) => m.Strategy? && m.name == name && Trim(m.authenticate) == []
    case EmptyHeader(_, name) => m.Strategy? && m.name == name && m.activatesOn.Header? && Trim(m.activatesOn.header) == []
    case _ => false
  }

  lemma {:induction false} MethodErrorIff(slug: string, m: AuthMethod, e: AuthError)
    ensures e in MethodErrors(slug, m) <==> e.slug == slug && Fault(m, e)
  {
    hide Trim;
  }

  lemma {:induction false} MethodsErrorIff(slug: string, methods: seq<AuthMethod>, e: AuthError)
    ensures e in AllMethodErrors(slug, methods) <==> e.slug == slug && exists m <- methods :: Fault(m, e)
  {
    hide Fault, MethodErrors;
    if methods != [] {
      MethodErrorIff(slug, methods[0], e);
      MethodsErrorIff(slug, methods[1..], e);
      forall m ensures m in methods <==> m == methods[0] || m in methods[1..] {}
    }
  }

  /** The errors of a collection, each under its own kind: no methods, two password or two bearer methods, or a method
      without surfaces, without a script or without a header name. */
  lemma {:induction false} ErrorIff(slug: string, c: Collection, e: AuthError)
    ensures e in CollectionErrors(slug, c)
       <==> && c.auth.Some? && c.auth.value.enabled && e.slug == slug
            && var ms := c.auth.value.methods;
               match e
               case NoMethods(_) => ms == []
               case ManyPasswords(_) => exists i, j :: 0 <= i < j < |ms| && ms[i].PasswordLogin? && ms[j].PasswordLogin?
               case ManyBearers(_) => exists i, j :: 0 <= i < j < |ms| && ms[i].Bearer? && ms[j].Bearer?
               case _ => exists m <- ms :: Fault(m, e)
  {
    hide AllMethodErrors, Passwords, Bearers;
    if c.auth.Some? && c.auth.value.enabled {
      var ms := c.auth.value.methods;
      MethodsErrorIff(slug, ms, e);
      TwoPasswords(ms);
      TwoBearers(ms);
    }
  }

  // ----- the walk -----

  class AuthCheck {
    var errors: seq<AuthError>

    constructor ()
      ensures errors == []
    {
      errors := [];
    }

    method CheckStrategyShape(slug: string, m: AuthMethod)
      requires m.Strategy?
      modifies this
      ensures errors == old(errors)
                        + (if Trim(m.authenticate) == [] then [EmptyAuthenticate(slug, m.name)] else [])
                        + (if m.activatesOn.Header? && Trim(m.activatesOn.header) == [] then [EmptyHeader(slug, m.name)] else [])
    {
      hide Trim;
      if Trim(m.authenticate) == [] {
        errors := errors + [EmptyAuthenticate(slug, m.name)];
      }
      if m.activatesOn.Header? && Trim(m.activatesOn.header) == [] {
        errors := errors + [EmptyHeader(slug, m.name)];
      }
    }

    method CheckMethod(slug: string, m: AuthMethod)
      modifies this
      ensures errors == old(errors) + MethodErrors(slug, m)
    {
      hide Trim;
      if !m.PasswordLogin? && m.surfaces == [] {
        errors := errors + [EmptySurfaces(slug)];
      }
      if m.Strategy? {
        CheckStrategyShape(slug, m);
      }
    }

    method CheckOneCollectionMethods(slug: string, methods: seq<AuthMethod>)
      modifies this
      ensures errors == old(errors) + AllMethodErrors(slug, methods)
                        + (if Passwords(methods) > 1 then [ManyPasswords(slug)] else [])
                        + (if Bearers(methods) > 1 then [ManyBearers(slug)] else [])
    {
      hide MethodErrors;
      var passwordCount := 0;
      var bearerCount := 0;
      var i := 0;
      assert methods[0..] == methods;
      while i < |methods|
        invariant 0 <= i <= |methods|
        invariant old(errors) + AllMethodErrors(slug, methods) == errors + AllMethodErrors(slug, methods[i..])
        invariant Passwords(methods) == passwordCount + Passwords(methods[i..])
        invariant Bearers(methods) == bearerCount + Bearers(methods[i..])
      {
        assert methods[i..][0] == methods[i] && methods[i..][1..] == methods[i + 1..];
        CheckMethod(slug, methods[i]);
        if methods[i].PasswordLogin? {
          passwordCount := passwordCount + 1;
        }
        if methods[i].Bearer? {
          bearerCount := bearerCount + 1;
        }
        i := i + 1;
      }
      assert methods[i..] == [];
      if passwordCount > 1 {
        errors := errors + [ManyPasswords(slug)];
      }
      if bearerCount > 1 {
        errors := errors + [ManyBearers(slug)];
      }
    }

    method CheckCollection(slug: string, c: Collection)
      modifies this
      ensures errors == old(errors) + CollectionErrors(slug, c)
    {
      hide AllMethodErrors, Passwords, Bearers;
      if c.auth.None? || !c.auth.value.enabled {
        return;
      }
      if c.auth.value.methods == [] {
        errors := errors + [NoMethods(slug)];
        return;
      }
      CheckOneCollectionMethods(slug, c.auth.value.methods);
    }
  }

  /** The errors of one collection, in the order they were reported. */
  function ErrorsOf(errors: seq<AuthError>, slug: string): seq<AuthError> {
    if errors == [] then [] else (if errors[0].slug == slug then [errors[0]] else []) + ErrorsOf(errors[1..], slug)
  }

  lemma {:induction false} ErrorsOfTurn(es: seq<AuthError>, slug: string)
    requires es != []
    ensures ErrorsOf(es, slug) == (if es[0].slug == slug then [es[0]] else []) + ErrorsOf(es[1..], slug)
  {}

  lemma {:induction false} ErrorsOfAppend(a: seq<AuthError>, b: seq<AuthError>, slug: string)
    ensures ErrorsOf(a + b, slug) == ErrorsOf(a, slug) + ErrorsOf(b, slug)
  {
    if a == [] {
      assert a + b == b;
    } else {
      hide ErrorsOf;
      assert (a + b)[1..] == a[1..] + b && (a + b)[0] == a[0];
      ErrorsOfTurn(a, slug);
      ErrorsOfTurn(a + b, slug);
      ErrorsOfAppend(a[1..], b, slug);
    }
  }

  predicate AllFrom(errors: seq<AuthError>, slug: string) { forall e <- errors :: e.slug == slug }

  lemma {:induction false} ErrorsFrom(errors: seq<AuthError>, owner: string, slug: string)
    requires AllFrom(errors, owner)
    ensures ErrorsOf(errors, slug) == if owner == slug then errors else []
  {
    if errors != [] {
      assert errors[0] in errors;
      forall e | e in errors[1..] ensures e in errors {}
      ErrorsFrom(errors[1..], owner, slug);
    }
  }

  lemma {:induction false} MethodErrorsFrom(slug: string, methods: seq<AuthMethod>)
    ensures AllFrom(AllMethodErrors(slug, methods), slug)
  {
    hide Trim;
    if methods != [] { MethodErrorsFrom(slug, methods[1..]); }
  }

  lemma {:induction false} CollectionErrorsFrom(slug: string, c: Collection)
    ensures AllFrom(CollectionErrors(slug, c), slug)
  {
    hide AllMethodErrors;
    if c.auth.Some? { MethodErrorsFrom(slug, c.auth.value.methods); }
  }

  /** Every collection's errors are reported, each one as often and in the order its own check finds them. */
  ghost predicate Reports(errors: seq<AuthError>, collections: map<string, Collection>, slugs: set<string>) {
    forall slug :: ErrorsOf(errors, slug)
                   == if slug in slugs && slug in collections then CollectionErrors(slug, collections[slug]) else []
  }

  lemma {:induction false} ReportsMore(errors: seq<AuthError>, collections: map<string, Collection>, slugs: set<string>, slug: string)
    requires Reports(errors, collections, slugs) && slug in collections && slug !in slugs
    ensures Reports(errors + CollectionErrors(slug, collections[slug]), collections, slugs + {slug})
  {
    hide CollectionErrors, ErrorsOf;
    var found := CollectionErrors(slug, collections[slug]);
    CollectionErrorsFrom(slug, collections[slug]);
    forall s ensures ErrorsOf(errors + found, s)
                  == if s in slugs + {slug} && s in collections then CollectionErrors(s, collections[s]) else [] {
      ErrorsOfAppend(errors, found, s);
      ErrorsFrom(found, slug, s);
      assert ErrorsOf(errors, s) == if s in slugs && s in collections then CollectionErrors(s, collections[s]) else [];
    }
  }

  lemma {:induction false} NothingReported(collections: map<string, Collection>)
    ensures Reports([], collections, {})
  {}

  /** Accepts exactly when every collection is acceptable, and reports the errors of every collection
      in full; the collections are visited in any order. */
  method ValidateAuthMethods(collections: map<string, Collection>) returns (errors: seq<AuthError>)
    ensures errors == [] <==> forall slug <- collections.Keys :: CollectionOk(collections[slug])
    ensures Reports(errors, collections, collections.Keys)
  {
    hide CollectionErrors, CollectionOk, Reports;
    var check := new AuthCheck();
    var rest := collections.Keys;
    ghost var seen := {};
    NothingReported(collections);
    while rest != {}
      invariant rest !! seen && rest + seen == collections.Keys
      invariant Reports(check.errors, collections, seen)
      decreases |rest|
    {
      var slug :| slug in rest;
      ReportsMore(check.errors, collections, seen, slug);
      check.CheckCollection(slug, collections[slug]);
      seen := seen + {slug};
      rest := rest - {slug};
    }
    errors := check.errors;
    AllOkIff(collections, errors);
  }

  lemma {:induction false} AllOkIff(collections: map<string, Collection>, errors: seq<AuthError>)
    requires Reports(errors, collections, collections.Keys)
    ensures errors == [] <==> forall slug <- collections.Keys :: CollectionOk(collections[slug])
  {
    hide CollectionErrors, CollectionOk;
    forall slug | slug in collections.Keys
      ensures ErrorsOf(errors, slug) == CollectionErrors(slug, collections[slug])
      ensures CollectionErrors(slug, collections[slug]) == [] <==> CollectionOk(collections[slug])
    {
      NoErrorsIff(slug, collections[slug]);
    }
    if errors != [] {
      var slug := errors[0].slug;
      assert ErrorsOf(errors, slug) != [];
      assert ErrorsOf(errors, slug) == if slug in collections then CollectionErrors(slug, collections[slug]) else [];
    } else {
      forall slug | slug in collections.Keys ensures CollectionOk(collections[slug]) { assert ErrorsOf(errors, slug) == []; }
    }
  }

  // ----- what acceptance buys -----

  /** Once validation accepts, some strategy is active exactly when some bucket of the index is not empty. */
  lemma {:induction false} AcceptedIndexIff(ix: Index, collections: map<string, Collection>)
    requires Indexes(ix, collections) && forall slug <- collections.Keys :: CollectionOk(collections[slug])
    ensures AnyStrategy(collections) <==> exists key :: Bucket(ix, key) != []
  {
    hide Bucket, Indexes, Trim;
    if AnyStrategy(collections) {
      var slug :| slug in collections.Keys && HasStrategy(ActiveMethods(collections[slug]));
      assert CollectionOk(collections[slug]);
      var m :| m in ActiveMethods(collections[slug]) && m.Strategy?;
      assert MethodOk(m);
      assert CanFire(ActiveMethods(collections[slug]));
    }
    GateAgreesIff(ix, collections);
  }

  /** Without validation that fails: an active strategy that lists no surface is in no bucket. */
  lemma {:induction false} NoSurfaceNoBucket() returns (collections: map<string, Collection>)
    ensures AnyStrategy(collections)
    ensures forall ix, key | Indexes(ix, collections) :: Bucket(ix, key) == []
  {
    var m := Strategy("sso", "auth.sso", Always, []);
    collections := map["users" := Collection("users", Some(Auth(true, [m])))];
    assert m in ActiveMethods(collections["users"]);
    assert HasStrategy(ActiveMethods(collections["users"]));
    assert !AnyCanFire(collections);
    forall ix, key | Indexes(ix, collections) ensures Bucket(ix, key) == [] { NonEmptyIff(ix, collections); }
  }
}
