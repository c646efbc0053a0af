/** Boot-time checks over field trees: unresolved references, and names that collide with
    locale-suffixed columns. */
module StartupChecks {
  import opened Text
  import opened FieldTrees

  // ----- listed references -----

  /** A kind of hook or access rule, and the Lua references listed for it. */
  datatype Slot = Slot(kind: string, refs: seq<string>)

  datatype Entry = Entry(source: seq<Step>, kind: string, ref: string)

  function Maybe(r: Option<string>): seq<string> { if r.Some? then [r.value] else [] }

  function FieldSlots(f: Field): seq<Slot> {
    [Slot("before_validate", f.hooks.beforeValidate), Slot("before_change", f.hooks.beforeChange),
     Slot("after_change", f.hooks.afterChange), Slot("after_read", f.hooks.afterRead),
     Slot("access.read", Maybe(f.access.read)), Slot("access.create", Maybe(f.access.create)),
     Slot("access.update", Maybe(f.access.update))]
  }

  function HookSlots(h: Hooks): seq<Slot> {
    [Slot("before_validate", h.beforeValidate), Slot("before_change", h.beforeChange),
     Slot("after_change", h.afterChange), Slot("before_read", h.beforeRead), Slot("after_read", h.afterRead),
     Slot("before_delete", h.beforeDelete), Slot("after_delete", h.afterDelete), Slot("before_broadcast", h.beforeBroadcast)]
  }

  function AccessSlots(a: Access): seq<Slot> {
    [Slot("access.read", Maybe(a.read)), Slot("access.create", Maybe(a.create)), Slot("access.update", Maybe(a.update)),
     Slot("access.delete", Maybe(a.delete)), Slot("access.trash", Maybe(a.trash))]
  }

  function RefEntries(source: seq<Step>, kind: string, refs: seq<string>): seq<Entry> {
    if refs == [] then [] else [Entry(source, kind, refs[0])] + RefEntries(source, kind, refs[1..])
  }

  function SlotEntries(source: seq<Step>, slots: seq<Slot>): seq<Entry> {
    if slots == [] then [] else RefEntries(source, slots[0].kind, slots[0].refs) + SlotEntries(source, slots[1..])
  }

  function VisitEntries(vs: seq<Visit>): seq<Entry> {
    if vs == [] then [] else SlotEntries(vs[0].source, FieldSlots(vs[0].field)) + VisitEntries(vs[1..])
  }

  /** Every reference of a definition, where it is listed. */
  function DefinitionEntries(d: Definition): seq<Entry> {
    SlotEntries([d.root], HookSlots(d.hooks)) + SlotEntries([d.root], AccessSlots(d.access))
    + VisitEntries(Visits(d.fields, [d.root]))
  }

  function AllEntries(ds: seq<Definition>): seq<Entry> {
    if ds == [] then [] else DefinitionEntries(ds[0]) + AllEntries(ds[1..])
  }

  /** The entries whose reference does not resolve, one error each. */
  function Unresolved(es: seq<Entry>, resolves: string -> bool): seq<Entry> {
    if es == [] then [] else (if resolves(es[0].ref) then [] else [es[0]]) + Unresolved(es[1..], resolves)
  }

  lemma {:induction false} UnresolvedAppend(a: seq<Entry>, b: seq<Entry>, resolves: string -> bool)
    ensures Unresolved(a + b, resolves) == Unresolved(a, resolves) + Unresolved(b, resolves)
  {
    if a == [] {
      assert a + b == b;
    } else {
      assert (a + b)[1..] == a[1..] + b;
      UnresolvedAppend(a[1..], b, resolves);
    }
  }

  lemma {:induction false} VisitEntriesAppend(a: seq<Visit>, b: seq<Visit>)
    ensures VisitEntries(a + b) == VisitEntries(a) + VisitEntries(b)
  {
    hide SlotEntries, FieldSlots;
    if a == [] {
      assert a + b == b;
    } else {
      assert (a + b)[1..] == a[1..] + b;
      VisitEntriesAppend(a[1..], b);
    }
  }

  /** The errors for the fields visited. */
  function Missing(vs: seq<Visit>, resolves: string -> bool): seq<Entry> { Unresolved(VisitEntries(vs), resolves) }

  lemma {:induction false} MissingAppend(a: seq<Visit>, b: seq<Visit>, resolves: string -> bool)
    ensures Missing(a + b, resolves) == Missing(a, resolves) + Missing(b, resolves)
  {
    VisitEntriesAppend(a, b);
    UnresolvedAppend(VisitEntries(a), VisitEntries(b), resolves);
  }

  lemma {:induction false} MissingOf(f: Field, source: seq<Step>, resolves: string -> bool)
    ensures Missing(VisitsOf(f, source), resolves)
         == Unresolved(SlotEntries(source, FieldSlots(f)), resolves) + Missing(Visits(f.fields, source), resolves)
          + Missing(BlockVisits(f.blocks, source), resolves) + Missing(TabVisits(f.tabs, 0, source), resolves)
  {
    hide Unresolved, SlotEntries, FieldSlots;
    var own := [Visit(source, f)];
    MissingAppend(own, Visits(f.fields, source), resolves);
    MissingAppend(own + Visits(f.fields, source), BlockVisits(f.blocks, source), resolves);
    MissingAppend(own + Visits(f.fields, source) + BlockVisits(f.blocks, source), TabVisits(f.tabs, 0, source), resolves);
    assert own[1..] == [] && VisitEntries([]) == [];
    assert VisitEntries(own) == SlotEntries(source, FieldSlots(f)) + [];
    assert VisitEntries(own) == SlotEntries(source, FieldSlots(f));
  }

  lemma {:induction false} MissingNothing(resolves: string -> bool)
    ensures Missing([], resolves) == []
  {}

  // ----- the walk for references -----

  class HookCheck {
    const resolves: string -> bool
    var missing: seq<Entry>

    constructor (resolves: string -> bool)
      ensures this.resolves == resolves && missing == []
    {
      this.resolves := resolves;
      missing := [];
    }

    method CheckRefs(source: seq<Step>, kind: string, refs: seq<string>)
      modifies this
      ensures missing == old(missing) + Unresolved(RefEntries(source, kind, refs), resolves)
    {
      var i := 0;
      assert refs[0..] == refs;
      while i < |refs|
        invariant 0 <= i <= |refs|
        invariant old(missing) + Unresolved(RefEntries(source, kind, refs), resolves)
               == missing + Unresolved(RefEntries(source, kind, refs[i..]), resolves)
      {
        assert refs[i..][0] == refs[i] && refs[i..][1..] == refs[i + 1..];
        if !resolves(refs[i]) {
          missing := missing + [Entry(source, kind, refs[i])];
        }
        i := i + 1;
      }
      assert refs[i..] == [];
    }

    method CheckSlots(source: seq<Step>, slots: seq<Slot>)
      modifies this
      ensures missing == old(missing) + Unresolved(SlotEntries(source, slots), resolves)
    {
      hide Unresolved, RefEntries;
      var i := 0;
      assert slots[0..] == slots;
      while i < |slots|
        invariant 0 <= i <= |slots|
        invariant old(missing) + Unresolved(SlotEntries(source, slots), resolves)
               == missing + Unresolved(SlotEntries(source, slots[i..]), resolves)
      {
        assert slots[i..][0] == slots[i] && slots[i..][1..] == slots[i + 1..];
        UnresolvedAppend(RefEntries(source, slots[i].kind, slots[i].refs), SlotEntries(source, slots[i + 1..]), resolves);
        CheckRefs(source, slots[i].kind, slots[i].refs);
        i := i + 1;
      }
      assert slots[i..] == [];
      NothingUnresolved(resolves);
    }

    method CheckFieldList(fields: seq<Field>, source: seq<Step>)
      modifies this
      ensures missing == old(missing) + Missing(Visits(fields, source), resolves)
      decreases fields, 0
    {
      hide Missing, VisitsOf;
      MissingNothing(resolves);
      var i := 0;
      assert fields[0..] == fields;
      while i < |fields|
        invariant 0 <= i <= |fields|
        invariant old(missing) + Missing(Visits(fields, source), resolves) == missing + Missing(Visits(fields[i..], source), resolves)
      {
        assert fields[i..][0] == fields[i] && fields[i..][1..] == fields[i + 1..];
        var fieldSource := source + [InField(fields[i].name)];
        MissingAppend(VisitsOf(fields[i], fieldSource), Visits(fields[i + 1..], source), resolves);
        CheckField(fields[i], fieldSource);
        i := i + 1;
      }
      assert fields[i..] == [];
    }

    method CheckField(f: Field, source: seq<Step>)
      modifies this
      ensures missing == old(missing) + Missing(VisitsOf(f, source), resolves)
      decreases f, 1
    {
      hide Missing, Unresolved, SlotEntries, FieldSlots;
      MissingOf(f, source, resolves);
      CheckSlots(source, FieldSlots(f));
      CheckFieldList(f.fields, source);
      CheckBlocks(f, source);
      CheckTabs(f, source);
    }

    method CheckBlocks(f: Field, source: seq<Step>)
      modifies this
      ensures missing == old(missing) + Missing(BlockVisits(f.blocks, source), resolves)
      decreases f, 0
    {
      hide Missing, Visits;
      MissingNothing(resolves);
      var i := 0;
      assert f.blocks[0..] == f.blocks;
      while i < |f.blocks|
        invariant 0 <= i <= |f.blocks|
        invariant old(missing) + Missing(BlockVisits(f.blocks, source), resolves)
               == missing + Missing(BlockVisits(f.blocks[i..], source), resolves)
      {
        assert f.blocks[i..][0] == f.blocks[i] && f.blocks[i..][1..] == f.blocks[i + 1..];
        var blockSource := source + [InBlock(f.blocks[i].blockType)];
        MissingAppend(Visits(f.blocks[i].fields, blockSource), BlockVisits(f.blocks[i + 1..], source), resolves);
        CheckFieldList(f.blocks[i].fields, blockSource);
        i := i + 1;
      }
      assert f.blocks[i..] == [];
    }

    method CheckTabs(f: Field, source: seq<Step>)
      modifies this
      ensures missing == old(missing) + Missing(TabVisits(f.tabs, 0, source), resolves)
      decreases f, 0
    {
      hide Missing, Visits;
      MissingNothing(resolves);
      var i := 0;
      assert f.tabs[0..] == f.tabs;
      while i < |f.tabs|
        invariant 0 <= i <= |f.tabs|
        invariant old(missing) + Missing(TabVisits(f.tabs, 0, source), resolves)
               == missing + Missing(TabVisits(f.tabs[i..], i, source), resolves)
      {
        assert f.tabs[i..][0] == f.tabs[i] && f.tabs[i..][1..] == f.tabs[i + 1..];
        var tabSource := source + [InTab(i, f.tabs[i].heading)];
        MissingAppend(Visits(f.tabs[i].fields, tabSource), TabVisits(f.tabs[i + 1..], i + 1, source), resolves);
        CheckFieldList(f.tabs[i].fields, tabSource);
        i := i + 1;
      }
      assert f.tabs[i..] == [];
    }

    method CheckDefinition(d: Definition)
      modifies this
      ensures missing == old(missing) + Unresolved(DefinitionEntries(d), resolves)
    {
      hide Unresolved, SlotEntries, HookSlots, AccessSlots, VisitEntries, Visits;
      var hooks, access := SlotEntries([d.root], HookSlots(d.hooks)), SlotEntries([d.root], AccessSlots(d.access));
      UnresolvedAppend(hooks, access, resolves);
      UnresolvedAppend(hooks + access, VisitEntries(Visits(d.fields, [d.root])), resolves);
      CheckSlots([d.root], HookSlots(d.hooks));
      CheckSlots([d.root], AccessSlots(d.access));
      CheckFieldList(d.fields, [d.root]);
    }
  }

  lemma {:induction false} NothingUnresolved(resolves: string -> bool)
    ensures Unresolved([], resolves) == []
  {}

  /** Collections first, then globals; the check passes when nothing is returned. */
  method ValidateHookReferences(ds: seq<Definition>, resolves: string -> bool) returns (missing: seq<Entry>)
    ensures missing == Unresolved(AllEntries(ds), resolves)
  {
    hide Unresolved, DefinitionEntries;
    var check := new HookCheck(resolves);
    NothingUnresolved(resolves);
    var i := 0;
    assert ds[0..] == ds;
    while i < |ds|
      invariant 0 <= i <= |ds| && check.resolves == resolves
      invariant Unresolved(AllEntries(ds), resolves) == check.missing + Unresolved(AllEntries(ds[i..]), resolves)
    {
      assert ds[i..][0] == ds[i] && ds[i..][1..] == ds[i + 1..];
      UnresolvedAppend(DefinitionEntries(ds[i]), AllEntries(ds[i + 1..]), resolves);
      check.CheckDefinition(ds[i]);
      i := i + 1;
    }
    assert ds[i..] == [];
    return check.missing;
  }

  // ----- what the walk for references promises -----

  /** One entry for each of the references. */
  function Listing(source: seq<Step>, kind: string, refs: seq<string>): seq<Entry> {
    seq(|refs|, i requires 0 <= i < |refs| => Entry(source, kind, refs[i]))
  }

  lemma {:induction false} ListingIs(source: seq<Step>, kind: string, refs: seq<string>)
    ensures RefEntries(source, kind, refs) == Listing(source, kind, refs)
  {
    if refs != [] {
      ListingIs(source, kind, refs[1..]);
      assert Listing(source, kind, refs)[1..] == Listing(source, kind, refs[1..]);
    }
  }

  lemma {:induction false} InListing(source: seq<Step>, kind: string, refs: seq<string>, e: Entry)
    ensures e in Listing(source, kind, refs) <==> e.source == source && e.kind == kind && e.ref in refs
  {
    if e.source == source && e.kind == kind && e.ref in refs {
      var i :| 0 <= i < |refs| && refs[i] == e.ref;
      assert Listing(source, kind, refs)[i] == e;
    }
  }

  /** The entries of one slot. */
  function OfSlot(source: seq<Step>, s: Slot): seq<Entry> { Listing(source, s.kind, s.refs) }

  lemma {:induction false} SlotAfter(source: seq<Step>, ss: seq<Slot>, n: nat)
    requires n < |ss|
    ensures SlotEntries(source, ss[..n + 1]) == SlotEntries(source, ss[..n]) + OfSlot(source, ss[n])
    decreases n
  {
    ListingIs(source, ss[0].kind, ss[0].refs);
    hide RefEntries, Listing;
    if n > 0 {
      SlotAfter(source, ss[1..], n - 1);
      assert ss[..n + 1][1..] == ss[1..][..n] && ss[..n][1..] == ss[1..][..n - 1];
    }
  }

  lemma {:induction false} FirstSlot(source: seq<Step>, ss: seq<Slot>)
    requires ss != []
    ensures SlotEntries(source, ss[..1]) == OfSlot(source, ss[0])
  {
    SlotAfter(source, ss, 0);
    hide OfSlot;
    assert ss[..0] == [] && SlotEntries(source, []) == [];
  }

  lemma {:induction false} FiveSlots(source: seq<Step>, ss: seq<Slot>)
    requires |ss| >= 5
    ensures SlotEntries(source, ss[..5])
         == OfSlot(source, ss[0]) + OfSlot(source, ss[1]) + OfSlot(source, ss[2]) + OfSlot(source, ss[3]) + OfSlot(source, ss[4])
  {
    hide OfSlot, SlotEntries;
    FirstSlot(source, ss);
    SlotAfter(source, ss, 1);
    SlotAfter(source, ss, 2);
    SlotAfter(source, ss, 3);
    SlotAfter(source, ss, 4);
  }

  lemma {:induction false} SevenSlots(source: seq<Step>, ss: seq<Slot>)
    requires |ss| >= 7
    ensures SlotEntries(source, ss[..7])
         == OfSlot(source, ss[0]) + OfSlot(source, ss[1]) + OfSlot(source, ss[2]) + OfSlot(source, ss[3]) + OfSlot(source, ss[4])
          + OfSlot(source, ss[5]) + OfSlot(source, ss[6])
  {
    hide OfSlot, SlotEntries;
    FiveSlots(source, ss);
    SlotAfter(source, ss, 5);
    SlotAfter(source, ss, 6);
  }

  /** The hook lists of a definition, in the order they are looked at. */
  lemma {:induction false} HookEntries(source: seq<Step>, h: Hooks)
    ensures SlotEntries(source, HookSlots(h))
         == Listing(source, "before_validate", h.beforeValidate) + Listing(source, "before_change", h.beforeChange)
          + Listing(source, "after_change", h.afterChange) + Listing(source, "before_read", h.beforeRead)
          + Listing(source, "after_read", h.afterRead) + Listing(source, "before_delete", h.beforeDelete)
          + Listing(source, "after_delete", h.afterDelete) + Listing(source, "before_broadcast", h.beforeBroadcast)
  {
    var ss := HookSlots(h);
    SevenSlots(source, ss);
    SlotAfter(source, ss, 7);
    hide SlotEntries, Listing;
    assert ss[..8] == ss;
  }

  /** The access rules of a definition, in the order they are looked at. */
  lemma {:induction false} AccessEntries(source: seq<Step>, a: Access)
    ensures SlotEntries(source, AccessSlots(a))
         == Listing(source, "access.read", Maybe(a.read)) + Listing(source, "access.create", Maybe(a.create))
          + Listing(source, "access.update", Maybe(a.update)) + Listing(source, "access.delete", Maybe(a.delete))
          + Listing(source, "access.trash", Maybe(a.trash))
  {
    var ss := AccessSlots(a);
    FiveSlots(source, ss);
    hide SlotEntries, Listing, Maybe;
    assert ss[..5] == ss;
  }

  /** The hook lists and access rules of a field, in the order they are looked at. */
  lemma {:induction false} FieldEntries(source: seq<Step>, f: Field)
    ensures SlotEntries(source, FieldSlots(f))
         == Listing(source, "before_validate", f.hooks.beforeValidate) + Listing(source, "before_change", f.hooks.beforeChange)
          + Listing(source, "after_change", f.hooks.afterChange) + Listing(source, "after_read", f.hooks.afterRead)
          + Listing(source, "access.read", Maybe(f.access.read)) + Listing(source, "access.create", Maybe(f.access.create))
          + Listing(source, "access.update", Maybe(f.access.update))
  {
    var ss := FieldSlots(f);
    SevenSlots(source, ss);
    hide SlotEntries, Listing, Maybe;
    assert ss[..7] == ss;
  }

  // where a reference is listed

  predicate HookListed(h: Hooks, kind: string, ref: string) {
    || (kind == "before_validate" && ref in h.beforeValidate)
    || (kind == "before_change" && ref in h.beforeChange)
    || (kind == "after_change" && ref in h.afterChange)
    || (kind == "before_read" && ref in h.beforeRead)
    || (kind == "after_read" && ref in h.afterRead)
    || (kind == "before_delete" && ref in h.beforeDelete)
    || (kind == "after_delete" && ref in h.afterDelete)
    || (kind == "before_broadcast" && ref in h.beforeBroadcast)
  }

  predicate AccessListed(a: Access, kind: string, ref: string) {
    || (kind == "access.read" && a.read == Some(ref))
    || (kind == "access.create" && a.create == Some(ref))
    || (kind == "access.update" && a.update == Some(ref))
    || (kind == "access.delete" && a.delete == Some(ref))
    || (kind == "access.trash" && a.trash == Some(ref))
  }

  predicate FieldListed(f: Field, kind: string, ref: string) {
    || (kind == "before_validate" && ref in f.hooks.beforeValidate)
    || (kind == "before_change" && ref in f.hooks.beforeChange)
    || (kind == "after_change" && ref in f.hooks.afterChange)
    || (kind == "after_read" && ref in f.hooks.afterRead)
    || (kind == "access.read" && f.access.read == Some(ref))
    || (kind == "access.create" && f.access.create == Some(ref))
    || (kind == "access.update" && f.access.update == Some(ref))
  }

  /** The definition lists the reference at that place under that kind. */
  ghost predicate Listed(d: Definition, e: Entry) {
    || (e.source == [d.root] && (HookListed(d.hooks, e.kind, e.ref) || AccessListed(d.access, e.kind, e.ref)))
    || exists v :: Stands(d.fields, [d.root], v) && v.source == e.source && FieldListed(v.field, e.kind, e.ref)
  }

  lemma {:induction false} InHooks(source: seq<Step>, h: Hooks, e: Entry)
    ensures e in SlotEntries(source, HookSlots(h)) <==> e.source == source && HookListed(h, e.kind, e.ref)
  {
    HookEntries(source, h);
    InListing(source, "before_validate", h.beforeValidate, e);
    InListing(source, "before_change", h.beforeChange, e);
    InListing(source, "after_change", h.afterChange, e);
    InListing(source, "before_read", h.beforeRead, e);
    InListing(source, "after_read", h.afterRead, e);
    InListing(source, "before_delete", h.beforeDelete, e);
    InListing(source, "after_delete", h.afterDelete, e);
    InListing(source, "before_broadcast", h.beforeBroadcast, e);
    hide Listing, SlotEntries, HookSlots;
  }

  lemma {:induction false} InMaybe(o: Option<string>, ref: string)
    ensures ref in Maybe(o) <==> o == Some(ref)
  {}

  lemma {:induction false} InAccess(source: seq<Step>, a: Access, e: Entry)
    ensures e in SlotEntries(source, AccessSlots(a)) <==> e.source == source && AccessListed(a, e.kind, e.ref)
  {
    AccessEntries(source, a);
    InListing(source, "access.read", Maybe(a.read), e);
    InListing(source, "access.create", Maybe(a.create), e);
    InListing(source, "access.update", Maybe(a.update), e);
    InListing(source, "access.delete", Maybe(a.delete), e);
    InListing(source, "access.trash", Maybe(a.trash), e);
    InMaybe(a.read, e.ref);
    InMaybe(a.create, e.ref);
    InMaybe(a.update, e.ref);
    InMaybe(a.delete, e.ref);
    InMaybe(a.trash, e.ref);
    hide Listing, SlotEntries, AccessSlots, Maybe;
  }

  lemma {:induction false} InField(source: seq<Step>, f: Field, e: Entry)
    ensures e in SlotEntries(source, FieldSlots(f)) <==> e.source == source && FieldListed(f, e.kind, e.ref)
  {
    FieldEntries(source, f);
    InListing(source, "before_validate", f.hooks.beforeValidate, e);
    InListing(source, "before_change", f.hooks.beforeChange, e);
    InListing(source, "after_change", f.hooks.afterChange, e);
    InListing(source, "after_read", f.hooks.afterRead, e);
    InListing(source, "access.read", Maybe(f.access.read), e);
    InListing(source, "access.create", Maybe(f.access.create), e);
    InListing(source, "access.update", Maybe(f.access.update), e);
    InMaybe(f.access.read, e.ref);
    InMaybe(f.access.create, e.ref);
    InMaybe(f.access.update, e.ref);
    hide Listing, SlotEntries, FieldSlots, Maybe;
  }

  lemma {:induction false} InVisits(vs: seq<Visit>, e: Entry)
    ensures e in VisitEntries(vs) <==> exists v <- vs :: v.source == e.source && FieldListed(v.field, e.kind, e.ref)
  {
    hide SlotEntries, FieldSlots, FieldListed;
    if vs != [] {
      InField(vs[0].source, vs[0].field, e);
      InVisits(vs[1..], e);
      forall v ensures v in vs <==> v == vs[0] || v in vs[1..] {}
    }
  }

  /** The entries of a definition are exactly the references it lists, with their places. */
  lemma {:induction false} InDefinition(d: Definition, e: Entry)
    ensures e in DefinitionEntries(d) <==> Listed(d, e)
  {
    InHooks([d.root], d.hooks, e);
    InAccess([d.root], d.access, e);
    InVisits(Visits(d.fields, [d.root]), e);
    hide SlotEntries, HookSlots, AccessSlots, VisitEntries, Visits, Stands, HookListed, AccessListed, FieldListed;
    forall v ensures v in Visits(d.fields, [d.root]) <==> Stands(d.fields, [d.root], v) { WalkIff(d.fields, [d.root], v); }
  }

  lemma {:induction false} InUnresolved(es: seq<Entry>, resolves: string -> bool, e: Entry)
    ensures e in Unresolved(es, resolves) <==> e in es && !resolves(e.ref)
  {
    if es != [] {
      InUnresolved(es[1..], resolves, e);
      assert e in es <==> e == es[0] || e in es[1..];
    }
  }

  lemma {:induction false} InAll(ds: seq<Definition>, e: Entry)
    ensures e in AllEntries(ds) <==> exists d <- ds :: Listed(d, e)
  {
    hide DefinitionEntries, Listed;
    if ds != [] {
      InDefinition(ds[0], e);
      InAll(ds[1..], e);
      forall d ensures d in ds <==> d == ds[0] || d in ds[1..] {}
    }
  }

  /** The errors are exactly the references that do not resolve, each under its kind at its place:
      eight hook lists and five access rules of every definition, four hook lists and three access
      rules of every field at any depth. */
  lemma {:induction false} MissingIff(ds: seq<Definition>, resolves: string -> bool, e: Entry)
    ensures e in Unresolved(AllEntries(ds), resolves) <==> !resolves(e.ref) && exists d <- ds :: Listed(d, e)
  {
    hide Unresolved, AllEntries, Listed;
    InUnresolved(AllEntries(ds), resolves, e);
    InAll(ds, e);
  }

  // acceptance

  predicate ListResolves(refs: seq<string>, resolves: string -> bool) { forall r <- refs :: resolves(r) }

  predicate RuleResolves(rule: Option<string>, resolves: string -> bool) { rule.Some? ==> resolves(rule.value) }

  predicate HooksResolve(h: Hooks, resolves: string -> bool) {
    && ListResolves(h.beforeValidate, resolves) && ListResolves(h.beforeChange, resolves)
    && ListResolves(h.afterChange, resolves) && ListResolves(h.beforeRead, resolves)
    && ListResolves(h.afterRead, resolves) && ListResolves(h.beforeDelete, resolves)
    && ListResolves(h.afterDelete, resolves) && ListResolves(h.beforeBroadcast, resolves)
  }

  predicate AccessResolves(a: Access, resolves: string -> bool) {
    && RuleResolves(a.read, resolves) && RuleResolves(a.create, resolves) && RuleResolves(a.update, resolves)
    && RuleResolves(a.delete, resolves) && RuleResolves(a.trash, resolves)
  }

  predicate FieldResolves(f: Field, resolves: string -> bool) {
    && ListResolves(f.hooks.beforeValidate, resolves) && ListResolves(f.hooks.beforeChange, resolves)
    && ListResolves(f.hooks.afterChange, resolves) && ListResolves(f.hooks.afterRead, resolves)
    && RuleResolves(f.access.read, resolves) && RuleResolves(f.access.create, resolves)
    && RuleResolves(f.access.update, resolves)
  }

  /** Every hook list, every access rule, and those of every field at any depth resolve. */
  ghost predicate Resolved(d: Definition, resolves: string -> bool) {
    && HooksResolve(d.hooks, resolves) && AccessResolves(d.access, resolves)
    && forall f :: Reachable(d.fields, f) ==> FieldResolves(f, resolves)
  }

  lemma {:induction false} ListsResolve(h: Hooks, resolves: string -> bool)
    ensures HooksResolve(h, resolves) <==> forall kind, ref | HookListed(h, kind, ref) :: resolves(ref)
  {
    if forall kind, ref | HookListed(h, kind, ref) :: resolves(ref) {
      forall r | r in h.beforeValidate ensures resolves(r) { assert HookListed(h, "before_validate", r); }
      forall r | r in h.beforeChange ensures resolves(r) { assert HookListed(h, "before_change", r); }
      forall r | r in h.afterChange ensures resolves(r) { assert HookListed(h, "after_change", r); }
      forall r | r in h.beforeRead ensures resolves(r) { assert HookListed(h, "before_read", r); }
      forall r | r in h.afterRead ensures resolves(r) { assert HookListed(h, "after_read", r); }
      forall r | r in h.beforeDelete ensures resolves(r) { assert HookListed(h, "before_delete", r); }
      forall r | r in h.afterDelete ensures resolves(r) { assert HookListed(h, "after_delete", r); }
      forall r | r in h.beforeBroadcast ensures resolves(r) { assert HookListed(h, "before_broadcast", r); }
    }
  }

  lemma {:induction false} RulesResolve(a: Access, resolves: string -> bool)
    ensures AccessResolves(a, resolves) <==> forall kind, ref | AccessListed(a, kind, ref) :: resolves(ref)
  {
    if forall kind, ref | AccessListed(a, kind, ref) :: resolves(ref) {
      if a.read.Some? { assert AccessListed(a, "access.read", a.read.value); }
      if a.create.Some? { assert AccessListed(a, "access.create", a.create.value); }
      if a.update.Some? { assert AccessListed(a, "access.update", a.update.value); }
      if a.delete.Some? { assert AccessListed(a, "access.delete", a.delete.value); }
      if a.trash.Some? { assert AccessListed(a, "access.trash", a.trash.value); }
    }
  }

  lemma {:induction false} FieldsResolve(f: Field, resolves: string -> bool)
    ensures FieldResolves(f, resolves) <==> forall kind, ref | FieldListed(f, kind, ref) :: resolves(ref)
  {
    if forall kind, ref | FieldListed(f, kind, ref) :: resolves(ref) {
      forall r | r in f.hooks.beforeValidate ensures resolves(r) { assert FieldListed(f, "before_validate", r); }
      forall r | r in f.hooks.beforeChange ensures resolves(r) { assert FieldListed(f, "before_change", r); }
      forall r | r in f.hooks.afterChange ensures resolves(r) { assert FieldListed(f, "after_change", r); }
      forall r | r in f.hooks.afterRead ensures resolves(r) { assert FieldListed(f, "after_read", r); }
      if f.access.read.Some? { assert FieldListed(f, "access.read", f.access.read.value); }
      if f.access.create.Some? { assert FieldListed(f, "access.create", f.access.create.value); }
      if f.access.update.Some? { assert FieldListed(f, "access.update", f.access.update.value); }
    }
  }

  lemma {:induction false} StandingResolve(d: Definition, resolves: string -> bool)
    ensures (forall f :: Reachable(d.fields, f) ==> FieldResolves(f, resolves))
       <==> forall v | Stands(d.fields, [d.root], v) :: FieldResolves(v.field, resolves)
  {
    hide Reachable, Stands, FieldResolves, Visits;
    var vs := Visits(d.fields, [d.root]);
    forall v: Visit ensures v in vs <==> Stands(d.fields, [d.root], v) { WalkIff(d.fields, [d.root], v); }
    forall f ensures Reachable(d.fields, f) <==> exists v <- vs :: v.field == f { ReachableIff(d.fields, [d.root], f); }
  }

  lemma {:induction false} ResolvedIff(d: Definition, resolves: string -> bool)
    ensures Resolved(d, resolves) <==> forall e | Listed(d, e) :: resolves(e.ref)
  {
    ListsResolve(d.hooks, resolves);
    RulesResolve(d.access, resolves);
    StandingResolve(d, resolves);
    hide HooksResolve, AccessResolves, FieldResolves, HookListed, AccessListed, FieldListed, Stands, Reachable;
    forall v: Visit ensures FieldResolves(v.field, resolves) <==> forall kind, ref | FieldListed(v.field, kind, ref) :: resolves(ref) {
      FieldsResolve(v.field, resolves);
    }
    if forall e | Listed(d, e) :: resolves(e.ref) {
      forall kind, ref | HookListed(d.hooks, kind, ref) ensures resolves(ref) { assert Listed(d, Entry([d.root], kind, ref)); }
      forall kind, ref | AccessListed(d.access, kind, ref) ensures resolves(ref) { assert Listed(d, Entry([d.root], kind, ref)); }
      forall v, kind, ref | Stands(d.fields, [d.root], v) && FieldListed(v.field, kind, ref) ensures resolves(ref) {
        assert Listed(d, Entry(v.source, kind, ref));
      }
    }
  }

  /** Startup accepts exactly when every reference resolves: those of every definition and those of
      every field at any depth, through sub-fields, blocks and tabs. */
  lemma {:induction false} HooksAcceptedIff(ds: seq<Definition>, resolves: string -> bool)
    ensures Unresolved(AllEntries(ds), resolves) == [] <==> forall d <- ds :: Resolved(d, resolves)
  {
    hide Unresolved, AllEntries, Resolved, Listed;
    var missing := Unresolved(AllEntries(ds), resolves);
    forall e ensures e in missing <==> !resolves(e.ref) && exists d <- ds :: Listed(d, e) { MissingIff(ds, resolves, e); }
    forall d | d in ds ensures Resolved(d, resolves) <==> forall e | Listed(d, e) :: resolves(e.ref) { ResolvedIff(d, resolves); }
    if missing != [] { assert missing[0] in missing; }
  }

  // ----- locale suffixes -----

  function Suffix(locale: string): string { "__" + locale }

  predicate Collides(name: string, locale: string) { EndsWith(name, Suffix(locale)) && |name| > |Suffix(locale)| }

  datatype Collision = Collision(root: Step, name: string, suffix: string)

  function NameCollisions(root: Step, name: string, locales: seq<string>): seq<Collision> {
    if locales == [] then []
    else
      var own := if Collides(name, locales[0]) then [Collision(root, name, Suffix(locales[0]))] else [];
      own + NameCollisions(root, name, locales[1..])
  }

  function VisitCollisions(root: Step, vs: seq<Visit>, locales: seq<string>): seq<Collision> {
    if vs == [] then [] else NameCollisions(root, vs[0].field.name, locales) + VisitCollisions(root, vs[1..], locales)
  }

  function AllCollisions(ds: seq<Definition>, locales: seq<string>): seq<Collision> {
    if ds == [] then []
    else VisitCollisions(ds[0].root, Visits(ds[0].fields, [ds[0].root]), locales) + AllCollisions(ds[1..], locales)
  }

  lemma {:induction false} CollisionsAppend(root: Step, a: seq<Visit>, b: seq<Visit>, locales: seq<string>)
    ensures VisitCollisions(root, a + b, locales) == VisitCollisions(root, a, locales) + VisitCollisions(root, b, locales)
  {
    hide NameCollisions;
    if a == [] {
      assert a + b == b;
    } else {
      assert (a + b)[1..] == a[1..] + b;
      CollisionsAppend(root, a[1..], b, locales);
    }
  }

  lemma {:induction false} CollisionsOf(root: Step, f: Field, source: seq<Step>, locales: seq<string>)
    ensures VisitCollisions(root, VisitsOf(f, source), locales)
         == NameCollisions(root, f.name, locales) + VisitCollisions(root, Visits(f.fields, source), locales)
          + VisitCollisions(root, BlockVisits(f.blocks, source), locales) + VisitCollisions(root, TabVisits(f.tabs, 0, source), locales)
  {
    hide NameCollisions, Visits, BlockVisits, TabVisits;
    var own := [Visit(source, f)];
    CollisionsAppend(root, own, Visits(f.fields, source), locales);
    CollisionsAppend(root, own + Visits(f.fields, source), BlockVisits(f.blocks, source), locales);
    CollisionsAppend(root, own + Visits(f.fields, source) + BlockVisits(f.blocks, source), TabVisits(f.tabs, 0, source), locales);
    assert own[1..] == [];
  }

  lemma {:induction false} NoCollisions(root: Step, locales: seq<string>)
    ensures VisitCollisions(root, [], locales) == []
  {}

  class LocaleCheck {
    const locales: seq<string>
    var collisions: seq<Collision>

    constructor (locales: seq<string>)
      ensures this.locales == locales && collisions == []
    {
      this.locales := locales;
      collisions := [];
    }

    method CheckName(root: Step, name: string)
      modifies this
      ensures collisions == old(collisions) + NameCollisions(root, name, locales)
    {
      hide Collides;
      var i := 0;
      assert locales[0..] == locales;
      while i < |locales|
        invariant 0 <= i <= |locales|
        invariant old(collisions) + NameCollisions(root, name, locales) == collisions + NameCollisions(root, name, locales[i..])
      {
        assert locales[i..][0] == locales[i] && locales[i..][1..] == locales[i + 1..];
        if Collides(name, locales[i]) {
          collisions := collisions + [Collision(root, name, Suffix(locales[i]))];
        }
        i := i + 1;
      }
      assert locales[i..] == [];
    }

    method WalkDefinitions(ds: seq<Definition>)
      modifies this
      ensures collisions == old(collisions) + AllCollisions(ds, locales)
    {
      hide VisitCollisions, Visits, AllCollisions;
      var i := 0;
      assert ds[0..] == ds;
      while i < |ds|
        invariant 0 <= i <= |ds|
        invariant old(collisions) + AllCollisions(ds, locales) == collisions + AllCollisions(ds[i..], locales)
      {
        assert ds[i..][0] == ds[i] && ds[i..][1..] == ds[i + 1..];
        AllCollisionsTurn(ds[i..], locales);
        WalkFields(ds[i].fields, ds[i].root, [ds[i].root]);
        i := i + 1;
      }
      AllCollisionsTurn(ds[i..], locales);
    }

    method WalkFields(fields: seq<Field>, root: Step, ghost source: seq<Step>)
      modifies this
      ensures collisions == old(collisions) + VisitCollisions(root, Visits(fields, source), locales)
      decreases fields, 0
    {
      hide VisitCollisions, VisitsOf;
      NoCollisions(root, locales);
      var i := 0;
      assert fields[0..] == fields;
      while i < |fields|
        invariant 0 <= i <= |fields|
        invariant old(collisions) + VisitCollisions(root, Visits(fields, source), locales)
               == collisions + VisitCollisions(root, Visits(fields[i..], source), locales)
      {
        assert fields[i..][0] == fields[i] && fields[i..][1..] == fields[i + 1..];
        ghost var inner := source + [InField(fields[i].name)];
        CollisionsAppend(root, VisitsOf(fields[i], inner), Visits(fields[i + 1..], source), locales);
        WalkField(fields[i], root, inner);
        i := i + 1;
      }
      assert fields[i..] == [];
    }

    method WalkField(f: Field, root: Step, ghost source: seq<Step>)
      modifies this
      ensures collisions == old(collisions) + VisitCollisions(root, VisitsOf(f, source), locales)
      decreases f, 1
    {
      hide NameCollisions, VisitCollisions;
      CollisionsOf(root, f, source, locales);
      CheckName(root, f.name);
      WalkFields(f.fields, root, source);
      WalkBlocks(f, root, source);
      WalkTabs(f, root, source);
    }

    method WalkBlocks(f: Field, root: Step, ghost source: seq<Step>)
      modifies this
      ensures collisions == old(collisions) + VisitCollisions(root, BlockVisits(f.blocks, source), locales)
      decreases f, 0
    {
      hide VisitCollisions, Visits;
      NoCollisions(root, locales);
      var i := 0;
      assert f.blocks[0..] == f.blocks;
      while i < |f.blocks|
        invariant 0 <= i <= |f.blocks|
        invariant old(collisions) + VisitCollisions(root, BlockVisits(f.blocks, source), locales)
               == collisions + VisitCollisions(root, BlockVisits(f.blocks[i..], source), locales)
      {
        assert f.blocks[i..][0] == f.blocks[i] && f.blocks[i..][1..] == f.blocks[i + 1..];
        ghost var inner := source + [InBlock(f.blocks[i].blockType)];
        CollisionsAppend(root, Visits(f.blocks[i].fields, inner), BlockVisits(f.blocks[i + 1..], source), locales);
        WalkFields(f.blocks[i].fields, root, inner);
        i := i + 1;
      }
      assert f.blocks[i..] == [];
    }

    method WalkTabs(f: Field, root: Step, ghost source: seq<Step>)
      modifies this
      ensures collisions == old(collisions) + VisitCollisions(root, TabVisits(f.tabs, 0, source), locales)
      decreases f, 0
    {
      hide VisitCollisions, Visits;
      NoCollisions(root, locales);
      var i := 0;
      assert f.tabs[0..] == f.tabs;
      while i < |f.tabs|
        invariant 0 <= i <= |f.tabs|
        invariant old(collisions) + VisitCollisions(root, TabVisits(f.tabs, 0, source), locales)
               == collisions + VisitCollisions(root, TabVisits(f.tabs[i..], i, source), locales)
      {
        assert f.tabs[i..][0] == f.tabs[i] && f.tabs[i..][1..] == f.tabs[i + 1..];
        ghost var inner := source + [InTab(i, f.tabs[i].heading)];
        CollisionsAppend(root, Visits(f.tabs[i].fields, inner), TabVisits(f.tabs[i + 1..], i + 1, source), locales);
        WalkFields(f.tabs[i].fields, root, inner);
        i := i + 1;
      }
      assert f.tabs[i..] == [];
    }
  }

  lemma {:induction false} AllCollisionsTurn(ds: seq<Definition>, locales: seq<string>)
    ensures ds != [] ==>
              AllCollisions(ds, locales)
              == VisitCollisions(ds[0].root, Visits(ds[0].fields, [ds[0].root]), locales) + AllCollisions(ds[1..], locales)
    ensures ds == [] ==> AllCollisions(ds, locales) == []
  {
    hide VisitCollisions, Visits;
  }

  method ValidateLocaleFieldCollisions(ds: seq<Definition>, locales: seq<string>) returns (collisions: seq<Collision>)
    ensures collisions == AllCollisions(ds, locales)
  {
    hide AllCollisions;
    if locales == [] {
      NoLocales(ds);
      return [];
    }
    var check := new LocaleCheck(locales);
    check.WalkDefinitions(ds);
    assert [] + AllCollisions(ds, locales) == AllCollisions(ds, locales);
    return check.collisions;
  }

  lemma {:induction false} NoLocales(ds: seq<Definition>)
    ensures AllCollisions(ds, []) == []
  {
    if ds != [] {
      NoLocaleVisits(ds[0].root, Visits(ds[0].fields, [ds[0].root]));
      NoLocales(ds[1..]);
    }
  }

  lemma {:induction false} NoLocaleVisits(root: Step, vs: seq<Visit>)
    ensures VisitCollisions(root, vs, []) == []
  {
    if vs != [] { NoLocaleVisits(root, vs[1..]); }
  }

  // ----- what the walk for collisions promises -----

  predicate NameOk(name: string, locales: seq<string>) { forall l <- locales :: !Collides(name, l) }

  /** No name declared anywhere in the definition collides. */
  ghost predicate NamesOk(d: Definition, locales: seq<string>) {
    forall name :: Declares(d, name) ==> NameOk(name, locales)
  }

  /** A name declared anywhere in a definition, through sub-fields, blocks and tabs. */
  ghost predicate Declares(d: Definition, name: string) { exists f :: Reachable(d.fields, f) && f.name == name }

  lemma {:induction false} NameIff(root: Step, name: string, locales: seq<string>)
    ensures NameCollisions(root, name, locales) == [] <==> NameOk(name, locales)
  {
    hide Collides;
    if locales != [] {
      NameIff(root, name, locales[1..]);
      forall l ensures l in locales <==> l == locales[0] || l in locales[1..] {}
    }
  }

  lemma {:induction false} VisitNamesIff(root: Step, vs: seq<Visit>, locales: seq<string>)
    ensures VisitCollisions(root, vs, locales) == [] <==> forall v <- vs :: NameOk(v.field.name, locales)
  {
    hide NameCollisions, NameOk;
    if vs != [] {
      NameIff(root, vs[0].field.name, locales);
      VisitNamesIff(root, vs[1..], locales);
      forall v ensures v in vs <==> v == vs[0] || v in vs[1..] {}
    }
  }

  lemma {:induction false} DefinitionNamesIff(d: Definition, locales: seq<string>)
    ensures VisitCollisions(d.root, Visits(d.fields, [d.root]), locales) == []
       <==> NamesOk(d, locales)
  {
    hide NameCollisions, VisitCollisions, NameOk, Visits, Reachable;
    var vs := Visits(d.fields, [d.root]);
    VisitNamesIff(d.root, vs, locales);
    forall f ensures Reachable(d.fields, f) <==> exists v <- vs :: v.field == f { ReachableIff(d.fields, [d.root], f); }
    if forall v <- vs :: NameOk(v.field.name, locales) {
      forall name | Declares(d, name) ensures NameOk(name, locales) {
        var f :| Reachable(d.fields, f) && f.name == name;
      }
    }
    if forall name :: Declares(d, name) ==> NameOk(name, locales) {
      forall v | v in vs ensures NameOk(v.field.name, locales) {
        assert Reachable(d.fields, v.field);
        assert Declares(d, v.field.name);
      }
    }
  }

  lemma {:induction false} CollidesIff(name: string, locale: string)
    ensures Collides(name, locale) <==> exists base :: base != [] && name == base + "__" + locale
  {
    if Collides(name, locale) {
      var base := name[..|name| - |Suffix(locale)|];
      assert name == base + "__" + locale;
    }
    if base :| base != [] && name == base + "__" + locale {
      assert base + "__" + locale == base + Suffix(locale);
    }
  }

  lemma {:induction false} InNames(root: Step, name: string, locales: seq<string>, c: Collision)
    ensures c in NameCollisions(root, name, locales)
       <==> c.root == root && c.name == name && exists l <- locales :: c.suffix == "__" + l && Collides(name, l)
  {
    hide Collides;
    if locales != [] {
      InNames(root, name, locales[1..], c);
      forall l ensures l in locales <==> l == locales[0] || l in locales[1..] {}
    }
  }

  lemma {:induction false} InVisitCollisions(root: Step, vs: seq<Visit>, locales: seq<string>, c: Collision)
    ensures c in VisitCollisions(root, vs, locales) <==> exists v <- vs :: c in NameCollisions(root, v.field.name, locales)
  {
    hide NameCollisions;
    if vs != [] {
      InVisitCollisions(root, vs[1..], locales, c);
      forall v ensures v in vs <==> v == vs[0] || v in vs[1..] {}
    }
  }

  /** A name declared anywhere in the definition is another name with the suffix of a locale. */
  ghost predicate Clashes(d: Definition, locales: seq<string>, c: Collision) {
    && c.root == d.root && Declares(d, c.name)
    && exists l <- locales, base :: base != [] && c.suffix == "__" + l && c.name == base + "__" + l
  }

  lemma {:induction false} InDefinitionCollisions(d: Definition, locales: seq<string>, c: Collision)
    ensures c in VisitCollisions(d.root, Visits(d.fields, [d.root]), locales) <==> Clashes(d, locales, c)
  {
    hide NameCollisions, VisitCollisions, Visits, Reachable, Collides;
    var vs := Visits(d.fields, [d.root]);
    InVisitCollisions(d.root, vs, locales, c);
    forall v | v in vs
      ensures c in NameCollisions(d.root, v.field.name, locales)
         <==> c.root == d.root && c.name == v.field.name && exists l <- locales :: c.suffix == "__" + l && Collides(c.name, l)
    {
      InNames(d.root, v.field.name, locales, c);
    }
    forall f ensures Reachable(d.fields, f) <==> exists v <- vs :: v.field == f { ReachableIff(d.fields, [d.root], f); }
    forall l | l in locales ensures Collides(c.name, l) <==> exists base :: base != [] && c.name == base + "__" + l {
      CollidesIff(c.name, l);
    }
  }

  /** The errors are exactly the names declared at any depth that are another name with a locale suffix. */
  lemma {:induction false} CollisionIff(ds: seq<Definition>, locales: seq<string>, c: Collision)
    ensures c in AllCollisions(ds, locales) <==> exists d <- ds :: Clashes(d, locales, c)
  {
    hide VisitCollisions, Visits, Clashes;
    if ds != [] {
      InDefinitionCollisions(ds[0], locales, c);
      CollisionIff(ds[1..], locales, c);
      forall d ensures d in ds <==> d == ds[0] || d in ds[1..] {}
    }
  }

  /** Startup accepts exactly when no name declared at any depth is another name with a locale suffix. */
  lemma {:induction false} LocalesAcceptedIff(ds: seq<Definition>, locales: seq<string>)
    ensures AllCollisions(ds, locales) == [] <==> forall d <- ds :: NamesOk(d, locales)
  {
    hide VisitCollisions, Visits, NamesOk;
    if ds != [] {
      DefinitionNamesIff(ds[0], locales);
      LocalesAcceptedIff(ds[1..], locales);
      forall d ensures d in ds <==> d == ds[0] || d in ds[1..] {}
    }
  }

  // ----- columns -----

  /** The column of a localized field. */
  function Column(name: string, locale: string): string { name + Suffix(locale) }

  /** A locale code that neither starts with an underscore nor holds two in a row. */
  predicate PlainLocale(l: string) {
    (l != [] ==> l[0] != '_') && forall i :: 0 <= i < |l| - 1 && l[i] == '_' ==> l[i + 1] != '_'
  }

  lemma {:induction false} ColumnEnds(name: string, locale: string)
    ensures EndsWith(Column(name, locale), Suffix(locale))
  {}

  /** The longer code `m` ends in what the shorter one adds to a name. */
  predicate Overlaps(l: string, m: string) { m == "_" + l || EndsWith(m, "__" + l) }

  lemma {:induction false} LongerOverlaps(f: string, l: string, g: string, m: string)
    requires Column(f, l) == Column(g, m) && |l| < |m|
    ensures Overlaps(l, m)
  {
    var c, k := Column(f, l), |m| - |l|;
    var at := |c| - |m|;
    assert c[|c| - |m|..] == m && c[|c| - |l|..] == l;
    assert c[|f|] == '_' && c[|f| + 1] == '_';
    if k == 1 {
      assert m[0] == c[at] == '_' && m[1..] == l;
    } else {
      assert m[k - 2..] == c[|f|..] == "__" + l;
    }
  }

  lemma {:induction false} OverlapCoincides(l: string, m: string) returns (f: string, g: string)
    requires Overlaps(l, m)
    ensures f != [] && g != [] && f != g && Column(f, l) == Column(g, m)
  {
    g := "a";
    if m == "_" + l {
      f := "a_";
      assert "a_" + ("__" + l) == "a" + ("__" + ("_" + l));
    } else {
      var p := m[..|m| - |"__" + l|];
      f := "a__" + p;
      assert m == p + ("__" + l);
      assert "a__" + p + ("__" + l) == "a" + ("__" + (p + ("__" + l)));
    }
  }

  lemma {:induction false} SameLocale(f: string, g: string, l: string)
    requires Column(f, l) == Column(g, l)
    ensures f == g
  {
    assert |f| == |g|;
    assert Column(f, l)[..|f|] == f && Column(g, l)[..|g|] == g;
  }

  lemma {:induction false} EqualLengths(f: string, l: string, g: string, m: string)
    requires Column(f, l) == Column(g, m) && |l| == |m|
    ensures l == m
  {
    assert Column(f, l)[|Column(f, l)| - |l|..] == l && Column(g, m)[|Column(g, m)| - |m|..] == m;
  }

  /** The columns of two locale codes can coincide exactly when one code is the other behind an
      underscore, or ends in two underscores and the other. */
  lemma {:induction false} CoincideIff(l: string, m: string)
    requires l != m
    ensures (exists f, g :: Column(f, l) == Column(g, m)) <==> Overlaps(l, m) || Overlaps(m, l)
  {
    hide Overlaps;
    if f, g :| Column(f, l) == Column(g, m) {
      if |l| < |m| {
        LongerOverlaps(f, l, g, m);
      } else if |m| < |l| {
        LongerOverlaps(g, m, f, l);
      } else {
        EqualLengths(f, l, g, m);
      }
    }
    if Overlaps(l, m) { var f, g := OverlapCoincides(l, m); }
    if Overlaps(m, l) { var g, f := OverlapCoincides(m, l); }
  }

  /** No column of one locale is a column of another, and no locale joins two names. */
  ghost predicate AllColumnsDistinct(locales: seq<string>) {
    forall f, g, l, m | l in locales && m in locales && Column(f, l) == Column(g, m) :: f == g && l == m
  }

  /** All columns are different, whatever the names, exactly when no two codes of the list overlap. */
  lemma {:induction false} ColumnsDistinctIff(locales: seq<string>)
    ensures AllColumnsDistinct(locales)
       <==> forall l, m | l in locales && m in locales && l != m :: !Overlaps(l, m)
  {
    hide Overlaps, Column;
    if forall l, m | l in locales && m in locales && l != m :: !Overlaps(l, m) {
      forall f, g, l, m | l in locales && m in locales && Column(f, l) == Column(g, m) ensures f == g && l == m {
        if l == m { SameLocale(f, g, l); } else { CoincideIff(l, m); }
      }
    }
    if AllColumnsDistinct(locales) {
      forall l, m | l in locales && m in locales && l != m ensures !Overlaps(l, m) {
        if Overlaps(l, m) { var f, g := OverlapCoincides(l, m); }
      }
    }
  }

  lemma {:induction false} OverlapNotPlain(l: string, m: string)
    requires Overlaps(l, m)
    ensures !PlainLocale(m)
  {
    if m != "_" + l {
      var at := |m| - |"__" + l|;
      assert m[at..][0] == '_' && m[at..][1] == '_';
      assert m[at] == '_' && m[at + 1] == '_';
    }
  }

  lemma {:induction false} PlainApart(l: string, m: string)
    requires PlainLocale(m)
    ensures !Overlaps(l, m)
  {
    hide PlainLocale, Overlaps;
    if Overlaps(l, m) { OverlapNotPlain(l, m); }
  }

  /** In particular with plain locale codes: a column determines its field and its locale. */
  lemma {:induction false} ColumnsDistinct(f: string, l: string, g: string, m: string)
    requires PlainLocale(l) && PlainLocale(m)
    ensures Column(f, l) == Column(g, m) <==> f == g && l == m
  {
    PlainApart(l, m);
    PlainApart(m, l);
    hide Overlaps, PlainLocale;
    ColumnsDistinctIff([l, m]);
  }

  /** Once startup accepts, no generated column is a declared field. */
  lemma {:induction false} ColumnsAreNew(ds: seq<Definition>, locales: seq<string>, d: Definition, name: string, l: string)
    requires AllCollisions(ds, locales) == [] && d in ds && l in locales && name != []
    ensures !Declares(d, Column(name, l))
  {
    LocalesAcceptedIff(ds, locales);
    hide AllCollisions, Declares;
    ColumnEnds(name, l);
    assert NamesOk(d, locales);
    assert Collides(Column(name, l), l);
    assert !NameOk(Column(name, l), locales);
  }

  /** Two ways for columns to coincide though startup accepts the names: a code that starts with an
      underscore, and a code that ends in two underscores and another. */
  lemma {:induction false} UnderscoreCollides()
    ensures Column("a", "_x") == Column("a_", "x")
    ensures NameOk("a", ["_x", "x"]) && NameOk("a_", ["_x", "x"])
    ensures Column("a", "p__x") == Column("a__p", "x")
    ensures NameOk("a", ["p__x", "x"]) && NameOk("a__p", ["p__x", "x"])
  {
    assert Column("a", "_x") == "a___x" == Column("a_", "x");
    assert Column("a", "p__x") == "a__p__x" == Column("a__p", "x");
    var s := "a__p";
    assert s[1..] == "__p" && Suffix("x") == "__x" && Suffix("x")[2] == 'x' && s[1..][2] == 'p';
    assert |Suffix("p__x")| == 6;
  }
}
