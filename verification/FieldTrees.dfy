/** Field trees of collections and globals, and the order in which the boot-time walks visit them. */
module FieldTrees {
  import opened Text

  datatype FieldHooks = FieldHooks(
    beforeValidate: seq<string>, beforeChange: seq<string>, afterChange: seq<string>, afterRead: seq<string>)

  datatype FieldAccess = FieldAccess(read: Option<string>, create: Option<string>, update: Option<string>)

  datatype Field = Field(
    name: string, hooks: FieldHooks, access: FieldAccess, fields: seq<Field>, blocks: seq<Block>, tabs: seq<Tab>)

  datatype Block = Block(blockType: string, fields: seq<Field>)

  datatype Tab = Tab(heading: string, fields: seq<Field>)

  datatype Hooks = Hooks(
    beforeValidate: seq<string>, beforeChange: seq<string>, afterChange: seq<string>, beforeRead: seq<string>,
    afterRead: seq<string>, beforeDelete: seq<string>, afterDelete: seq<string>, beforeBroadcast: seq<string>)

  datatype Access = Access(
    read: Option<string>, create: Option<string>, update: Option<string>, delete: Option<string>, trash: Option<string>)

  /** A collection or a global. */
  datatype Definition = Definition(root: Step, hooks: Hooks, access: Access, fields: seq<Field>)

  /** One step of the location named in an error. */
  datatype Step =
    | InCollection(slug: string)
    | InGlobal(slug: string)
    | InField(name: string)
    | InBlock(blockType: string)
    | InTab(index: nat, heading: string)

  // ----- the walk -----

  datatype Visit = Visit(source: seq<Step>, field: Field)

  /** Every field in the order of the walk, with the location it is reported at. */
  function Visits(fs: seq<Field>, source: seq<Step>): seq<Visit>
    decreases fs, 0
  {
    if fs == [] then [] else VisitsOf(fs[0], source + [InField(fs[0].name)]) + Visits(fs[1..], source)
  }

  function VisitsOf(f: Field, source: seq<Step>): seq<Visit>
    decreases f, 0
  {
    [Visit(source, f)] + Visits(f.fields, source) + BlockVisits(f.blocks, source) + TabVisits(f.tabs, 0, source)
  }

  function BlockVisits(bs: seq<Block>, source: seq<Step>): seq<Visit>
    decreases bs, 0
  {
    if bs == [] then []
    else Visits(bs[0].fields, source + [InBlock(bs[0].blockType)]) + BlockVisits(bs[1..], source)
  }

  function TabVisits(ts: seq<Tab>, index: nat, source: seq<Step>): seq<Visit>
    decreases ts, 0
  {
    if ts == [] then []
    else Visits(ts[0].fields, source + [InTab(index, ts[0].heading)]) + TabVisits(ts[1..], index + 1, source)
  }

  // ----- where a field can stand -----

  /** From a field to one below it. */
  datatype Turn = ToField(at: nat) | ToBlock(block: nat, at: nat) | ToTab(tab: nat, at: nat)

  /** The field at a position of a list, then along a path. */
  function FieldAt(fs: seq<Field>, at: nat, path: seq<Turn>): Option<Field>
    decreases |path|
  {
    if at >= |fs| then None
    else if path == [] then Some(fs[at])
    else
      match path[0]
      case ToField(i) => FieldAt(fs[at].fields, i, path[1..])
      case ToBlock(b, i) => if b < |fs[at].blocks| then FieldAt(fs[at].blocks[b].fields, i, path[1..]) else None
      case ToTab(t, i) => if t < |fs[at].tabs| then FieldAt(fs[at].tabs[t].fields, i, path[1..]) else None
  }

  /** The location of the field at a path. */
  function Where(fs: seq<Field>, at: nat, path: seq<Turn>, source: seq<Step>): seq<Step>
    requires FieldAt(fs, at, path).Some?
    decreases |path|
  {
    var here := source + [InField(fs[at].name)];
    if path == [] then here
    else
      match path[0]
      case ToField(i) => Where(fs[at].fields, i, path[1..], here)
      case ToBlock(b, i) => Where(fs[at].blocks[b].fields, i, path[1..], here + [InBlock(fs[at].blocks[b].blockType)])
      case ToTab(t, i) => Where(fs[at].tabs[t].fields, i, path[1..], here + [InTab(t, fs[at].tabs[t].heading)])
  }

  /** The field and location of the visit are those at a path. */
  predicate IsAt(fs: seq<Field>, at: nat, path: seq<Turn>, source: seq<Step>, v: Visit) {
    FieldAt(fs, at, path) == Some(v.field) && Where(fs, at, path, source) == v.source
  }

  /** The visit is of a field that stands in the tree, with its location. */
  ghost predicate Stands(fs: seq<Field>, source: seq<Step>, v: Visit) { exists at, path :: IsAt(fs, at, path, source, v) }

  lemma {:induction false} StandsBy(fs: seq<Field>, at: nat, path: seq<Turn>, source: seq<Step>, v: Visit)
    requires IsAt(fs, at, path, source, v)
    ensures Stands(fs, source, v)
  {
    hide IsAt;
  }

  lemma {:induction false} StandsAt(fs: seq<Field>, source: seq<Step>, v: Visit) returns (at: nat, path: seq<Turn>)
    requires Stands(fs, source, v)
    ensures IsAt(fs, at, path, source, v)
  {
    hide IsAt;
    at, path :| IsAt(fs, at, path, source, v);
  }

  lemma {:induction false} VisitParts(g: Field, source: seq<Step>, v: Visit)
    ensures v in VisitsOf(g, source) <==>
              || v == Visit(source, g) || v in Visits(g.fields, source)
              || v in BlockVisits(g.blocks, source) || v in TabVisits(g.tabs, 0, source)
  {
    hide Visits, BlockVisits, TabVisits;
  }

  lemma {:induction false} AtInList(fs: seq<Field>, at: nat, source: seq<Step>, v: Visit)
    requires at < |fs| && v in VisitsOf(fs[at], source + [InField(fs[at].name)])
    ensures v in Visits(fs, source)
  {
    hide VisitsOf;
    if at > 0 { AtInList(fs[1..], at - 1, source, v); }
  }

  lemma {:induction false} AtInBlocks(bs: seq<Block>, b: nat, source: seq<Step>, v: Visit)
    requires b < |bs| && v in Visits(bs[b].fields, source + [InBlock(bs[b].blockType)])
    ensures v in BlockVisits(bs, source)
  {
    hide Visits;
    if b > 0 { AtInBlocks(bs[1..], b - 1, source, v); }
  }

  lemma {:induction false} AtInTabs(ts: seq<Tab>, t: nat, index: nat, source: seq<Step>, v: Visit)
    requires t < |ts| && v in Visits(ts[t].fields, source + [InTab(index + t, ts[t].heading)])
    ensures v in TabVisits(ts, index, source)
  {
    hide Visits;
    if t > 0 { AtInTabs(ts[1..], t - 1, index + 1, source, v); }
  }

  /** Nothing is left out: the walk visits the field at every path, and reports it where it stands. */
  lemma {:induction false} WalkIsComplete(fs: seq<Field>, at: nat, path: seq<Turn>, source: seq<Step>, v: Visit)
    requires IsAt(fs, at, path, source, v)
    ensures v in Visits(fs, source)
    decreases |path|
  {
    var g := fs[at];
    var here := source + [InField(g.name)];
    VisitParts(g, here, v);
    if path != [] {
      match path[0]
      case ToField(i) =>
        hide Visits, VisitsOf, BlockVisits, TabVisits;
        WalkIsComplete(g.fields, i, path[1..], here, v);
      case ToBlock(b, i) =>
        hide Visits, VisitsOf, BlockVisits, TabVisits;
        WalkIsComplete(g.blocks[b].fields, i, path[1..], here + [InBlock(g.blocks[b].blockType)], v);
        AtInBlocks(g.blocks, b, here, v);
      case ToTab(t, i) =>
        hide Visits, VisitsOf, BlockVisits, TabVisits;
        WalkIsComplete(g.tabs[t].fields, i, path[1..], here + [InTab(0 + t, g.tabs[t].heading)], v);
        AtInTabs(g.tabs, t, 0, here, v);
    }
    AtInList(fs, at, source, v);
  }

  /** Where a turn leads from a field reported at `here`. */
  predicate Leads(g: Field, here: seq<Step>, turn: Turn, gs: seq<Field>, inner: seq<Step>) {
    match turn
    case ToField(_) => gs == g.fields && inner == here
    case ToBlock(b, _) => b < |g.blocks| && gs == g.blocks[b].fields && inner == here + [InBlock(g.blocks[b].blockType)]
    case ToTab(t, _) => t < |g.tabs| && gs == g.tabs[t].fields && inner == here + [InTab(t, g.tabs[t].heading)]
  }

  lemma {:induction false} ThenAlong(fs: seq<Field>, source: seq<Step>, turn: Turn, gs: seq<Field>, inner: seq<Step>, v: Visit)
    requires fs != [] && Leads(fs[0], source + [InField(fs[0].name)], turn, gs, inner) && Stands(gs, inner, v)
    ensures Stands(fs, source, v)
  {
    var i, path := StandsAt(gs, inner, v);
    var first := match turn
                 case ToField(_) => ToField(i)
                 case ToBlock(b, _) => ToBlock(b, i)
                 case ToTab(t, _) => ToTab(t, i);
    assert ([first] + path)[1..] == path;
    StandsBy(fs, 0, [first] + path, source, v);
  }

  lemma {:induction false} TailStands(fs: seq<Field>, source: seq<Step>, v: Visit)
    requires fs != [] && Stands(fs[1..], source, v)
    ensures Stands(fs, source, v)
  {
    var at, path := StandsAt(fs[1..], source, v);
    StandsBy(fs, at + 1, path, source, v);
  }

  /** The walk visits nothing but the fields of the tree. */
  lemma {:induction false} WalkIsSound(fs: seq<Field>, source: seq<Step>, v: Visit)
    requires v in Visits(fs, source)
    ensures Stands(fs, source, v)
    decreases fs, 0
  {
    if fs == [] { return; }
    var g := fs[0];
    var here := source + [InField(g.name)];
    VisitsSplit(fs, source);
    VisitParts(g, here, v);
    hide Stands, Visits, VisitsOf, BlockVisits, TabVisits;
    if v == Visit(here, g) {
      StandsBy(fs, 0, [], source, v);
    } else if v in Visits(g.fields, here) {
      WalkIsSound(g.fields, here, v);
      ThenAlong(fs, source, ToField(0), g.fields, here, v);
    } else if v in BlockVisits(g.blocks, here) {
      var b := SoundBlocks(g.blocks, here, v);
      ThenAlong(fs, source, ToBlock(b, 0), g.blocks[b].fields, here + [InBlock(g.blocks[b].blockType)], v);
    } else if v in TabVisits(g.tabs, 0, here) {
      var t := SoundTabs(g.tabs, 0, here, v);
      ThenAlong(fs, source, ToTab(t, 0), g.tabs[t].fields, here + [InTab(t, g.tabs[t].heading)], v);
    } else {
      WalkIsSound(fs[1..], source, v);
      TailStands(fs, source, v);
    }
  }

  lemma {:induction false} VisitsSplit(fs: seq<Field>, source: seq<Step>)
    requires fs != []
    ensures Visits(fs, source) == VisitsOf(fs[0], source + [InField(fs[0].name)]) + Visits(fs[1..], source)
  {}

  lemma {:induction false} SoundBlocks(bs: seq<Block>, source: seq<Step>, v: Visit) returns (b: nat)
    requires v in BlockVisits(bs, source)
    ensures b < |bs| && Stands(bs[b].fields, source + [InBlock(bs[b].blockType)], v)
    decreases bs, 0
  {
    if bs != [] {
      hide Stands, Visits;
      if v in Visits(bs[0].fields, source + [InBlock(bs[0].blockType)]) {
        WalkIsSound(bs[0].fields, source + [InBlock(bs[0].blockType)], v);
        b := 0;
      } else {
        var k := SoundBlocks(bs[1..], source, v);
        b := k + 1;
      }
    }
  }

  lemma {:induction false} SoundTabs(ts: seq<Tab>, index: nat, source: seq<Step>, v: Visit) returns (t: nat)
    requires v in TabVisits(ts, index, source)
    ensures t < |ts| && Stands(ts[t].fields, source + [InTab(index + t, ts[t].heading)], v)
    decreases ts, 0
  {
    if ts != [] {
      hide Stands, Visits;
      if v in Visits(ts[0].fields, source + [InTab(index, ts[0].heading)]) {
        WalkIsSound(ts[0].fields, source + [InTab(index, ts[0].heading)], v);
        t := 0;
      } else {
        var k := SoundTabs(ts[1..], index + 1, source, v);
        t := k + 1;
      }
    }
  }

  /** The walk visits exactly the fields of the tree, each one where it stands. */
  lemma {:induction false} WalkIff(fs: seq<Field>, source: seq<Step>, v: Visit)
    ensures v in Visits(fs, source) <==> Stands(fs, source, v)
  {
    hide Visits, IsAt;
    if v in Visits(fs, source) { WalkIsSound(fs, source, v); }
    if Stands(fs, source, v) {
      var at, path := StandsAt(fs, source, v);
      WalkIsComplete(fs, at, path, source, v);
    }
  }

  /** The field stands somewhere in the tree. */
  ghost predicate Reachable(fs: seq<Field>, f: Field) { exists at, path :: FieldAt(fs, at, path) == Some(f) }

  lemma {:induction false} ReachableIff(fs: seq<Field>, source: seq<Step>, f: Field)
    ensures Reachable(fs, f) <==> exists v <- Visits(fs, source) :: v.field == f
  {
    hide Visits, FieldAt, Where;
    if Reachable(fs, f) {
      var at, path :| FieldAt(fs, at, path) == Some(f);
      var v := Visit(Where(fs, at, path, source), f);
      StandsBy(fs, at, path, source, v);
      WalkIff(fs, source, v);
    }
    if v :| v in Visits(fs, source) && v.field == f {
      WalkIff(fs, source, v);
      var at, path := StandsAt(fs, source, v);
    }
  }
}
