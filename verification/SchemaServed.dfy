/** What a served tool schema means against the schema it was made from: stripping first, then
    inlining, with references followed on both sides. */
module SchemaServed {
  import opened Wrappers
  import opened Json
  import opened Schema
  import opened SchemaMeaning
  import opened SchemaBudget
  import opened SchemaSanitize
  import opened SchemaAlone

  /** Where a path leads, references followed. */
  datatype Landing = Endless | Nowhere | On(value: Json)

  function Land(v: Json, defs: seq<Member>, path: seq<Selector>, fuel: nat): Landing
    decreases |path|, fuel
  {
    match Target(v, defs)
    case Some(def) => if fuel == 0 then Endless else Land(def, defs, path, fuel - 1)
    case None =>
      if path == [] then On(v)
      else
        match Child(v, path[0])
        case Some(c) => Land(c, defs, path[1..], fuel)
        case None => Nowhere
  }

  /** The path passes through, or ends at, a numeric format, references followed. */
  ghost predicate Hits(v: Json, defs: seq<Member>, path: seq<Selector>, fuel: nat)
    decreases |path|, fuel
  {
    match Target(v, defs)
    case Some(def) => fuel > 0 && Hits(def, defs, path, fuel - 1)
    case None =>
      path != [] && Child(v, path[0]).Some? &&
      (|| (path[0].Key? && NumericFormat(Member(path[0].name, Child(v, path[0]).value)))
       || Hits(Child(v, path[0]).value, defs, path[1..], fuel))
  }

  function StripDefs(defs: seq<Member>): seq<Member> {
    StripMembers(Kept(defs), defs)
  }

  lemma NameStripped(v: Json)
    ensures v.Str? ==> Strip(v) == v
    ensures !v.Str? ==> !Strip(v).Str?
    ensures v.Obj? <==> Strip(v).Obj?
  {
  }

  lemma RefStripped(v: Json)
    requires v.Obj?
    ensures Get(Strip(v).members, "$ref") ==
            match Get(v.members, "$ref") case Some(c) => Some(Strip(c)) case None => None
  {
    ChildStripped(v, Key("$ref"));
    hide Strip, Get;
  }

  lemma DefStripped(defs: seq<Member>, name: string)
    ensures Get(StripDefs(defs), name) ==
            match Get(defs, name)
            case None => None
            case Some(c) => if NumericFormat(Member(name, c)) then None else Some(Strip(c))
  {
    ChildStripped(Obj(defs), Key(name));
    assert Strip(Obj(defs)) == Obj(StripDefs(defs));
    hide Strip, Get, NumericFormat, StripDefs;
  }

  /** Stripping changes no reference: a stripped value stands for the stripped definition. */
  lemma TargetStripped(v: Json, defs: seq<Member>)
    ensures Target(Strip(v), StripDefs(defs)) ==
            match Target(v, defs) case Some(def) => Some(Strip(def)) case None => None
  {
    NameStripped(v);
    hide Strip, Get, StripDefs;
    if v.Obj? {
      RefStripped(v);
      var ref := Get(v.members, "$ref");
      if ref.Some? {
        NameStripped(ref.value);
        if ref.value.Str? && REF_PREFIX <= ref.value.value {
          var name := ref.value.value[|REF_PREFIX|..];
          DefStripped(defs, name);
          if Get(defs, name).Some? {
            NameStripped(Get(defs, name).value);
          }
        }
      }
    }
  }

  /** Stripping commutes with following a path: one that meets a numeric format leads nowhere
      afterwards, any other leads to what it led to before, stripped. */
  lemma {:induction false} LandStripped(v: Json, defs: seq<Member>, path: seq<Selector>, fuel: nat)
    ensures Land(Strip(v), StripDefs(defs), path, fuel) ==
            if Hits(v, defs, path, fuel) then Nowhere
            else match Land(v, defs, path, fuel) case On(x) => On(Strip(x)) case other => other
    decreases |path|, fuel
  {
    TargetStripped(v, defs);
    hide Target, Strip, StripDefs, NumericFormat;
    match Target(v, defs)
    case Some(def) =>
      if fuel > 0 {
        LandStripped(def, defs, path, fuel - 1);
      }
    case None =>
      if path != [] {
        ChildStripped(v, path[0]);
        hide Child;
        if Child(v, path[0]).Some? {
          LandStripped(Child(v, path[0]).value, defs, path[1..], fuel);
        }
      }
  }

  function Seen(landing: Landing): Reading {
    match landing
    case Endless => Unfinished
    case Nowhere => Missing
    case On(x) => Found(ShapeOf(x))
  }

  lemma {:induction false} ReadIsLand(v: Json, defs: seq<Member>, path: seq<Selector>, fuel: nat)
    ensures Read(v, defs, path, fuel) == Seen(Land(v, defs, path, fuel))
    decreases |path|, fuel
  {
    hide Target, ShapeOf, Child;
    match Target(v, defs)
    case Some(def) =>
      if fuel > 0 {
        ReadIsLand(def, defs, path, fuel - 1);
      }
    case None =>
      if path != [] && Child(v, path[0]).Some? {
        ReadIsLand(Child(v, path[0]).value, defs, path[1..], fuel);
      }
  }

  /** An object with a numeric format of its own. */
  predicate Carries(v: Json) {
    v.Obj? && Get(v.members, "format").Some? && NumericFormat(Member("format", Get(v.members, "format").value))
  }

  /** The path meets no numeric format, and ends at no object that has one. */
  ghost predicate Untouched(v: Json, defs: seq<Member>, path: seq<Selector>, fuel: nat) {
    !Hits(v, defs, path, fuel) && (Land(v, defs, path, fuel).On? ==> !Carries(Land(v, defs, path, fuel).value))
  }

  lemma ShapeStripped(v: Json)
    requires !Carries(v)
    ensures ShapeOf(Strip(v)) == ShapeOf(v)
  {
    if v.Obj? {
      assert Kept(v.members) == v.members;
      assert Keys(Strip(v).members) == Keys(v.members);
    }
  }

  /** Where nothing was taken away, stripping changes no reading. */
  lemma UntouchedReads(v: Json, defs: seq<Member>, path: seq<Selector>, fuel: nat)
    requires Untouched(v, defs, path, fuel)
    ensures Read(Strip(v), StripDefs(defs), path, fuel) == Read(v, defs, path, fuel)
  {
    LandStripped(v, defs, path, fuel);
    ReadIsLand(v, defs, path, fuel);
    ReadIsLand(Strip(v), StripDefs(defs), path, fuel);
    var landing := Land(v, defs, path, fuel);
    if landing.On? {
      ShapeStripped(landing.value);
    }
    hide Strip, StripDefs, ShapeOf, Hits, Land, Carries, Read;
  }

  // ---- the root and its definitions -----------------------------------------------------

  lemma {:induction false} RemovesCommute(members: seq<Member>, a: string, b: string)
    ensures Remove(Remove(members, a), b) == Remove(Remove(members, b), a)
  {
    if members != [] {
      RemovesCommute(members[1..], a, b);
      var m := members[0];
      assert ([m] + Remove(members[1..], a))[1..] == Remove(members[1..], a);
      assert ([m] + Remove(members[1..], b))[1..] == Remove(members[1..], b);
    }
  }

  lemma {:induction false} RemoveStripped(kept: seq<Member>, all: seq<Member>, key: string, rest: seq<Member>)
    requires (forall m :: m in kept ==> m in all) && forall m :: m in Remove(kept, key) ==> m in rest
    ensures Remove(StripMembers(kept, all), key) == StripMembers(Remove(kept, key), rest)
  {
    var stripped := StripMembers(kept, all);
    if kept != [] {
      assert stripped[0].key == kept[0].key && stripped[1..] == StripMembers(kept[1..], all);
      RemoveStripped(kept[1..], all, key, rest);
      if kept[0].key != key {
        assert Remove(kept, key)[1..] == Remove(kept[1..], key);
      }
    }
  }

  /** Taking the definitions out and stripping come to the same in either order. */
  lemma RootStripped(schema: seq<Member>)
    ensures Obj(Remove(Strip(Obj(schema)).members, "$defs")) == Strip(Obj(Remove(schema, "$defs")))
  {
    var root := Remove(schema, "$defs");
    GetRemoved(schema, "$defs", "format");
    RemovesCommute(schema, "format", "$defs");
    assert Remove(Kept(schema), "$defs") == Kept(root);
    RemoveStripped(Kept(schema), schema, "$defs", root);
  }

  /** The definitions a stripped schema keeps are the stripped ones. */
  lemma DefsStripped(schema: seq<Member>, defs: seq<Member>)
    requires Get(schema, "$defs") == Some(Obj(defs))
    ensures Get(Strip(Obj(schema)).members, "$defs") == Some(Obj(StripDefs(defs)))
  {
    ChildStripped(Obj(schema), Key("$defs"));
    assert Strip(Obj(defs)) == Obj(StripDefs(defs));
  }

  /** References of the stripped schema nest finitely and unfold within the budget. */
  ghost predicate Affordable(schema: seq<Member>, defs: seq<Member>) {
    var root := Strip(Obj(Remove(schema, "$defs")));
    Fits(root, StripDefs(defs), BUDGET) && Cost(root, StripDefs(defs), BUDGET) <= BUDGET
  }

  /** What the original schema, its references followed in its own definitions, says of a path
      once numeric formats are ignored. */
  ghost predicate MeansIgnoringFormats(v: Json, defs: seq<Member>, path: seq<Selector>, r: Reading) {
    r != Unfinished && exists fuel: nat :: ReadIgnoringFormats(v, defs, path, fuel) == r
  }

  ghost function ReadIgnoringFormats(v: Json, defs: seq<Member>, path: seq<Selector>, fuel: nat): Reading {
    if Hits(v, defs, path, fuel) then Missing
    else match Land(v, defs, path, fuel) case On(x) => Found(ShapeOf(Strip(x))) case other => Seen(other)
  }

  lemma ReadStripped(v: Json, defs: seq<Member>, path: seq<Selector>, fuel: nat)
    ensures ReadIgnoringFormats(v, defs, path, fuel) == Read(Strip(v), StripDefs(defs), path, fuel)
  {
    LandStripped(v, defs, path, fuel);
    ReadIsLand(Strip(v), StripDefs(defs), path, fuel);
    hide Strip, StripDefs, Read, Land, Hits, ShapeOf;
  }

  /** Every path means without definitions what it meant with them, numeric formats ignored. */
  ghost predicate StandsForIgnoringFormats(v: Json, defs: seq<Member>, alone: Json) {
    forall path, r :: MeansIgnoringFormats(v, defs, path, r) <==> Means(alone, [], path, r)
  }

  /** The original and the served schema say the same, numeric formats ignored. */
  ghost predicate Serves(schema: seq<Member>, defs: seq<Member>) {
    StandsForIgnoringFormats(Obj(Remove(schema, "$defs")), defs, Obj(Sanitize(schema)))
  }

  lemma MeansStripped(v: Json, defs: seq<Member>, path: seq<Selector>, r: Reading)
    ensures MeansIgnoringFormats(v, defs, path, r) <==> Means(Strip(v), StripDefs(defs), path, r)
  {
    hide Strip, StripDefs, Read, ReadIgnoringFormats;
    forall fuel: nat
      ensures ReadIgnoringFormats(v, defs, path, fuel) == Read(Strip(v), StripDefs(defs), path, fuel)
    {
      ReadStripped(v, defs, path, fuel);
    }
  }

  lemma StandsForStripped(v: Json, defs: seq<Member>, alone: Json)
    ensures StandsForIgnoringFormats(v, defs, alone) <==> StandsFor(Strip(v), StripDefs(defs), alone)
  {
    hide Strip, StripDefs, Means, MeansIgnoringFormats;
    forall path, r
      ensures MeansIgnoringFormats(v, defs, path, r) <==> Means(Strip(v), StripDefs(defs), path, r)
    {
      MeansStripped(v, defs, path, r);
    }
  }

  /** The served schema, read with no definitions at all, says of every path exactly what the
      original says of it with its own, numeric formats ignored, if and only if its references nest
      finitely and unfolding them all is within the budget. */
  lemma ServedMeansOriginal(schema: seq<Member>, defs: seq<Member>)
    requires Distinct(Obj(schema)) && Get(schema, "$defs") == Some(Obj(defs))
    ensures Serves(schema, defs) <==> Affordable(schema, defs)
  {
    hide Get, Remove, Strip, StripDefs, Fits, Cost, StandsFor, StandsForIgnoringFormats, Sanitize, Distinct;
    RootStripped(schema);
    DefsStripped(schema, defs);
    ServedSchemaStandsAlone(schema, StripDefs(defs));
    StandsForStripped(Obj(Remove(schema, "$defs")), defs, Obj(Sanitize(schema)));
  }

  /** On a path that meets no numeric format, and ends at no object with one, the served schema says
      just what the original says: with the definitions still at hand always, without them when
      unfolding is affordable. */
  lemma ServedMeansOriginalUntouched(schema: seq<Member>, defs: seq<Member>, path: seq<Selector>, r: Reading)
    requires Get(schema, "$defs") == Some(Obj(defs))
    requires forall fuel: nat :: Untouched(Obj(Remove(schema, "$defs")), defs, path, fuel)
    ensures Means(Obj(Remove(schema, "$defs")), defs, path, r)
       <==> Means(Obj(Sanitize(schema)), StripDefs(defs), path, r)
    ensures Affordable(schema, defs) ==>
            (Means(Obj(Remove(schema, "$defs")), defs, path, r) <==> Means(Obj(Sanitize(schema)), [], path, r))
  {
    var root := Obj(Remove(schema, "$defs"));
    RootStripped(schema);
    DefsStripped(schema, defs);
    CompleteIffAffordable(Strip(root), StripDefs(defs), BUDGET);
    InliningPreservesMeaning(Strip(root), StripDefs(defs), BUDGET, path, r);
    hide Strip, StripDefs, Inline, RefFree, Fits, Cost, Read, Untouched;
    if Affordable(schema, defs) {
      UnfoldedStandsAlone(Strip(root), StripDefs(defs), BUDGET, path, r);
    }
    forall fuel: nat
      ensures Read(root, defs, path, fuel) == Read(Strip(root), StripDefs(defs), path, fuel)
    {
      assert Untouched(root, defs, path, fuel);
      UntouchedReads(root, defs, path, fuel);
    }
  }

  // ---- recursive types -------------------------------------------------------------------

  /** A schema whose references lead into definitions that refer to one another is never served
      with its meaning, whatever the budget. */
  lemma RecursiveTypeIsNotServed(schema: seq<Member>, defs: seq<Member>, cycle: set<Json>)
    requires Distinct(Obj(schema)) && Get(schema, "$defs") == Some(Obj(defs))
    requires EntersCycle(Strip(Obj(Remove(schema, "$defs"))), StripDefs(defs), cycle)
    ensures !Serves(schema, defs)
  {
    hide Strip, StripDefs, Fits, Cost, EntersCycle, Serves, Distinct;
    CycleNeverFits(Strip(Obj(Remove(schema, "$defs"))), StripDefs(defs), cycle, BUDGET);
    ServedMeansOriginal(schema, defs);
  }

  const SELF := Obj([Member("$ref", Str("#/$defs/a"))])

  /** A definition that is only a reference to itself. */
  const SELF_DEFS := [Member("a", SELF)]

  lemma SelfIsItself()
    ensures Target(SELF, SELF_DEFS) == Some(SELF) && Strip(SELF) == SELF && StripDefs(SELF_DEFS) == SELF_DEFS
    ensures Distinct(SELF) && Distinct(Obj(SELF_DEFS))
  {
    var ref := "#/$defs/a";
    assert Get(SELF.members, "$ref") == Some(Str(ref));
    assert REF_PREFIX <= ref && ref[|REF_PREFIX|..] == "a";
    assert Get(SELF_DEFS, "a") == Some(SELF);
    assert Kept(SELF.members) == SELF.members && Kept(SELF_DEFS) == SELF_DEFS;
    assert StripMembers(SELF.members, SELF.members) == SELF.members;
  }

  /** It is replaced by itself until the budget is spent. */
  lemma {:induction false} SelfStays(budget: nat)
    ensures Inline(SELF, SELF_DEFS, budget) == (SELF, 0)
  {
    SelfIsItself();
    if budget == 0 {
      SpentBudget(SELF, SELF_DEFS);
    } else {
      SelfStays(budget - 1);
    }
    hide Target;
  }

  /** The schema around it: the definitions and one property that refers to them. */
  const SELF_SCHEMA := [Member("$defs", Obj(SELF_DEFS)), Member("x", SELF)]
  const SELF_ROOT := [Member("x", SELF)]

  lemma SelfRoot()
    ensures Remove(SELF_SCHEMA, "$defs") == SELF_ROOT && Strip(Obj(SELF_ROOT)) == Obj(SELF_ROOT)
    ensures Get(SELF_SCHEMA, "$defs") == Some(Obj(SELF_DEFS)) && Distinct(Obj(SELF_SCHEMA))
    ensures Target(Obj(SELF_ROOT), SELF_DEFS) == None
  {
    SelfIsItself();
    hide Target;
    assert Kept(SELF_ROOT) == SELF_ROOT;
    assert StripMembers(SELF_ROOT, SELF_ROOT) == SELF_ROOT;
    NoRefNoTarget(SELF_ROOT, SELF_DEFS);
  }

  lemma NoRefNoTarget(members: seq<Member>, defs: seq<Member>)
    requires Get(members, "$ref") == None
    ensures Target(Obj(members), defs) == None
  {
  }

  lemma SelfEntersCycle()
    ensures EntersCycle(Obj(SELF_ROOT), SELF_DEFS, {SELF})
  {
    SelfIsItself();
    SelfRoot();
    hide Target;
    assert SELF_ROOT[0] in SELF_ROOT && RefersTo(SELF_ROOT[0].value, SELF_DEFS, {SELF});
  }

  lemma SelfRootStays()
    ensures Inline(Obj(SELF_ROOT), SELF_DEFS, BUDGET).0 == Obj(SELF_ROOT)
  {
    SelfRoot();
    SelfStays(BUDGET);
    hide Target;
    assert SELF_ROOT[1..] == [];
  }

  /** It is served without its definition, and with the reference to it. */
  lemma SelfReferenceIsLeft()
    ensures Sanitize(SELF_SCHEMA) == SELF_ROOT && !Serves(SELF_SCHEMA, SELF_DEFS)
  {
    SelfIsItself();
    SelfRoot();
    RootStripped(SELF_SCHEMA);
    DefsStripped(SELF_SCHEMA, SELF_DEFS);
    SelfEntersCycle();
    SelfRootStays();
    hide Target, Strip, StripDefs, Inline, RefersTo, EntersCycle, Serves, Distinct, Remove;
    RecursiveTypeIsNotServed(SELF_SCHEMA, SELF_DEFS, {SELF});
  }
}
