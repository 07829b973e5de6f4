/** When a served tool schema stands alone: read with no definitions at all, every path of it
    means what it meant with them, if and only if unfolding all references is within the budget. */
module SchemaAlone {
  import opened Wrappers
  import opened Json
  import opened Schema
  import opened SchemaMeaning
  import opened SchemaBudget
  import opened SchemaSanitize

  // ---- without references -------------------------------------------------------------

  /** Without references to follow, a value reads the same under any definitions. */
  lemma {:induction false} SelfContained(v: Json, defs: seq<Member>, other: seq<Member>, path: seq<Selector>, fuel: nat)
    requires RefFree(v, defs) && RefFree(v, other)
    ensures Read(v, defs, path, fuel) == Read(v, other, path, fuel)
    decreases |path|
  {
    hide Target, ShapeOf;
    if path != [] && Child(v, path[0]).Some? {
      ChildOfFree(v, defs, path[0]);
      ChildOfFree(v, other, path[0]);
      SelfContained(Child(v, path[0]).value, defs, other, path[1..], fuel);
    }
  }

  lemma ChildOfFree(v: Json, defs: seq<Member>, sel: Selector)
    requires RefFree(v, defs) && Child(v, sel).Some?
    ensures RefFree(Child(v, sel).value, defs)
  {
    hide Target;
    if v.Obj? {
      assert Member(sel.name, Child(v, sel).value) in v.members;
    }
  }

  lemma {:induction false} NoDefsNoRefs(v: Json)
    ensures RefFree(v, [])
    decreases v
  {
    match v
    case Obj(members) =>
      forall m | m in members
        ensures RefFree(m.value, [])
      {
        NoDefsNoRefs(m.value);
      }
    case Arr(items) =>
      forall x | x in items
        ensures RefFree(x, [])
      {
        NoDefsNoRefs(x);
      }
    case _ =>
  }

  /** References that can all be unfolded: the result needs no definitions. */
  lemma UnfoldedStandsAlone(v: Json, defs: seq<Member>, budget: nat, path: seq<Selector>, r: Reading)
    requires RefFree(Inline(v, defs, budget).0, defs)
    ensures Means(v, defs, path, r) <==> Means(Inline(v, defs, budget).0, [], path, r)
  {
    hide Inline, RefFree, Read;
    var v' := Inline(v, defs, budget).0;
    InliningPreservesMeaning(v, defs, budget, path, r);
    NoDefsNoRefs(v');
    forall fuel: nat
      ensures Read(v', defs, path, fuel) == Read(v', [], path, fuel)
    {
      SelfContained(v', defs, [], path, fuel);
    }
  }

  // ---- a leftover reference is seen ----------------------------------------------------

  /** Only a string reads as a string. */
  lemma {:induction false} StringIsRead(v: Json, defs: seq<Member>, fuel: nat, ref: string)
    requires Read(v, defs, [], fuel) == Found(StringShape(ref))
    ensures v == Str(ref)
    decreases fuel
  {
    hide Get;
    var target := Target(v, defs);
    if target.Some? {
      StringIsRead(target.value, defs, fuel - 1, ref);
    }
  }

  /** With the definitions at hand, nobody ever gets to see a reference to one of them. */
  lemma {:induction false} RefIsNeverRead(v: Json, defs: seq<Member>, fuel: nat, name: string)
    requires Get(defs, name).Some? && Get(defs, name).value.Obj?
    ensures Read(v, defs, [Key("$ref")], fuel) != Found(StringShape(REF_PREFIX + name))
    decreases fuel
  {
    var target := Target(v, defs);
    if target.Some? {
      hide Target;
      if fuel > 0 {
        RefIsNeverRead(target.value, defs, fuel - 1, name);
      }
    } else if Child(v, Key("$ref")).Some? {
      var ref := REF_PREFIX + name;
      assert REF_PREFIX <= ref && ref[|REF_PREFIX|..] == name;
      assert Child(v, Key("$ref")) != Some(Str(ref));
      assert [Key("$ref")][1..] == [];
      if Read(v, defs, [Key("$ref")], fuel) == Found(StringShape(ref)) {
        StringIsRead(Child(v, Key("$ref")).value, defs, fuel, ref);
      }
    }
  }

  lemma NoDefsNoTarget(v: Json)
    ensures Target(v, []) == None
  {
  }

  /** A path that tells: with no definitions it reads a reference, with them it never does. */
  ghost predicate Telling(v: Json, defs: seq<Member>, path: seq<Selector>, ref: string) {
    && (forall fuel: nat :: Read(v, [], path, fuel) == Found(StringShape(ref)))
    && (forall fuel: nat :: Read(v, defs, path, fuel) != Found(StringShape(ref)))
  }

  lemma RefTells(v: Json, defs: seq<Member>) returns (ref: string)
    requires Target(v, defs).Some?
    ensures Telling(v, defs, [Key("$ref")], ref)
  {
    ref := Get(v.members, "$ref").value.value;
    var name := ref[|REF_PREFIX|..];
    assert ref == REF_PREFIX + name;
    NoDefsNoTarget(v);
    NoDefsNoTarget(Str(ref));
    forall fuel: nat
      ensures Read(v, defs, [Key("$ref")], fuel) != Found(StringShape(ref))
    {
      RefIsNeverRead(v, defs, fuel, name);
    }
  }

  lemma ChildTells(v: Json, defs: seq<Member>, sel: Selector, path: seq<Selector>, ref: string)
    requires Target(v, defs) == None && Child(v, sel).Some? && Telling(Child(v, sel).value, defs, path, ref)
    ensures Telling(v, defs, [sel] + path, ref)
  {
    NoDefsNoTarget(v);
    assert ([sel] + path)[1..] == path;
    hide Target, Child, ShapeOf;
    var c := Child(v, sel).value;
    forall fuel: nat
      ensures Read(v, [], [sel] + path, fuel) == Read(c, [], path, fuel)
      ensures Read(v, defs, [sel] + path, fuel) == Read(c, defs, path, fuel)
    {
    }
  }

  /** A reference left anywhere can be told. */
  lemma {:induction false} LeftoverTells(v: Json, defs: seq<Member>) returns (path: seq<Selector>, ref: string)
    requires Distinct(v) && !RefFree(v, defs)
    ensures Telling(v, defs, path, ref)
    decreases v
  {
    hide Target, Telling;
    if Target(v, defs).Some? {
      ref := RefTells(v, defs);
      path := [Key("$ref")];
    } else if v.Obj? {
      var m :| m in v.members && !RefFree(m.value, defs);
      GetIsUnique(v.members, m);
      path, ref := LeftoverTells(m.value, defs);
      ChildTells(v, defs, Key(m.key), path, ref);
      path := [Key(m.key)] + path;
    } else {
      var x :| x in v.items && !RefFree(x, defs);
      var i: nat :| i < |v.items| && v.items[i] == x;
      path, ref := LeftoverTells(x, defs);
      ChildTells(v, defs, Index(i), path, ref);
      path := [Index(i)] + path;
    }
  }

  // ---- member names stay distinct --------------------------------------------------------

  lemma {:induction false} RemoveKeepsDistinct(members: seq<Member>, key: string)
    requires DistinctKeys(members)
    ensures DistinctKeys(Remove(members, key))
  {
    if members != [] {
      RemoveKeepsDistinct(members[1..], key);
      assert forall m :: m in Remove(members[1..], key) ==> m in members[1..];
    }
  }

  lemma {:induction false} StripKeepsDistinct(v: Json)
    requires Distinct(v)
    ensures Distinct(Strip(v))
    decreases v
  {
    match v
    case Obj(members) =>
      RemoveKeepsDistinct(members, "format");
      var kept := Kept(members);
      forall i | 0 <= i < |kept|
        ensures Distinct(StripMembers(kept, members)[i].value)
      {
        assert kept[i] in members;
        StripKeepsDistinct(kept[i].value);
      }
    case Arr(items) =>
      forall i | 0 <= i < |items|
        ensures Distinct(StripItems(items)[i])
      {
        StripKeepsDistinct(items[i]);
      }
    case _ =>
  }

  lemma {:induction false} InlineKeepsDistinct(v: Json, defs: seq<Member>, budget: nat)
    requires Distinct(v) && forall m :: m in defs ==> Distinct(m.value)
    ensures Distinct(Inline(v, defs, budget).0)
    decreases budget, v, 1
  {
    hide Target;
    var target := Target(v, defs);
    if target.Some? && budget > 0 {
      TargetIsDefined(v, defs);
      InlineKeepsDistinct(target.value, defs, budget - 1);
    } else {
      match v
      case Obj(members) =>
        InlineKeepsMembersDistinct(members, defs, budget);
      case Arr(items) => InlineKeepsItemsDistinct(items, defs, budget);
      case _ =>
    }
  }

  lemma {:induction false} InlineKeepsMembersDistinct(members: seq<Member>, defs: seq<Member>, budget: nat)
    requires forall m :: m in members ==> Distinct(m.value)
    requires forall m :: m in defs ==> Distinct(m.value)
    ensures var members' := InlineMembers(members, defs, budget).0;
            && (forall m :: m in members' ==> Distinct(m.value))
            && |members'| == |members|
            && forall i :: 0 <= i < |members| ==> members'[i].key == members[i].key
    decreases budget, members, 0
  {
    hide Distinct, Inline;
    if members != [] {
      InlineKeepsDistinct(members[0].value, defs, budget);
      InlineKeepsMembersDistinct(members[1..], defs, Inline(members[0].value, defs, budget).1);
    }
  }

  lemma {:induction false} InlineKeepsItemsDistinct(items: seq<Json>, defs: seq<Member>, budget: nat)
    requires forall x :: x in items ==> Distinct(x)
    requires forall m :: m in defs ==> Distinct(m.value)
    ensures forall x :: x in InlineItems(items, defs, budget).0 ==> Distinct(x)
    decreases budget, items, 0
  {
    hide Distinct, Inline;
    if items != [] {
      InlineKeepsDistinct(items[0], defs, budget);
      InlineKeepsItemsDistinct(items[1..], defs, Inline(items[0], defs, budget).1);
    }
  }

  // ---- exactly when -------------------------------------------------------------------------

  /** Every path means without definitions what it meant with them. */
  ghost predicate StandsFor(v: Json, defs: seq<Member>, alone: Json) {
    forall path, r :: Means(v, defs, path, r) <==> Means(alone, [], path, r)
  }

  lemma StandsAloneIff(v: Json, defs: seq<Member>, budget: nat)
    requires Distinct(v) && forall m :: m in defs ==> Distinct(m.value)
    ensures StandsFor(v, defs, Inline(v, defs, budget).0)
       <==> Fits(v, defs, budget) && Cost(v, defs, budget) <= budget
  {
    hide Inline, RefFree, Fits, Cost, Means, Distinct;
    var v' := Inline(v, defs, budget).0;
    CompleteIffAffordable(v, defs, budget);
    if RefFree(v', defs) {
      forall path, r
        ensures Means(v, defs, path, r) <==> Means(v', [], path, r)
      {
        UnfoldedStandsAlone(v, defs, budget, path, r);
      }
    } else {
      InlineKeepsDistinct(v, defs, budget);
      var path, ref := LeftoverTells(v', defs);
      ToldApart(v', defs, path, ref);
      InliningPreservesMeaning(v, defs, budget, path, Found(StringShape(ref)));
    }
  }

  lemma ToldApart(v: Json, defs: seq<Member>, path: seq<Selector>, ref: string)
    requires Telling(v, defs, path, ref)
    ensures Means(v, [], path, Found(StringShape(ref))) && !Means(v, defs, path, Found(StringShape(ref)))
  {
    hide Read;
    assert Read(v, [], path, 0) == Found(StringShape(ref));
  }

  /** What is served, read with no definitions at all, means on every path what the stripped schema
      meant with its own, if and only if its references nest finitely and unfolding them all is
      within the budget. */
  lemma ServedSchemaStandsAlone(schema: seq<Member>, defs: seq<Member>)
    requires Distinct(Obj(schema)) && Get(Strip(Obj(schema)).members, "$defs") == Some(Obj(defs))
    ensures var root := Obj(Remove(Strip(Obj(schema)).members, "$defs"));
            (StandsFor(root, defs, Obj(Sanitize(schema)))
             <==> Fits(root, defs, BUDGET) && Cost(root, defs, BUDGET) <= BUDGET)
  {
    hide Strip, Inline, Fits, Cost, StandsFor;
    var stripped := Strip(Obj(schema)).members;
    StripKeepsDistinct(Obj(schema));
    assert Member("$defs", Obj(defs)) in stripped;
    assert Distinct(Obj(defs));
    RemoveKeepsDistinct(stripped, "$defs");
    StandsAloneIff(Obj(Remove(stripped, "$defs")), defs, BUDGET);
  }

  // ---- recursive definitions -------------------------------------------------------------------

  /** Somewhere in `v`, references not followed, is a reference to one of `cycle`. */
  ghost predicate RefersTo(v: Json, defs: seq<Member>, cycle: set<Json>)
    decreases v
  {
    match Target(v, defs)
    case Some(def) => def in cycle
    case None =>
      match v
      case Obj(members) => exists m :: m in members && RefersTo(m.value, defs, cycle)
      case Arr(items) => exists x :: x in items && RefersTo(x, defs, cycle)
      case _ => false
  }

  /** `v` refers to definitions that all refer to one another. */
  ghost predicate EntersCycle(v: Json, defs: seq<Member>, cycle: set<Json>) {
    RefersTo(v, defs, cycle) && forall c :: c in cycle ==> RefersTo(c, defs, cycle)
  }

  lemma {:induction false} CycleNeverFits(v: Json, defs: seq<Member>, cycle: set<Json>, depth: nat)
    requires EntersCycle(v, defs, cycle)
    ensures !Fits(v, defs, depth)
    decreases depth, v
  {
    hide Target;
    match Target(v, defs)
    case Some(def) =>
      if depth > 0 {
        CycleNeverFits(def, defs, cycle, depth - 1);
      }
    case None =>
      match v
      case Obj(members) =>
        var m :| m in members && RefersTo(m.value, defs, cycle);
        CycleNeverFits(m.value, defs, cycle, depth);
      case Arr(items) =>
        var x :| x in items && RefersTo(x, defs, cycle);
        CycleNeverFits(x, defs, cycle, depth);
      case _ =>
  }

  /** References of `v` nest at most so deep, for some depth. */
  ghost predicate FitsSomewhere(v: Json, defs: seq<Member>) {
    exists depth: nat :: Fits(v, defs, depth)
  }

  lemma {:induction false} AllMembersFit(members: seq<Member>, defs: seq<Member>) returns (depth: nat)
    requires forall m :: m in members ==> FitsSomewhere(m.value, defs)
    ensures forall m :: m in members ==> Fits(m.value, defs, depth)
  {
    hide Fits;
    depth := 0;
    if members != [] {
      assert members[0] in members;
      var one: nat :| Fits(members[0].value, defs, one);
      var rest := AllMembersFit(members[1..], defs);
      depth := one + rest;
      forall m | m in members
        ensures Fits(m.value, defs, depth)
      {
        DeeperIsSame(m.value, defs, if m == members[0] then one else rest, depth);
      }
    }
  }

  lemma {:induction false} AllItemsFit(items: seq<Json>, defs: seq<Member>) returns (depth: nat)
    requires forall x :: x in items ==> FitsSomewhere(x, defs)
    ensures forall x :: x in items ==> Fits(x, defs, depth)
  {
    hide Fits;
    depth := 0;
    if items != [] {
      assert items[0] in items;
      var one: nat :| Fits(items[0], defs, one);
      var rest := AllItemsFit(items[1..], defs);
      depth := one + rest;
      forall x | x in items
        ensures Fits(x, defs, depth)
      {
        DeeperIsSame(x, defs, if x == items[0] then one else rest, depth);
      }
    }
  }

  /** The definitions whose references nest forever. */
  ghost function Unfit(defs: seq<Member>): set<Json> {
    set m | m in defs && !FitsSomewhere(m.value, defs) :: m.value
  }

  /** What nests forever does so because of a definition that does. */
  lemma {:induction false} FitsOrRefers(v: Json, defs: seq<Member>)
    ensures FitsSomewhere(v, defs) || RefersTo(v, defs, Unfit(defs))
    decreases v
  {
    hide Target;
    match Target(v, defs)
    case Some(def) =>
      TargetIsDefined(v, defs);
      if depth: nat :| Fits(def, defs, depth) {
        assert Fits(v, defs, depth + 1);
      }
    case None =>
      match v
      case Obj(members) =>
        if forall m :: m in members ==> FitsSomewhere(m.value, defs) {
          var depth := AllMembersFit(members, defs);
          assert Fits(v, defs, depth);
        } else {
          var m :| m in members && !FitsSomewhere(m.value, defs);
          FitsOrRefers(m.value, defs);
        }
      case Arr(items) =>
        if forall x :: x in items ==> FitsSomewhere(x, defs) {
          var depth := AllItemsFit(items, defs);
          assert Fits(v, defs, depth);
        } else {
          var x :| x in items && !FitsSomewhere(x, defs);
          FitsOrRefers(x, defs);
        }
      case _ =>
        assert Fits(v, defs, 0);
  }

  /** References nest forever exactly when they lead into definitions that refer to one another. */
  lemma NestsForeverIff(v: Json, defs: seq<Member>)
    ensures !FitsSomewhere(v, defs) <==> exists cycle :: EntersCycle(v, defs, cycle)
  {
    hide Fits, RefersTo;
    if cycle :| EntersCycle(v, defs, cycle) {
      forall depth: nat
        ensures !Fits(v, defs, depth)
      {
        CycleNeverFits(v, defs, cycle, depth);
      }
    }
    if !FitsSomewhere(v, defs) {
      FitsOrRefers(v, defs);
      forall c | c in Unfit(defs)
        ensures RefersTo(c, defs, Unfit(defs))
      {
        FitsOrRefers(c, defs);
      }
      assert EntersCycle(v, defs, Unfit(defs));
    }
  }
}
