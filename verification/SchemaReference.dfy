/** Which definition a reference stands for (`inline_refs_in_value`, agent-teams-mcp/src/main.rs):
    the one it names, and nothing else is replaced. */
module SchemaReference {
  import opened Wrappers
  import opened Json
  import opened Schema
  import opened SchemaMeaning
  import opened SchemaBudget
  import opened SchemaSanitize
  import opened SchemaAlone
  import opened SchemaServed

  /** An object that names the definition `name`, whatever else it holds. */
  ghost predicate Names(v: Json, name: string) {
    v.Obj? && Member("$ref", Str("#/$defs/" + name)) in v.members
  }

  /** An object with a reference to a definition that is there and is an object. */
  ghost predicate Resolves(v: Json, defs: seq<Member>) {
    exists name, d :: Names(v, name) && Member(name, d) in defs && d.Obj?
  }

  lemma NamedTarget(v: Json, defs: seq<Member>, name: string, d: Json)
    requires Names(v, name) && DistinctKeys(v.members)
    requires DistinctKeys(defs) && Member(name, d) in defs && d.Obj?
    ensures Target(v, defs) == Some(d)
  {
    var ref := "#/$defs/" + name;
    GetIsUnique(v.members, Member("$ref", Str(ref)));
    GetIsUnique(defs, Member(name, d));
    assert REF_PREFIX <= ref && ref[|REF_PREFIX|..] == name;
  }

  lemma TargetResolves(v: Json, defs: seq<Member>)
    ensures Target(v, defs).Some? ==> Resolves(v, defs)
  {
    if Target(v, defs).Some? {
      var ref := Get(v.members, "$ref").value.value;
      var name := ref[|REF_PREFIX|..];
      assert ref == "#/$defs/" + name;
      assert Names(v, name) && Member(name, Get(defs, name).value) in defs;
    }
  }

  lemma StandsForMeans(v: Json, defs: seq<Member>, d: Json, path: seq<Selector>, r: Reading)
    requires Target(v, defs) == Some(d)
    ensures Means(v, defs, path, r) <==> Means(d, defs, path, r)
  {
    hide Target;
    if Means(v, defs, path, r) {
      var fuel: nat :| Read(v, defs, path, fuel) == r;
      assert Read(d, defs, path, fuel - 1) == r;
    }
    if Means(d, defs, path, r) {
      var fuel: nat :| Read(d, defs, path, fuel) == r;
      assert Read(v, defs, path, fuel + 1) == r;
    }
  }

  /** A reference by name stands for the definition of that name: it means on every path what the
      definition means, and while budget is left it is replaced by that definition, inlined with one
      unit less. */
  lemma NamedDefinitionIsMeant(v: Json, defs: seq<Member>, name: string, d: Json, budget: nat,
                               path: seq<Selector>, r: Reading)
    requires v.Obj? && DistinctKeys(v.members) && Member("$ref", Str("#/$defs/" + name)) in v.members
    requires DistinctKeys(defs) && Member(name, d) in defs && d.Obj?
    ensures Means(v, defs, path, r) <==> Means(d, defs, path, r)
    ensures budget > 0 ==> Inline(v, defs, budget) == Inline(d, defs, budget - 1)
  {
    NamedTarget(v, defs, name, d);
    StandsForMeans(v, defs, d, path, r);
    hide Target;
  }

  /** The parts are inlined one after the other, each with the budget the one before it left. */
  ghost predicate InTurn(parts: seq<Json>, results: seq<Json>, defs: seq<Member>, budgets: seq<nat>) {
    && |results| == |parts| && |budgets| == |parts| + 1
    && forall i :: 0 <= i < |parts| ==> Inline(parts[i], defs, budgets[i]) == (results[i], budgets[i + 1])
  }

  function Values(members: seq<Member>): (r: seq<Json>)
    ensures |r| == |members| && forall i :: 0 <= i < |members| ==> r[i] == members[i].value
  {
    seq(|members|, i requires 0 <= i < |members| => members[i].value)
  }

  lemma {:induction false} MembersInTurn(members: seq<Member>, defs: seq<Member>, budget: nat)
    returns (budgets: seq<nat>)
    ensures var (members', left) := InlineMembers(members, defs, budget);
            && Keys(members') == Keys(members)
            && InTurn(Values(members), Values(members'), defs, budgets)
            && budgets[0] == budget && budgets[|members|] == left
  {
    hide Inline;
    if members == [] {
      budgets := [budget];
    } else {
      var (value, left) := Inline(members[0].value, defs, budget);
      var rest := MembersInTurn(members[1..], defs, left);
      budgets := [budget] + rest;
      var members' := InlineMembers(members, defs, budget).0;
      assert members'[1..] == InlineMembers(members[1..], defs, left).0;
      KeysCons(members);
      KeysCons(members');
      forall i | 0 <= i < |members|
        ensures Inline(members[i].value, defs, budgets[i]) == (members'[i].value, budgets[i + 1])
      {
        if i > 0 {
          assert members[i] == members[1..][i - 1] && members'[i] == members'[1..][i - 1];
          assert Values(members[1..])[i - 1] == members[i].value;
        }
      }
    }
  }

  lemma {:induction false} ItemsInTurn(items: seq<Json>, defs: seq<Member>, budget: nat) returns (budgets: seq<nat>)
    ensures var (items', left) := InlineItems(items, defs, budget);
            && InTurn(items, items', defs, budgets)
            && budgets[0] == budget && budgets[|items|] == left
  {
    hide Inline;
    if items == [] {
      budgets := [budget];
    } else {
      var (item, left) := Inline(items[0], defs, budget);
      var rest := ItemsInTurn(items[1..], defs, left);
      budgets := [budget] + rest;
      var items' := InlineItems(items, defs, budget).0;
      assert items'[1..] == InlineItems(items[1..], defs, left).0;
      forall i | 0 <= i < |items|
        ensures Inline(items[i], defs, budgets[i]) == (items'[i], budgets[i + 1])
      {
        if i > 0 {
          assert items[i] == items[1..][i - 1] && items'[i] == items'[1..][i - 1];
        }
      }
    }
  }

  /** Anything else is left as it is, and only its parts are inlined: members keep their names and
      places, a string stays a string, even a reference to what is not there. So it is for everything
      once the budget is spent. */
  lemma NothingElseIsReplaced(v: Json, defs: seq<Member>, budget: nat) returns (budgets: seq<nat>)
    requires !Resolves(v, defs) || budget == 0
    ensures var (v', left) := Inline(v, defs, budget);
            match v
            case Obj(members) =>
              && v'.Obj? && Keys(v'.members) == Keys(members)
              && InTurn(Values(members), Values(v'.members), defs, budgets)
              && budgets[0] == budget && budgets[|members|] == left
            case Arr(items) =>
              && v'.Arr? && InTurn(items, v'.items, defs, budgets)
              && budgets[0] == budget && budgets[|items|] == left
            case _ => v' == v && left == budget
  {
    TargetResolves(v, defs);
    hide Target, Resolves;
    match v
    case Obj(members) => budgets := MembersInTurn(members, defs, budget);
    case Arr(items) => budgets := ItemsInTurn(items, defs, budget);
    case _ => budgets := [];
  }

  /** And it means itself: a path into it means what the rest of the path means from there. */
  lemma NothingElseIsFollowed(v: Json, defs: seq<Member>, sel: Selector, rest: seq<Selector>, r: Reading)
    requires !Resolves(v, defs)
    ensures Means(v, defs, [], r) <==> r == Found(ShapeOf(v))
    ensures Means(v, defs, [sel] + rest, r) <==>
            match Child(v, sel) case Some(c) => Means(c, defs, rest, r) case None => r == Missing
  {
    TargetResolves(v, defs);
    assert ([sel] + rest)[1..] == rest;
    hide Target, ShapeOf, Child, Resolves;
    assert Read(v, defs, [], 0) == Found(ShapeOf(v));
    StepInto(v, defs, sel, rest);
    hide Read;
    if Child(v, sel).None? {
      assert Read(v, defs, [sel] + rest, 0) == Missing;
    } else if r != Unfinished {
      var c := Child(v, sel).value;
      if fuel: nat :| Read(v, defs, [sel] + rest, fuel) == r {
        assert Read(c, defs, rest, fuel) == r;
      }
      if fuel: nat :| Read(c, defs, rest, fuel) == r {
        assert Read(v, defs, [sel] + rest, fuel) == r;
      }
    }
  }

  lemma StepInto(v: Json, defs: seq<Member>, sel: Selector, rest: seq<Selector>)
    requires Target(v, defs) == None
    ensures forall fuel: nat :: Read(v, defs, [sel] + rest, fuel) ==
              match Child(v, sel) case Some(c) => Read(c, defs, rest, fuel) case None => Missing
  {
    assert ([sel] + rest)[1..] == rest;
    hide Target, ShapeOf, Child;
  }

  // ---- the budget ----------------------------------------------------------------------------

  /** One definition, of anything at all. */
  const ANY_DEFS := [Member("a", Obj([]))]

  function Repeated(n: nat): seq<Json> {
    seq(n, _ => SELF)
  }

  /** A schema with `n` references to that definition. */
  function Repeating(n: nat): seq<Member> {
    [Member("$defs", Obj(ANY_DEFS)), Member("x", Arr(Repeated(n)))]
  }

  lemma AnyIsNamed()
    ensures Target(SELF, ANY_DEFS) == Some(Obj([])) && StripDefs(ANY_DEFS) == ANY_DEFS
    ensures Target(Obj([]), ANY_DEFS) == None
    ensures Strip(SELF) == SELF && Distinct(SELF) && Distinct(Obj(ANY_DEFS))
  {
    SelfIsItself();
    assert "#/$defs/a" == "#/$defs/" + "a";
    assert SELF.members[0] == Member("$ref", Str("#/$defs/" + "a")) && ANY_DEFS[0] == Member("a", Obj([]));
    NamedTarget(SELF, ANY_DEFS, "a", Obj([]));
    assert Kept(ANY_DEFS) == ANY_DEFS;
    hide Target;
    NoRefNoTarget([], ANY_DEFS);
  }

  lemma OneCosts(depth: nat)
    requires depth > 0
    ensures Fits(SELF, ANY_DEFS, depth) && Cost(SELF, ANY_DEFS, depth) == 1
  {
    AnyIsNamed();
    hide Target;
    assert Fits(Obj([]), ANY_DEFS, depth - 1) && Cost(Obj([]), ANY_DEFS, depth - 1) == 0;
  }

  lemma {:induction false} ManyCost(items: seq<Json>, depth: nat)
    requires depth > 0 && forall i :: 0 <= i < |items| ==> items[i] == SELF
    ensures (forall x :: x in items ==> Fits(x, ANY_DEFS, depth)) && ItemsCost(items, ANY_DEFS, depth) == |items|
  {
    OneCosts(depth);
    hide Fits, Cost;
    if items != [] {
      assert items[0] == SELF;
      ManyCost(items[1..], depth);
    }
  }

  lemma RepeatedIsPlain(n: nat)
    ensures Distinct(Arr(Repeated(n))) && Strip(Arr(Repeated(n))) == Arr(Repeated(n))
  {
    AnyIsNamed();
    hide Target, Strip;
    forall i | 0 <= i < n
      ensures StripItems(Repeated(n))[i] == Repeated(n)[i]
    {
      assert Strip(Repeated(n)[i]) == SELF;
    }
    assert StripItems(Repeated(n)) == Repeated(n);
    StripOfItems(Repeated(n));
  }

  lemma StripOfItems(items: seq<Json>)
    ensures Strip(Arr(items)) == Arr(StripItems(items))
  {
  }

  lemma RepeatingStrips(n: nat)
    ensures Strip(Obj([Member("x", Arr(Repeated(n)))])) == Obj([Member("x", Arr(Repeated(n)))])
  {
    RepeatedIsPlain(n);
    hide Repeated, StripItems;
    var root := [Member("x", Arr(Repeated(n)))];
    assert Kept(root) == root;
    assert StripMembers(root, root) == root;
  }

  lemma RepeatingRoot(n: nat)
    ensures Remove(Repeating(n), "$defs") == [Member("x", Arr(Repeated(n)))]
    ensures Get(Repeating(n), "$defs") == Some(Obj(ANY_DEFS)) && Distinct(Obj(Repeating(n)))
  {
    AnyIsNamed();
    RepeatedIsPlain(n);
    hide Repeated, Strip, Target, StripDefs;
    var schema := Repeating(n);
    assert schema[1..] == [Member("x", Arr(Repeated(n)))] && schema[1..][1..] == [];
    assert Remove(schema[1..], "$defs") == schema[1..];
    assert forall m :: m in schema ==> m == schema[0] || m == schema[1];
  }

  lemma RepeatingCosts(n: nat, depth: nat)
    requires depth > 0
    ensures var root := Obj([Member("x", Arr(Repeated(n)))]);
            Fits(root, ANY_DEFS, depth) && Cost(root, ANY_DEFS, depth) == n
  {
    var members := [Member("x", Arr(Repeated(n)))];
    ManyCost(Repeated(n), depth);
    NoRefNoTarget(members, ANY_DEFS);
    assert Target(Arr(Repeated(n)), ANY_DEFS) == None;
    hide Target;
    assert members[1..] == [];
    assert MembersCost(members, ANY_DEFS, depth) == Cost(Arr(Repeated(n)), ANY_DEFS, depth);
  }

  /** A schema of that many references is served with its meaning up to 256 of them, and no more. */
  lemma BudgetIsReached(n: nat)
    ensures Serves(Repeating(n), ANY_DEFS) <==> n <= 256
  {
    RepeatingRoot(n);
    RepeatingStrips(n);
    AnyIsNamed();
    RepeatingCosts(n, BUDGET);
    hide Serves, Repeating, Repeated, Fits, Cost, Target, Strip, StripDefs, Get, Remove, Distinct;
    ServedMeansOriginal(Repeating(n), ANY_DEFS);
  }

  // ---- the formats ---------------------------------------------------------------------------

  /** The numeric formats of the schema generator: an integer of either sign and any width, or a
      floating-point number. */
  ghost predicate OfANumber(f: string) {
    || f == "float" || f == "double"
    || exists sign, width ::
         sign in ["int", "uint"] && width in ["", "8", "16", "32", "64", "128"] && f == sign + width
  }

  lemma NumericFormatsAre(f: string)
    ensures f in NUMERIC_FORMATS <==> OfANumber(f)
  {
    if OfANumber(f) && f != "float" && f != "double" {
      var sign, width :| sign in ["int", "uint"] && width in ["", "8", "16", "32", "64", "128"] && f == sign + width;
      Widths(sign, width);
    }
    if f in NUMERIC_FORMATS && f != "float" && f != "double" {
      var sign := if f[0] == 'u' then "uint" else "int";
      assert f == sign + f[|sign|..];
      assert f[|sign|..] in ["", "8", "16", "32", "64", "128"];
    }
  }

  lemma Widths(sign: string, width: string)
    requires sign in ["int", "uint"] && width in ["", "8", "16", "32", "64", "128"]
    ensures sign + width in NUMERIC_FORMATS
  {
    assert "int" + "" == "int" && "int" + "8" == "int8" && "int" + "16" == "int16" && "int" + "32" == "int32";
    assert "int" + "64" == "int64" && "int" + "128" == "int128";
    assert "uint" + "" == "uint" && "uint" + "8" == "uint8" && "uint" + "16" == "uint16" && "uint" + "32" == "uint32";
    assert "uint" + "64" == "uint64" && "uint" + "128" == "uint128";
  }

  /** A format is stripped if and only if it is one of those. */
  lemma FormatStrippedIff(f: string)
    ensures Strip(Obj([Member("format", Str(f))])) == Obj(if OfANumber(f) then [] else [Member("format", Str(f))])
  {
    NumericFormatsAre(f);
    var members := [Member("format", Str(f))];
    assert members[1..] == [];
    hide OfANumber;
    assert Kept(members) == if OfANumber(f) then [] else members;
  }
}
