/** Inlining preserves what a schema says: every path read through the original definitions
    finds the same thing before and after, whatever the budget and however the definitions
    refer to each other. */
module SchemaMeaning {
  import opened Wrappers
  import opened Json
  import opened Schema

  datatype Selector = Key(name: string) | Index(i: nat)

  /** What can be seen of a value without going into it. */
  datatype Shape =
    | ScalarShape(text: string)
    | StringShape(value: string)
    | ArrayShape(length: nat)
    | ObjectShape(keys: seq<string>)

  datatype Reading = Unfinished | Missing | Found(shape: Shape)

  function Keys(members: seq<Member>): seq<string> {
    seq(|members|, i requires 0 <= i < |members| => members[i].key)
  }

  function ShapeOf(v: Json): Shape {
    match v
    case Scalar(text) => ScalarShape(text)
    case Str(value) => StringShape(value)
    case Arr(items) => ArrayShape(|items|)
    case Obj(members) => ObjectShape(Keys(members))
  }

  function Child(v: Json, sel: Selector): Option<Json> {
    match (v, sel)
    case (Obj(members), Key(name)) => Get(members, name)
    case (Arr(items), Index(i)) => if i < |items| then Some(items[i]) else None
    case _ => None
  }

  /** Follow `path` from `v`. An object that refers to a local definition stands for that
      definition alone; following `fuel` references is allowed. */
  function Read(v: Json, defs: seq<Member>, path: seq<Selector>, fuel: nat): Reading
    decreases |path|, fuel
  {
    match Target(v, defs)
    case Some(def) => if fuel == 0 then Unfinished else Read(def, defs, path, fuel - 1)
    case None =>
      if path == [] then Found(ShapeOf(v))
      else
        match Child(v, path[0])
        case Some(c) => Read(c, defs, path[1..], fuel)
        case None => Missing
  }

  /** Reading `path` from `v` ends, with `r`. */
  ghost predicate Means(v: Json, defs: seq<Member>, path: seq<Selector>, r: Reading) {
    r != Unfinished && exists fuel: nat :: Read(v, defs, path, fuel) == r
  }

  lemma {:induction false} MoreFuel(v: Json, defs: seq<Member>, path: seq<Selector>, fuel: nat, more: nat)
    requires Read(v, defs, path, fuel) != Unfinished && fuel <= more
    ensures Read(v, defs, path, more) == Read(v, defs, path, fuel)
    decreases |path|, fuel
  {
    hide Target, ShapeOf, Child;
    match Target(v, defs)
    case Some(def) => MoreFuel(def, defs, path, fuel - 1, more - 1);
    case None =>
      if path != [] && Child(v, path[0]).Some? {
        MoreFuel(Child(v, path[0]).value, defs, path[1..], fuel, more);
      }
  }

  /** A path has at most one reading. */
  lemma MeansIsAFunction(v: Json, defs: seq<Member>, path: seq<Selector>, r: Reading, q: Reading)
    requires Means(v, defs, path, r) && Means(v, defs, path, q)
    ensures r == q
  {
    hide Read;
    var m: nat :| Read(v, defs, path, m) == r;
    var n: nat :| Read(v, defs, path, n) == q;
    if m <= n {
      MoreFuel(v, defs, path, m, n);
    } else {
      MoreFuel(v, defs, path, n, m);
    }
  }

  /** With the budget spent, inlining is the identity. */
  lemma {:induction false} SpentBudget(v: Json, defs: seq<Member>)
    ensures Inline(v, defs, 0) == (v, 0)
    decreases v, 1
  {
    match v
    case Obj(members) => SpentMembers(members, defs);
    case Arr(items) => SpentItems(items, defs);
    case _ =>
  }

  lemma {:induction false} SpentMembers(members: seq<Member>, defs: seq<Member>)
    ensures InlineMembers(members, defs, 0) == (members, 0)
    decreases members, 0
  {
    if members != [] {
      SpentBudget(members[0].value, defs);
      SpentMembers(members[1..], defs);
      assert [members[0]] + members[1..] == members;
    }
  }

  lemma {:induction false} SpentItems(items: seq<Json>, defs: seq<Member>)
    ensures InlineItems(items, defs, 0) == (items, 0)
    decreases items, 0
  {
    if items != [] {
      SpentBudget(items[0], defs);
      SpentItems(items[1..], defs);
      assert [items[0]] + items[1..] == items;
    }
  }

  lemma KeysCons(members: seq<Member>)
    requires members != []
    ensures Keys(members) == [members[0].key] + Keys(members[1..])
  {
  }

  lemma {:induction false} MemberInlined(members: seq<Member>, defs: seq<Member>, budget: nat, key: string)
    returns (b: nat)
    ensures b <= budget
    ensures var members' := InlineMembers(members, defs, budget).0;
            && Keys(members') == Keys(members)
            && match Get(members, key)
               case None => Get(members', key) == None
               case Some(c) => Get(members', key) == Some(Inline(c, defs, b).0)
  {
    hide Target, Inline, Keys;
    if members == [] {
      b := budget;
    } else {
      var left := Inline(members[0].value, defs, budget).1;
      var rest := InlineMembers(members[1..], defs, left).0;
      b := MemberInlined(members[1..], defs, left, key);
      var members' := InlineMembers(members, defs, budget).0;
      assert members'[1..] == rest;
      KeysCons(members);
      KeysCons(members');
      if members[0].key == key {
        b := budget;
      }
    }
  }

  lemma {:induction false} ItemInlined(items: seq<Json>, defs: seq<Member>, budget: nat, i: nat)
    returns (b: nat)
    requires i < |items|
    ensures b <= budget
    ensures InlineItems(items, defs, budget).0[i] == Inline(items[i], defs, b).0
  {
    hide Target;
    if i == 0 {
      b := budget;
    } else {
      var left := Inline(items[0], defs, budget).1;
      b := ItemInlined(items[1..], defs, left, i - 1);
    }
  }

  /** Strings come out of inlining only where strings went in. */
  lemma StringsStay(v: Json, defs: seq<Member>, budget: nat)
    ensures Inline(v, defs, budget).0.Str? ==> Inline(v, defs, budget).0 == v
    ensures v.Str? ==> Inline(v, defs, budget).0 == v
  {
  }

  /** Where no reference is replaced, the value keeps its shape and refers to whatever it
      did; each child is inlined with what budget the earlier ones left. */
  lemma ChildInlined(v: Json, defs: seq<Member>, budget: nat, sel: Selector) returns (b: nat)
    requires Target(v, defs) == None || budget == 0
    ensures b <= budget
    ensures var v' := Inline(v, defs, budget).0;
            && ShapeOf(v') == ShapeOf(v) && Target(v', defs) == Target(v, defs)
            && match Child(v, sel)
               case None => Child(v', sel) == None
               case Some(c) => Child(v', sel) == Some(Inline(c, defs, b).0)
  {
    b := budget;
    if budget == 0 {
      SpentBudget(v, defs);
      if Child(v, sel).Some? {
        SpentBudget(Child(v, sel).value, defs);
      }
    } else {
      match v
      case Obj(members) =>
        var r := MemberInlined(members, defs, budget, "$ref");
        if Get(members, "$ref").Some? {
          StringsStay(Get(members, "$ref").value, defs, r);
        }
        if sel.Key? {
          b := MemberInlined(members, defs, budget, sel.name);
        }
      case Arr(items) =>
        if sel.Index? && sel.i < |items| {
          b := ItemInlined(items, defs, budget, sel.i);
        }
      case _ =>
    }
  }

  lemma {:induction false} ReadingsSurvive(v: Json, defs: seq<Member>, budget: nat, path: seq<Selector>, fuel: nat)
    requires Read(v, defs, path, fuel) != Unfinished
    ensures Read(Inline(v, defs, budget).0, defs, path, fuel) == Read(v, defs, path, fuel)
    decreases |path|, fuel
  {
    hide Target, ShapeOf, Child;
    var target := Target(v, defs);
    var v' := Inline(v, defs, budget).0;
    if target.Some? && budget > 0 {
      ReadingsSurvive(target.value, defs, budget - 1, path, fuel - 1);
      MoreFuel(v', defs, path, fuel - 1, fuel);
    } else if target.Some? {
      SpentBudget(v, defs);
    } else {
      var b := ChildInlined(v, defs, budget, if path == [] then Index(0) else path[0]);
      hide Inline;
      if path != [] && Child(v, path[0]).Some? {
        ReadingsSurvive(Child(v, path[0]).value, defs, b, path[1..], fuel);
      }
    }
  }

  lemma {:induction false} NoNewReadings(v: Json, defs: seq<Member>, budget: nat, path: seq<Selector>, fuel: nat)
    requires Read(Inline(v, defs, budget).0, defs, path, fuel) != Unfinished
    ensures Read(v, defs, path, fuel + budget) == Read(Inline(v, defs, budget).0, defs, path, fuel)
    decreases |path|, budget
  {
    hide Target, ShapeOf, Child;
    var target := Target(v, defs);
    var v' := Inline(v, defs, budget).0;
    if target.Some? && budget > 0 {
      NoNewReadings(target.value, defs, budget - 1, path, fuel);
    } else if target.Some? {
      SpentBudget(v, defs);
    } else {
      var b := ChildInlined(v, defs, budget, if path == [] then Index(0) else path[0]);
      hide Inline;
      if path != [] && Child(v, path[0]).Some? {
        var c := Child(v, path[0]).value;
        NoNewReadings(c, defs, b, path[1..], fuel);
        MoreFuel(c, defs, path[1..], fuel + b, fuel + budget);
      }
    }
  }

  /** For every value, every map of definitions (cyclic or not) and every budget, each path
      means the same before and after inlining: it ends at the same shape, or is missing,
      or never ends. */
  lemma InliningPreservesMeaning(v: Json, defs: seq<Member>, budget: nat, path: seq<Selector>, r: Reading)
    ensures Means(v, defs, path, r) <==> Means(Inline(v, defs, budget).0, defs, path, r)
  {
    hide Read, Inline;
    var v' := Inline(v, defs, budget).0;
    if Means(v, defs, path, r) {
      var fuel: nat :| Read(v, defs, path, fuel) == r;
      ReadingsSurvive(v, defs, budget, path, fuel);
      assert Read(v', defs, path, fuel) == r;
    }
    if Means(v', defs, path, r) {
      var fuel: nat :| Read(v', defs, path, fuel) == r;
      NoNewReadings(v, defs, budget, path, fuel);
      assert Read(v, defs, path, fuel + budget) == r;
    }
  }
}
