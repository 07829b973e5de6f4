/** JSON schemas as values (serde_json's `Value`): an object keeps its members in the order
    the map iterates them. */
module Json {
  import opened Wrappers

  datatype Json =
    | Scalar(text: string)   // null, a boolean or a number, as written
    | Str(value: string)
    | Arr(items: seq<Json>)
    | Obj(members: seq<Member>)

  datatype Member = Member(key: string, value: Json)

  function Get(members: seq<Member>, key: string): (r: Option<Json>)
    ensures r == None <==> forall m :: m in members ==> m.key != key
    ensures r.Some? ==> Member(key, r.value) in members
  {
    if members == [] then None
    else if members[0].key == key then Some(members[0].value)
    else Get(members[1..], key)
  }
}

/** The schema sanitizer (agent-teams-mcp/src/main.rs): numeric `format` hints are stripped
    and local `#/$defs/...` references are replaced by their definitions, at most `budget`
    of them. */
module Schema {
  import opened Wrappers
  import opened Json

  const NUMERIC_FORMATS := {
    "uint", "uint8", "uint16", "uint32", "uint64", "uint128", "int", "int8", "int16", "int32",
    "int64", "int128", "float", "double" }

  const REF_PREFIX := "#/$defs/"
  const BUDGET := 256

  // ---- references -------------------------------------------------------------------

  /** The definition a value stands for, when it is an object whose `$ref` names a local
      definition that is itself an object. */
  function Target(v: Json, defs: seq<Member>): (r: Option<Json>)
    ensures r.Some? ==> r.value.Obj? && v.Obj?
  {
    if !v.Obj? then None
    else
      match Get(v.members, "$ref")
      case Some(Str(r)) =>
        if REF_PREFIX <= r then
          match Get(defs, r[|REF_PREFIX|..])
          case Some(Obj(members)) => Some(Obj(members))
          case _ => None
        else None
      case _ => None
  }

  // ---- inlining, as a function ------------------------------------------------------

  /** The value after inlining, and the budget left. */
  function Inline(v: Json, defs: seq<Member>, budget: nat): (r: (Json, nat))
    ensures r.1 <= budget
    ensures v.Obj? ==> r.0.Obj?
    decreases budget, v, 1
  {
    var target := Target(v, defs);
    if target.Some? && budget > 0 then
      Inline(target.value, defs, budget - 1)
    else
      match v
      case Obj(members) =>
        var (members', left) := InlineMembers(members, defs, budget);
        (Obj(members'), left)
      case Arr(items) =>
        var (items', left) := InlineItems(items, defs, budget);
        (Arr(items'), left)
      case _ => (v, budget)
  }

  function InlineMembers(members: seq<Member>, defs: seq<Member>, budget: nat): (r: (seq<Member>, nat))
    ensures r.1 <= budget && |r.0| == |members|
    decreases budget, members, 0
  {
    if members == [] then ([], budget)
    else
      var (value, left) := Inline(members[0].value, defs, budget);
      var (rest, left') := InlineMembers(members[1..], defs, left);
      ([Member(members[0].key, value)] + rest, left')
  }

  function InlineItems(items: seq<Json>, defs: seq<Member>, budget: nat): (r: (seq<Json>, nat))
    ensures r.1 <= budget && |r.0| == |items|
    decreases budget, items, 0
  {
    if items == [] then ([], budget)
    else
      var (item, left) := Inline(items[0], defs, budget);
      var (rest, left') := InlineItems(items[1..], defs, left);
      ([item] + rest, left')
  }

  // ---- inlining, as the source's loops ----------------------------------------------

  method InlineRefsInValue(v: Json, defs: seq<Member>, budget: nat) returns (r: Json, left: nat)
    ensures (r, left) == Inline(v, defs, budget)
    decreases budget, v, 1
  {
    var target := Target(v, defs);
    if target.Some? && budget > 0 {
      r, left := InlineRefsInValue(target.value, defs, budget - 1);
      return;
    }
    match v
    case Obj(members) =>
      var out: seq<Member> := [];
      left := budget;
      ghost var whole := InlineMembers(members, defs, budget).0;
      assert members[0..] == members && out + whole == whole;
      for i := 0 to |members|
        invariant left <= budget && |out| == i
        invariant var (rest, end) := InlineMembers(members[i..], defs, left);
                  InlineMembers(members, defs, budget) == (out + rest, end)
      {
        var value, left' := InlineRefsInValue(members[i].value, defs, left);
        assert members[i..][1..] == members[i + 1..];
        ghost var rest := InlineMembers(members[i + 1..], defs, left').0;
        assert out + ([Member(members[i].key, value)] + rest) == out + [Member(members[i].key, value)] + rest;
        out, left := out + [Member(members[i].key, value)], left';
      }
      assert members[|members|..] == [] && out + [] == out;
      return Obj(out), left;
    case Arr(items) =>
      var out: seq<Json> := [];
      left := budget;
      assert items[0..] == items && out + InlineItems(items, defs, budget).0 == InlineItems(items, defs, budget).0;
      for i := 0 to |items|
        invariant left <= budget && |out| == i
        invariant var (rest, end) := InlineItems(items[i..], defs, left);
                  InlineItems(items, defs, budget) == (out + rest, end)
      {
        var item, left' := InlineRefsInValue(items[i], defs, left);
        assert items[i..][1..] == items[i + 1..];
        ghost var rest := InlineItems(items[i + 1..], defs, left').0;
        assert out + ([item] + rest) == out + [item] + rest;
        out, left := out + [item], left';
      }
      assert items[|items|..] == [] && out + [] == out;
      return Arr(out), left;
    case _ =>
      return v, budget;
  }
}
