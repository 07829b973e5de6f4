/** The whole pass over a tool schema: strip numeric formats, then inline and drop the
    local definitions (`sanitize_tool_schemas`). */
module SchemaSanitize {
  import opened Wrappers
  import opened Json
  import opened Schema
  import opened SchemaMeaning
  import opened SchemaBudget

  // ---- stripping --------------------------------------------------------------------

  predicate NumericFormat(m: Member) {
    m.key == "format" && m.value.Str? && m.value.value in NUMERIC_FORMATS
  }

  function Remove(members: seq<Member>, key: string): (r: seq<Member>)
    ensures forall m :: m in r <==> m in members && m.key != key
    ensures |r| <= |members|
  {
    if members == [] then []
    else if members[0].key == key then Remove(members[1..], key)
    else [members[0]] + Remove(members[1..], key)
  }

  /** The members that stay: all of them, or all but a numeric `format`. */
  function Kept(members: seq<Member>): (r: seq<Member>)
    ensures forall m :: m in r ==> m in members
    ensures forall m :: m in members && m.key != "format" ==> m in r
  {
    match Get(members, "format")
    case Some(Str(f)) => if f in NUMERIC_FORMATS then Remove(members, "format") else members
    case _ => members
  }

  function Strip(v: Json): (r: Json)
    ensures v.Obj? <==> r.Obj?
    decreases v, 1
  {
    match v
    case Obj(members) => Obj(StripMembers(Kept(members), members))
    case Arr(items) => Arr(StripItems(items))
    case _ => v
  }

  function StripMembers(kept: seq<Member>, all: seq<Member>): (r: seq<Member>)
    requires forall m :: m in kept ==> m in all
    ensures |r| == |kept|
    ensures forall i :: 0 <= i < |kept| ==> kept[i] in all && r[i] == Member(kept[i].key, Strip(kept[i].value))
    decreases all, 0, |kept|
  {
    if kept == [] then []
    else
      assert kept[0] in all;
      [Member(kept[0].key, Strip(kept[0].value))] + StripMembers(kept[1..], all)
  }

  function StripItems(items: seq<Json>): (r: seq<Json>)
    ensures |r| == |items|
    ensures forall i :: 0 <= i < |items| ==> r[i] == Strip(items[i])
    decreases items, 0
  {
    if items == [] then [] else [Strip(items[0])] + StripItems(items[1..])
  }

  /** `strip_numeric_formats`: its removal and its loops. */
  method StripNumericFormats(v: Json) returns (r: Json)
    ensures r == Strip(v)
    decreases v
  {
    hide Get, Remove, Kept;
    match v
    case Obj(members) =>
      var kept := Kept(members);
      var out: seq<Member> := [];
      for i := 0 to |kept|
        invariant |out| == i
        invariant forall k :: 0 <= k < i ==> out[k] == Member(kept[k].key, Strip(kept[k].value))
      {
        assert kept[i] in members;
        var value := StripNumericFormats(kept[i].value);
        out := out + [Member(kept[i].key, value)];
      }
      assert out == StripMembers(kept, members);
      return Obj(out);
    case Arr(items) =>
      var out: seq<Json> := [];
      for i := 0 to |items|
        invariant |out| == i
        invariant forall k :: 0 <= k < i ==> out[k] == Strip(items[k])
      {
        var item := StripNumericFormats(items[i]);
        out := out + [item];
      }
      assert out == StripItems(items);
      return Arr(out);
    case _ =>
      return v;
  }

  ghost predicate DistinctKeys(members: seq<Member>) {
    forall i, j :: 0 <= i < j < |members| ==> members[i].key != members[j].key
  }

  /** Member names are distinct in every object, as in any map. */
  ghost predicate Distinct(v: Json)
    decreases v
  {
    match v
    case Obj(members) =>
      && DistinctKeys(members)
      && forall m :: m in members ==> Distinct(m.value)
    case Arr(items) => forall x :: x in items ==> Distinct(x)
    case _ => true
  }

  /** No object anywhere in `v` carries a numeric `format`. */
  ghost predicate NumericFree(v: Json)
    decreases v
  {
    match v
    case Obj(members) => forall m :: m in members ==> !NumericFormat(m) && NumericFree(m.value)
    case Arr(items) => forall x :: x in items ==> NumericFree(x)
    case _ => true
  }

  /** The first member of a name is the only one. */
  lemma {:induction false} GetIsUnique(members: seq<Member>, m: Member)
    requires DistinctKeys(members) && m in members
    ensures Get(members, m.key) == Some(m.value)
  {
    if members[0] != m {
      assert m in members[1..];
      GetIsUnique(members[1..], m);
    }
  }

  /** No numeric format survives stripping, at any depth. */
  lemma {:induction false} StripFrees(v: Json)
    requires Distinct(v)
    ensures NumericFree(Strip(v))
    decreases v
  {
    match v
    case Obj(members) =>
      var r := Strip(v);
      forall i | 0 <= i < |r.members|
        ensures !NumericFormat(r.members[i]) && NumericFree(r.members[i].value)
      {
        var m := Kept(members)[i];
        assert m in members;
        StripFrees(m.value);
        GetIsUnique(members, m);
        assert r.members[i] == Member(m.key, Strip(m.value));
      }
    case Arr(items) =>
      forall i | 0 <= i < |items|
        ensures NumericFree(StripItems(items)[i])
      {
        StripFrees(items[i]);
      }
    case _ =>
  }

  /** The value a path of selectors leads to, references not followed. */
  function At(v: Json, path: seq<Selector>): Option<Json> {
    if path == [] then Some(v)
    else
      match Child(v, path[0])
      case Some(c) => At(c, path[1..])
      case None => None
  }

  /** The path passes through, or ends at, a numeric format. */
  ghost predicate ThroughNumericFormat(v: Json, path: seq<Selector>)
    decreases |path|
  {
    path != [] && Child(v, path[0]).Some? &&
    (|| (path[0].Key? && NumericFormat(Member(path[0].name, Child(v, path[0]).value)))
     || ThroughNumericFormat(Child(v, path[0]).value, path[1..]))
  }

  lemma {:induction false} GetRemoved(members: seq<Member>, key: string, name: string)
    ensures Get(Remove(members, key), name) == if name == key then None else Get(members, name)
  {
    if members != [] {
      GetRemoved(members[1..], key, name);
    }
  }

  lemma {:induction false} GetStripped(kept: seq<Member>, all: seq<Member>, name: string)
    requires forall m :: m in kept ==> m in all
    ensures Get(StripMembers(kept, all), name) ==
            match Get(kept, name) case Some(c) => Some(Strip(c)) case None => None
  {
    if kept != [] {
      assert StripMembers(kept, all)[1..] == StripMembers(kept[1..], all);
      GetStripped(kept[1..], all, name);
    }
  }

  /** Stripping removes the numeric formats and nothing else: every other path leads to what
      it led to before, stripped. */
  lemma {:induction false} StripRemovesOnlyFormats(v: Json, path: seq<Selector>)
    ensures At(Strip(v), path) ==
            if ThroughNumericFormat(v, path) then None
            else match At(v, path) case Some(c) => Some(Strip(c)) case None => None
    decreases |path|
  {
    if path != [] {
      ChildStripped(v, path[0]);
      hide Strip, Child, NumericFormat;
      if Child(v, path[0]).Some? {
        StripRemovesOnlyFormats(Child(v, path[0]).value, path[1..]);
      }
    }
  }

  lemma ChildStripped(v: Json, sel: Selector)
    ensures Child(Strip(v), sel) ==
            match Child(v, sel)
            case None => None
            case Some(c) => if sel.Key? && NumericFormat(Member(sel.name, c)) then None else Some(Strip(c))
    ensures sel.Index? && Child(v, sel).Some? ==> v.Arr?
  {
    match (v, sel)
    case (Obj(members), Key(name)) =>
      GetStripped(Kept(members), members, name);
      GetRemoved(members, "format", name);
    case _ =>
  }

  // ---- inlining keeps the result clean ------------------------------------------------

  lemma {:induction false} InlineKeepsNumericFree(v: Json, defs: seq<Member>, budget: nat)
    requires NumericFree(v) && forall m :: m in defs ==> NumericFree(m.value)
    ensures NumericFree(Inline(v, defs, budget).0)
    decreases budget, v, 1
  {
    hide Target;
    var target := Target(v, defs);
    if target.Some? && budget > 0 {
      TargetIsDefined(v, defs);
      InlineKeepsNumericFree(target.value, defs, budget - 1);
    } else {
      match v
      case Obj(members) => InlineKeepsMembersFree(members, defs, budget);
      case Arr(items) => InlineKeepsItemsFree(items, defs, budget);
      case _ =>
    }
  }

  lemma {:induction false} InlineKeepsMembersFree(members: seq<Member>, defs: seq<Member>, budget: nat)
    requires forall m :: m in members ==> !NumericFormat(m) && NumericFree(m.value)
    requires forall m :: m in defs ==> NumericFree(m.value)
    ensures forall m :: m in InlineMembers(members, defs, budget).0 ==> !NumericFormat(m) && NumericFree(m.value)
    decreases budget, members, 0
  {
    hide NumericFree, Inline;
    if members != [] {
      var (value, left) := Inline(members[0].value, defs, budget);
      InlineKeepsNumericFree(members[0].value, defs, budget);
      StringsStay(members[0].value, defs, budget);
      InlineKeepsMembersFree(members[1..], defs, left);
    }
  }

  lemma {:induction false} InlineKeepsItemsFree(items: seq<Json>, defs: seq<Member>, budget: nat)
    requires forall x :: x in items ==> NumericFree(x)
    requires forall m :: m in defs ==> NumericFree(m.value)
    ensures forall x :: x in InlineItems(items, defs, budget).0 ==> NumericFree(x)
    decreases budget, items, 0
  {
    hide NumericFree, Inline;
    if items != [] {
      InlineKeepsNumericFree(items[0], defs, budget);
      InlineKeepsItemsFree(items[1..], defs, Inline(items[0], defs, budget).1);
    }
  }

  // ---- the whole pass ---------------------------------------------------------------

  /** `inline_local_defs`: a schema without an object-valued `$defs` is left alone. */
  function InlineLocalDefs(members: seq<Member>): seq<Member> {
    match Get(members, "$defs")
    case Some(Obj(defs)) => Inline(Obj(Remove(members, "$defs")), defs, BUDGET).0.members
    case _ => members
  }

  function Sanitize(schema: seq<Member>): seq<Member> {
    InlineLocalDefs(Strip(Obj(schema)).members)
  }

  /** What is served is clean: no numeric format at any depth, inlined bodies included. */
  lemma ServedSchemaIsNumericFree(schema: seq<Member>)
    requires Distinct(Obj(schema))
    ensures NumericFree(Obj(Sanitize(schema)))
  {
    hide Strip, Inline, Distinct;
    var stripped := Strip(Obj(schema)).members;
    StripFrees(Obj(schema));
    if Get(stripped, "$defs").Some? && Get(stripped, "$defs").value.Obj? {
      var defs := Get(stripped, "$defs").value.members;
      assert Member("$defs", Obj(defs)) in stripped;
      InlineKeepsNumericFree(Obj(Remove(stripped, "$defs")), defs, BUDGET);
    }
  }
}
