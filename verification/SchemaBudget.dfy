/** When inlining completes: the budget it takes, and the exact condition under which no
    local reference is left. */
module SchemaBudget {
  import opened Wrappers
  import opened Json
  import opened Schema
  import opened SchemaMeaning

  /** No object anywhere in `v` refers to a local definition. */
  ghost predicate RefFree(v: Json, defs: seq<Member>)
    decreases v
  {
    && Target(v, defs) == None
    && match v
       case Obj(members) => forall m :: m in members ==> RefFree(m.value, defs)
       case Arr(items) => forall x :: x in items ==> RefFree(x, defs)
       case _ => true
  }

  /** References reached from `v` nest at most `depth` deep. */
  ghost predicate Fits(v: Json, defs: seq<Member>, depth: nat)
    decreases depth, v
  {
    match Target(v, defs)
    case Some(def) => depth > 0 && Fits(def, defs, depth - 1)
    case None =>
      match v
      case Obj(members) => forall m :: m in members ==> Fits(m.value, defs, depth)
      case Arr(items) => forall x :: x in items ==> Fits(x, defs, depth)
      case _ => true
  }

  /** How many references unfolding `v` replaces, down to nesting `depth`. */
  function Cost(v: Json, defs: seq<Member>, depth: nat): nat
    decreases depth, v, 1
  {
    match Target(v, defs)
    case Some(def) => if depth == 0 then 1 else 1 + Cost(def, defs, depth - 1)
    case None =>
      match v
      case Obj(members) => MembersCost(members, defs, depth)
      case Arr(items) => ItemsCost(items, defs, depth)
      case _ => 0
  }

  function MembersCost(members: seq<Member>, defs: seq<Member>, depth: nat): nat
    decreases depth, members, 0
  {
    if members == [] then 0
    else Cost(members[0].value, defs, depth) + MembersCost(members[1..], defs, depth)
  }

  function ItemsCost(items: seq<Json>, defs: seq<Member>, depth: nat): nat
    decreases depth, items, 0
  {
    if items == [] then 0 else Cost(items[0], defs, depth) + ItemsCost(items[1..], defs, depth)
  }

  /** A deeper look changes nothing once `v` fits. */
  lemma {:induction false} DeeperIsSame(v: Json, defs: seq<Member>, depth: nat, more: nat)
    requires Fits(v, defs, depth) && depth <= more
    ensures Fits(v, defs, more) && Cost(v, defs, more) == Cost(v, defs, depth)
    decreases depth, v, 1
  {
    hide Target;
    match Target(v, defs)
    case Some(def) => DeeperIsSame(def, defs, depth - 1, more - 1);
    case None =>
      match v
      case Obj(members) => DeeperMembers(members, defs, depth, more);
      case Arr(items) => DeeperItems(items, defs, depth, more);
      case _ =>
  }

  lemma {:induction false} DeeperMembers(members: seq<Member>, defs: seq<Member>, depth: nat, more: nat)
    requires depth <= more && forall m :: m in members ==> Fits(m.value, defs, depth)
    ensures forall m :: m in members ==> Fits(m.value, defs, more)
    ensures MembersCost(members, defs, more) == MembersCost(members, defs, depth)
    decreases depth, members, 0
  {
    hide Fits, Cost;
    if members != [] {
      DeeperIsSame(members[0].value, defs, depth, more);
      DeeperMembers(members[1..], defs, depth, more);
    }
  }

  lemma {:induction false} DeeperItems(items: seq<Json>, defs: seq<Member>, depth: nat, more: nat)
    requires depth <= more && forall x :: x in items ==> Fits(x, defs, depth)
    ensures forall x :: x in items ==> Fits(x, defs, more)
    ensures ItemsCost(items, defs, more) == ItemsCost(items, defs, depth)
    decreases depth, items, 0
  {
    hide Fits, Cost;
    if items != [] {
      DeeperIsSame(items[0], defs, depth, more);
      DeeperItems(items[1..], defs, depth, more);
    }
  }

  /** What a schema costs, split between what was paid and what is left: every reference
      replaced lowers the remaining cost by exactly one, and budget is only left over when
      nothing remains to replace. The cost is a number when references nest finitely; without
      that, `LeftoverMeansComplete` says what remains true. */
  lemma {:induction false} CostIsConserved(v: Json, defs: seq<Member>, budget: nat, depth: nat)
    requires Fits(v, defs, depth)
    ensures var (v', left) := Inline(v, defs, budget);
            && Fits(v', defs, depth)
            && Cost(v, defs, depth) == (budget - left) + Cost(v', defs, depth)
            && (left > 0 ==> Cost(v', defs, depth) == 0)
    decreases budget, v, 1
  {
    hide Target;
    var target := Target(v, defs);
    if target.Some? && budget > 0 {
      CostIsConserved(target.value, defs, budget - 1, depth - 1);
      DeeperIsSame(Inline(v, defs, budget).0, defs, depth - 1, depth);
    } else if budget == 0 {
      SpentBudget(v, defs);
    } else {
      var b := ChildInlined(v, defs, budget, Index(0));
      match v
      case Obj(members) => MembersCostIsConserved(members, defs, budget, depth);
      case Arr(items) => ItemsCostIsConserved(items, defs, budget, depth);
      case _ =>
    }
  }

  lemma {:induction false} MembersCostIsConserved(members: seq<Member>, defs: seq<Member>, budget: nat, depth: nat)
    requires forall m :: m in members ==> Fits(m.value, defs, depth)
    ensures var (members', left) := InlineMembers(members, defs, budget);
            && (forall m :: m in members' ==> Fits(m.value, defs, depth))
            && MembersCost(members, defs, depth) == (budget - left) + MembersCost(members', defs, depth)
            && (left > 0 ==> MembersCost(members', defs, depth) == 0)
    decreases budget, members, 0
  {
    hide Fits, Cost, Inline;
    if members != [] {
      CostIsConserved(members[0].value, defs, budget, depth);
      var left := Inline(members[0].value, defs, budget).1;
      MembersCostIsConserved(members[1..], defs, left, depth);
      assert InlineMembers(members, defs, budget).0[1..] == InlineMembers(members[1..], defs, left).0;
    }
  }

  lemma {:induction false} ItemsCostIsConserved(items: seq<Json>, defs: seq<Member>, budget: nat, depth: nat)
    requires forall x :: x in items ==> Fits(x, defs, depth)
    ensures var (items', left) := InlineItems(items, defs, budget);
            && (forall x :: x in items' ==> Fits(x, defs, depth))
            && ItemsCost(items, defs, depth) == (budget - left) + ItemsCost(items', defs, depth)
            && (left > 0 ==> ItemsCost(items', defs, depth) == 0)
    decreases budget, items, 0
  {
    hide Fits, Cost, Inline;
    if items != [] {
      CostIsConserved(items[0], defs, budget, depth);
      var left := Inline(items[0], defs, budget).1;
      ItemsCostIsConserved(items[1..], defs, left, depth);
      assert InlineItems(items, defs, budget).0[1..] == InlineItems(items[1..], defs, left).0;
    }
  }

  /** For any definitions, cyclic ones included: budget left over means no reference left. So a
      cycle that is reached spends the whole budget. */
  lemma {:induction false} LeftoverMeansComplete(v: Json, defs: seq<Member>, budget: nat)
    requires Inline(v, defs, budget).1 > 0
    ensures RefFree(Inline(v, defs, budget).0, defs)
    decreases budget, v, 1
  {
    hide Target;
    var target := Target(v, defs);
    if target.Some? && budget > 0 {
      LeftoverMeansComplete(target.value, defs, budget - 1);
    } else {
      var b := ChildInlined(v, defs, budget, Index(0));
      match v
      case Obj(members) => LeftoverMembersComplete(members, defs, budget);
      case Arr(items) => LeftoverItemsComplete(items, defs, budget);
      case _ =>
    }
  }

  lemma {:induction false} LeftoverMembersComplete(members: seq<Member>, defs: seq<Member>, budget: nat)
    requires InlineMembers(members, defs, budget).1 > 0
    ensures forall m :: m in InlineMembers(members, defs, budget).0 ==> RefFree(m.value, defs)
    decreases budget, members, 0
  {
    hide RefFree, Inline;
    if members != [] {
      LeftoverMeansComplete(members[0].value, defs, budget);
      LeftoverMembersComplete(members[1..], defs, Inline(members[0].value, defs, budget).1);
    }
  }

  lemma {:induction false} LeftoverItemsComplete(items: seq<Json>, defs: seq<Member>, budget: nat)
    requires InlineItems(items, defs, budget).1 > 0
    ensures forall x :: x in InlineItems(items, defs, budget).0 ==> RefFree(x, defs)
    decreases budget, items, 0
  {
    hide RefFree, Inline;
    if items != [] {
      LeftoverMeansComplete(items[0], defs, budget);
      LeftoverItemsComplete(items[1..], defs, Inline(items[0], defs, budget).1);
    }
  }

  /** Nothing left to replace is the same as no reference left. */
  lemma {:induction false} FreeIffCostless(v: Json, defs: seq<Member>, depth: nat)
    ensures RefFree(v, defs) <==> Cost(v, defs, depth) == 0
    decreases v, 1
  {
    hide Target;
    if Target(v, defs) == None {
      match v
      case Obj(members) => MembersFreeIffCostless(members, defs, depth);
      case Arr(items) => ItemsFreeIffCostless(items, defs, depth);
      case _ =>
    }
  }

  lemma {:induction false} MembersFreeIffCostless(members: seq<Member>, defs: seq<Member>, depth: nat)
    ensures (forall m :: m in members ==> RefFree(m.value, defs)) <==> MembersCost(members, defs, depth) == 0
    decreases members, 0
  {
    hide RefFree, Cost;
    if members != [] {
      FreeIffCostless(members[0].value, defs, depth);
      MembersFreeIffCostless(members[1..], defs, depth);
      assert forall m :: m in members <==> m == members[0] || m in members[1..];
    }
  }

  lemma {:induction false} ItemsFreeIffCostless(items: seq<Json>, defs: seq<Member>, depth: nat)
    ensures (forall x :: x in items ==> RefFree(x, defs)) <==> ItemsCost(items, defs, depth) == 0
    decreases items, 0
  {
    hide RefFree, Cost;
    if items != [] {
      FreeIffCostless(items[0], defs, depth);
      ItemsFreeIffCostless(items[1..], defs, depth);
      assert forall x :: x in items <==> x == items[0] || x in items[1..];
    }
  }

  /** A result without references proves that the references nest no deeper than the
      budget: cyclic definitions that are reached always leave one behind. */
  lemma {:induction false} FreeResultFits(v: Json, defs: seq<Member>, budget: nat)
    requires RefFree(Inline(v, defs, budget).0, defs)
    ensures Fits(v, defs, budget)
    decreases budget, v, 1
  {
    hide Target;
    var target := Target(v, defs);
    if target.Some? && budget > 0 {
      FreeResultFits(target.value, defs, budget - 1);
    } else if budget == 0 {
      SpentBudget(v, defs);
      FreeFits(v, defs, 0);
    } else {
      match v
      case Obj(members) => FreeMembersFit(members, defs, budget);
      case Arr(items) => FreeItemsFit(items, defs, budget);
      case _ =>
    }
  }

  lemma {:induction false} FreeMembersFit(members: seq<Member>, defs: seq<Member>, budget: nat)
    requires forall m :: m in InlineMembers(members, defs, budget).0 ==> RefFree(m.value, defs)
    ensures forall m :: m in members ==> Fits(m.value, defs, budget)
    decreases budget, members, 0
  {
    hide RefFree, Fits, Inline;
    if members != [] {
      var (value, left) := Inline(members[0].value, defs, budget);
      var members' := InlineMembers(members, defs, budget).0;
      assert members'[0].value == value && members'[1..] == InlineMembers(members[1..], defs, left).0;
      FreeResultFits(members[0].value, defs, budget);
      FreeMembersFit(members[1..], defs, left);
      forall m | m in members[1..]
        ensures Fits(m.value, defs, budget)
      {
        DeeperIsSame(m.value, defs, left, budget);
      }
    }
  }

  lemma {:induction false} FreeItemsFit(items: seq<Json>, defs: seq<Member>, budget: nat)
    requires forall x :: x in InlineItems(items, defs, budget).0 ==> RefFree(x, defs)
    ensures forall x :: x in items ==> Fits(x, defs, budget)
    decreases budget, items, 0
  {
    hide RefFree, Fits, Inline;
    if items != [] {
      var (item, left) := Inline(items[0], defs, budget);
      var items' := InlineItems(items, defs, budget).0;
      assert items'[0] == item && items'[1..] == InlineItems(items[1..], defs, left).0;
      FreeResultFits(items[0], defs, budget);
      FreeItemsFit(items[1..], defs, left);
      forall x | x in items[1..]
        ensures Fits(x, defs, budget)
      {
        DeeperIsSame(x, defs, left, budget);
      }
    }
  }

  lemma {:induction false} FreeFits(v: Json, defs: seq<Member>, depth: nat)
    requires RefFree(v, defs)
    ensures Fits(v, defs, depth)
    decreases v
  {
    hide Target;
    match v
    case Obj(members) =>
      forall m | m in members
        ensures Fits(m.value, defs, depth)
      {
        FreeFits(m.value, defs, depth);
      }
    case Arr(items) =>
      forall x | x in items
        ensures Fits(x, defs, depth)
      {
        FreeFits(x, defs, depth);
      }
    case _ =>
  }

  /** Inlining leaves no local reference exactly when the references do not nest forever
      and unfolding them all costs no more than the budget; the budget then falls by
      exactly that cost. */
  lemma CompleteIffAffordable(v: Json, defs: seq<Member>, budget: nat)
    ensures RefFree(Inline(v, defs, budget).0, defs)
            <==> Fits(v, defs, budget) && Cost(v, defs, budget) <= budget
    ensures RefFree(Inline(v, defs, budget).0, defs)
            ==> Inline(v, defs, budget).1 == budget - Cost(v, defs, budget)
  {
    hide RefFree, Fits, Cost, Inline;
    var v' := Inline(v, defs, budget).0;
    FreeIffCostless(v', defs, budget);
    if RefFree(v', defs) {
      FreeResultFits(v, defs, budget);
    }
    if Fits(v, defs, budget) {
      CostIsConserved(v, defs, budget, budget);
    }
  }

  // ---- acyclic reference graphs -----------------------------------------------------

  /** Every definition `v` refers to, without following references, ranks below `bound`. */
  ghost predicate RefsBelow(v: Json, defs: seq<Member>, rank: Json -> nat, bound: nat)
    decreases v
  {
    match Target(v, defs)
    case Some(def) => rank(def) < bound
    case None =>
      match v
      case Obj(members) => forall m :: m in members ==> RefsBelow(m.value, defs, rank, bound)
      case Arr(items) => forall x :: x in items ==> RefsBelow(x, defs, rank, bound)
      case _ => true
  }

  /** If definitions can be ranked so that each refers only to lower ones, references nest
      no deeper than the ranks: an acyclic reference graph fits. */
  lemma {:induction false} AcyclicFits(v: Json, defs: seq<Member>, rank: Json -> nat, bound: nat)
    requires forall m :: m in defs ==> RefsBelow(m.value, defs, rank, rank(m.value))
    requires RefsBelow(v, defs, rank, bound)
    ensures Fits(v, defs, bound)
    decreases bound, v
  {
    hide Target;
    match Target(v, defs)
    case Some(def) =>
      TargetIsDefined(v, defs);
      AcyclicFits(def, defs, rank, rank(def));
      DeeperIsSame(def, defs, rank(def), bound - 1);
    case None =>
      match v
      case Obj(members) =>
        forall m | m in members
          ensures Fits(m.value, defs, bound)
        {
          AcyclicFits(m.value, defs, rank, bound);
        }
      case Arr(items) =>
        forall x | x in items
          ensures Fits(x, defs, bound)
        {
          AcyclicFits(x, defs, rank, bound);
        }
      case _ =>
  }

  lemma TargetIsDefined(v: Json, defs: seq<Member>)
    requires Target(v, defs).Some?
    ensures exists m :: m in defs && m.value == Target(v, defs).value
  {
    var name := Get(v.members, "$ref").value.value[|REF_PREFIX|..];
    assert Member(name, Get(defs, name).value) in defs;
  }
}
