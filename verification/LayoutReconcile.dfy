/** Self-healing of a layout tree against the live panes (`reconcileTree`,
    app/src/layout-tree.js), and its persistence. */
module LayoutReconcile {
  import opened Wrappers
  import opened LayoutTree

  /** The leaf a missing pane is put next to: the focused one if the tree has it, else the
      last one. */
  function Anchor(t: Tree, focused: Option<string>): (p: string)
    ensures p in LeafPanes(t)
  {
    if focused.Some? && focused.value != "" && HasPane(t, focused.value) then focused.value
    else LeafPanes(t)[|LeafPanes(t)| - 1]
  }

  function Insert(tree: Option<Tree>, id: string, focused: Option<string>): Tree {
    match tree
    case None => Leaf(id)
    case Some(t) =>
      var anchor := Anchor(t, focused);
      var parent := FindParentOf(t, anchor).value.parent;
      var dir := if parent.Some? && parent.value.dir == V then H else V;
      SplitLeaf(t, anchor, dir, id, After)
  }

  function InsertAll(tree: Option<Tree>, ids: seq<string>, focused: Option<string>): Option<Tree>
    decreases |ids|
  {
    if ids == [] then tree else InsertAll(Some(Insert(tree, ids[0], focused)), ids[1..], focused)
  }

  function Pruned(tree: Option<Tree>, live: seq<string>): Option<Tree> {
    if tree.Some? then PruneDead(tree.value, Elements(live)) else None
  }

  /** Live panes the tree does not show, in order. */
  function MissingPanes(present: seq<string>, live: seq<string>): seq<string> {
    Only(live, Elements(live) - Elements(present))
  }

  function Reconcile(tree: Option<Tree>, live: seq<string>, focused: Option<string>): Option<Tree> {
    var pruned := Pruned(tree, live);
    InsertAll(pruned, MissingPanes(Panes(pruned), live), focused)
  }

  /** The body of the loop: one missing pane, put next to its anchor. */
  method InsertPane(tree: Option<Tree>, id: string, focused: Option<string>, present: set<string>) returns (t: Tree)
    requires present == Elements(Panes(tree))
    ensures t == Insert(tree, id, focused)
  {
    if tree == None {
      return Leaf(id);
    }
    var panes := LeafPanes(tree.value);
    var anchor := if focused.Some? && focused.value != "" && focused.value in present
                  then focused.value else panes[|panes| - 1];
    var parent := FindParentOf(tree.value, anchor).value.parent;
    var dir := if parent.Some? && parent.value.dir == V then H else V;
    return SplitLeaf(tree.value, anchor, dir, id, After);
  }

  /** `reconcileTree`: its loop over the missing panes, with the set of panes present. */
  method ReconcileTree(tree: Option<Tree>, live: seq<string>, focused: Option<string>) returns (t: Option<Tree>)
    ensures t == Reconcile(tree, live, focused)
  {
    t := Pruned(tree, live);
    var present := Elements(Panes(t));
    var missing := Only(live, Elements(live) - present);
    ghost var result := InsertAll(t, missing, focused);
    assert missing[0..] == missing;
    hide Insert, Elements, Only, Pruned, InsertAll, Panes;
    for i := 0 to |missing|
      invariant present == Elements(Panes(t))
      invariant InsertAll(t, missing[i..], focused) == result
    {
      InsertAllStep(t, missing, i, focused);
      InsertElements(t, missing[i], focused);
      var next := InsertPane(t, missing[i], focused, present);
      t, present := Some(next), present + {missing[i]};
    }
    InsertNone(t, missing[|missing|..], focused);
  }

  lemma InsertAllStep(t: Option<Tree>, ids: seq<string>, i: nat, focused: Option<string>)
    requires i < |ids|
    ensures InsertAll(t, ids[i..], focused) == InsertAll(Some(Insert(t, ids[i], focused)), ids[i + 1..], focused)
  {
    hide Insert;
    assert ids[i..][1..] == ids[i + 1..];
  }

  lemma InsertNone(t: Option<Tree>, ids: seq<string>, focused: Option<string>)
    requires ids == []
    ensures InsertAll(t, ids, focused) == t
  {
  }

  // ---- one insertion ----------------------------------------------------------------

  lemma {:induction false} SplitElements(t: Tree, p: string, dir: Dir, added: string, where: Where)
    ensures Elements(LeafPanes(SplitLeaf(t, p, dir, added, where))) ==
            Elements(LeafPanes(t)) + (if p in LeafPanes(t) then {added} else {})
  {
    match t
    case Leaf(q) =>
    case Split(_, _, a, b) =>
      SplitElements(a, p, dir, added, where);
      SplitElements(b, p, dir, added, where);
      ConcatElements(LeafPanes(a), LeafPanes(b));
      ConcatElements(LeafPanes(SplitLeaf(a, p, dir, added, where)), LeafPanes(SplitLeaf(b, p, dir, added, where)));
  }

  lemma ConcatElements(s: seq<string>, t: seq<string>)
    ensures Elements(s + t) == Elements(s) + Elements(t)
  {
  }

  lemma InsertElements(tree: Option<Tree>, id: string, focused: Option<string>)
    ensures Elements(LeafPanes(Insert(tree, id, focused))) == Elements(Panes(tree)) + {id}
  {
    if tree.Some? {
      var anchor := Anchor(tree.value, focused);
      SplitElements(tree.value, anchor, V, id, After);
      SplitElements(tree.value, anchor, H, id, After);
    }
  }

  /** Splitting never reorders the panes already there. */
  lemma {:induction false} SplitKeepsOrder(t: Tree, p: string, dir: Dir, added: string, where: Where, keep: set<string>)
    requires added !in keep
    ensures Only(LeafPanes(SplitLeaf(t, p, dir, added, where)), keep) == Only(LeafPanes(t), keep)
  {
    match t
    case Leaf(q) =>
      assert [q, added][1..] == [added] && [added, q][1..] == [q] && [added][1..] == [] && [q][1..] == [];
    case Split(_, _, a, b) =>
      SplitKeepsOrder(a, p, dir, added, where, keep);
      SplitKeepsOrder(b, p, dir, added, where, keep);
      OnlyConcat(LeafPanes(a), LeafPanes(b), keep);
      OnlyConcat(LeafPanes(SplitLeaf(a, p, dir, added, where)), LeafPanes(SplitLeaf(b, p, dir, added, where)), keep);
  }

  /** Panes are distinct after a split exactly when they were before and the pane is new. */
  lemma {:induction false} SplitDistinct(t: Tree, p: string, dir: Dir, added: string, where: Where)
    requires p in LeafPanes(t)
    ensures Distinct(LeafPanes(SplitLeaf(t, p, dir, added, where)))
            <==> Distinct(LeafPanes(t)) && added !in LeafPanes(t)
  {
    if Distinct(LeafPanes(t)) && added !in LeafPanes(t) {
      var pre, post := SplitInserts(t, p, dir, added, where);
      InsertedOne(pre, post, p, added, where, {});
    }
    if Distinct(LeafPanes(SplitLeaf(t, p, dir, added, where))) {
      DistinctSplit(t, p, dir, added, where);
    }
  }

  lemma {:induction false} DistinctSplit(t: Tree, p: string, dir: Dir, added: string, where: Where)
    requires p in LeafPanes(t) && Distinct(LeafPanes(SplitLeaf(t, p, dir, added, where)))
    ensures Distinct(LeafPanes(t)) && added !in LeafPanes(t)
  {
    match t
    case Leaf(q) =>
      var both := SplitLeaf(t, p, dir, added, where);
      assert q == p && both.Split? && LeafPanes(both) == LeafPanes(both.a) + LeafPanes(both.b);
      assert LeafPanes(both)[0] != LeafPanes(both)[1];
    case Split(_, _, a, b) =>
      var a', b' := SplitLeaf(a, p, dir, added, where), SplitLeaf(b, p, dir, added, where);
      DistinctHalves(LeafPanes(a'), LeafPanes(b'));
      SplitElements(a, p, dir, added, where);
      SplitElements(b, p, dir, added, where);
      assert added in Elements(LeafPanes(a')) || added in Elements(LeafPanes(b'));
      if p in LeafPanes(a) {
        DistinctSplit(a, p, dir, added, where);
        assert added in Elements(LeafPanes(a'));
        assert p !in LeafPanes(b);
        SplitOfAbsent(b, p, dir, added, where);
      } else {
        DistinctSplit(b, p, dir, added, where);
        SplitOfAbsent(a, p, dir, added, where);
      }
      ConcatDistinct(LeafPanes(a), LeafPanes(b));
  }

  lemma ConcatDistinct(s: seq<string>, t: seq<string>)
    requires Distinct(s) && Distinct(t) && Elements(s) !! Elements(t)
    ensures Distinct(s + t)
  {
    forall i, j | 0 <= i < j < |s + t|
      ensures (s + t)[i] != (s + t)[j]
    {
      assert i < |s| ==> s[i] in Elements(s);
      assert j >= |s| ==> t[j - |s|] in Elements(t);
    }
  }

  // ---- all insertions ---------------------------------------------------------------

  lemma {:induction false} InsertAllFacts(tree: Option<Tree>, ids: seq<string>, focused: Option<string>,
                                          keep: set<string>)
    requires forall id :: id in ids ==> id !in keep
    ensures var r := Panes(InsertAll(tree, ids, focused));
            && Elements(r) == Elements(Panes(tree)) + Elements(ids)
            && Only(r, keep) == Only(Panes(tree), keep)
            && (Distinct(r) <==> Distinct(Panes(tree)) && Distinct(ids) && Elements(ids) !! Elements(Panes(tree)))
    decreases |ids|
  {
    hide Distinct, Only, FindParentOf;
    if ids == [] {
      assert Distinct([]) by {
        EmptyDistinct();
      }
    } else {
      var next := Insert(tree, ids[0], focused);
      InsertElements(tree, ids[0], focused);
      InsertOrderAndDistinct(tree, ids[0], focused, keep);
      InsertAllFacts(Some(next), ids[1..], focused, keep);
      assert ids == [ids[0]] + ids[1..];
      ConcatElements([ids[0]], ids[1..]);
      HeadDistinct(ids);
    }
  }

  lemma EmptyDistinct()
    ensures Distinct([])
  {
  }

  lemma HeadDistinct(ids: seq<string>)
    requires ids != []
    ensures Distinct(ids) <==> Distinct(ids[1..]) && ids[0] !in ids[1..]
  {
    if Distinct(ids[1..]) && ids[0] !in ids[1..] {
      forall i, j | 0 <= i < j < |ids|
        ensures ids[i] != ids[j]
      {
        assert ids[j] == ids[1..][j - 1];
      }
    }
    if Distinct(ids) {
      forall j | 0 <= j < |ids[1..]|
        ensures ids[1..][j] != ids[0]
      {
        assert ids[0] != ids[j + 1];
      }
    }
  }

  lemma InsertOrderAndDistinct(tree: Option<Tree>, id: string, focused: Option<string>, keep: set<string>)
    requires id !in keep
    ensures var r := LeafPanes(Insert(tree, id, focused));
            && Only(r, keep) == Only(Panes(tree), keep)
            && (Distinct(r) <==> Distinct(Panes(tree)) && id !in Panes(tree))
  {
    if tree.None? {
      assert [id][1..] == [];
    } else {
      hide Distinct, Only, FindParentOf, Anchor, SplitLeaf;
      var t := tree.value;
      var anchor := Anchor(t, focused);
      var parent := FindParentOf(t, anchor).value.parent;
      var dir := if parent.Some? && parent.value.dir == V then H else V;
      SplitKeepsOrder(t, anchor, dir, id, After, keep);
      SplitDistinct(t, anchor, dir, id, After);
    }
  }

  /** The result shows exactly the live panes, and survivors keep their order. Panes are distinct
      exactly when the survivors are and no missing pane is listed twice: always, for a tree with
      distinct leaves and a live list without repeats. */
  lemma ReconcileShowsLive(tree: Option<Tree>, live: seq<string>, focused: Option<string>)
    ensures var r := Panes(Reconcile(tree, live, focused));
            var survivors := Elements(live) * Elements(Panes(tree));
            && Elements(r) == Elements(live)
            && Only(r, survivors) == Only(Panes(tree), Elements(live))
            && (Distinct(r) <==> Distinct(Only(Panes(tree), Elements(live)))
                                 && Distinct(MissingPanes(Panes(Pruned(tree, live)), live)))
            && (Distinct(Panes(tree)) && Distinct(live) ==> Distinct(r))
  {
    var pruned := Pruned(tree, live);
    var missing := MissingPanes(Panes(pruned), live);
    var survivors := Elements(live) * Elements(Panes(tree));
    if tree.Some? {
      PruneKeepsLive(tree.value, Elements(live));
    }
    if Distinct(Panes(tree)) {
      OnlyDistinct(Panes(tree), Elements(live));
    }
    assert Panes(pruned) == Only(Panes(tree), Elements(live));
    OnlyAll(Panes(pruned), survivors);
    InsertAllFacts(pruned, missing, focused, survivors);
    if Distinct(live) {
      OnlyDistinct(live, Elements(live) - Elements(Panes(pruned)));
    }
  }

  /** Reconciling again changes nothing, wherever the focus has moved: not the panes, their
      order, nor any direction or ratio. */
  lemma ReconcileIsIdempotent(tree: Option<Tree>, live: seq<string>, focused: Option<string>, later: Option<string>)
    ensures var r := Reconcile(tree, live, focused);
            Reconcile(r, live, later) == r
  {
    hide Reconcile;
    var r := Reconcile(tree, live, focused);
    ReconcileShowsLive(tree, live, focused);
    hide Distinct, Only;
    if r.Some? {
      assert forall p :: p in LeafPanes(r.value) ==> p in Elements(Panes(r));
      PruneOfLive(r.value, Elements(live));
    }
    NothingMissing(r, live, later);
  }

  lemma NothingMissing(r: Option<Tree>, live: seq<string>, later: Option<string>)
    requires Pruned(r, live) == r && Elements(Panes(r)) == Elements(live)
    ensures Reconcile(r, live, later) == r
  {
    OnlyNone(live, Elements(live) - Elements(Panes(r)));
  }

  // ---- persistence ------------------------------------------------------------------

  datatype Stored = StoredLeaf(index: int) | StoredSplit(dir: Dir, ratio: real, a: Stored, b: Stored)

  /** Leaves are stored by pane index; a leaf without one is dropped. */
  function Serialize(t: Tree, indexOf: string -> Option<int>): Option<Stored> {
    match t
    case Leaf(p) => if indexOf(p).Some? then Some(StoredLeaf(indexOf(p).value)) else None
    case Split(dir, ratio, a, b) =>
      match (Serialize(a, indexOf), Serialize(b, indexOf))
      case (Some(a'), Some(b')) => Some(StoredSplit(dir, ratio, a', b'))
      case (Some(a'), None) => Some(a')
      case (None, b') => b'
  }

  /** Pane ids are rebuilt from the workspace id and the stored index. */
  function Deserialize(s: Stored, paneId: int -> string): Tree {
    match s
    case StoredLeaf(i) => Leaf(paneId(i))
    case StoredSplit(dir, ratio, a, b) => Split(dir, ratio, Deserialize(a, paneId), Deserialize(b, paneId))
  }

  function Rename(t: Tree, name: string -> string): Tree {
    match t
    case Leaf(p) => Leaf(name(p))
    case Split(dir, ratio, a, b) => Split(dir, ratio, Rename(a, name), Rename(b, name))
  }

  /** Reopening a stored tree gives the tree pruned of the panes that had no index, every
      other pane renamed by its index, splits and ratios as they were. */
  lemma {:induction false} ReopenRestores(t: Tree, indexOf: string -> Option<int>, paneId: int -> string,
                                          live: set<string>)
    requires forall p :: p in LeafPanes(t) ==> (p in live <==> indexOf(p).Some?)
    ensures var name := (p: string) => if indexOf(p).Some? then paneId(indexOf(p).value) else p;
            match Serialize(t, indexOf)
            case None => PruneDead(t, live) == None
            case Some(s) =>
              PruneDead(t, live).Some? && Deserialize(s, paneId) == Rename(PruneDead(t, live).value, name)
  {
    match t
    case Leaf(p) =>
    case Split(dir, ratio, a, b) =>
      ReopenRestores(a, indexOf, paneId, live);
      ReopenRestores(b, indexOf, paneId, live);
  }

  lemma {:induction false} RenameNothing(t: Tree, name: string -> string)
    requires forall p :: p in LeafPanes(t) ==> name(p) == p
    ensures Rename(t, name) == t
  {
    match t
    case Leaf(p) =>
    case Split(_, _, a, b) =>
      RenameNothing(a, name);
      RenameNothing(b, name);
  }

  /** When every pane id is the one its index rebuilds, storing and reopening is exact. */
  lemma RoundTrip(t: Tree, indexOf: string -> Option<int>, paneId: int -> string)
    requires forall p :: p in LeafPanes(t) ==> indexOf(p).Some? && paneId(indexOf(p).value) == p
    ensures Serialize(t, indexOf).Some? && Deserialize(Serialize(t, indexOf).value, paneId) == t
  {
    var live := Elements(LeafPanes(t));
    var name := (p: string) => if indexOf(p).Some? then paneId(indexOf(p).value) else p;
    ReopenRestores(t, indexOf, paneId, live);
    PruneOfLive(t, live);
    RenameNothing(t, name);
  }
}
