/** Where a new pane goes (`splitLeaf`, `removeLeaf`, `moveLeaf`, `reconcileTree`,
    app/src/layout-tree.js): next to which leaf, on which side, and in which direction. */
module LayoutPlacement {
  import opened Wrappers
  import opened LayoutTree
  import opened LayoutReconcile

  /** `s` is the tree `t` or a part of it. */
  predicate Within(s: Tree, t: Tree) {
    s == t || (t.Split? && (Within(s, t.a) || Within(s, t.b)))
  }

  /** A split of direction `dir` has the leaf `p` as a child. */
  ghost predicate Holds(t: Tree, p: string, dir: Dir) {
    exists s :: Within(s, t) && s.Split? && s.dir == dir && (s.a == Leaf(p) || s.b == Leaf(p))
  }

  // ---- removing -----------------------------------------------------------------------

  lemma {:induction false} RemoveAbsent(t: Tree, p: string)
    requires p !in LeafPanes(t)
    ensures RemoveLeaf(t, p) == Some(t)
  {
    if t.Split? {
      RemoveAbsent(t.a, p);
      RemoveAbsent(t.b, p);
    }
  }

  /** In a tree with distinct leaves, removing a pane is pruning to all the others: siblings take the
      place of splits, every other split keeps its direction and ratio. */
  lemma {:induction false} RemovePrunes(t: Tree, p: string, live: set<string>)
    requires Distinct(LeafPanes(t)) && p !in live && forall q :: q in LeafPanes(t) && q != p ==> q in live
    ensures RemoveLeaf(t, p) == PruneDead(t, live)
  {
    if t.Split? {
      DistinctHalves(LeafPanes(t.a), LeafPanes(t.b));
      hide Distinct;
      RemovePrunes(t.a, p, live);
      RemovePrunes(t.b, p, live);
      if t.a == Leaf(p) {
        assert p in LeafPanes(t.a);
        PruneOfLive(t.b, live);
      } else if t.b == Leaf(p) {
        assert p in LeafPanes(t.b);
        PruneOfLive(t.a, live);
      }
    }
  }

  // ---- splitting ----------------------------------------------------------------------

  /** A split in two equal halves: the new pane before or after the old one. */
  function Pair(p: string, added: string, dir: Dir, where: Where): Tree {
    if where == Before || where == Top then Split(dir, 0.5, Leaf(added), Leaf(p))
    else Split(dir, 0.5, Leaf(p), Leaf(added))
  }

  /** The new pane shares an even split with the old one, and removing it again gives back the tree
      as it was: no other split changes its direction, its ratio or its children. */
  lemma {:induction false} SplitPairs(t: Tree, p: string, dir: Dir, added: string, where: Where)
    requires Distinct(LeafPanes(t)) && p in LeafPanes(t) && added !in LeafPanes(t)
    ensures var r := SplitLeaf(t, p, dir, added, where);
            Within(Pair(p, added, dir, where), r) && RemoveLeaf(r, added) == Some(t)
  {
    if t.Split? {
      DistinctHalves(LeafPanes(t.a), LeafPanes(t.b));
      hide Distinct;
      if p in LeafPanes(t.a) {
        SplitPairs(t.a, p, dir, added, where);
        SplitOfAbsent(t.b, p, dir, added, where);
        RemoveAbsent(t.b, added);
      } else {
        SplitPairs(t.b, p, dir, added, where);
        SplitOfAbsent(t.a, p, dir, added, where);
        RemoveAbsent(t.a, added);
      }
    }
  }

  /** A moved pane shares an even split of the given direction with its target, and removing it
      gives what is left when it is removed from where it was. */
  lemma MovePairs(t: Tree, src: string, target: string, dir: Dir, where: Where)
    requires Distinct(LeafPanes(t)) && src != target && target in LeafPanes(t)
    ensures var r := MoveLeaf(t, src, target, dir, where);
            Within(Pair(target, src, dir, where), r) && RemoveLeaf(r, src) == RemoveLeaf(t, src)
  {
    hide Distinct, Only, LeafPanes, SplitLeaf, Within;
    RemoveDropsLeaf(t, src);
    RemovedAll(t, src, target);
    OnlyMembers(t, src);
    OnlyDistinct(LeafPanes(t), Elements(LeafPanes(t)) - {src});
    SplitPairs(RemoveLeaf(t, src).value, target, dir, src, where);
  }

  // ---- the split that holds a leaf ----------------------------------------------------

  /** The parent that is found holds the leaf. */
  lemma {:induction false} ParentHolds(t: Tree, p: string)
    requires p in LeafPanes(t)
    ensures match FindParentOf(t, p).value.parent
            case None => t == Leaf(p)
            case Some(s) => Within(s, t) && s.Split? && (s.a == Leaf(p) || s.b == Leaf(p))
  {
    if t.Split? && t.a != Leaf(p) && t.b != Leaf(p) {
      if p in LeafPanes(t.a) {
        ParentHolds(t.a, p);
      } else {
        ParentHolds(t.b, p);
      }
    }
  }

  lemma {:induction false} PartsAreInside(s: Tree, t: Tree)
    requires Within(s, t)
    ensures forall q :: q in LeafPanes(s) ==> q in LeafPanes(t)
  {
    if s != t {
      if Within(s, t.a) {
        PartsAreInside(s, t.a);
      } else {
        PartsAreInside(s, t.b);
      }
    }
  }

  /** In a tree with distinct leaves it is the only one that does. */
  lemma {:induction false} OneHolder(t: Tree, p: string, s: Tree)
    requires Distinct(LeafPanes(t)) && Within(s, t) && s.Split? && (s.a == Leaf(p) || s.b == Leaf(p))
    ensures p in LeafPanes(t) && FindParentOf(t, p).value.parent == Some(s)
  {
    assert p in LeafPanes(s);
    PartsAreInside(s, t);
    if s != t {
      DistinctHalves(LeafPanes(t.a), LeafPanes(t.b));
      hide Distinct;
      if Within(s, t.a) {
        PartsAreInside(s, t.a);
        OneHolder(t.a, p, s);
      } else {
        PartsAreInside(s, t.b);
        OneHolder(t.b, p, s);
      }
    }
  }

  /** The other direction than that of the split which held the leaf; vertical if there was none. */
  ghost predicate Alternates(t: Tree, p: string, dir: Dir) {
    && (Holds(t, p, V) ==> dir == H)
    && (Holds(t, p, H) ==> dir == V)
    && (t == Leaf(p) ==> dir == V)
  }

  lemma ParentAlternates(t: Tree, p: string, dir: Dir)
    requires Distinct(LeafPanes(t)) && p in LeafPanes(t)
    requires var parent := FindParentOf(t, p).value.parent;
             dir == if parent.Some? && parent.value.dir == V then H else V
    ensures Alternates(t, p, dir)
  {
    hide FindParentOf, Distinct;
    ParentHolds(t, p);
    forall d | Holds(t, p, d)
      ensures FindParentOf(t, p).value.parent.Some? && FindParentOf(t, p).value.parent.value.dir == d
    {
      var s :| Within(s, t) && s.Split? && s.dir == d && (s.a == Leaf(p) || s.b == Leaf(p));
      OneHolder(t, p, s);
    }
  }

  /** Every leaf of a split tree is held by some split, so the direction is determined. */
  lemma LeafIsHeld(t: Tree, p: string)
    requires p in LeafPanes(t)
    ensures t == Leaf(p) || Holds(t, p, V) || Holds(t, p, H)
  {
    hide FindParentOf;
    ParentHolds(t, p);
    var parent := FindParentOf(t, p).value.parent;
    if parent.Some? {
      assert Holds(t, p, parent.value.dir);
    }
  }

  // ---- one missing pane ---------------------------------------------------------------

  /** The focused pane, if there is one. */
  function Focus(focused: Option<string>): Option<string> {
    if focused.Some? && focused.value != "" then focused else None
  }

  /** The pane `id` put into `t` right after `anchor`. */
  ghost predicate PutAfter(t: Tree, r: Tree, anchor: string, id: string, pre: seq<string>, post: seq<string>) {
    && LeafPanes(t) == pre + [anchor] + post
    && LeafPanes(r) == pre + [anchor] + ([id] + post)
    && RemoveLeaf(r, id) == Some(t)
    && exists dir :: Alternates(t, anchor, dir) && Within(Split(dir, 0.5, Leaf(anchor), Leaf(id)), r)
  }

  /** A missing pane is put right after the focused pane if that is there, else at the end; as the
      second half of an even split with it, of the other direction than the split that held it; and
      everything else stays as it was. */
  lemma InsertPlaces(t: Tree, id: string, focused: Option<string>)
    returns (anchor: string, pre: seq<string>, post: seq<string>)
    requires Distinct(LeafPanes(t)) && id !in LeafPanes(t)
    ensures PutAfter(t, Insert(Some(t), id, focused), anchor, id, pre, post)
    ensures if Focus(focused).Some? && Focus(focused).value in LeafPanes(t)
            then anchor == Focus(focused).value else post == []
  {
    hide FindParentOf, SplitLeaf, LeafPanes;
    var panes := LeafPanes(t);
    anchor := Anchor(t, focused);
    var parent := FindParentOf(t, anchor).value.parent;
    var dir := if parent.Some? && parent.value.dir == V then H else V;
    ParentAlternates(t, anchor, dir);
    SplitPairs(t, anchor, dir, id, After);
    pre, post := SplitInserts(t, anchor, dir, id, After);
    assert Beside(anchor, id, After) == [anchor, id];
    assert pre + [anchor, id] + post == pre + [anchor] + ([id] + post);
    assert panes[|pre|] == anchor;
  }

  // ---- all missing panes --------------------------------------------------------------

  function Backwards(s: seq<string>): seq<string> {
    if s == [] then [] else Backwards(s[1..]) + [s[0]]
  }

  /** New panes: distinct, and none of them shown. */
  ghost predicate New(ids: seq<string>, shown: seq<string>) {
    Distinct(shown) && Distinct(ids) && forall id :: id in ids ==> id !in shown
  }

  lemma NewRest(ids: seq<string>, tree: Option<Tree>, focused: Option<string>)
    requires ids != [] && New(ids, Panes(tree))
    ensures ids[0] !in Panes(tree) && New(ids[1..], Panes(Some(Insert(tree, ids[0], focused))))
  {
    hide Only, Insert, LeafPanes, Distinct;
    HeadDistinct(ids);
    InsertElements(tree, ids[0], focused);
    InsertOrderAndDistinct(tree, ids[0], focused, {});
    var r := LeafPanes(Insert(tree, ids[0], focused));
    assert forall id :: id in r <==> id in Elements(r);
  }

  /** With the focused pane shown, each new pane goes right after it, before those put in earlier. */
  lemma {:induction false} AllAfterFocus(t: Tree, ids: seq<string>, focused: Option<string>,
                                         pre: seq<string>, post: seq<string>)
    requires New(ids, LeafPanes(t)) && Focus(focused).Some?
    requires LeafPanes(t) == pre + [Focus(focused).value] + post
    ensures Panes(InsertAll(Some(t), ids, focused)) == pre + [Focus(focused).value] + (Backwards(ids) + post)
    decreases |ids|
  {
    hide Insert, Distinct, LeafPanes;
    var f := Focus(focused).value;
    if ids == [] {
      assert Backwards(ids) + post == post;
    } else {
      NewRest(ids, Some(t), focused);
      assert f in LeafPanes(t);
      assert Distinct(LeafPanes(t));
      var anchor, pre', post' := InsertPlaces(t, ids[0], focused);
      SameSplit(pre, post, pre', post', f);
      var next := Insert(Some(t), ids[0], focused);
      AllAfterFocus(next, ids[1..], focused, pre, [ids[0]] + post);
      assert Backwards(ids[1..]) + ([ids[0]] + post) == Backwards(ids) + post;
    }
  }

  /** An element of a sequence without repeats splits it in one way. */
  lemma SameSplit(pre: seq<string>, post: seq<string>, pre': seq<string>, post': seq<string>, f: string)
    requires pre + [f] + post == pre' + [f] + post' && Distinct(pre + [f] + post)
    ensures pre == pre' && post == post'
  {
    var s := pre + [f] + post;
    assert s[|pre|] == f && s[|pre'|] == f;
    assert s[..|pre|] == pre && s[..|pre'|] == pre';
    assert s[|pre| + 1..] == post && s[|pre'| + 1..] == post';
  }

  /** Without it, each goes to the end. */
  lemma {:induction false} AllAtTheEnd(tree: Option<Tree>, ids: seq<string>, focused: Option<string>)
    requires New(ids, Panes(tree))
    requires Focus(focused).Some? ==> Focus(focused).value !in Panes(tree) && Focus(focused).value !in ids
    ensures Panes(InsertAll(tree, ids, focused)) == Panes(tree) + ids
    decreases |ids|
  {
    hide Insert, Distinct, LeafPanes;
    if ids == [] {
      assert Panes(tree) + ids == Panes(tree);
    } else {
      NewRest(ids, tree, focused);
      OneAtTheEnd(tree, ids[0], focused);
      AllAtTheEnd(Some(Insert(tree, ids[0], focused)), ids[1..], focused);
      assert Panes(tree) + [ids[0]] + ids[1..] == Panes(tree) + ids;
    }
  }

  lemma OneAtTheEnd(tree: Option<Tree>, id: string, focused: Option<string>)
    requires Distinct(Panes(tree)) && id !in Panes(tree)
    requires Focus(focused).Some? ==> Focus(focused).value !in Panes(tree)
    ensures LeafPanes(Insert(tree, id, focused)) == Panes(tree) + [id]
  {
    if tree.None? {
      assert LeafPanes(Leaf(id)) == [] + [id];
    } else {
      hide Insert, Distinct, LeafPanes;
      var anchor, pre, post := InsertPlaces(tree.value, id, focused);
      assert pre + [anchor] + ([id] + []) == pre + [anchor] + [] + [id];
    }
  }

  lemma {:induction false} InsertInTurn(tree: Option<Tree>, first: seq<string>, second: seq<string>,
                                        focused: Option<string>)
    ensures InsertAll(tree, first + second, focused) == InsertAll(InsertAll(tree, first, focused), second, focused)
    decreases |first|
  {
    hide Insert;
    if first == [] {
      assert first + second == second;
    } else {
      assert (first + second)[1..] == first[1..] + second;
      InsertInTurn(Some(Insert(tree, first[0], focused)), first[1..], second, focused);
    }
  }

  /** The focused pane is itself new: up to it the panes go to the end, those after it right after it. */
  lemma AllAroundFocus(tree: Option<Tree>, before: seq<string>, after: seq<string>, focused: Option<string>)
    requires Focus(focused).Some? && New(before + [Focus(focused).value] + after, Panes(tree))
    ensures var f := Focus(focused).value;
            Panes(InsertAll(tree, before + [f] + after, focused)) == Panes(tree) + before + [f] + Backwards(after)
  {
    var f := Focus(focused).value;
    var ids := before + [f] + after;
    var shown := Panes(tree);
    NewParts(before, f, after, shown);
    hide Insert, Distinct, LeafPanes, New, Backwards, InsertAll;
    AllAtTheEnd(tree, before, focused);
    var mid := InsertAll(tree, before, focused);
    InsertInTurn(tree, before + [f], after, focused);
    InsertInTurn(tree, before, [f], focused);
    InsertOne(mid, f, focused);
    NewIsDistinct(f, Panes(mid));
    OneAtTheEnd(mid, f, focused);
    var t := Insert(mid, f, focused);
    AllAfterFocus(t, after, focused, shown + before, []);
    assert shown + before + [f] + [] == shown + before + [f] && Backwards(after) + [] == Backwards(after);
  }

  lemma InsertOne(tree: Option<Tree>, id: string, focused: Option<string>)
    ensures InsertAll(tree, [id], focused) == Some(Insert(tree, id, focused))
  {
    hide Insert;
    assert [id][1..] == [];
    InsertNone(Some(Insert(tree, id, focused)), [], focused);
  }

  lemma NewIsDistinct(f: string, shown: seq<string>)
    requires New([f], shown)
    ensures Distinct(shown) && f !in shown
  {
    hide Distinct;
    assert [f][0] == f;
  }

  lemma NewParts(before: seq<string>, f: string, after: seq<string>, shown: seq<string>)
    requires New(before + [f] + after, shown)
    ensures New(before, shown) && f !in shown && f !in before
    ensures New([f], shown + before) && New(after, shown + before + [f] + [])
  {
    var ids := before + [f] + after;
    assert ids[|before|] == f && ids[..|before|] == before && ids[|before| + 1..] == after;
    assert forall i :: 0 <= i < |after| ==> after[i] == ids[|before| + 1 + i];
    assert forall i :: 0 <= i < |before| ==> before[i] == ids[i];
    Disjoined(shown, before, ids);
    var more := shown + before + [f];
    assert more == shown + (before + [f]) && more + [] == more;
    assert ids[..|before| + 1] == before + [f];
    Disjoined(shown, before + [f], ids);
    forall id | id in after
      ensures id !in more
    {
      var j :| 0 <= j < |after| && after[j] == id;
      assert ids[|before| + 1 + j] == id;
    }
  }

  /** What is shown and the first of the new panes: still without repeats. */
  lemma Disjoined(shown: seq<string>, first: seq<string>, ids: seq<string>)
    requires New(ids, shown) && first <= ids
    ensures Distinct(shown + first)
  {
    var s := shown + first;
    forall i, j | 0 <= i < j < |s|
      ensures s[i] != s[j]
    {
      if j >= |shown| {
        assert s[j] == ids[j - |shown|] && s[j] in ids;
        if i >= |shown| {
          assert s[i] == ids[i - |shown|];
        } else {
          assert s[i] in shown;
        }
      }
    }
  }

  lemma SplitAt(s: seq<string>, f: string) returns (pre: seq<string>, post: seq<string>)
    requires f in s
    ensures s == pre + [f] + post
  {
    var i :| 0 <= i < |s| && s[i] == f;
    pre, post := s[..i], s[i + 1..];
  }

  /** Where all panes are after reconciling. Survivors keep their order. With the focused pane among
      them, the missing ones stand right after it, the last listed first; with the focused pane itself
      missing, those listed up to it stand at the end, and those after it follow it in reverse;
      otherwise all stand at the end in the order listed. */
  lemma ReconcileOrder(tree: Option<Tree>, live: seq<string>, focused: Option<string>)
    returns (pre: seq<string>, post: seq<string>)
    requires Distinct(Panes(tree)) && Distinct(live)
    ensures var survivors := Only(Panes(tree), Elements(live));
            var missing := Only(live, Elements(live) - Elements(Panes(tree)));
            var r := Panes(Reconcile(tree, live, focused));
            var f := Focus(focused);
            if f.Some? && f.value in survivors then
              survivors == pre + [f.value] + post && r == pre + [f.value] + (Backwards(missing) + post)
            else if f.Some? && f.value in missing then
              missing == pre + [f.value] + post && r == survivors + pre + [f.value] + Backwards(post)
            else r == survivors + missing
  {
    var survivors := Only(Panes(tree), Elements(live));
    var missing := Only(live, Elements(live) - Elements(Panes(tree)));
    var pruned := Pruned(tree, live);
    Missing(tree, live);
    hide Only, Distinct, InsertAll, LeafPanes, Backwards;
    var f := Focus(focused);
    pre, post := [], [];
    if f.Some? && f.value in survivors {
      pre, post := SplitAt(survivors, f.value);
      AllAfterFocus(pruned.value, missing, focused, pre, post);
    } else if f.Some? && f.value in missing {
      pre, post := SplitAt(missing, f.value);
      AllAroundFocus(pruned, pre, post, focused);
    } else {
      AllAtTheEnd(pruned, missing, focused);
    }
  }

  lemma Missing(tree: Option<Tree>, live: seq<string>)
    requires Distinct(Panes(tree)) && Distinct(live)
    ensures var pruned := Pruned(tree, live);
            var missing := Only(live, Elements(live) - Elements(Panes(tree)));
            && Panes(pruned) == Only(Panes(tree), Elements(live))
            && MissingPanes(Panes(pruned), live) == missing && New(missing, Panes(pruned))
  {
    var pruned := Pruned(tree, live);
    if tree.Some? {
      PruneKeepsLive(tree.value, Elements(live));
    }
    hide Only, Distinct;
    OnlyDistinct(Panes(tree), Elements(live));
    OnlyDistinct(live, Elements(live) - Elements(Panes(tree)));
    OnlySame(live, Elements(live) - Elements(Panes(tree)), Elements(live) - Elements(Panes(pruned)));
  }
}
