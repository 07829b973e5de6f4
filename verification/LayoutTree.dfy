/** The split-tree layout of a workspace (app/src/layout-tree.js): pure edits of a binary
    tree whose leaves carry pane ids. A missing tree (`null`) is `None`. */
module LayoutTree {
  import opened Wrappers

  datatype Dir = V | H

  datatype Where = Before | Top | After | Bottom

  datatype Tree =
    | Leaf(pane: string)
    | Split(dir: Dir, ratio: real, a: Tree, b: Tree)

  function LeafPanes(t: Tree): (panes: seq<string>)
    ensures panes != []
  {
    match t
    case Leaf(p) => [p]
    case Split(_, _, a, b) => LeafPanes(a) + LeafPanes(b)
  }

  function Panes(tree: Option<Tree>): seq<string> {
    if tree.Some? then LeafPanes(tree.value) else []
  }

  predicate HasPane(t: Tree, p: string) {
    p in LeafPanes(t)
  }

  datatype Location = Location(parent: Option<Tree>)

  /** The parent of the leaf carrying `p`; no parent when that leaf is the whole tree. */
  function FindParentOf(t: Tree, p: string): (r: Option<Location>)
    ensures r.Some? <==> HasPane(t, p)
    ensures r.Some? && r.value.parent.Some? ==> r.value.parent.value.Split?
  {
    match t
    case Leaf(q) => if q == p then Some(Location(None)) else None
    case Split(_, _, a, b) =>
      assert a == Leaf(p) ==> p in LeafPanes(a);
      assert b == Leaf(p) ==> p in LeafPanes(b);
      if a == Leaf(p) || b == Leaf(p) then Some(Location(Some(t)))
      else if FindParentOf(a, p).Some? then FindParentOf(a, p)
      else FindParentOf(b, p)
  }

  /** Every leaf carrying `p` becomes a split of itself and a new leaf. */
  function SplitLeaf(t: Tree, p: string, dir: Dir, added: string, where: Where): Tree {
    match t
    case Leaf(q) =>
      if q != p then t
      else if where == Before || where == Top then Split(dir, 0.5, Leaf(added), t)
      else Split(dir, 0.5, t, Leaf(added))
    case Split(d, ratio, a, b) =>
      Split(d, ratio, SplitLeaf(a, p, dir, added, where), SplitLeaf(b, p, dir, added, where))
  }

  /** Drop the leaf carrying `p`; its sibling takes the split's place. */
  function RemoveLeaf(t: Tree, p: string): (r: Option<Tree>)
    ensures r == None <==> t == Leaf(p)
  {
    match t
    case Leaf(q) => if q == p then None else Some(t)
    case Split(dir, ratio, a, b) =>
      if a == Leaf(p) then Some(b)
      else if b == Leaf(p) then Some(a)
      else Some(Split(dir, ratio, RemoveLeaf(a, p).value, RemoveLeaf(b, p).value))
  }

  function MoveLeaf(t: Tree, src: string, target: string, dir: Dir, where: Where): Tree {
    if src == target then t
    else
      match RemoveLeaf(t, src)
      case None => t
      case Some(pruned) => if HasPane(pruned, target) then SplitLeaf(pruned, target, dir, src, where) else t
  }

  /** Keep the leaves in `live`; a split with one child left becomes that child. */
  function PruneDead(t: Tree, live: set<string>): Option<Tree> {
    match t
    case Leaf(p) => if p in live then Some(t) else None
    case Split(dir, ratio, a, b) =>
      match (PruneDead(a, live), PruneDead(b, live))
      case (Some(a'), Some(b')) => Some(Split(dir, ratio, a', b'))
      case (Some(a'), None) => Some(a')
      case (None, b') => b'
  }

  // ---- sequences of panes -----------------------------------------------------------

  predicate Distinct(s: seq<string>) {
    forall i, j :: 0 <= i < j < |s| ==> s[i] != s[j]
  }

  /** The elements of `s` in `keep`, in order. */
  function Only(s: seq<string>, keep: set<string>): (r: seq<string>)
    ensures forall p :: p in r <==> p in s && p in keep
  {
    if s == [] then []
    else (if s[0] in keep then [s[0]] else []) + Only(s[1..], keep)
  }

  function Elements(s: seq<string>): set<string> {
    set p | p in s
  }

  lemma {:induction false} OnlyConcat(s: seq<string>, t: seq<string>, keep: set<string>)
    ensures Only(s + t, keep) == Only(s, keep) + Only(t, keep)
  {
    if s == [] {
      assert s + t == t;
    } else {
      assert (s + t)[1..] == s[1..] + t;
      OnlyConcat(s[1..], t, keep);
    }
  }

  lemma {:induction false} OnlyDistinct(s: seq<string>, keep: set<string>)
    requires Distinct(s)
    ensures Distinct(Only(s, keep))
  {
    if s != [] {
      OnlyDistinct(s[1..], keep);
      assert s[0] !in s[1..];
    }
  }

  lemma {:induction false} OnlyAll(s: seq<string>, keep: set<string>)
    requires forall p :: p in s ==> p in keep
    ensures Only(s, keep) == s
  {
    if s != [] {
      OnlyAll(s[1..], keep);
    }
  }

  lemma {:induction false} OnlyNone(s: seq<string>, keep: set<string>)
    requires forall p :: p in s ==> p !in keep
    ensures Only(s, keep) == []
  {
    if s != [] {
      OnlyNone(s[1..], keep);
    }
  }

  // ---- what the edits do to the leaves ------------------------------------------------

  /** Pruning keeps exactly the live leaves, in order. */
  lemma {:induction false} PruneKeepsLive(t: Tree, live: set<string>)
    ensures Panes(PruneDead(t, live)) == Only(LeafPanes(t), live)
  {
    match t
    case Leaf(p) =>
      assert [p][1..] == [];
    case Split(_, _, a, b) =>
      PruneKeepsLive(a, live);
      PruneKeepsLive(b, live);
      OnlyConcat(LeafPanes(a), LeafPanes(b), live);
  }

  /** A tree of live leaves is left as it is, ratios and directions included. */
  lemma {:induction false} PruneOfLive(t: Tree, live: set<string>)
    requires forall p :: p in LeafPanes(t) ==> p in live
    ensures PruneDead(t, live) == Some(t)
  {
    match t
    case Leaf(p) =>
    case Split(_, _, a, b) =>
      PruneOfLive(a, live);
      PruneOfLive(b, live);
  }

  lemma {:induction false} SplitOfAbsent(t: Tree, p: string, dir: Dir, added: string, where: Where)
    requires p !in LeafPanes(t)
    ensures SplitLeaf(t, p, dir, added, where) == t
  {
    match t
    case Leaf(q) =>
    case Split(_, _, a, b) =>
      SplitOfAbsent(a, p, dir, added, where);
      SplitOfAbsent(b, p, dir, added, where);
  }

  /** `added` put next to `p`, on the side `where` names. */
  function Beside(p: string, added: string, where: Where): seq<string> {
    if where == Before || where == Top then [added, p] else [p, added]
  }

  lemma Regroup(w: seq<string>, x: seq<string>, y: seq<string>, z: seq<string>)
    ensures (w + x + y) + z == w + x + (y + z)
    ensures w + (x + y + z) == (w + x) + y + z
  {
  }

  /** Splitting the leaf `p` of a tree with distinct leaves puts the new pane beside it and
      leaves the order of all others alone. */
  lemma {:induction false} SplitInserts(t: Tree, p: string, dir: Dir, added: string, where: Where)
    returns (pre: seq<string>, post: seq<string>)
    requires Distinct(LeafPanes(t)) && p in LeafPanes(t)
    ensures LeafPanes(t) == pre + [p] + post
    ensures LeafPanes(SplitLeaf(t, p, dir, added, where)) == pre + Beside(p, added, where) + post
  {
    match t
    case Leaf(q) =>
      pre, post := [], [];
    case Split(_, _, a, b) =>
      DistinctHalves(LeafPanes(a), LeafPanes(b));
      hide Beside, Distinct;
      var xs, ys := LeafPanes(a), LeafPanes(b);
      var mid := Beside(p, added, where);
      if p in xs {
        var end: seq<string>;
        pre, end := SplitInserts(a, p, dir, added, where);
        post := end + ys;
        SplitOfAbsent(b, p, dir, added, where);
        Regroup(pre, [p], end, ys);
        Regroup(pre, mid, end, ys);
      } else {
        var start: seq<string>;
        start, post := SplitInserts(b, p, dir, added, where);
        pre := xs + start;
        SplitOfAbsent(a, p, dir, added, where);
        Regroup(xs, start, [p], post);
        Regroup(xs, start, mid, post);
      }
  }

  lemma DistinctHalves(s: seq<string>, t: seq<string>)
    requires Distinct(s + t)
    ensures Distinct(s) && Distinct(t)
    ensures forall p :: p in s ==> p !in t
  {
    var all := s + t;
    assert forall i :: 0 <= i < |s| ==> all[i] == s[i];
    assert forall j :: 0 <= j < |t| ==> all[|s| + j] == t[j];
    forall i, j | 0 <= i < |s| && 0 <= j < |t|
      ensures s[i] != t[j]
    {
      assert all[i] != all[|s| + j];
    }
  }

  lemma WithoutConcat(xs: seq<string>, ys: seq<string>, p: string)
    ensures Only(xs + ys, Elements(xs + ys) - {p}) == Only(xs, Elements(xs) - {p}) + Only(ys, Elements(ys) - {p})
  {
    hide Only;
    var keep := Elements(xs + ys) - {p};
    OnlyConcat(xs, ys, keep);
    OnlySame(xs, Elements(xs) - {p}, keep);
    OnlySame(ys, Elements(ys) - {p}, keep);
  }

  lemma WithoutAbsent(s: seq<string>, p: string)
    requires p !in s
    ensures Only(s, Elements(s) - {p}) == s
  {
    hide Only;
    OnlyAll(s, Elements(s) - {p});
  }

  lemma WithoutOne(p: string)
    ensures Only([p], Elements([p]) - {p}) == []
  {
    hide Only;
    OnlyNone([p], Elements([p]) - {p});
  }

  /** Removing a leaf of a tree with distinct leaves removes that pane and nothing else. */
  lemma {:induction false} RemoveDropsLeaf(t: Tree, p: string)
    requires Distinct(LeafPanes(t))
    ensures Panes(RemoveLeaf(t, p)) == Only(LeafPanes(t), Elements(LeafPanes(t)) - {p})
  {
    hide Only, Elements, Distinct;
    match t
    case Leaf(q) =>
      if q == p {
        WithoutOne(p);
      } else {
        WithoutAbsent([q], p);
      }
    case Split(dir, ratio, a, b) =>
      var xs, ys := LeafPanes(a), LeafPanes(b);
      DistinctHalves(xs, ys);
      WithoutConcat(xs, ys, p);
      if a == Leaf(p) {
        WithoutOne(p);
        assert p in xs;
        WithoutAbsent(ys, p);
      } else if b == Leaf(p) {
        WithoutOne(p);
        assert p in ys;
        WithoutAbsent(xs, p);
      } else {
        RemoveDropsLeaf(a, p);
        RemoveDropsLeaf(b, p);
      }
  }

  lemma {:induction false} OnlySame(s: seq<string>, keep: set<string>, keep': set<string>)
    requires forall p :: p in s ==> (p in keep <==> p in keep')
    ensures Only(s, keep) == Only(s, keep')
  {
    if s != [] {
      OnlySame(s[1..], keep, keep');
    }
  }

  lemma OnlyMembers(t: Tree, p: string)
    requires Distinct(LeafPanes(t))
    ensures Panes(RemoveLeaf(t, p)) != [] && RemoveLeaf(t, p).Some? ==>
              forall q :: q in LeafPanes(RemoveLeaf(t, p).value) <==> q in LeafPanes(t) && q != p
  {
    RemoveDropsLeaf(t, p);
  }

  /** Moving a pane next to another one rearranges the leaves: none is lost, none appears twice,
      and all others keep their order. Without a target in the tree nothing moves; a pane that
      was not in the tree is taken in. */
  lemma MoveKeepsLeaves(t: Tree, src: string, target: string, dir: Dir, where: Where)
    requires Distinct(LeafPanes(t))
    ensures src == target || target !in LeafPanes(t) ==> MoveLeaf(t, src, target, dir, where) == t
    ensures src != target && target in LeafPanes(t) ==>
              var moved := LeafPanes(MoveLeaf(t, src, target, dir, where));
              var others := Elements(LeafPanes(t)) - {src};
              && Distinct(moved) && Elements(moved) == Elements(LeafPanes(t)) + {src}
              && Only(moved, others) == Only(LeafPanes(t), others)
              && exists pre, post :: moved == pre + Beside(target, src, where) + post
  {
    hide Only, Distinct, RemoveLeaf, SplitLeaf, LeafPanes;
    OnlyMembers(t, src);
    var others := Elements(LeafPanes(t)) - {src};
    if src != target && target in LeafPanes(t) {
      RemoveDropsLeaf(t, src);
      OnlyDistinct(LeafPanes(t), others);
      RemovedAll(t, src, target);
      var pruned := RemoveLeaf(t, src).value;
      assert HasPane(pruned, target);
      var pre, post := SplitInserts(pruned, target, dir, src, where);
      InsertedOne(pre, post, target, src, where, others);
      OnlyAll(LeafPanes(pruned), others);
    }
  }

  lemma RemovedAll(t: Tree, src: string, target: string)
    requires src != target && target in LeafPanes(t)
    ensures RemoveLeaf(t, src).Some?
  {
  }

  /** Inserting a new pane beside an old one. */
  lemma InsertedOne(pre: seq<string>, post: seq<string>, p: string, added: string, where: Where, keep: set<string>)
    requires Distinct(pre + [p] + post) && added !in pre + [p] + post && added !in keep
    ensures var s := pre + Beside(p, added, where) + post;
            && Distinct(s) && Elements(s) == Elements(pre + [p] + post) + {added}
            && Only(s, keep) == Only(pre + [p] + post, keep)
  {
    var x, y := if where == Before || where == Top then pre else pre + [p],
                if where == Before || where == Top then [p] + post else post;
    InsertedAt(pre, post, p, added, where);
    hide Beside, Distinct, Elements, Only;
    InsertDistinct(x, y, added);
    OnlyInserted(x, y, added, keep);
  }

  lemma InsertedAt(pre: seq<string>, post: seq<string>, p: string, added: string, where: Where)
    ensures if where == Before || where == Top
            then pre + Beside(p, added, where) + post == pre + [added] + ([p] + post)
                 && pre + [p] + post == pre + ([p] + post)
            else pre + Beside(p, added, where) + post == (pre + [p]) + [added] + post
  {
  }

  lemma OnlyInserted(x: seq<string>, y: seq<string>, added: string, keep: set<string>)
    requires added !in keep
    ensures Only(x + [added] + y, keep) == Only(x + y, keep)
  {
    hide Only;
    OnlyConcat(x + [added], y, keep);
    OnlyConcat(x, [added], keep);
    OnlyConcat(x, y, keep);
    OnlyNone([added], keep);
  }

  lemma InsertDistinct(x: seq<string>, y: seq<string>, added: string)
    requires Distinct(x + y) && added !in x + y
    ensures Distinct(x + [added] + y) && Elements(x + [added] + y) == Elements(x + y) + {added}
  {
    var s, was := x + [added] + y, x + y;
    forall i, j | 0 <= i < j < |s|
      ensures s[i] != s[j]
    {
      assert j == |x| ==> s[i] == was[i];
      assert i == |x| ==> s[j] == was[j - 1];
      assert i < |x| < j ==> s[i] == was[i] && s[j] == was[j - 1] && was[i] != was[j - 1];
      assert j < |x| ==> s[i] == was[i] && s[j] == was[j];
      assert |x| < i ==> s[i] == was[i - 1] && s[j] == was[j - 1] && was[i - 1] != was[j - 1];
    }
    assert forall q :: q in s <==> q in was || q == added;
  }
}
