/** Split-tree geometry (app/src/layout-geometry.js): slicing a box into pane rectangles
    and divider seams. Pixels are exact reals. */
module LayoutGeometry {
  import opened Wrappers
  import opened LayoutTree

  const TILE_GAP := 6.0
  const MIN_V := 160.0
  const MIN_H := 90.0

  /** A box, or a pane's rectangle. */
  datatype Box = Box(x: real, y: real, w: real, h: real)

  datatype PaneRect = PaneRect(pane: string, box: Box)

  function Max(a: real, b: real): real { if a >= b then a else b }
  function Min(a: real, b: real): real { if a <= b then a else b }

  /** `Math.round`. */
  function Round(x: real): real {
    (x + 0.5).Floor as real
  }

  /** The two sides of an axis of length `total`, the gutter taken out first. */
  function SplitAxis(total: real, ratio: real, min: real): (real, real) {
    var avail := total - TILE_GAP;
    if avail <= 0.0 then (0.0, 0.0)
    else
      var a := Round(avail * ratio);
      var a' := if avail >= 2.0 * min then Max(min, Min(avail - min, a)) else Max(0.0, Min(avail, a));
      (a', avail - a')
  }

  /** The boxes of the two children of a split. */
  function Children(dir: Dir, ratio: real, box: Box): (Box, Box) {
    match dir
    case V =>
      var (aw, bw) := SplitAxis(box.w, ratio, MIN_V);
      (Box(box.x, box.y, aw, box.h), Box(box.x + aw + TILE_GAP, box.y, bw, box.h))
    case H =>
      var (ah, bh) := SplitAxis(box.h, ratio, MIN_H);
      (Box(box.x, box.y, box.w, ah), Box(box.x, box.y + ah + TILE_GAP, box.w, bh))
  }

  function LayoutRects(t: Tree, box: Box): seq<PaneRect> {
    match t
    case Leaf(p) => [PaneRect(p, box)]
    case Split(dir, ratio, a, b) =>
      LayoutRects(a, Children(dir, ratio, box).0) + LayoutRects(b, Children(dir, ratio, box).1)
  }

  /** A split with the box it divides. */
  datatype SplitRecord = SplitRecord(dir: Dir, ratio: real, box: Box)

  function Splits(t: Tree, box: Box): seq<SplitRecord> {
    match t
    case Leaf(_) => []
    case Split(dir, ratio, a, b) =>
      [SplitRecord(dir, ratio, box)]
      + Splits(a, Children(dir, ratio, box).0) + Splits(b, Children(dir, ratio, box).1)
  }

  /** The caller's list that `collectSplits` appends to. */
  class SplitList {
    var items: seq<SplitRecord>

    constructor ()
      ensures items == []
    {
      items := [];
    }
  }

  method CollectSplits(tree: Option<Tree>, box: Box, out: SplitList)
    modifies out
    ensures out.items == old(out.items) + (if tree.Some? then Splits(tree.value, box) else [])
    decreases tree.Some?, if tree.Some? then tree.value else Leaf("")
  {
    if tree.None? || tree.value.Leaf? {
      return;
    }
    hide Children;
    var t := tree.value;
    ghost var before := out.items;
    var rec := SplitRecord(t.dir, t.ratio, box);
    out.items := out.items + [rec];
    var (first, second) := Children(t.dir, t.ratio, box);
    CollectSplits(Some(t.a), first, out);
    CollectSplits(Some(t.b), second, out);
    assert before + [rec] + Splits(t.a, first) + Splits(t.b, second)
        == before + ([rec] + Splits(t.a, first) + Splits(t.b, second));
  }

  /** The divider of a split: a line in the middle of its gutter. */
  function SeamOf(rec: SplitRecord): Box {
    var box := rec.box;
    match rec.dir
    case V => Box(box.x + SplitAxis(box.w, rec.ratio, MIN_V).0 + TILE_GAP / 2.0, box.y, 0.0, box.h)
    case H => Box(box.x, box.y + SplitAxis(box.h, rec.ratio, MIN_H).0 + TILE_GAP / 2.0, box.w, 0.0)
  }

  // ---- one axis ---------------------------------------------------------------------

  /** The sides are never negative; with the gutter they make up the axis exactly when the
      gutter fits at all; and both reach the minimum whenever there is room for that. */
  lemma AxisSides(total: real, ratio: real, min: real)
    requires min >= 0.0
    ensures var (a, b) := SplitAxis(total, ratio, min);
            && a >= 0.0 && b >= 0.0
            && (a + b + TILE_GAP == total <==> total >= TILE_GAP)
            && (a > 0.0 || b > 0.0 ==> a + b + TILE_GAP == total)
            && (total - TILE_GAP >= 2.0 * min && total > TILE_GAP ==> a >= min && b >= min)
  {
  }

  /** An axis of four pixels has no room for the gutter: sides and gap make up six. */
  lemma NarrowAxis()
    ensures SplitAxis(4.0, 0.5, MIN_V) == (0.0, 0.0) && 0.0 + 0.0 + TILE_GAP != 4.0
  {
  }

  // ---- inside and apart -------------------------------------------------------------

  predicate Inside(r: Box, box: Box) {
    box.x <= r.x && r.x + r.w <= box.x + box.w && box.y <= r.y && r.y + r.h <= box.y + box.h
  }

  /** The boxes are at least `gap` apart along one axis. */
  predicate Apart(r: Box, s: Box, gap: real) {
    || r.x + r.w + gap <= s.x || s.x + s.w + gap <= r.x
    || r.y + r.h + gap <= s.y || s.y + s.h + gap <= r.y
  }

  predicate NonNegative(r: Box) {
    r.w >= 0.0 && r.h >= 0.0
  }

  predicate Positive(r: Box) {
    r.w > 0.0 && r.h > 0.0
  }

  /** Every split of the tree has room for its gutter. */
  ghost predicate Roomy(t: Tree, box: Box) {
    match t
    case Leaf(_) => true
    case Split(dir, ratio, a, b) =>
      && (if dir == V then box.w else box.h) >= TILE_GAP
      && Roomy(a, Children(dir, ratio, box).0) && Roomy(b, Children(dir, ratio, box).1)
  }

  lemma ChildBoxes(dir: Dir, ratio: real, box: Box)
    requires NonNegative(box)
    ensures var (first, second) := Children(dir, ratio, box);
            && NonNegative(first) && NonNegative(second)
            && (Positive(first) ==> Inside(first, box)) && (Positive(second) ==> Inside(second, box))
            && Apart(first, second, TILE_GAP)
            && ((if dir == V then box.w else box.h) >= TILE_GAP ==>
                  && Inside(first, box) && Inside(second, box)
                  && Inside(SeamOf(SplitRecord(dir, ratio, box)), box)
                  && Apart(first, SeamOf(SplitRecord(dir, ratio, box)), TILE_GAP / 2.0)
                  && Apart(second, SeamOf(SplitRecord(dir, ratio, box)), TILE_GAP / 2.0))
  {
    AxisSides(box.w, ratio, MIN_V);
    AxisSides(box.h, ratio, MIN_H);
  }

  lemma InsideApart(r: Box, outer: Box, s: Box, gap: real)
    requires Inside(r, outer) && Apart(outer, s, gap)
    ensures Apart(r, s, gap) && Apart(s, r, gap)
  {
  }

  /** Any rectangle with area lies inside the box; in a roomy tree every one does. */
  lemma {:induction false} RectsInside(t: Tree, box: Box)
    requires NonNegative(box)
    ensures forall r :: r in LayoutRects(t, box) ==> NonNegative(r.box) && (Positive(r.box) ==> Inside(r.box, box))
    ensures Roomy(t, box) ==> forall r :: r in LayoutRects(t, box) ==> Inside(r.box, box)
  {
    if t.Split? {
      hide Children, SeamOf;
      ChildBoxes(t.dir, t.ratio, box);
      var (first, second) := Children(t.dir, t.ratio, box);
      RectsInside(t.a, first);
      RectsInside(t.b, second);
    }
  }

  /** Rectangles are pairwise a full gutter apart: all of them, or those with area. */
  predicate Spread(rects: seq<PaneRect>, all: bool) {
    forall i, j :: 0 <= i < j < |rects| && (all || (Positive(rects[i].box) && Positive(rects[j].box)))
      ==> Apart(rects[i].box, rects[j].box, TILE_GAP)
  }

  lemma SpreadConcat(xs: seq<PaneRect>, ys: seq<PaneRect>, all: bool, first: Box, second: Box)
    requires Spread(xs, all) && Spread(ys, all) && Apart(first, second, TILE_GAP)
    requires forall r :: r in xs && (all || Positive(r.box)) ==> Inside(r.box, first)
    requires forall r :: r in ys && (all || Positive(r.box)) ==> Inside(r.box, second)
    ensures Spread(xs + ys, all)
  {
    hide Apart, Inside, Positive;
    var rects := xs + ys;
    forall i, j | 0 <= i < j < |rects| && (all || (Positive(rects[i].box) && Positive(rects[j].box)))
      ensures Apart(rects[i].box, rects[j].box, TILE_GAP)
    {
      if i < |xs| <= j {
        assert rects[i] in xs && rects[j] in ys;
        InsideApart(rects[i].box, first, second, TILE_GAP);
        InsideApart(rects[j].box, second, rects[i].box, TILE_GAP);
      } else if j < |xs| {
        assert rects[i] == xs[i] && rects[j] == xs[j];
      } else {
        assert rects[i] == ys[i - |xs|] && rects[j] == ys[j - |xs|];
      }
    }
  }

  /** Rectangles with area are pairwise a full gutter apart, so none overlap; in a roomy tree
      all of them are. */
  lemma {:induction false} RectsApart(t: Tree, box: Box)
    requires NonNegative(box)
    ensures Spread(LayoutRects(t, box), false)
    ensures Roomy(t, box) ==> Spread(LayoutRects(t, box), true)
  {
    if t.Split? {
      hide Children, SeamOf, Apart, Inside, Positive, Spread;
      ChildBoxes(t.dir, t.ratio, box);
      var (first, second) := Children(t.dir, t.ratio, box);
      RectsApart(t.a, first);
      RectsApart(t.b, second);
      RectsInside(t.a, first);
      RectsInside(t.b, second);
      SpreadConcat(LayoutRects(t.a, first), LayoutRects(t.b, second), false, first, second);
      if Roomy(t, box) {
        RoomyParts(t, box);
        SpreadConcat(LayoutRects(t.a, first), LayoutRects(t.b, second), true, first, second);
      }
    }
  }

  lemma {:induction false} SeamsInside(t: Tree, box: Box)
    requires NonNegative(box) && Roomy(t, box)
    ensures forall rec :: rec in Splits(t, box) ==> Inside(SeamOf(rec), box)
  {
    if t.Split? {
      hide Children, SeamOf;
      ChildBoxes(t.dir, t.ratio, box);
      SeamsInside(t.a, Children(t.dir, t.ratio, box).0);
      SeamsInside(t.b, Children(t.dir, t.ratio, box).1);
    }
  }

  /** No divider of a roomy tree comes within half a gutter of any pane. */
  lemma {:induction false} SeamsClearPanes(t: Tree, box: Box)
    requires NonNegative(box) && Roomy(t, box)
    ensures forall rec, r :: rec in Splits(t, box) && r in LayoutRects(t, box)
              ==> Apart(r.box, SeamOf(rec), TILE_GAP / 2.0)
  {
    if t.Split? {
      hide Children, SeamOf, Apart, Inside;
      ChildBoxes(t.dir, t.ratio, box);
      var (first, second) := Children(t.dir, t.ratio, box);
      var top := SplitRecord(t.dir, t.ratio, box);
      SeamsClearPanes(t.a, first);
      SeamsClearPanes(t.b, second);
      SeamsInside(t.a, first);
      SeamsInside(t.b, second);
      RectsInside(t.a, first);
      RectsInside(t.b, second);
      forall rec, r | rec in Splits(t, box) && r in LayoutRects(t, box)
        ensures Apart(r.box, SeamOf(rec), TILE_GAP / 2.0)
      {
        var seam := SeamOf(rec);
        if rec == top {
          InsideApart(r.box, if r in LayoutRects(t.a, first) then first else second, seam, TILE_GAP / 2.0);
        } else if rec in Splits(t.a, first) {
          if r in LayoutRects(t.b, second) {
            AcrossGutter(seam, first, r.box, second);
          }
        } else if r in LayoutRects(t.a, first) {
          AcrossGutter(r.box, first, seam, second);
        }
      }
    }
  }

  const CROWDED := Split(V, 0.02, Split(V, 0.5, Leaf("a"), Split(V, 0.5, Leaf("b"), Leaf("c"))), Leaf("d"))

  /** Without room for the gutters a divider can lie in the middle of a pane. */
  lemma CrowdedSeamCrossesPane()
    ensures var box := Box(0.0, 0.0, 100.0, 100.0);
            var seam, r := Box(9.0, 0.0, 0.0, 100.0), Box(8.0, 0.0, 92.0, 100.0);
            && (exists rec :: rec in Splits(CROWDED, box) && SeamOf(rec) == seam)
            && PaneRect("d", r) in LayoutRects(CROWDED, box) && Inside(seam, r)
  {
    var box := Box(0.0, 0.0, 100.0, 100.0);
    var first := Box(0.0, 0.0, 2.0, 100.0);
    var inner := Box(6.0, 0.0, 0.0, 100.0);
    assert Round(94.0 * 0.02) == 2.0;
    assert Children(V, 0.02, box) == (first, Box(8.0, 0.0, 92.0, 100.0));
    assert Children(V, 0.5, first).1 == inner;
    var rec := SplitRecord(V, 0.5, inner);
    assert SeamOf(rec) == Box(9.0, 0.0, 0.0, 100.0);
    assert rec in Splits(CROWDED.a.b, inner);
    assert rec in Splits(CROWDED.a, first);
  }

  lemma AcrossGutter(r: Box, first: Box, s: Box, second: Box)
    requires Inside(r, first) && Inside(s, second) && Apart(first, second, TILE_GAP)
    ensures Apart(r, s, TILE_GAP / 2.0) && Apart(s, r, TILE_GAP / 2.0)
  {
  }

  // ---- which way, and how much ------------------------------------------------------

  /** The first side gets its share of what the gutter leaves, to the nearest pixel, as far as both
      sides may have it: at least `min` each where there is room for that, else at least nothing. */
  lemma RatioIsKept(total: real, ratio: real, min: real)
    requires min >= 0.0 && total > 6.0
    ensures var (avail, a) := (total - 6.0, SplitAxis(total, ratio, min).0);
            var low := if avail >= 2.0 * min then min else 0.0;
            var high := avail - low;
            var share := avail * ratio;
            && low <= a <= high
            && (share <= low - 0.5 ==> a == low) && (share >= high + 0.5 ==> a == high)
            && (low <= share <= high ==> -0.5 <= a - share <= 0.5)
            && (a == low || a == high || a.Floor as real == a)
  {
    var avail := total - TILE_GAP;
    RoundIsNear(avail * ratio);
  }

  lemma RoundIsNear(x: real)
    ensures -0.5 <= Round(x) - x <= 0.5 && Round(x).Floor as real == Round(x)
  {
  }

  /** Across a vertical divider the sides stand next to each other, the first one left, across a
      horizontal one on top of each other, the first one up; a gutter of 6 lies between them, they
      reach from one end of the box to the other, and each gets 160 across or 90 down if both can. */
  lemma ChildrenLieInOrder(ratio: real, box: Box)
    requires NonNegative(box)
    ensures var (first, second) := Children(V, ratio, box);
            && first.y == second.y == box.y && first.h == second.h == box.h
            && first.x == box.x && second.x == first.x + first.w + 6.0
            && (box.w >= 6.0 ==> second.x + second.w == box.x + box.w)
            && (box.w >= 326.0 ==> first.w >= 160.0 && second.w >= 160.0)
    ensures var (first, second) := Children(H, ratio, box);
            && first.x == second.x == box.x && first.w == second.w == box.w
            && first.y == box.y && second.y == first.y + first.h + 6.0
            && (box.h >= 6.0 ==> second.y + second.h == box.y + box.h)
            && (box.h >= 186.0 ==> first.h >= 90.0 && second.h >= 90.0)
  {
    AxisSides(box.w, ratio, MIN_V);
    AxisSides(box.h, ratio, MIN_H);
    hide Round;
  }

  function Names(rects: seq<PaneRect>): (r: seq<string>)
    ensures |r| == |rects|
  {
    seq(|rects|, i requires 0 <= i < |rects| => rects[i].pane)
  }

  /** The rectangles are those of the tree's panes, in order. */
  lemma {:induction false} RectsFollowTree(t: Tree, box: Box)
    ensures Names(LayoutRects(t, box)) == LeafPanes(t)
  {
    if t.Split? {
      hide Children;
      var (first, second) := Children(t.dir, t.ratio, box);
      RectsFollowTree(t.a, first);
      RectsFollowTree(t.b, second);
      assert Names(LayoutRects(t.a, first) + LayoutRects(t.b, second))
          == Names(LayoutRects(t.a, first)) + Names(LayoutRects(t.b, second));
    }
  }

  /** `r` lies left of `s` across a vertical divider, above it across a horizontal one, a gutter of 6
      between them. */
  predicate InOrder(dir: Dir, r: Box, s: Box) {
    if dir == V then r.x + r.w + 6.0 <= s.x else r.y + r.h + 6.0 <= s.y
  }

  /** The first child's panes lie left of the second child's across a vertical divider, and above them
      across a horizontal one. */
  lemma FirstLiesBeforeSecond(t: Tree, box: Box, i: nat, j: nat)
    requires NonNegative(box) && Roomy(t, box) && t.Split? && i < |LeafPanes(t.a)| <= j < |LeafPanes(t)|
    ensures |LayoutRects(t, box)| == |LeafPanes(t)|
    ensures var (r, s) := (LayoutRects(t, box)[i].box, LayoutRects(t, box)[j].box);
            InOrder(t.dir, r, s)
  {
    hide Children, SeamOf, NonNegative, Positive, Inside, Roomy;
    var (first, second) := Children(t.dir, t.ratio, box);
    BothInOrder(t, box);
    RectsFollowTree(t, box);
    RectsFollowTree(t.a, first);
    RectsInside(t.a, first);
    RectsInside(t.b, second);
    var rects := LayoutRects(t, box);
    assert rects[i] == LayoutRects(t.a, first)[i] && rects[i] in LayoutRects(t.a, first);
    assert rects[j] == LayoutRects(t.b, second)[j - |LeafPanes(t.a)|] && rects[j] in LayoutRects(t.b, second);
    InsideInOrder(t.dir, rects[i].box, first, rects[j].box, second);
  }

  lemma BothInOrder(t: Tree, box: Box)
    requires NonNegative(box) && Roomy(t, box) && t.Split?
    ensures var (first, second) := Children(t.dir, t.ratio, box);
            && InOrder(t.dir, first, second) && NonNegative(first) && NonNegative(second)
            && Roomy(t.a, first) && Roomy(t.b, second)
  {
    ChildBoxes(t.dir, t.ratio, box);
    ChildrenLieInOrder(t.ratio, box);
    RoomyParts(t, box);
    hide Children, SeamOf;
  }

  lemma InsideInOrder(dir: Dir, r: Box, first: Box, s: Box, second: Box)
    requires Inside(r, first) && Inside(s, second) && InOrder(dir, first, second)
    ensures InOrder(dir, r, s)
  {
  }

  // ---- nothing is lost --------------------------------------------------------------

  function Area(r: Box): real {
    r.w * r.h
  }

  function PanesArea(rects: seq<PaneRect>): real {
    if rects == [] then 0.0 else Area(rects[0].box) + PanesArea(rects[1..])
  }

  /** Area of the gutter a split takes out of its box. */
  function GutterArea(rec: SplitRecord): real {
    TILE_GAP * (if rec.dir == V then rec.box.h else rec.box.w)
  }

  function GuttersArea(recs: seq<SplitRecord>): real {
    if recs == [] then 0.0 else GutterArea(recs[0]) + GuttersArea(recs[1..])
  }

  lemma {:induction false} PanesAreaConcat(s: seq<PaneRect>, t: seq<PaneRect>)
    ensures PanesArea(s + t) == PanesArea(s) + PanesArea(t)
  {
    if s == [] {
      assert s + t == t;
    } else {
      assert (s + t)[1..] == s[1..] + t;
      PanesAreaConcat(s[1..], t);
    }
  }

  lemma {:induction false} GuttersAreaConcat(s: seq<SplitRecord>, t: seq<SplitRecord>)
    ensures GuttersArea(s + t) == GuttersArea(s) + GuttersArea(t)
  {
    if s == [] {
      assert s + t == t;
    } else {
      assert (s + t)[1..] == s[1..] + t;
      GuttersAreaConcat(s[1..], t);
    }
  }

  lemma SliceAreas(a: real, b: real, total: real, across: real)
    requires a + b + TILE_GAP == total
    ensures a * across + b * across + TILE_GAP * across == total * across
  {
    assert (a + b + TILE_GAP) * across == a * across + b * across + TILE_GAP * across;
  }

  lemma SplitArea(dir: Dir, ratio: real, box: Box)
    requires (if dir == V then box.w else box.h) >= TILE_GAP
    ensures Area(Children(dir, ratio, box).0) + Area(Children(dir, ratio, box).1)
            + GutterArea(SplitRecord(dir, ratio, box)) == Area(box)
  {
    hide SplitAxis;
    var (total, across, min) := if dir == V then (box.w, box.h, MIN_V) else (box.h, box.w, MIN_H);
    AxisSides(total, ratio, min);
    var (a, b) := SplitAxis(total, ratio, min);
    SliceAreas(a, b, total, across);
  }

  /** Panes and gutters of a roomy tree make up the whole box: with the panes inside it and
      apart, they tile it. */
  lemma {:induction false} PanesAndGuttersFillBox(t: Tree, box: Box)
    requires NonNegative(box) && Roomy(t, box)
    ensures PanesArea(LayoutRects(t, box)) + GuttersArea(Splits(t, box)) == Area(box)
  {
    hide Children, GutterArea, Area, Roomy;
    match t
    case Leaf(p) =>
      assert LayoutRects(t, box)[1..] == [];
    case Split(dir, ratio, a, b) =>
      var (first, second) := Children(dir, ratio, box);
      assert Roomy(a, first) && Roomy(b, second) && (if dir == V then box.w else box.h) >= TILE_GAP by {
        RoomyParts(t, box);
      }
      ChildBoxes(dir, ratio, box);
      PanesAndGuttersFillBox(a, first);
      PanesAndGuttersFillBox(b, second);
      PanesAreaConcat(LayoutRects(a, first), LayoutRects(b, second));
      var top := [SplitRecord(dir, ratio, box)];
      GuttersAreaConcat(top + Splits(a, first), Splits(b, second));
      GuttersAreaConcat(top, Splits(a, first));
      assert top[1..] == [];
      SplitArea(dir, ratio, box);
  }

  lemma RoomyParts(t: Tree, box: Box)
    requires t.Split? && Roomy(t, box)
    ensures var (first, second) := Children(t.dir, t.ratio, box);
            Roomy(t.a, first) && Roomy(t.b, second) && (if t.dir == V then box.w else box.h) >= TILE_GAP
  {
  }
}
