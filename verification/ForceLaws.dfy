/** What the forces of the memory graph do (app/src/force-core.js): which way and how hard each pair
    of nodes, each link and each group pulls or pushes, and that a step is nothing but their sum. */
module ForceLaws {
  import opened Wrappers
  import opened Force

  // ---- one pair of nodes ------------------------------------------------------------------

  /** What node `k` gains from one body of velocities to the next. */
  ghost function Gain(b: Bodies, c: Bodies, k: nat): (real, real)
    requires b.Valid() && c.Valid() && k < |b.x| == |c.x|
  {
    (c.vx[k] - b.vx[k], c.vy[k] - b.vy[k])
  }

  /** `u` scaled by `size`. */
  ghost function Along(u: (real, real), size: real): (real, real) {
    (u.0 * size, u.1 * size)
  }

  lemma AlongTimes()
    ensures forall u, size :: Along(u, size) == (Times(u.0, size), Times(u.1, size))
  {
  }

  ghost function Opposite(p: (real, real)): (real, real) {
    (-p.0, -p.1)
  }

  /** The direction from node `i` to node `j` that are `d` apart. */
  ghost predicate Direction(b: Bodies, i: nat, j: nat, d: real, u: (real, real))
    requires b.Valid() && i < |b.x| && j < |b.x|
  {
    Along(u, d) == (b.x[j] - b.x[i], b.y[j] - b.y[i])
  }

  /** Nobody but `i` and `j` is concerned. */
  ghost predicate OnlyThese(b: Bodies, c: Bodies, i: nat, j: nat)
    requires b.Valid() && c.Valid() && |b.x| == |c.x|
  {
    forall k :: 0 <= k < |b.x| && k != i && k != j ==> Gain(b, c, k) == (0.0, 0.0)
  }

  /** How hard nodes `d` apart push each other: 0.3 for every unit they are closer than 120. */
  ghost function Shove(d: real, f: real): real {
    if d < 120.0 then 0.3 * (120.0 - d) * f else 0.0
  }

  /** How hard a link of length `d` pulls its ends together: 0.01 for every unit it is longer than 200;
      when it is shorter, it pushes them apart. */
  ghost function Tug(d: real, f: real): real {
    0.01 * (d - 200.0) * f
  }

  lemma RateOfPush(u: real, dx: real, d: real, f: real)
    requires d != 0.0 && d < 120.0 && Times(u, d) == dx
    ensures Times(dx, PushRate(d, f)) == Times(u, Shove(d, f))
  {
    var gap := 120.0 - d;
    Cancels(u, gap, d, 0.3 * f);
    Reorder(gap / d, 0.3, f);
    Reorder(gap, 0.3, f);
  }

  lemma RateOfPull(u: real, dx: real, d: real, f: real)
    requires d != 0.0 && Times(u, d) == dx
    ensures Times(dx, PullRate(d, f)) == Times(u, Tug(d, f))
  {
    var gap := d - 200.0;
    Cancels(u, gap, d, 0.01 * f);
    Reorder(gap / d, 0.01, f);
    Reorder(gap, 0.01, f);
  }

  lemma Reorder(q: real, k: real, f: real)
    ensures q * k * f == q * (k * f) == k * q * f
  {
  }

  lemma Cancels(u: real, gap: real, d: real, k: real)
    requires d != 0.0
    ensures u * d * (gap / d * k) == u * (gap * k)
  {
    var q := gap / d;
    assert q * d == gap;
    assert u * d * (q * k) == u * (q * d * k);
  }

  /** Nodes closer than 120 are pushed apart along the line between them, each by 0.3 for every unit
      they are too close; nodes at 120 or more exert nothing. Nodes in the same place are pushed apart
      along the given axis, as if they were one apart. */
  lemma NearNodesArePushedApart(m: Mathlib, b: Bodies, i: nat, j: nat, f: real, u: (real, real))
    requires b.Valid() && i < j < |b.x|
    requires var d := m.hypot(b.x[j] - b.x[i], b.y[j] - b.y[i]);
             if d == 0.0 then u == m.axis(i, j) else Direction(b, i, j, d, u)
    ensures var d := m.hypot(b.x[j] - b.x[i], b.y[j] - b.y[i]);
            var c := RepelPair(m, b, i, j, f);
            && OnlyThese(b, c, i, j)
            && Gain(b, c, j) == Along(u, Shove(if d == 0.0 then 1.0 else d, f))
            && Gain(b, c, i) == Opposite(Gain(b, c, j))
  {
    AlongTimes();
    hide Along;
    var (dx, dy) := (b.x[j] - b.x[i], b.y[j] - b.y[i]);
    var d := m.hypot(dx, dy);
    ZeroAlong(u);
    if d == 0.0 {
      OneTimes(u.0);
      OneTimes(u.1);
      RateOfPush(u.0, u.0, 1.0, f);
      RateOfPush(u.1, u.1, 1.0, f);
    } else if d < 120.0 {
      RateOfPush(u.0, dx, d, f);
      RateOfPush(u.1, dy, d, f);
    }
    ShoveEnds(d, f);
    hide PushRate, Times, Shove;
  }

  lemma ShoveEnds(d: real, f: real)
    ensures d >= 120.0 ==> Shove(d, f) == 0.0
  {
  }

  lemma OneTimes(u: real)
    ensures Times(u, 1.0) == u
  {
  }

  /** A link pulls its ends towards each other when it is longer than 200, pushes them apart when it is
      shorter, and does nothing at 200: each end by 0.01 for every unit of difference. A link with
      an end that is missing, or from a node to itself, does nothing. */
  lemma LinksSpringBack(m: Mathlib, b: Bodies, a: int, c: int, f: real, u: (real, real))
    requires b.Valid() && a < |b.x| && c < |b.x|
    requires a >= 0 && c >= 0 ==>
               var d := m.hypot(b.x[c] - b.x[a], b.y[c] - b.y[a]); d != 0.0 && Direction(b, a, c, d, u)
    ensures var r := SpringEdge(m, b, a, c, f);
            if a < 0 || c < 0 || a == c then r == b
            else
              var d := m.hypot(b.x[c] - b.x[a], b.y[c] - b.y[a]);
              && OnlyThese(b, r, a, c)
              && Gain(b, r, a) == Along(u, Tug(d, f))
              && Gain(b, r, c) == Opposite(Gain(b, r, a))
  {
    AlongTimes();
    hide Along;
    if a >= 0 && c >= 0 && a != c {
      var (dx, dy) := (b.x[c] - b.x[a], b.y[c] - b.y[a]);
      var d := m.hypot(dx, dy);
      RateOfPull(u.0, dx, d, f);
      RateOfPull(u.1, dy, d, f);
    }
    hide PullRate, Times, Tug;
  }

  /** A link between two nodes in one place does nothing. */
  lemma ShortestLinkIsSlack(m: Mathlib, b: Bodies, a: nat, c: nat, f: real)
    requires b.Valid() && a < |b.x| && c < |b.x| && b.x[a] == b.x[c] && b.y[a] == b.y[c]
    requires m.hypot(0.0, 0.0) == 0.0
    ensures forall k :: 0 <= k < |b.x| ==> Gain(b, SpringEdge(m, b, a, c, f), k) == (0.0, 0.0)
  {
    ZeroTimes(PullRate(1.0, f));
    hide PullRate, Times;
  }

  lemma ZeroTimes(k: real)
    ensures Times(0.0, k) == 0.0
  {
  }

  // ---- all of them ------------------------------------------------------------------------

  ghost function Plus(p: (real, real), q: (real, real)): (real, real) {
    (p.0 + q.0, p.1 + q.1)
  }

  /** What node `k` gains from the pair of `i` and `j` alone. */
  ghost function FromPair(m: Mathlib, b: Bodies, i: nat, j: nat, k: nat, f: real): (real, real)
    requires b.Valid() && i < |b.x| && j < |b.x| && i != j && k < |b.x|
  {
    Gain(b, RepelPair(m, b, if i < j then i else j, if i < j then j else i, f), k)
  }

  /** What node `k` gains from the nodes before `n`, one by one. */
  ghost function FromNodes(m: Mathlib, b: Bodies, k: nat, n: nat, f: real): (real, real)
    requires b.Valid() && k < |b.x| && n <= |b.x|
  {
    if n == 0 then (0.0, 0.0)
    else Plus(FromNodes(m, b, k, n - 1, f), if n - 1 == k then (0.0, 0.0) else FromPair(m, b, n - 1, k, k, f))
  }

  /** What node `k` gains from the first `e` links, one by one. */
  ghost function FromLinks(m: Mathlib, links: Links, b: Bodies, k: nat, e: nat, f: real): (real, real)
    requires b.Valid() && links.Fit(|b.x|) && k < |b.x| && e <= |links.edgeA|
  {
    if e == 0 then (0.0, 0.0)
    else Plus(FromLinks(m, links, b, k, e - 1, f),
              Gain(b, SpringEdge(m, b, links.edgeA[e - 1], links.edgeB[e - 1], f), k))
  }

  /** Forces depend on places alone: they add to whatever the velocities are. */
  lemma PairAdds(m: Mathlib, b: Bodies, c: Bodies, i: nat, j: nat, k: nat, f: real)
    requires SamePlaces(b, c) && i < j < |b.x| && k < |b.x|
    ensures Gain(c, RepelPair(m, c, i, j, f), k) == FromPair(m, b, i, j, k, f)
    ensures k != i && k != j ==> FromPair(m, b, i, j, k, f) == (0.0, 0.0)
  {
    hide PushRate, Times;
    assert Push(m, c, i, j, f) == Push(m, b, i, j, f);
    hide Push;
  }

  lemma LinkAdds(m: Mathlib, b: Bodies, c: Bodies, a: int, z: int, k: nat, f: real)
    requires SamePlaces(b, c) && a < |b.x| && z < |b.x| && k < |b.x|
    ensures Gain(c, SpringEdge(m, c, a, z, f), k) == Gain(b, SpringEdge(m, b, a, z, f), k)
  {
    hide PullRate, Times;
  }

  /** What node `k` gains from the row of node `i`, up to node `j`. */
  ghost function FromRow(m: Mathlib, b: Bodies, i: nat, j: nat, k: nat, f: real): (real, real)
    requires b.Valid() && i < j <= |b.x| && k < |b.x|
  {
    if k == i then
      Plus(FromNodes(m, b, k, j, f), Opposite(FromNodes(m, b, k, k + 1, f)))
    else if i < k < j then FromPair(m, b, i, k, k, f)
    else (0.0, 0.0)
  }

  lemma {:induction false} RowAdds(m: Mathlib, b: Bodies, c: Bodies, i: nat, j: nat, k: nat, f: real)
    requires SamePlaces(b, c) && i < j <= |b.x| && k < |b.x|
    ensures Gain(c, RepelRow(m, c, i, j, f), k) == FromRow(m, b, i, j, k, f)
  {
    hide RepelPair, FromPair;
    if j > i + 1 {
      RowAdds(m, b, c, i, j - 1, k, f);
      PairAdds(m, b, RepelRow(m, c, i, j - 1, f), i, j - 1, k, f);
      PairIsSame(m, b, i, j - 1, k, f);
    }
  }

  lemma PairIsSame(m: Mathlib, b: Bodies, i: nat, j: nat, k: nat, f: real)
    requires b.Valid() && i < |b.x| && j < |b.x| && i != j && k < |b.x|
    ensures FromPair(m, b, i, j, k, f) == FromPair(m, b, j, i, k, f)
  {
  }

  /** After the rows of the nodes before `i`: node `k` has met the nodes before it as far as those rows
      go, and with its own row the nodes after it. */
  lemma {:induction false} RowsAdd(m: Mathlib, b: Bodies, i: nat, k: nat, f: real)
    requires b.Valid() && i <= |b.x| && k < |b.x|
    ensures Gain(b, Repelled(m, b, i, f), k) == FromNodes(m, b, k, if i <= k then i else |b.x|, f)
  {
    hide RepelRow, FromPair;
    if i > 0 {
      RowsAdd(m, b, i - 1, k, f);
      RowAdds(m, b, Repelled(m, b, i - 1, f), i - 1, |b.x|, k, f);
      assert FromNodes(m, b, k, k + 1, f) == FromNodes(m, b, k, k, f);
    }
  }

  lemma {:induction false} LinksAdd(m: Mathlib, links: Links, b: Bodies, c: Bodies, e: nat, k: nat, f: real)
    requires SamePlaces(b, c) && links.Fit(|b.x|) && k < |b.x| && e <= |links.edgeA|
    ensures Gain(c, Sprung(m, links, c, e, f), k) == FromLinks(m, links, b, k, e, f)
  {
    hide SpringEdge;
    if e > 0 {
      LinksAdd(m, links, b, c, e - 1, k, f);
      LinkAdds(m, b, Sprung(m, links, c, e - 1, f), links.edgeA[e - 1], links.edgeB[e - 1], k, f);
    }
  }

  /** What node `k` gains from its group: 0.0045 for every unit it is away from the group's anchor. */
  ghost function FromGroup(links: Links, b: Bodies, k: nat, f: real): (real, real)
    requires b.Valid() && links.Fit(|b.x|) && k < |b.x|
  {
    if links.groups.None? || links.groups.value.of[k] < 0 then (0.0, 0.0)
    else
      var g := links.groups.value.of[k];
      Along((links.groups.value.anchorX[g] - b.x[k], links.groups.value.anchorY[g] - b.y[k]), 0.0045 * f)
  }

  lemma GroupAdds(links: Links, b: Bodies, c: Bodies, k: nat, f: real)
    requires SamePlaces(b, c) && links.Fit(|b.x|) && k < |b.x|
    ensures Gain(c, Grouped(links, c, f), k) == FromGroup(links, b, k, f)
  {
    AlongTimes();
    hide Along;
  }

  /** A whole step, for any number of nodes and links: the velocity of a node that is not pinned is what
      it was, what it gains from every other node, from every link and from its group, each as if it
      were alone, and all of that damped; it then moves with it for the fraction `f` of a frame. */
  lemma StepIsSumOfForces(m: Mathlib, links: Links, b: Bodies, pinned: seq<bool>, f: real, k: nat)
    requires b.Valid() && links.Fit(|b.x|) && |pinned| == |b.x| && k < |b.x| && !pinned[k]
    ensures var r := Stepped(m, links, b, pinned, f);
            var gain := Plus(Plus(FromNodes(m, b, k, |b.x|, f), FromLinks(m, links, b, k, |links.edgeA|, f)),
                             FromGroup(links, b, k, f));
            && (r.vx[k], r.vy[k]) == Along(Plus((b.vx[k], b.vy[k]), gain), m.damping(f))
            && (r.x[k], r.y[k]) == Plus((b.x[k], b.y[k]), Along((r.vx[k], r.vy[k]), f))
  {
    hide Repelled, Sprung, Grouped, FromNodes, FromLinks, FromGroup, Integrated, Along;
    var repelled := Repelled(m, b, |b.x|, f);
    var sprung := Sprung(m, links, repelled, |links.edgeA|, f);
    RowsAdd(m, b, |b.x|, k, f);
    LinksAdd(m, links, b, repelled, |links.edgeA|, k, f);
    GroupAdds(links, b, sprung, k, f);
    var grouped := Grouped(links, sprung, f);
    GainsAdd(b, repelled, sprung, grouped, k);
    IntegratedNode(grouped, pinned, m.damping(f), f, k);
  }

  lemma GainsAdd(b: Bodies, c: Bodies, d: Bodies, e: Bodies, k: nat)
    requires SamePlaces(b, c) && SamePlaces(c, d) && SamePlaces(d, e) && k < |b.x|
    ensures (e.vx[k], e.vy[k]) == Plus((b.vx[k], b.vy[k]), Plus(Plus(Gain(b, c, k), Gain(c, d, k)), Gain(d, e, k)))
  {
  }

  lemma IntegratedNode(b: Bodies, pinned: seq<bool>, damp: real, f: real, k: nat)
    requires b.Valid() && |pinned| == |b.x| && k < |b.x| && !pinned[k]
    ensures var r := Integrated(b, pinned, damp, f);
            && (r.vx[k], r.vy[k]) == Along((b.vx[k], b.vy[k]), damp)
            && (r.x[k], r.y[k]) == Plus((b.x[k], b.y[k]), Along((r.vx[k], r.vy[k]), f))
  {
    AlongTimes();
    hide Along;
  }

  // ---- two nodes ----------------------------------------------------------------------------

  /** The velocity of node 1 as node 0 sees it. */
  ghost function Relative(b: Bodies): (real, real)
    requires b.Valid() && |b.x| == 2
  {
    (b.vx[1] - b.vx[0], b.vy[1] - b.vy[0])
  }

  /** Two nodes `d` apart, and a link between them or none. */
  ghost predicate Two(m: Mathlib, links: Links, b: Bodies, d: real, u: (real, real)) {
    && b.Valid() && |b.x| == 2 && links.Fit(2) && links.groups == None
    && (links.edgeA == [] || (links.edgeA, links.edgeB) in {([0], [1]), ([1], [0])})
    && d > 0.0 && Direction(b, 0, 1, d, u)
    && m.hypot(b.x[1] - b.x[0], b.y[1] - b.y[0]) == d && m.hypot(b.x[0] - b.x[1], b.y[0] - b.y[1]) == d
  }

  lemma TwoForces(m: Mathlib, links: Links, b: Bodies, f: real, d: real, u: (real, real), k: nat)
    requires Two(m, links, b, d, u) && k < 2
    ensures var pull := if links.edgeA == [] then 0.0 else Tug(d, f);
            var gain := Plus(Opposite(Along(u, Shove(d, f))), Along(u, pull));
            var r := Stepped(m, links, b, [false, false], f);
            (r.vx[k], r.vy[k]) == Along(Plus((b.vx[k], b.vy[k]), if k == 0 then gain else Opposite(gain)), m.damping(f))
  {
    hide Stepped, RepelPair, SpringEdge, Along, FromNodes, FromLinks, Direction, Shove, Tug;
    StepIsSumOfForces(m, links, b, [false, false], f, k);
    NearNodesArePushedApart(m, b, 0, 1, f, u);
    TwoNodesPush(m, b, f);
    TwoNodesPull(m, links, b, f, d, u);
    ZeroAlong(u);
  }

  /** A whole step of two free nodes, linked or not: before damping their relative velocity gains twice
      the shove, away from each other, less twice the tug of the link, towards each other. */
  lemma TwoNodes(m: Mathlib, links: Links, b: Bodies, f: real, d: real, u: (real, real))
    requires Two(m, links, b, d, u)
    ensures var towards := if links.edgeA == [] then 0.0 else Tug(d, f);
            var r := Stepped(m, links, b, [false, false], f);
            Relative(r) == Along(Plus(Relative(b), Along(u, 2.0 * (Shove(d, f) - towards))), m.damping(f))
  {
    TwoForces(m, links, b, f, d, u, 0);
    TwoForces(m, links, b, f, d, u, 1);
    hide Stepped, Along, Direction, Shove, Tug;
    Together((b.vx[0], b.vy[0]), (b.vx[1], b.vy[1]), u, Shove(d, f), if links.edgeA == [] then 0.0 else Tug(d, f),
             m.damping(f));
  }

  lemma ZeroAlong(u: (real, real))
    ensures Along(u, 0.0) == (0.0, 0.0)
  {
    AlongTimes();
    hide Along;
  }

  lemma TwoNodesPush(m: Mathlib, b: Bodies, f: real)
    requires b.Valid() && |b.x| == 2
    ensures FromNodes(m, b, 0, 2, f) == Gain(b, RepelPair(m, b, 0, 1, f), 0)
    ensures FromNodes(m, b, 1, 2, f) == Gain(b, RepelPair(m, b, 0, 1, f), 1)
  {
    hide RepelPair;
    assert FromNodes(m, b, 0, 1, f) == (0.0, 0.0);
    assert FromNodes(m, b, 1, 1, f) == FromPair(m, b, 0, 1, 1, f);
  }

  lemma TwoNodesPull(m: Mathlib, links: Links, b: Bodies, f: real, d: real, u: (real, real))
    requires b.Valid() && |b.x| == 2 && links.Fit(2)
    requires links.edgeA == [] || (links.edgeA, links.edgeB) in {([0], [1]), ([1], [0])}
    requires d > 0.0 && Direction(b, 0, 1, d, u)
    requires m.hypot(b.x[1] - b.x[0], b.y[1] - b.y[0]) == d && m.hypot(b.x[0] - b.x[1], b.y[0] - b.y[1]) == d
    ensures var pull := if links.edgeA == [] then (0.0, 0.0) else Along(u, Tug(d, f));
            && FromLinks(m, links, b, 0, |links.edgeA|, f) == pull
            && FromLinks(m, links, b, 1, |links.edgeA|, f) == Opposite(pull)
  {
    hide SpringEdge;
    if links.edgeA == [0] {
      LinksSpringBack(m, b, 0, 1, f, u);
    } else if links.edgeA == [1] {
      Turned(u, d, Tug(d, f));
      LinksSpringBack(m, b, 1, 0, f, Opposite(u));
    }
  }

  lemma TimesMinus(a: real, k: real)
    ensures Times(-a, k) == -Times(a, k)
  {
  }

  lemma TimesMore(a: real, k: real, l: real)
    ensures Times(a, 2.0 * (k - l)) == 2.0 * Times(a, k) - 2.0 * Times(a, l)
  {
  }

  lemma TimesDifference(a: real, b: real, k: real)
    ensures Times(b, k) - Times(a, k) == Times(b - a, k)
  {
  }

  lemma Turned(u: (real, real), d: real, size: real)
    ensures Along(Opposite(u), d) == Opposite(Along(u, d)) && Along(Opposite(u), size) == Opposite(Along(u, size))
  {
    AlongTimes();
    hide Along;
    TimesMinus(u.0, d);
    TimesMinus(u.1, d);
    TimesMinus(u.0, size);
    TimesMinus(u.1, size);
  }

  lemma Together(v: (real, real), w: (real, real), u: (real, real), push: real, pull: real, damp: real)
    ensures var v' := Along(Plus(v, Plus(Opposite(Along(u, push)), Along(u, pull))), damp);
            var w' := Along(Plus(w, Opposite(Plus(Opposite(Along(u, push)), Along(u, pull)))), damp);
            Plus(w', Opposite(v')) == Along(Plus(Plus(w, Opposite(v)), Along(u, 2.0 * (push - pull))), damp)
  {
    AlongTimes();
    hide Along;
    hide Times;
    Each(v.0, w.0, u.0, push, pull, damp);
    Each(v.1, w.1, u.1, push, pull, damp);
  }

  lemma Each(v: real, w: real, u: real, push: real, pull: real, damp: real)
    ensures var v' := v + (-Times(u, push) + Times(u, pull));
            var w' := w + (Times(u, push) + -Times(u, pull));
            Times(w', damp) + -Times(v', damp) == Times(w + -v + Times(u, 2.0 * (push - pull)), damp)
  {
    hide Times;
    var v' := v + (-Times(u, push) + Times(u, pull));
    var w' := w + (Times(u, push) + -Times(u, pull));
    TimesMore(u, push, pull);
    TimesDifference(v', w', damp);
  }
}
