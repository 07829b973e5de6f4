/** The force step of the memory graph (app/src/force-core.js), over exact reals: the source's
    `hypot`, its overlap axis and its damping power are parameters. */
module Force {
  import opened Powers
  import opened Wrappers

  const REPULSE_RADIUS := 120.0
  const REPULSE_K := 0.3
  const SPRING_REST := 200.0
  const SPRING_K := 0.01
  const DAMPING_PER_FRAME := 0.92
  const GROUP_PULL := 0.0045
  const FRAME_MS := 50.0 / 3.0

  /** What the step takes from the mathematics library. */
  datatype Mathlib = Mathlib(hypot: (real, real) -> real, axis: (nat, nat) -> (real, real), damping: real -> real) {
    ghost predicate ZeroOnlyAtOrigin() {
      forall dx: real, dy: real :: hypot(dx, dy) == 0.0 ==> dx == 0.0 && dy == 0.0
    }
  }

  datatype Groups = Groups(of: seq<int>, anchorX: seq<real>, anchorY: seq<real>)

  /** What a simulation never changes: its links, and its groups if it has any anchors. */
  datatype Links = Links(edgeA: seq<int>, edgeB: seq<int>, groups: Option<Groups>) {
    predicate Fit(n: nat) {
      && |edgeA| == |edgeB|
      && (forall e :: 0 <= e < |edgeA| ==> edgeA[e] < n && edgeB[e] < n)
      && (groups.Some? ==>
            && |groups.value.of| == n && |groups.value.anchorX| == |groups.value.anchorY|
            && forall i :: 0 <= i < n ==> groups.value.of[i] < |groups.value.anchorX|)
    }
  }

  /** Positions and velocities of all nodes. */
  datatype Bodies = Bodies(x: seq<real>, y: seq<real>, vx: seq<real>, vy: seq<real>) {
    predicate Valid() {
      |y| == |x| && |vx| == |x| && |vy| == |x|
    }
  }

  predicate SamePlaces(b: Bodies, c: Bodies) {
    b.Valid() && c.Valid() && b.x == c.x && b.y == c.y
  }

  /** A product behind a name: proofs about sums of products do not need to look inside. */
  function Times(a: real, k: real): real {
    a * k
  }

  // ---- the step, force by force ---------------------------------------------------------

  /** `to` gains the velocity `p` and `from` loses it. */
  function Exchange(b: Bodies, from: nat, to: nat, p: (real, real)): (r: Bodies)
    requires b.Valid() && from < |b.x| && to < |b.x| && from != to
    ensures SamePlaces(b, r)
  {
    b.(vx := b.vx[from := b.vx[from] - p.0][to := b.vx[to] + p.0],
       vy := b.vy[from := b.vy[from] - p.1][to := b.vy[to] + p.1])
  }

  /** Repulsion at distance `d`, per unit of offset. */
  function PushRate(d: real, f: real): real
    requires d != 0.0
  {
    (REPULSE_RADIUS - d) / d * REPULSE_K * f
  }

  /** Spring force at length `d`, per unit of offset. */
  function PullRate(d: real, f: real): real
    requires d != 0.0
  {
    (d - SPRING_REST) / d * SPRING_K * f
  }

  /** What two nodes push each other apart by, if they are close enough. */
  function Push(m: Mathlib, b: Bodies, i: nat, j: nat, f: real): Option<(real, real)>
    requires b.Valid() && i < j < |b.x|
  {
    var (dx, dy) := (b.x[j] - b.x[i], b.y[j] - b.y[i]);
    var d := m.hypot(dx, dy);
    var (ux, uy, dist) := if d == 0.0 then (m.axis(i, j).0, m.axis(i, j).1, 1.0) else (dx, dy, d);
    if dist < REPULSE_RADIUS then
      var push := PushRate(dist, f);
      Some((Times(ux, push), Times(uy, push)))
    else None
  }

  function RepelPair(m: Mathlib, b: Bodies, i: nat, j: nat, f: real): (r: Bodies)
    requires b.Valid() && i < j < |b.x|
    ensures SamePlaces(b, r)
  {
    match Push(m, b, i, j, f)
    case None => b
    case Some(p) => Exchange(b, i, j, p)
  }

  /** Node `i` against the nodes after it, up to `j`. */
  function RepelRow(m: Mathlib, b: Bodies, i: nat, j: nat, f: real): (r: Bodies)
    requires b.Valid() && i < j <= |b.x|
    ensures SamePlaces(b, r)
  {
    if j == i + 1 then b else RepelPair(m, RepelRow(m, b, i, j - 1, f), i, j - 1, f)
  }

  function Repelled(m: Mathlib, b: Bodies, i: nat, f: real): (r: Bodies)
    requires b.Valid() && i <= |b.x|
    ensures SamePlaces(b, r)
  {
    if i == 0 then b else RepelRow(m, Repelled(m, b, i - 1, f), i - 1, |b.x|, f)
  }

  /** What the spring from `a` to `c` pulls `a` towards `c` by. */
  function Pull(m: Mathlib, b: Bodies, a: nat, c: nat, f: real): (real, real)
    requires b.Valid() && a < |b.x| && c < |b.x|
  {
    var (dx, dy) := (b.x[c] - b.x[a], b.y[c] - b.y[a]);
    var d := if m.hypot(dx, dy) == 0.0 then 1.0 else m.hypot(dx, dy);
    var pull := PullRate(d, f);
    (Times(dx, pull), Times(dy, pull))
  }

  function SpringEdge(m: Mathlib, b: Bodies, a: int, c: int, f: real): (r: Bodies)
    requires b.Valid() && a < |b.x| && c < |b.x|
    ensures SamePlaces(b, r)
  {
    if a < 0 || c < 0 || a == c then b else Exchange(b, c, a, Pull(m, b, a, c, f))
  }

  function Sprung(m: Mathlib, links: Links, b: Bodies, e: nat, f: real): (r: Bodies)
    requires b.Valid() && links.Fit(|b.x|) && e <= |links.edgeA|
    ensures SamePlaces(b, r)
  {
    if e == 0 then b
    else SpringEdge(m, Sprung(m, links, b, e - 1, f), links.edgeA[e - 1], links.edgeB[e - 1], f)
  }

  /** What its group anchor pulls node `i` by. */
  function Anchored(links: Links, b: Bodies, i: nat, f: real): (real, real)
    requires b.Valid() && links.Fit(|b.x|) && i < |b.x|
  {
    if links.groups.Some? && links.groups.value.of[i] >= 0 then
      var g := links.groups.value;
      (Times(g.anchorX[g.of[i]] - b.x[i], GROUP_PULL * f), Times(g.anchorY[g.of[i]] - b.y[i], GROUP_PULL * f))
    else (0.0, 0.0)
  }

  function Grouped(links: Links, b: Bodies, f: real): (r: Bodies)
    requires b.Valid() && links.Fit(|b.x|)
    ensures SamePlaces(b, r)
  {
    b.(vx := seq(|b.x|, i requires 0 <= i < |b.x| => b.vx[i] + Anchored(links, b, i, f).0),
       vy := seq(|b.x|, i requires 0 <= i < |b.x| => b.vy[i] + Anchored(links, b, i, f).1))
  }

  /** A velocity after damping; a pinned node comes to rest. */
  function Rested(v: real, pinned: bool, damp: real): real {
    if pinned then 0.0 else Times(v, damp)
  }

  function Damped(v: seq<real>, pinned: seq<bool>, damp: real): (r: seq<real>)
    requires |pinned| == |v|
    ensures |r| == |v|
  {
    seq(|v|, i requires 0 <= i < |v| => Rested(v[i], pinned[i], damp))
  }

  function Drifted(x: seq<real>, v: seq<real>, f: real): (r: seq<real>)
    requires |v| == |x|
    ensures |r| == |x|
  {
    seq(|x|, i requires 0 <= i < |x| => x[i] + Times(v[i], f))
  }

  /** Damping, then one Euler step. */
  function Integrated(b: Bodies, pinned: seq<bool>, damp: real, f: real): (r: Bodies)
    requires b.Valid() && |pinned| == |b.x|
    ensures r.Valid() && |r.x| == |b.x|
  {
    var vx, vy := Damped(b.vx, pinned, damp), Damped(b.vy, pinned, damp);
    Bodies(Drifted(b.x, vx, f), Drifted(b.y, vy, f), vx, vy)
  }

  /** `dtMs` as a fraction of a frame, never more than one; 0 stands for a missing one. */
  function Fraction(dtMs: real): (f: real)
    ensures 0.0 < f <= 1.0
  {
    var dt := if dtMs == 0.0 then FRAME_MS else dtMs;
    var low := if dt < 1.0 then 1.0 else dt;
    (if low > FRAME_MS then FRAME_MS else low) / FRAME_MS
  }

  /** A step never takes more than one frame of a sixtieth of a second, and never less than a
      millisecond; a missing time counts as a whole frame. */
  lemma FractionOfFrame(dtMs: real)
    ensures dtMs == 0.0 || dtMs * 60.0 >= 1000.0 ==> Fraction(dtMs) == 1.0
    ensures 1.0 <= dtMs && dtMs * 60.0 <= 1000.0 ==> Fraction(dtMs) * 1000.0 == dtMs * 60.0
    ensures dtMs < 1.0 && dtMs != 0.0 ==> Fraction(dtMs) * 1000.0 == 60.0
  {
  }

  /** Repulsion and springs: the forces nodes exert on each other. */
  function Interacted(m: Mathlib, links: Links, b: Bodies, f: real): (r: Bodies)
    requires b.Valid() && links.Fit(|b.x|)
    ensures SamePlaces(b, r)
  {
    Sprung(m, links, Repelled(m, b, |b.x|, f), |links.edgeA|, f)
  }

  function Stepped(m: Mathlib, links: Links, b: Bodies, pinned: seq<bool>, f: real): (r: Bodies)
    requires b.Valid() && links.Fit(|b.x|) && |pinned| == |b.x|
    ensures r.Valid() && |r.x| == |b.x|
  {
    if |b.x| == 0 then b
    else Integrated(Grouped(links, Interacted(m, links, b, f), f), pinned, m.damping(f), f)
  }

  /** `steps` whole frames in a row. */
  function Settled(m: Mathlib, links: Links, b: Bodies, pinned: seq<bool>, steps: nat): (r: Bodies)
    requires b.Valid() && links.Fit(|b.x|) && |pinned| == |b.x|
    ensures r.Valid() && |r.x| == |b.x|
  {
    if steps == 0 then b else Stepped(m, links, Settled(m, links, b, pinned, steps - 1), pinned, 1.0)
  }

  // ---- sums -------------------------------------------------------------------------------

  ghost function Sum(s: seq<real>): real {
    if s == [] then 0.0 else Sum(s[..|s| - 1]) + s[|s| - 1]
  }

  lemma {:induction false} SumUpdate(s: seq<real>, i: nat, v: real)
    requires i < |s|
    ensures Sum(s[i := v]) == Sum(s) - s[i] + v
  {
    var last := |s| - 1;
    if i == last {
      assert s[i := v][..last] == s[..last];
    } else {
      assert s[i := v][..last] == s[..last][i := v];
      SumUpdate(s[..last], i, v);
    }
  }

  lemma SumTransfer(s: seq<real>, i: nat, j: nat, v: real, w: real)
    requires i < |s| && j < |s| && i != j && v + w == s[i] + s[j]
    ensures Sum(s[i := v][j := w]) == Sum(s)
  {
    SumUpdate(s, i, v);
    SumUpdate(s[i := v], j, w);
  }

  lemma {:induction false} SumAdds(s: seq<real>, t: seq<real>, r: seq<real>, k: real)
    requires |s| == |t| == |r| && forall i :: 0 <= i < |s| ==> r[i] == s[i] + Times(t[i], k)
    ensures Sum(r) == Sum(s) + Times(Sum(t), k)
  {
    if s != [] {
      var n := |s| - 1;
      assert Times(Sum(t[..n]) + t[n], k) == Times(Sum(t[..n]), k) + Times(t[n], k);
      hide Times;
      SumAdds(s[..n], t[..n], r[..n], k);
    }
  }

  lemma SumScales(s: seq<real>, r: seq<real>, k: real)
    requires |s| == |r| && forall i :: 0 <= i < |s| ==> r[i] == Times(s[i], k)
    ensures Sum(r) == Times(Sum(s), k)
  {
    hide Times;
    var zeros := seq(|s|, i => 0.0);
    SumAdds(zeros, s, r, k);
    SumZero(zeros);
  }

  lemma {:induction false} SumZero(s: seq<real>)
    requires forall i :: 0 <= i < |s| ==> s[i] == 0.0
    ensures Sum(s) == 0.0
  {
    if s != [] {
      SumZero(s[..|s| - 1]);
    }
  }

  // ---- what the forces conserve -----------------------------------------------------------

  /** Total velocity, every node weighing the same. */
  ghost predicate SameTotal(b: Bodies, c: Bodies) {
    Sum(b.vx) == Sum(c.vx) && Sum(b.vy) == Sum(c.vy)
  }

  ghost function Moment(x: real, y: real, vx: real, vy: real): real {
    x * vy - y * vx
  }

  /** The moment of each node's velocity about the origin. */
  ghost function Moments(b: Bodies): seq<real>
    requires b.Valid()
  {
    seq(|b.x|, i requires 0 <= i < |b.x| => Moment(b.x[i], b.y[i], b.vx[i], b.vy[i]))
  }

  ghost function Spin(b: Bodies): real
    requires b.Valid()
  {
    Sum(Moments(b))
  }

  lemma ExchangeKeepsTotal(b: Bodies, from: nat, to: nat, p: (real, real))
    requires b.Valid() && from < |b.x| && to < |b.x| && from != to
    ensures SameTotal(b, Exchange(b, from, to, p))
  {
    SumTransfer(b.vx, from, to, b.vx[from] - p.0, b.vx[to] + p.0);
    SumTransfer(b.vy, from, to, b.vy[from] - p.1, b.vy[to] + p.1);
  }

  /** An exchange along the line between the two nodes. */
  ghost predicate Central(b: Bodies, from: nat, to: nat, p: (real, real))
    requires b.Valid() && from < |b.x| && to < |b.x|
  {
    (b.x[to] - b.x[from]) * p.1 == (b.y[to] - b.y[from]) * p.0
  }

  lemma ExchangeKeepsSpin(b: Bodies, from: nat, to: nat, p: (real, real))
    requires b.Valid() && from < |b.x| && to < |b.x| && from != to && Central(b, from, to, p)
    ensures Spin(Exchange(b, from, to, p)) == Spin(b)
  {
    MomentsBalance(b.x[from], b.y[from], b.vx[from], b.vy[from], b.x[to], b.y[to], b.vx[to], b.vy[to], p.0, p.1);
    hide Moment, Central;
    var v := Moment(b.x[from], b.y[from], b.vx[from] - p.0, b.vy[from] - p.1);
    var w := Moment(b.x[to], b.y[to], b.vx[to] + p.0, b.vy[to] + p.1);
    assert Moments(Exchange(b, from, to, p)) == Moments(b)[from := v][to := w];
    SumTransfer(Moments(b), from, to, v, w);
  }

  lemma MomentsBalance(x0: real, y0: real, vx0: real, vy0: real,
                       x1: real, y1: real, vx1: real, vy1: real, p: real, q: real)
    requires (x1 - x0) * q == (y1 - y0) * p
    ensures Moment(x0, y0, vx0 - p, vy0 - q) + Moment(x1, y1, vx1 + p, vy1 + q)
         == Moment(x0, y0, vx0, vy0) + Moment(x1, y1, vx1, vy1)
  {
    assert x1 * q - x0 * q == y1 * p - y0 * p;
  }

  /** What a force loop keeps: the total velocity, and the spin when only coinciding nodes are
      at distance zero. */
  ghost predicate Conserved(m: Mathlib, b: Bodies, c: Bodies) {
    SamePlaces(b, c) && SameTotal(b, c) && (m.ZeroOnlyAtOrigin() ==> Spin(b) == Spin(c))
  }

  lemma RepelPairConserves(m: Mathlib, b: Bodies, i: nat, j: nat, f: real)
    requires b.Valid() && i < j < |b.x|
    ensures Conserved(m, b, RepelPair(m, b, i, j, f))
  {
    match Push(m, b, i, j, f)
    case None =>
    case Some(p) =>
      ExchangeKeepsTotal(b, i, j, p);
      if m.ZeroOnlyAtOrigin() {
        PushIsCentral(m, b, i, j, f);
        ExchangeKeepsSpin(b, i, j, p);
      }
  }

  lemma PushIsCentral(m: Mathlib, b: Bodies, i: nat, j: nat, f: real)
    requires b.Valid() && i < j < |b.x| && m.ZeroOnlyAtOrigin() && Push(m, b, i, j, f).Some?
    ensures Central(b, i, j, Push(m, b, i, j, f).value)
  {
    var (dx, dy) := (b.x[j] - b.x[i], b.y[j] - b.y[i]);
    var d := m.hypot(dx, dy);
    if d != 0.0 {
      var push := PushRate(d, f);
      assert dx * (dy * push) == dy * (dx * push);
    }
  }

  lemma {:induction false} RepelRowConserves(m: Mathlib, b: Bodies, i: nat, j: nat, f: real)
    requires b.Valid() && i < j <= |b.x|
    ensures Conserved(m, b, RepelRow(m, b, i, j, f))
  {
    hide RepelPair;
    if j > i + 1 {
      RepelRowConserves(m, b, i, j - 1, f);
      RepelPairConserves(m, RepelRow(m, b, i, j - 1, f), i, j - 1, f);
    }
  }

  lemma {:induction false} RepulsionConserves(m: Mathlib, b: Bodies, i: nat, f: real)
    requires b.Valid() && i <= |b.x|
    ensures Conserved(m, b, Repelled(m, b, i, f))
  {
    hide RepelRow;
    if i > 0 {
      RepulsionConserves(m, b, i - 1, f);
      RepelRowConserves(m, Repelled(m, b, i - 1, f), i - 1, |b.x|, f);
    }
  }

  lemma SpringEdgeConserves(m: Mathlib, b: Bodies, a: int, c: int, f: real)
    requires b.Valid() && a < |b.x| && c < |b.x|
    ensures Conserved(m, b, SpringEdge(m, b, a, c, f))
  {
    if a >= 0 && c >= 0 && a != c {
      var p := Pull(m, b, a, c, f);
      ExchangeKeepsTotal(b, c, a, p);
      PullIsCentral(m, b, a, c, f);
      ExchangeKeepsSpin(b, c, a, p);
    }
  }

  lemma PullIsCentral(m: Mathlib, b: Bodies, a: nat, c: nat, f: real)
    requires b.Valid() && a < |b.x| && c < |b.x|
    ensures Central(b, c, a, Pull(m, b, a, c, f))
  {
    var (dx, dy) := (b.x[c] - b.x[a], b.y[c] - b.y[a]);
    var d := if m.hypot(dx, dy) == 0.0 then 1.0 else m.hypot(dx, dy);
    var pull := PullRate(d, f);
    assert -dx * (dy * pull) == -dy * (dx * pull);
  }

  lemma {:induction false} SpringsConserve(m: Mathlib, links: Links, b: Bodies, e: nat, f: real)
    requires b.Valid() && links.Fit(|b.x|) && e <= |links.edgeA|
    ensures Conserved(m, b, Sprung(m, links, b, e, f))
  {
    hide SpringEdge;
    if e > 0 {
      SpringsConserve(m, links, b, e - 1, f);
      SpringEdgeConserves(m, Sprung(m, links, b, e - 1, f), links.edgeA[e - 1], links.edgeB[e - 1], f);
    }
  }

  /** For any positions and links, repulsion and springs together keep the total velocity and
      the angular momentum. */
  lemma InteractionConserves(m: Mathlib, links: Links, b: Bodies, f: real)
    requires b.Valid() && links.Fit(|b.x|)
    ensures Conserved(m, b, Interacted(m, links, b, f))
  {
    hide Repelled, Sprung;
    RepulsionConserves(m, b, |b.x|, f);
    SpringsConserve(m, links, Repelled(m, b, |b.x|, f), |links.edgeA|, f);
  }

  // ---- what a whole step does -------------------------------------------------------------

  lemma IntegratedSums(b: Bodies, pinned: seq<bool>, damp: real, f: real)
    requires b.Valid() && |pinned| == |b.x|
    ensures var r := Integrated(b, pinned, damp, f);
            Sum(r.x) == Sum(b.x) + Times(Sum(r.vx), f) && Sum(r.y) == Sum(b.y) + Times(Sum(r.vy), f)
  {
    hide Times, Damped;
    var r := Integrated(b, pinned, damp, f);
    SumAdds(b.x, r.vx, r.x, f);
    SumAdds(b.y, r.vy, r.y, f);
  }

  /** The sum of all positions moves by `f` times the new total velocity, whatever is pinned
      or grouped. */
  lemma CentreFollowsVelocity(m: Mathlib, links: Links, b: Bodies, pinned: seq<bool>, f: real)
    requires b.Valid() && links.Fit(|b.x|) && |pinned| == |b.x|
    ensures var r := Stepped(m, links, b, pinned, f);
            Sum(r.x) == Sum(b.x) + Sum(r.vx) * f && Sum(r.y) == Sum(b.y) + Sum(r.vy) * f
  {
    hide Interacted, Grouped, Integrated;
    if |b.x| > 0 {
      IntegratedSums(Grouped(links, Interacted(m, links, b, f), f), pinned, m.damping(f), f);
    }
  }

  /** A pinned node does not move and ends the step at rest; any other moves by `f` times its
      new velocity. */
  lemma PinnedRests(m: Mathlib, links: Links, b: Bodies, pinned: seq<bool>, f: real, i: nat)
    requires b.Valid() && links.Fit(|b.x|) && |pinned| == |b.x| && i < |b.x|
    ensures var r := Stepped(m, links, b, pinned, f);
            && (pinned[i] ==> r.x[i] == b.x[i] && r.y[i] == b.y[i] && r.vx[i] == 0.0 && r.vy[i] == 0.0)
            && r.x[i] == b.x[i] + r.vx[i] * f && r.y[i] == b.y[i] + r.vy[i] * f
  {
    hide Interacted, Grouped;
  }

  ghost function Anchors(links: Links, b: Bodies, f: real): (seq<real>, seq<real>)
    requires b.Valid() && links.Fit(|b.x|)
  {
    (seq(|b.x|, i requires 0 <= i < |b.x| => Anchored(links, b, i, f).0),
     seq(|b.x|, i requires 0 <= i < |b.x| => Anchored(links, b, i, f).1))
  }

  lemma NoPinsDamp(b: Bodies, pinned: seq<bool>, damp: real, f: real)
    requires b.Valid() && |pinned| == |b.x| && true !in pinned
    ensures var r := Integrated(b, pinned, damp, f);
            Sum(r.vx) == Times(Sum(b.vx), damp) && Sum(r.vy) == Times(Sum(b.vy), damp)
  {
    hide Times, Drifted;
    var r := Integrated(b, pinned, damp, f);
    SumScales(b.vx, r.vx, damp);
    SumScales(b.vy, r.vy, damp);
  }

  lemma NoPinsSpin(b: Bodies, pinned: seq<bool>, damp: real, f: real)
    requires b.Valid() && |pinned| == |b.x| && true !in pinned
    ensures Spin(Integrated(b, pinned, damp, f)) == Times(Spin(b), damp)
  {
    var r := Integrated(b, pinned, damp, f);
    forall i | 0 <= i < |b.x|
      ensures Moments(r)[i] == Times(Moments(b)[i], damp)
    {
      MomentOfDrift(b.x[i], b.y[i], b.vx[i], b.vy[i], damp, f);
      hide Times, Moment;
      assert !pinned[i];
    }
    hide Times, Moment;
    SumScales(Moments(b), Moments(r), damp);
  }

  /** Drifting along its own velocity does not change a node's moment. */
  lemma MomentOfDrift(x: real, y: real, vx: real, vy: real, damp: real, f: real)
    ensures var (p, q) := (Times(vx, damp), Times(vy, damp));
            Moment(x + Times(p, f), y + Times(q, f), p, q) == Times(Moment(x, y, vx, vy), damp)
  {
    var p, q := vx * damp, vy * damp;
    assert (p * f) * q == (q * f) * p;
    assert (x + p * f) * q - (y + q * f) * p == x * q - y * p;
    assert x * q - y * p == (x * vy - y * vx) * damp;
  }

  lemma DrivenTotal(m: Mathlib, links: Links, b: Bodies, pinned: seq<bool>, f: real)
    requires b.Valid() && links.Fit(|b.x|) && |pinned| == |b.x| > 0 && true !in pinned
    ensures var r := Stepped(m, links, b, pinned, f);
            && Sum(r.vx) == Times(Sum(b.vx) + Sum(Anchors(links, b, f).0), m.damping(f))
            && Sum(r.vy) == Times(Sum(b.vy) + Sum(Anchors(links, b, f).1), m.damping(f))
  {
    InteractionConserves(m, links, b, f);
    hide Interacted, Integrated, Grouped, Anchors, Spin, Sum, Times, Mathlib.ZeroOnlyAtOrigin;
    var c := Interacted(m, links, b, f);
    GroupsAdd(links, b, c, f);
    NoPinsDamp(Grouped(links, c, f), pinned, m.damping(f), f);
  }

  /** Without pins, a step scales the total velocity by exactly the damping, after the group
      anchors have added theirs. */
  lemma GroupsAreTheOnlyDrive(m: Mathlib, links: Links, b: Bodies, pinned: seq<bool>, f: real)
    requires b.Valid() && links.Fit(|b.x|) && |pinned| == |b.x| && true !in pinned
    ensures var r := Stepped(m, links, b, pinned, f);
            && Sum(r.vx) == (Sum(b.vx) + Sum(Anchors(links, b, f).0)) * m.damping(f)
            && Sum(r.vy) == (Sum(b.vy) + Sum(Anchors(links, b, f).1)) * m.damping(f)
  {
    if |b.x| > 0 {
      hide Stepped, Anchors, Sum;
      DrivenTotal(m, links, b, pinned, f);
    } else {
      SumOfNothing(b, links, f);
    }
  }

  lemma SumOfNothing(b: Bodies, links: Links, f: real)
    requires b.Valid() && links.Fit(|b.x|) && |b.x| == 0
    ensures Sum(b.vx) == Sum(b.vy) == Sum(Anchors(links, b, f).0) == Sum(Anchors(links, b, f).1) == Spin(b) == 0.0
  {
  }

  lemma GroupsAdd(links: Links, b: Bodies, c: Bodies, f: real)
    requires SamePlaces(b, c) && links.Fit(|b.x|)
    ensures Sum(Grouped(links, c, f).vx) == Sum(c.vx) + Sum(Anchors(links, b, f).0)
    ensures Sum(Grouped(links, c, f).vy) == Sum(c.vy) + Sum(Anchors(links, b, f).1)
  {
    var (ax, ay) := Anchors(links, b, f);
    forall i | 0 <= i < |b.x|
      ensures Times(ax[i], 1.0) == ax[i] && Times(ay[i], 1.0) == ay[i]
    {
    }
    assert Times(Sum(ax), 1.0) == Sum(ax) && Times(Sum(ay), 1.0) == Sum(ay);
    hide Times;
    forall i | 0 <= i < |b.x|
      ensures Anchored(links, b, i, f) == Anchored(links, c, i, f)
    {
    }
    hide Anchored;
    SumAdds(c.vx, ax, Grouped(links, c, f).vx, 1.0);
    SumAdds(c.vy, ay, Grouped(links, c, f).vy, 1.0);
  }

  /** Without groups or pins, a step scales the total velocity and the angular momentum by
      exactly the damping. */
  lemma FreeStepDamps(m: Mathlib, links: Links, b: Bodies, pinned: seq<bool>, f: real)
    requires b.Valid() && links.Fit(|b.x|) && |pinned| == |b.x| && true !in pinned && links.groups == None
    ensures var r := Stepped(m, links, b, pinned, f);
            && Sum(r.vx) == Sum(b.vx) * m.damping(f) && Sum(r.vy) == Sum(b.vy) * m.damping(f)
            && (m.ZeroOnlyAtOrigin() ==> Spin(r) == Spin(b) * m.damping(f))
  {
    hide Interacted, Integrated, Spin, Grouped, Sum;
    InteractionConserves(m, links, b, f);
    if |b.x| > 0 {
      var c := Interacted(m, links, b, f);
      NoGroupsNoPull(links, c, f);
      NoPinsDamp(c, pinned, m.damping(f), f);
      NoPinsSpin(c, pinned, m.damping(f), f);
    } else {
      SumOfNothing(b, links, f);
    }
  }

  lemma NoGroupsNoPull(links: Links, b: Bodies, f: real)
    requires b.Valid() && links.Fit(|b.x|) && links.groups == None
    ensures Grouped(links, b, f) == b
  {
    assert Grouped(links, b, f).vx == b.vx && Grouped(links, b, f).vy == b.vy;
  }

  /** Settling offline: every frame scales the total velocity by the same factor. */
  lemma {:induction false} SettlingScales(m: Mathlib, links: Links, b: Bodies, pinned: seq<bool>, steps: nat)
    requires b.Valid() && links.Fit(|b.x|) && |pinned| == |b.x| && true !in pinned && links.groups == None
    ensures var r := Settled(m, links, b, pinned, steps);
            && Sum(r.vx) == Sum(b.vx) * Power(m.damping(1.0), steps)
            && Sum(r.vy) == Sum(b.vy) * Power(m.damping(1.0), steps)
  {
    hide Stepped, Sum;
    if steps > 0 {
      SettlingScales(m, links, b, pinned, steps - 1);
      var before := Settled(m, links, b, pinned, steps - 1);
      FreeStepDamps(m, links, before, pinned, 1.0);
      var k, p := m.damping(1.0), Power(m.damping(1.0), steps - 1);
      assert Sum(b.vx) * p * k == Sum(b.vx) * (k * p) && Sum(b.vy) * p * k == Sum(b.vy) * (k * p);
    }
  }

  function Abs(x: real): real {
    if x < 0.0 then -x else x
  }

  /** Nine frames at the source's damping take away more than half. */
  lemma {:induction false} NineFramesHalve(k: nat, steps: nat)
    requires steps >= 9 * k
    ensures 0.0 <= Power(0.92, steps) <= Power(0.5, k)
    decreases k, steps
  {
    PowerNonNegative(0.92, steps);
    if k > 0 {
      NineFramesHalve(k - 1, steps - 9);
      NineFrames(steps - 9);
    } else if steps > 0 {
      NineFramesHalve(0, steps - 1);
    }
  }

  lemma NineFrames(n: nat)
    ensures Power(0.92, n + 9) <= Power(0.92, n) * 0.5
  {
    PowerNonNegative(0.92, n);
    var d := 0.92;
    assert Power(d, n + 3) == d * Power(d, n + 2) == d * (d * Power(d, n + 1));
    assert Power(d, n + 6) == d * Power(d, n + 5) == d * (d * Power(d, n + 4));
    assert Power(d, n + 9) == d * Power(d, n + 8) == d * (d * Power(d, n + 7));
  }

  /** Settling offline without groups and pins: the total velocity has at least halved after
      every nine frames. */
  lemma SettlingDecays(m: Mathlib, links: Links, b: Bodies, pinned: seq<bool>, steps: nat, k: nat)
    requires b.Valid() && links.Fit(|b.x|) && |pinned| == |b.x| && true !in pinned && links.groups == None
    requires m.damping(1.0) == 0.92 && steps >= 9 * k
    ensures var r := Settled(m, links, b, pinned, steps);
            && Abs(Sum(r.vx)) <= Abs(Sum(b.vx)) * Power(0.5, k)
            && Abs(Sum(r.vy)) <= Abs(Sum(b.vy)) * Power(0.5, k)
  {
    hide Settled, Sum, Power, Abs, Links.Fit;
    SettlingScales(m, links, b, pinned, steps);
    NineFramesHalve(k, steps);
    var r := Settled(m, links, b, pinned, steps);
    AbsScaled(Sum(b.vx), Power(0.92, steps), Power(0.5, k), Sum(r.vx));
    AbsScaled(Sum(b.vy), Power(0.92, steps), Power(0.5, k), Sum(r.vy));
  }

  lemma AbsScaled(x: real, p: real, q: real, y: real)
    requires 0.0 <= p <= q && y == x * p
    ensures Abs(y) <= Abs(x) * q
  {
    assert Abs(x) * (q - p) >= 0.0;
    assert Abs(x) * p >= 0.0;
  }

  /** Pinned nodes stay where they were pinned over any number of steps. */
  lemma {:induction false} PinHolds(m: Mathlib, links: Links, b: Bodies, pinned: seq<bool>, steps: nat, i: nat)
    requires b.Valid() && links.Fit(|b.x|) && |pinned| == |b.x| && i < |b.x| && pinned[i]
    ensures var r := Settled(m, links, b, pinned, steps); r.x[i] == b.x[i] && r.y[i] == b.y[i]
  {
    if steps > 0 {
      PinHolds(m, links, b, pinned, steps - 1, i);
      PinnedRests(m, links, Settled(m, links, b, pinned, steps - 1), pinned, 1.0, i);
    }
  }

  /** `b` with its first `i` nodes already as in `goal`. */
  ghost function Mixed(goal: Bodies, b: Bodies, i: nat): Bodies
    requires goal.Valid() && b.Valid() && i <= |goal.x| == |b.x|
  {
    Bodies(goal.x[..i] + b.x[i..], goal.y[..i] + b.y[i..], goal.vx[..i] + b.vx[i..], goal.vy[..i] + b.vy[i..])
  }

  lemma MixedEnds(goal: Bodies, b: Bodies)
    requires goal.Valid() && b.Valid() && |goal.x| == |b.x|
    ensures Mixed(goal, b, 0) == b && Mixed(goal, b, |b.x|) == goal
  {
  }

  /** Node `i` alone after damping and the Euler step. */
  ghost function IntegratedOne(b: Bodies, i: nat, pinned: bool, damp: real, f: real): Bodies
    requires b.Valid() && i < |b.x|
  {
    var (vx, vy) := (Rested(b.vx[i], pinned, damp), Rested(b.vy[i], pinned, damp));
    Bodies(b.x[i := b.x[i] + Times(vx, f)], b.y[i := b.y[i] + Times(vy, f)], b.vx[i := vx], b.vy[i := vy])
  }

  lemma MixedStep(b: Bodies, pinned: seq<bool>, damp: real, f: real, i: nat)
    requires b.Valid() && |pinned| == |b.x| && i < |b.x|
    ensures var goal := Integrated(b, pinned, damp, f);
            && Mixed(goal, b, i).Valid() && |Mixed(goal, b, i).x| == |b.x|
            && IntegratedOne(Mixed(goal, b, i), i, pinned[i], damp, f) == Mixed(goal, b, i + 1)
  {
    hide Times, Rested;
  }

  // ---- the simulation as it runs ----------------------------------------------------------

  class ForceSim {
    const m: Mathlib
    const links: Links
    const x: array<real>
    const y: array<real>
    const vx: array<real>
    const vy: array<real>
    const pinned: array<bool>

    ghost predicate Valid() {
      && x != y && x != vx && x != vy && y != vx && y != vy && vx != vy
      && y.Length == vx.Length == vy.Length == pinned.Length == x.Length
      && links.Fit(x.Length)
    }

    ghost function Now(): (b: Bodies)
      requires Valid()
      reads x, y, vx, vy
      ensures b.Valid() && |b.x| == x.Length
    {
      Bodies(x[..], y[..], vx[..], vy[..])
    }

    constructor (m: Mathlib, links: Links, x: array<real>, y: array<real>,
                 vx: array<real>, vy: array<real>, pinned: array<bool>)
      requires x != y && x != vx && x != vy && y != vx && y != vy && vx != vy
      requires y.Length == vx.Length == vy.Length == pinned.Length == x.Length && links.Fit(x.Length)
      ensures Valid() && this.m == m && this.links == links
      ensures this.x == x && this.y == y && this.vx == vx && this.vy == vy && this.pinned == pinned
    {
      this.m, this.links, this.x, this.y, this.vx, this.vy, this.pinned := m, links, x, y, vx, vy, pinned;
    }

    /** `to` gains the velocity (px, py) and `from` loses it. */
    method Give(from: nat, to: nat, px: real, py: real)
      requires Valid() && from < x.Length && to < x.Length && from != to
      modifies vx, vy
      ensures Now() == Exchange(old(Now()), from, to, (px, py))
    {
      vx[from], vy[from] := vx[from] - px, vy[from] - py;
      vx[to], vy[to] := vx[to] + px, vy[to] + py;
      assert vx[..] == old(vx[..])[from := old(vx[from]) - px][to := old(vx[to]) + px];
      assert vy[..] == old(vy[..])[from := old(vy[from]) - py][to := old(vy[to]) + py];
    }

    method RepelOne(i: nat, j: nat, f: real)
      requires Valid() && i < j < x.Length
      modifies vx, vy
      ensures Now() == RepelPair(m, old(Now()), i, j, f)
    {
      hide Times, PushRate;
      var dx, dy := x[j] - x[i], y[j] - y[i];
      var d := m.hypot(dx, dy);
      if d == 0.0 {
        dx, dy, d := m.axis(i, j).0, m.axis(i, j).1, 1.0;
      }
      if d < REPULSE_RADIUS {
        var push := PushRate(d, f);
        Give(i, j, Times(dx, push), Times(dy, push));
      }
    }

    method Repel(f: real)
      requires Valid()
      modifies vx, vy
      ensures Now() == Repelled(m, old(Now()), x.Length, f)
    {
      hide RepelPair;
      ghost var b := Now();
      var i := 0;
      while i < x.Length
        invariant 0 <= i <= x.Length && Now() == Repelled(m, b, i, f)
      {
        ghost var c := Now();
        var j := i + 1;
        while j < x.Length
          invariant i < j <= x.Length && Now() == RepelRow(m, c, i, j, f)
        {
          RepelOne(i, j, f);
          j := j + 1;
        }
        i := i + 1;
      }
    }

    method SpringOne(a: int, c: int, f: real)
      requires Valid() && a < x.Length && c < x.Length
      modifies vx, vy
      ensures Now() == SpringEdge(m, old(Now()), a, c, f)
    {
      hide Times, PullRate, Exchange;
      if a < 0 || c < 0 || a == c {
        return;
      }
      var dx, dy := x[c] - x[a], y[c] - y[a];
      var d := if m.hypot(dx, dy) == 0.0 then 1.0 else m.hypot(dx, dy);
      var pull := PullRate(d, f);
      Give(c, a, Times(dx, pull), Times(dy, pull));
    }

    method Spring(f: real)
      requires Valid()
      modifies vx, vy
      ensures Now() == Sprung(m, links, old(Now()), |links.edgeA|, f)
    {
      hide SpringEdge;
      ghost var b := Now();
      for e := 0 to |links.edgeA|
        invariant Now() == Sprung(m, links, b, e, f)
      {
        SpringOne(links.edgeA[e], links.edgeB[e], f);
      }
    }

    method PullToAnchors(f: real)
      requires Valid()
      modifies vx, vy
      ensures Now() == Grouped(links, old(Now()), f)
    {
      hide Times;
      ghost var b := Now();
      ghost var goal := Grouped(links, b, f);
      if links.groups.Some? {
        var g := links.groups.value;
        for i := 0 to x.Length
          invariant forall k :: 0 <= k < x.Length ==> vx[k] == if k < i then goal.vx[k] else b.vx[k]
          invariant forall k :: 0 <= k < x.Length ==> vy[k] == if k < i then goal.vy[k] else b.vy[k]
        {
          if g.of[i] >= 0 {
            vx[i] := vx[i] + Times(g.anchorX[g.of[i]] - x[i], GROUP_PULL * f);
            vy[i] := vy[i] + Times(g.anchorY[g.of[i]] - y[i], GROUP_PULL * f);
          }
        }
      }
      assert vx[..] == goal.vx && vy[..] == goal.vy;
    }

    method IntegrateOne(i: nat, damp: real, f: real)
      requires Valid() && i < x.Length
      modifies x, y, vx, vy
      ensures Now() == IntegratedOne(old(Now()), i, pinned[i], damp, f)
    {
      assert Times(0.0, f) == 0.0;
      hide Times;
      if pinned[i] {
        vx[i], vy[i] := 0.0, 0.0;
      } else {
        vx[i], vy[i] := Times(vx[i], damp), Times(vy[i], damp);
        x[i], y[i] := x[i] + Times(vx[i], f), y[i] + Times(vy[i], f);
      }
    }

    method Integrate(damp: real, f: real)
      requires Valid()
      modifies x, y, vx, vy
      ensures Now() == Integrated(old(Now()), pinned[..], damp, f)
    {
      ghost var b := Now();
      ghost var goal := Integrated(b, pinned[..], damp, f);
      hide Mixed, Integrated, IntegratedOne;
      MixedEnds(goal, b);
      for i := 0 to x.Length
        invariant Now() == Mixed(goal, b, i)
      {
        MixedStep(b, pinned[..], damp, f, i);
        IntegrateOne(i, damp, f);
      }
    }

    /** `stepForceSim`. */
    method StepForceSim(dtMs: real)
      requires Valid()
      modifies x, y, vx, vy
      ensures Now() == Stepped(m, links, old(Now()), pinned[..], Fraction(dtMs))
    {
      if x.Length == 0 {
        return;
      }
      var f := Fraction(dtMs);
      Repel(f);
      Spring(f);
      PullToAnchors(f);
      Integrate(m.damping(f), f);
    }

    /** `settleForceSim`. */
    method SettleForceSim(iterations: nat)
      requires Valid()
      modifies x, y, vx, vy
      ensures Now() == Settled(m, links, old(Now()), pinned[..], iterations)
    {
      hide Stepped;
      ghost var b := Now();
      for i := 0 to iterations
        invariant Now() == Settled(m, links, b, pinned[..], i)
      {
        StepForceSim(FRAME_MS);
      }
    }

    /** `pinNode`: an index that names no node is ignored. */
    method PinNode(i: int, px: real, py: real)
      requires Valid()
      modifies x, y, pinned
      ensures Now() == (if 0 <= i < x.Length then
                          old(Now()).(x := old(x[..])[i := px], y := old(y[..])[i := py]) else old(Now()))
      ensures pinned[..] == if 0 <= i < x.Length then old(pinned[..])[i := true] else old(pinned[..])
    {
      if i < 0 || i >= x.Length {
        return;
      }
      pinned[i] := true;
      x[i], y[i] := px, py;
    }

    /** `releaseNode`. */
    method ReleaseNode(i: int)
      requires Valid()
      modifies pinned
      ensures pinned[..] == if 0 <= i < x.Length then old(pinned[..])[i := false] else old(pinned[..])
    {
      if i < 0 || i >= x.Length {
        return;
      }
      pinned[i] := false;
    }
  }
}
