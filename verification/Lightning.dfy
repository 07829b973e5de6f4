/** Midpoint-displacement offsets of a bolt (`jagOffsets1D`, app/src/lightning-core.js),
    written in place into a caller's buffer. Offsets are exact reals; the k-th call of the
    random source returns `rng(k)`. */
module Lightning {
  import opened Powers
  import opened Wrappers

  function Pow2(n: nat): (p: nat)
    ensures p >= 1
  {
    if n == 0 then 1 else 2 * Pow2(n - 1)
  }

  // ---- the curve, generation by generation --------------------------------------------

  /** A midpoint pushed off the chord of its neighbours. */
  function Displaced(a: real, b: real, r: real, amp: real): real {
    (a + b) / 2.0 + (r * 2.0 - 1.0) * amp
  }

  /** Station `j` once every interval of `c` has got a midpoint; the random source has been
      called `calls` times before. */
  function RefinedAt(c: seq<real>, amp: real, calls: nat, rng: nat -> real, j: nat): real
    requires j < 2 * |c| - 1
  {
    if j % 2 == 0 then c[j / 2] else Displaced(c[j / 2], c[j / 2 + 1], rng(calls + j / 2), amp)
  }

  function Refined(c: seq<real>, amp: real, calls: nat, rng: nat -> real): (r: seq<real>)
    requires |c| >= 1
    ensures |r| == 2 * |c| - 1
  {
    seq(2 * |c| - 1, j requires 0 <= j < 2 * |c| - 1 => RefinedAt(c, amp, calls, rng, j))
  }

  /** The offsets after `g` generations, left to right. The random source has then been
      called once per interior station. */
  function Curve(g: nat, decay: real, rng: nat -> real): (c: seq<real>)
    ensures |c| == Pow2(g) + 1
  {
    if g == 0 then [0.0, 0.0]
    else Refined(Curve(g - 1, decay, rng), Power(decay, g - 1), Pow2(g - 1) - 1, rng)
  }

  /** A station of the next generation: an old one, or a displaced midpoint. */
  lemma NextStations(g: nat, decay: real, rng: nat -> real, m: nat)
    requires m <= Pow2(g)
    ensures var c, next := Curve(g, decay, rng), Curve(g + 1, decay, rng);
            && |next| == 2 * Pow2(g) + 1
            && next[2 * m] == c[m]
            && (m < Pow2(g) ==>
                  next[2 * m + 1] == Displaced(c[m], c[m + 1], rng(Pow2(g) - 1 + m), Power(decay, g)))
  {
    CurveStep(g, decay, rng);
    hide Curve, Refined, RefinedAt, Power, Displaced, Pow2;
    EvenOdd(Curve(g, decay, rng), Power(decay, g), Pow2(g) - 1, rng, m);
    RefinedStations(Curve(g, decay, rng), Power(decay, g), Pow2(g) - 1, rng);
  }

  lemma DisplacedIs(mid: real, a: real, b: real, r: real, amp: real)
    requires mid == Displaced(a, b, r, amp)
    ensures mid == (a + b) / 2.0 + (r * 2.0 - 1.0) * amp
  {
  }

  /** Interval `m` of a generation gets its midpoint: the mean of its ends, pushed up or down by as much
      as the power of the decay allows, as the next random number says. */
  lemma MidpointsAreDisplaced(g: nat, decay: real, rng: nat -> real, m: nat)
    requires m < Pow2(g)
    ensures var c, next := Curve(g, decay, rng), Curve(g + 1, decay, rng);
            && next[2 * m] == c[m] && next[2 * m + 2] == c[m + 1]
            && next[2 * m + 1] == (c[m] + c[m + 1]) / 2.0 + (rng(Pow2(g) - 1 + m) * 2.0 - 1.0) * Power(decay, g)
  {
    hide *;
    NextStations(g, decay, rng, m);
    NextStations(g, decay, rng, m + 1);
    var c, next := Curve(g, decay, rng), Curve(g + 1, decay, rng);
    DisplacedIs(next[2 * m + 1], c[m], c[m + 1], rng(Pow2(g) - 1 + m), Power(decay, g));
  }

  lemma RefinedStations(c: seq<real>, amp: real, calls: nat, rng: nat -> real)
    requires |c| >= 1
    ensures forall j :: 0 <= j < 2 * |c| - 1 ==> Refined(c, amp, calls, rng)[j] == RefinedAt(c, amp, calls, rng, j)
  {
  }

  lemma CurveStep(g: nat, decay: real, rng: nat -> real)
    ensures Curve(g + 1, decay, rng) == Refined(Curve(g, decay, rng), Power(decay, g), Pow2(g) - 1, rng)
  {
    hide Refined, Power;
  }

  lemma EvenOdd(c: seq<real>, amp: real, calls: nat, rng: nat -> real, m: nat)
    requires m < |c|
    ensures RefinedAt(c, amp, calls, rng, 2 * m) == c[m]
    ensures m < |c| - 1 ==> RefinedAt(c, amp, calls, rng, 2 * m + 1) == Displaced(c[m], c[m + 1], rng(calls + m), amp)
  {
    hide Displaced;
    assert (2 * m) / 2 == m && (2 * m + 1) / 2 == m;
  }

  // ---- stations in the buffer ---------------------------------------------------------

  /** Buffer index of station `m` when stations are `stride` apart. */
  function Station(m: nat, stride: nat): nat {
    m * stride
  }

  lemma {:induction false} StationOrder(m: nat, n: nat, stride: nat)
    requires m < n
    ensures Station(m, stride) + stride <= Station(n, stride)
    decreases n
  {
    assert Station(n, stride) == Station(n - 1, stride) + stride by {
      NextStation(n - 1, stride);
    }
    hide Station;
    if m < n - 1 {
      StationOrder(m, n - 1, stride);
    }
  }

  lemma NextStation(m: nat, stride: nat)
    ensures Station(m + 1, stride) == Station(m, stride) + stride
  {
  }

  lemma StationsDiffer(m: nat, n: nat, stride: nat)
    requires stride >= 1
    ensures Station(m, stride) == Station(n, stride) <==> m == n
  {
    hide Station;
    if m < n {
      StationOrder(m, n, stride);
    } else if n < m {
      StationOrder(n, m, stride);
    }
  }

  lemma StationHalved(m: nat, half: nat)
    ensures Station(m, 2 * half) == Station(2 * m, half)
    ensures Station(m, 2 * half) + half == Station(2 * m + 1, half)
    ensures Station(m, 2 * half) + 2 * half == Station(m + 1, 2 * half)
  {
  }

  lemma PowersCompose(m: nat, n: nat)
    ensures Station(Pow2(m), Pow2(n)) == Pow2(m + n)
  {
    StationDoubles(if m > 0 then Pow2(m - 1) else 0, Pow2(n));
    hide Station;
    if m > 0 {
      PowersCompose(m - 1, n);
    }
  }

  lemma StationDoubles(m: nat, stride: nat)
    ensures Station(2 * m, stride) == 2 * Station(m, stride) && Station(1, stride) == stride
  {
  }

  // ---- the algorithm ------------------------------------------------------------------

  /** Every station of generation `g` holds its offset. */
  ghost predicate Holds(s: seq<real>, stride: nat, c: seq<real>) {
    forall m: nat :: m < |c| ==> Station(m, stride) < |s| && s[Station(m, stride)] == c[m]
  }

  /** Half way through a generation: the coarse stations hold the old curve, and of the
      stations between them the first `k` hold the new one. */
  ghost predicate HalfWay(s: seq<real>, half: nat, c: seq<real>, next: seq<real>, k: nat) {
    && |next| == 2 * |c| - 1
    && forall n: nat :: n < |next| ==>
         && Station(n, half) < |s|
         && (n % 2 == 0 ==> s[Station(n, half)] == c[n / 2])
         && (n % 2 == 1 && n < 2 * k ==> s[Station(n, half)] == next[n])
  }

  method JagOffsets1D(generations: nat, out: array<real>, decay: real, rng: nat -> real)
    returns (count: Option<nat>, calls: nat)
    modifies out
    ensures count == if out.Length < Pow2(generations) + 1 then None else Some(Pow2(generations) + 1)
    ensures count == None ==> out[..] == old(out[..])
    ensures count.Some? ==>
      && out[..count.value] == Curve(generations, decay, rng)
      && out[count.value..] == old(out[count.value..])
      && calls == Pow2(generations) - 1
  {
    hide Curve, Station, Power, Holds;
    calls := 0;
    var n := Pow2(generations) + 1;
    if out.Length < n {
      return None, 0;
    }
    out[0] := 0.0;
    out[n - 1] := 0.0;
    var amp := 1.0;
    var stride := n - 1;
    FlatCurve(out[..], stride, decay, rng);
    for g := 0 to generations
      invariant stride == Pow2(generations - g) && amp == Power(decay, g) && calls == Pow2(g) - 1
      invariant Holds(out[..], stride, Curve(g, decay, rng))
      invariant forall i :: n <= i < out.Length ==> out[i] == old(out[i])
    {
      calls := Generation(generations, g, out, decay, rng, amp, stride);
      NextPower(decay, g);
      stride := stride / 2;
      amp := amp * decay;
    }
    AllStations(out[..], Curve(generations, decay, rng));
    return Some(n), calls;
  }

  lemma FlatCurve(s: seq<real>, stride: nat, decay: real, rng: nat -> real)
    requires stride < |s| && s[0] == 0.0 && s[stride] == 0.0
    ensures Holds(s, stride, Curve(0, decay, rng)) && Power(decay, 0) == 1.0
  {
    assert Station(0, stride) == 0 && Station(1, stride) == stride;
  }

  /** With stations next to each other the buffer is the curve. */
  lemma AllStations(s: seq<real>, c: seq<real>)
    requires Holds(s, 1, c) && c != []
    ensures |c| <= |s| && s[..|c|] == c
  {
    assert forall m: nat :: Station(m, 1) == m;
    assert Station(|c| - 1, 1) < |s|;
    forall m: nat | m < |c|
      ensures m < |s| && s[m] == c[m]
    {
      assert Station(m, 1) == m;
    }
  }

  /** One generation: a midpoint for every interval, left to right. */
  method Generation(generations: nat, g: nat, out: array<real>, decay: real, rng: nat -> real, amp: real, stride: nat)
    returns (calls: nat)
    requires g < generations && out.Length >= Pow2(generations) + 1
    requires stride == Pow2(generations - g) && amp == Power(decay, g)
    requires Holds(out[..], stride, Curve(g, decay, rng))
    modifies out
    ensures Holds(out[..], stride / 2, Curve(g + 1, decay, rng))
    ensures calls == Pow2(g + 1) - 1
    ensures forall i :: Pow2(generations) < i < out.Length ==> out[i] == old(out[i])
  {
    hide Curve, Station, Power, Holds, HalfWay, Displaced;
    var half := stride / 2;
    ghost var c, next := Curve(g, decay, rng), Curve(g + 1, decay, rng);
    PowersCompose(g, generations - g);
    NextStations(g, decay, rng, 0);
    StartHalfWay(out[..], half, c, next);
    var i := 0;
    ghost var k := 0;
    StationHalved(0, half);
    StationZero(half);
    calls := Pow2(g) - 1;
    while i + stride <= Pow2(generations)
      invariant 0 <= k <= Pow2(g) && i == Station(k, stride) && calls == Pow2(g) - 1 + k
      invariant HalfWay(out[..], half, c, next, k)
      invariant forall j :: Pow2(generations) < j < out.Length ==> out[j] == old(out[j])
      decreases Pow2(g) - k
    {
      NextStation(k, stride);
      if k == Pow2(g) {
        assert false;
      }
      StationHalved(k, half);
      StationHalved(k + 1, half);
      NextStations(g, decay, rng, k);
      ghost var before := out[..];
      AtStations(before, half, c, next, k);
      out[i + half] := Displaced(out[i], out[i + stride], rng(calls), amp);
      assert out[..] == before[Station(2 * k + 1, half) := next[2 * k + 1]];
      StepHalfWay(before, out[..], half, c, next, k);
      i, k, calls := i + stride, k + 1, calls + 1;
    }
    if k < Pow2(g) {
      StationOrder(k, Pow2(g), stride);
      assert false;
    }
    forall n: nat | n < |next| && n % 2 == 0
      ensures next[n] == c[n / 2]
    {
      NextStations(g, decay, rng, n / 2);
    }
    EndHalfWay(out[..], half, c, next, k);
  }

  lemma StationZero(stride: nat)
    ensures Station(0, stride) == 0
  {
  }

  lemma AtStations(s: seq<real>, half: nat, c: seq<real>, next: seq<real>, k: nat)
    requires HalfWay(s, half, c, next, k) && 2 * k + 2 < |next|
    ensures Station(2 * k, half) < |s| && s[Station(2 * k, half)] == c[k]
    ensures Station(2 * k + 1, half) < |s|
    ensures Station(2 * k + 2, half) < |s| && s[Station(2 * k + 2, half)] == c[k + 1]
  {
    hide Station;
    assert (2 * k + 2) / 2 == k + 1 && (2 * k + 2) % 2 == 0;
  }

  lemma StartHalfWay(s: seq<real>, half: nat, c: seq<real>, next: seq<real>)
    requires Holds(s, 2 * half, c) && |next| == 2 * |c| - 1
    ensures HalfWay(s, half, c, next, 0)
  {
    hide Station;
    forall n: nat | n < |next|
      ensures Station(n, half) < |s| && (n % 2 == 0 ==> s[Station(n, half)] == c[n / 2])
    {
      var m := n / 2;
      StationHalved(m, half);
      assert Station(m, 2 * half) < |s|;
      if n % 2 == 1 {
        assert n == 2 * m + 1 && Station(m + 1, 2 * half) < |s|;
      }
    }
  }

  lemma StepHalfWay(s: seq<real>, t: seq<real>, half: nat, c: seq<real>, next: seq<real>, k: nat)
    requires half >= 1 && HalfWay(s, half, c, next, k) && 2 * k + 1 < |next|
    requires Station(2 * k + 1, half) < |s| && t == s[Station(2 * k + 1, half) := next[2 * k + 1]]
    ensures HalfWay(t, half, c, next, k + 1)
  {
    hide Station;
    forall n: nat | n < |next|
      ensures Station(n, half) < |t|
      ensures n % 2 == 0 ==> t[Station(n, half)] == c[n / 2]
      ensures n % 2 == 1 && n < 2 * (k + 1) ==> t[Station(n, half)] == next[n]
    {
      StationsDiffer(n, 2 * k + 1, half);
    }
  }

  lemma EndHalfWay(s: seq<real>, half: nat, c: seq<real>, next: seq<real>, k: nat)
    requires HalfWay(s, half, c, next, k) && |next| <= 2 * k + 1
    requires forall n: nat :: n < |next| && n % 2 == 0 ==> next[n] == c[n / 2]
    ensures Holds(s, half, next)
  {
    hide Station;
    forall n: nat | n < |next|
      ensures Station(n, half) < |s| && s[Station(n, half)] == next[n]
    {
      assert Station(n, half) < |s|;
    }
  }

  // ---- what the curve is --------------------------------------------------------------

  lemma BaseCurve(decay: real, rng: nat -> real)
    ensures Curve(0, decay, rng) == [0.0, 0.0]
  {
  }

  /** Both ends stay on their nodes. */
  lemma {:induction false} EndsPinned(g: nat, decay: real, rng: nat -> real)
    ensures Curve(g, decay, rng)[0] == 0.0 && Curve(g, decay, rng)[Pow2(g)] == 0.0
  {
    BaseCurve(decay, rng);
    hide Curve, Power, Displaced;
    if g > 0 {
      EndsPinned(g - 1, decay, rng);
      NextStations(g - 1, decay, rng, 0);
      NextStations(g - 1, decay, rng, Pow2(g - 1));
    }
  }

  /** `1 + decay + ... + decay^(n-1)`. */
  function Reach(decay: real, n: nat): real {
    if n == 0 then 0.0 else Reach(decay, n - 1) + Power(decay, n - 1)
  }

  lemma DisplacedBound(a: real, b: real, r: real, amp: real, bound: real)
    requires -bound <= a <= bound && -bound <= b <= bound && 0.0 <= r < 1.0 && amp >= 0.0
    ensures -(bound + amp) <= Displaced(a, b, r, amp) <= bound + amp
  {
    var f := r * 2.0 - 1.0;
    ProductNonNegative(f + 1.0, amp);
    ProductNonNegative(1.0 - f, amp);
  }

  lemma ProductNonNegative(x: real, y: real)
    requires x >= 0.0 && y >= 0.0
    ensures x * y >= 0.0
  {
  }

  /** For a non-negative decay and a random source in [0, 1), no offset leaves the sum of
      the amplitudes used so far. */
  lemma {:induction false} OffsetsBounded(g: nat, decay: real, rng: nat -> real)
    requires decay >= 0.0 && forall k :: 0.0 <= rng(k) < 1.0
    ensures Reach(decay, g) >= 0.0
    ensures forall m :: 0 <= m <= Pow2(g) ==> -Reach(decay, g) <= Curve(g, decay, rng)[m] <= Reach(decay, g)
  {
    BaseCurve(decay, rng);
    hide Curve, Power, Displaced;
    if g > 0 {
      var amp := Power(decay, g - 1);
      PowerNonNegative(decay, g - 1);
      OffsetsBounded(g - 1, decay, rng);
      forall m | 0 <= m <= Pow2(g)
        ensures -Reach(decay, g) <= Curve(g, decay, rng)[m] <= Reach(decay, g)
      {
        NextStations(g - 1, decay, rng, m / 2);
        if m % 2 == 0 {
          assert m == 2 * (m / 2);
        } else {
          assert m == 2 * (m / 2) + 1;
          DisplacedBound(Curve(g - 1, decay, rng)[m / 2], Curve(g - 1, decay, rng)[m / 2 + 1],
                         rng(Pow2(g - 1) - 1 + m / 2), amp, Reach(decay, g - 1));
        }
      }
    }
  }
}
