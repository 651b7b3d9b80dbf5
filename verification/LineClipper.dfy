/**
 Clipping an edge of the wireframe in homogeneous coordinates, and projecting what is left
 (InfoPanel/moving_vector_portrait.py, `clip_and_project`), over exact reals.
 */
module LineClipper {
  import opened PyText

  datatype Vec4 = Vec4(x: real, y: real, z: real, w: real)

  datatype Plane = Plane(px: real, py: real, pz: real, q: real)

  const PLANES := [
    Plane(1.0, 0.0, 0.0, 1.0), Plane(-1.0, 0.0, 0.0, 1.0),
    Plane(0.0, 1.0, 0.0, 1.0), Plane(0.0, -1.0, 0.0, 1.0),
    Plane(0.0, 0.0, 1.0, 1.0), Plane(0.0, 0.0, -1.0, 1.0)]

  const TINY := 0.00000001

  /** How far a point is outside a plane. */
  function Excess(p: Plane, v: Vec4): real {
    p.px * v.x + p.py * v.y + p.pz * v.z + p.q * (-v.w)
  }

  /** The point of the segment at parameter `t`. */
  function At(a: Vec4, b: Vec4, t: real): Vec4 {
    Vec4(a.x + (b.x - a.x) * t, a.y + (b.y - a.y) * t, a.z + (b.z - a.z) * t, a.w + (b.w - a.w) * t)
  }

  /** The clip cube. */
  predicate Inside(v: Vec4) {
    -v.w <= v.z <= v.w && -v.w <= v.x <= v.w && -v.w <= v.y <= v.w
  }

  function Abs(r: real): real {
    if r < 0.0 then -r else r
  }

  function Larger(r: real, s: real): real {
    if s > r then s else r
  }

  function Smaller(r: real, s: real): real {
    if s < r then s else r
  }

  function CutBelow(pa: real, pb: real, t0: real): real
    requires (pa > 0.0) != (pb > 0.0)
  {
    if pa > 0.0 then Larger(t0, pa / (pa - pb)) else t0
  }

  function CutAbove(pa: real, pb: real, t1: real): real
    requires (pa > 0.0) != (pb > 0.0)
  {
    if pa > 0.0 then t1 else Smaller(t1, pa / (pa - pb))
  }

  /** The parameters that the planes from the `k`-th on leave of `t0..t1`. */
  function ClipFrom(a: Vec4, b: Vec4, k: nat, t0: real, t1: real): Option<(real, real)>
    requires k <= |PLANES|
    decreases |PLANES| - k
  {
    if k == |PLANES| then Some((t0, t1))
    else
      var pa, pb := Excess(PLANES[k], a), Excess(PLANES[k], b);
      if pa <= 0.0 && pb <= 0.0 then ClipFrom(a, b, k + 1, t0, t1)
      else if pa > 0.0 && pb > 0.0 then None
      else if Abs(pa - pb) < TINY then None
      else
        var s0, s1 := CutBelow(pa, pb, t0), CutAbove(pa, pb, t1);
        if s0 > s1 then None else ClipFrom(a, b, k + 1, s0, s1)
  }

  function Clip(a: Vec4, b: Vec4): Option<(real, real)> {
    ClipFrom(a, b, 0, 0.0, 1.0)
  }

  // ---------------------------------------------------------------------------
  // Projection
  // ---------------------------------------------------------------------------

  /** `int(x)` */
  function Truncate(x: real): int {
    if x < 0.0 then -(-x).Floor else x.Floor
  }

  /** `w * 0.5` */
  function Half(size: nat): real {
    size as real * 0.5
  }

  function Times(x: real, y: real): real {
    x * y
  }

  function Stretch(n: real, half: real): real {
    Times(n, half) + half
  }

  /** From -1..1 to the pixels of a side. */
  function Pixel(n: real, size: nat): int {
    Truncate(Stretch(n, Half(size)))
  }

  /** The divisor of the projection. */
  function Depth(v: Vec4): real {
    Larger(0.000001, v.w)
  }

  function ToScreen(v: Vec4, width: nat, height: nat): (int, int) {
    (Pixel(v.x / Depth(v), width), Pixel(-(v.y / Depth(v)), height))
  }

  method ClipAndProject(a: Vec4, b: Vec4, width: nat, height: nat) returns (r: Option<((int, int), (int, int))>)
    ensures match Clip(a, b)
            case None => r == None
            case Some((t0, t1)) => r == Some((ToScreen(At(a, b, t0), width, height), ToScreen(At(a, b, t1), width, height)))
  {
    var t0, t1 := 0.0, 1.0;
    for k := 0 to |PLANES|
      invariant Clip(a, b) == ClipFrom(a, b, k, t0, t1)
    {
      var pa, pb := Excess(PLANES[k], a), Excess(PLANES[k], b);
      if pa <= 0.0 && pb <= 0.0 {
        continue;
      }
      if pa > 0.0 && pb > 0.0 {
        return None;
      }
      if Abs(pa - pb) < TINY {
        return None;
      }
      var t := pa / (pa - pb);
      if pa > 0.0 {
        t0 := Larger(t0, t);
      } else {
        t1 := Smaller(t1, t);
      }
      if t0 > t1 {
        return None;
      }
    }
    return Some((ToScreen(At(a, b, t0), width, height), ToScreen(At(a, b, t1), width, height)));
  }

  // ---------------------------------------------------------------------------
  // One plane
  // ---------------------------------------------------------------------------

  /** The edge crosses the plane, but so flatly that the code gives up. */
  predicate FlatCrossing(p: Plane, a: Vec4, b: Vec4) {
    var pa, pb := Excess(p, a), Excess(p, b);
    !(pa <= 0.0 && pb <= 0.0) && !(pa > 0.0 && pb > 0.0) && Abs(pa - pb) < TINY
  }

  function Along(pa: real, pb: real, t: real): real {
    pa + (pb - pa) * t
  }

  lemma ExcessAlong(p: Plane, a: Vec4, b: Vec4, t: real)
    ensures Excess(p, At(a, b, t)) == Along(Excess(p, a), Excess(p, b), t)
  {
  }

  lemma Between(pa: real, pb: real, t: real)
    requires 0.0 <= t <= 1.0
    ensures pa <= 0.0 && pb <= 0.0 ==> Along(pa, pb, t) <= 0.0
    ensures pa > 0.0 && pb > 0.0 ==> Along(pa, pb, t) > 0.0
  {
    assert pa + (pb - pa) * t == pa * (1.0 - t) + pb * t;
    if pa <= 0.0 && pb <= 0.0 {
      assert pa * (1.0 - t) <= 0.0 && pb * t <= 0.0;
    }
    if pa > 0.0 && pb > 0.0 {
      assert pa * (1.0 - t) >= 0.0 && pb * t >= 0.0;
      assert t > 0.0 ==> pb * t > 0.0;
    }
  }

  lemma Scaled(c: real, s: real, t: real)
    requires c > 0.0
    ensures s <= t <==> c * s <= c * t
  {
    assert c * (t - s) == c * t - c * s;
    assert t - s >= 0.0 ==> c * (t - s) >= 0.0;
    assert t - s < 0.0 ==> c * (t - s) < 0.0;
  }

  /** Where the edge crosses, one side of the crossing is inside and the other is not. */
  lemma Crossing(pa: real, pb: real, t: real)
    requires (pa > 0.0) != (pb > 0.0)
    ensures pa > 0.0 ==> (Along(pa, pb, t) <= 0.0 <==> pa / (pa - pb) <= t)
    ensures pb > 0.0 ==> (Along(pa, pb, t) <= 0.0 <==> t <= pa / (pa - pb))
  {
    var q := pa / (pa - pb);
    assert q * (pa - pb) == pa;
    if pa > 0.0 {
      Scaled(pa - pb, q, t);
      assert Along(pa, pb, t) == (pa - pb) * q - (pa - pb) * t;
    } else {
      Scaled(pb - pa, t, q);
      assert (pb - pa) * q == -(q * (pa - pb));
      assert Along(pa, pb, t) == (pb - pa) * t - (pb - pa) * q;
    }
  }

  // ---------------------------------------------------------------------------
  // All six
  // ---------------------------------------------------------------------------

  predicate WithinFrom(v: Vec4, k: nat)
    requires k <= |PLANES|
    decreases |PLANES| - k
  {
    k == |PLANES| || (Excess(PLANES[k], v) <= 0.0 && WithinFrom(v, k + 1))
  }

  /** The six planes, written out. */
  lemma PlaneExcess(v: Vec4)
    ensures Excess(PLANES[0], v) == v.x - v.w && Excess(PLANES[1], v) == -v.x - v.w
    ensures Excess(PLANES[2], v) == v.y - v.w && Excess(PLANES[3], v) == -v.y - v.w
    ensures Excess(PLANES[4], v) == v.z - v.w && Excess(PLANES[5], v) == -v.z - v.w
  {
  }

  lemma QuarterCuts()
    ensures CutBelow(1.0, -3.0, 0.0) == CutBelow(1.0, -3.0, 0.25) == 0.25
    ensures CutAbove(-3.0, 1.0, 1.0) == CutAbove(-3.0, 1.0, 0.75) == 0.75
    ensures forall t :: CutBelow(-3.0, 1.0, t) == t && CutAbove(1.0, -3.0, t) == t
  {
  }

  lemma InsideIsWithin(v: Vec4)
    ensures Inside(v) <==> WithinFrom(v, 0)
  {
    hide Excess;
    PlaneExcess(v);
    assert WithinFrom(v, 6);
    assert WithinFrom(v, 4) <==> Excess(PLANES[4], v) <= 0.0 && WithinFrom(v, 5);
    assert WithinFrom(v, 2) <==> Excess(PLANES[2], v) <= 0.0 && WithinFrom(v, 3);
    assert WithinFrom(v, 0) <==> Excess(PLANES[0], v) <= 0.0 && WithinFrom(v, 1);
  }

  predicate FlatFrom(a: Vec4, b: Vec4, k: nat)
    requires k <= |PLANES|
    decreases |PLANES| - k
  {
    k < |PLANES| && (FlatCrossing(PLANES[k], a, b) || FlatFrom(a, b, k + 1))
  }

  /** Moving one end to the crossing keeps exactly the inside part. */
  lemma CutIsExact(pa: real, pb: real, t0: real, t1: real, t: real)
    requires (pa > 0.0) != (pb > 0.0) && 0.0 <= t0 <= t1 <= 1.0
    ensures var s0, s1 := CutBelow(pa, pb, t0), CutAbove(pa, pb, t1);
            && t0 <= s0 <= 1.0 && 0.0 <= s1 <= t1
            && (s0 <= t <= s1 <==> t0 <= t <= t1 && Along(pa, pb, t) <= 0.0)
  {
    CutStaysInRange(pa, pb);
    Crossing(pa, pb, t);
  }

  /** The remaining planes leave exactly the parameters of `t0..t1` that are inside all of them. */
  lemma {:induction false} ClipFromIsExact(a: Vec4, b: Vec4, k: nat, t0: real, t1: real, t: real)
    requires k <= |PLANES| && 0.0 <= t0 <= t1 <= 1.0
    ensures ClipFrom(a, b, k, t0, t1).Some? ==>
              var (s0, s1) := ClipFrom(a, b, k, t0, t1).value;
              && t0 <= s0 <= s1 <= t1 && !FlatFrom(a, b, k)
              && (t0 <= t <= t1 ==> (WithinFrom(At(a, b, t), k) <==> s0 <= t <= s1))
    ensures ClipFrom(a, b, k, t0, t1).None? ==> FlatFrom(a, b, k) || !(t0 <= t <= t1 && WithinFrom(At(a, b, t), k))
    decreases |PLANES| - k
  {
    if k < |PLANES| {
      hide Excess;
      hide At;
      hide Along;
      hide CutBelow;
      hide CutAbove;
      var pa, pb := Excess(PLANES[k], a), Excess(PLANES[k], b);
      ExcessAlong(PLANES[k], a, b, t);
      if pa <= 0.0 && pb <= 0.0 {
        if 0.0 <= t <= 1.0 {
          Between(pa, pb, t);
        }
        ClipFromIsExact(a, b, k + 1, t0, t1, t);
      } else if pa > 0.0 && pb > 0.0 {
        if 0.0 <= t <= 1.0 {
          Between(pa, pb, t);
        }
      } else if Abs(pa - pb) >= TINY {
        CutIsExact(pa, pb, t0, t1, t);
        var s0, s1 := CutBelow(pa, pb, t0), CutAbove(pa, pb, t1);
        if s0 <= s1 {
          ClipFromIsExact(a, b, k + 1, s0, s1, t);
        }
      }
    }
  }

  lemma CutStaysInRange(pa: real, pb: real)
    requires (pa > 0.0) != (pb > 0.0)
    ensures 0.0 <= pa / (pa - pb) <= 1.0
  {
    Crossing(pa, pb, 0.0);
    Crossing(pa, pb, 1.0);
    assert pa + (pb - pa) * 1.0 == pb;
  }

  /** A segment that is returned is exactly the visible part of the edge. */
  lemma ClipIsExact(a: Vec4, b: Vec4, t: real)
    requires Clip(a, b).Some? && 0.0 <= t <= 1.0
    ensures var (t0, t1) := Clip(a, b).value;
            0.0 <= t0 <= t1 <= 1.0 && (Inside(At(a, b, t)) <==> t0 <= t <= t1)
  {
    ClipFromIsExact(a, b, 0, 0.0, 1.0, t);
    InsideIsWithin(At(a, b, t));
  }

  ghost predicate Visible(a: Vec4, b: Vec4) {
    exists t :: 0.0 <= t <= 1.0 && Inside(At(a, b, t))
  }

  predicate CrossesFlatly(a: Vec4, b: Vec4) {
    FlatFrom(a, b, 0)
  }

  /** Nothing is drawn exactly when nothing is visible or some plane is crossed too flatly. */
  lemma NothingDrawnIff(a: Vec4, b: Vec4)
    ensures Clip(a, b).None? <==> !Visible(a, b) || CrossesFlatly(a, b)
  {
    if Clip(a, b).Some? {
      var (t0, t1) := Clip(a, b).value;
      ClipIsExact(a, b, 0.0);
      ClipIsExact(a, b, t0);
      assert Inside(At(a, b, t0));
      ClipFromIsExact(a, b, 0, 0.0, 1.0, t0);
    } else if !CrossesFlatly(a, b) {
      forall t | 0.0 <= t <= 1.0 ensures !Inside(At(a, b, t)) {
        ClipFromIsExact(a, b, 0, 0.0, 1.0, t);
        InsideIsWithin(At(a, b, t));
      }
    }
  }

  /**
   A visible edge can be lost: all of it but one end is inside, yet it crosses a plane at too small an angle.  The
   coordinates, 2^-7 + 2^-30, 2^-7, 7/64 - 2^-27 and 7/64, are exact in 32-bit floats.
   */
  lemma VisibleEdgeCanBeLost()
    ensures var tiny := 1.0 / 1073741824.0;
            var a, b := Vec4(0.0078125 + tiny, 0.0, 0.0, 0.0078125), Vec4(0.109375 - 8.0 * tiny, 0.0, 0.0, 0.109375);
            Inside(b) && Visible(a, b) && Clip(a, b) == None
  {
    var tiny := 1.0 / 1073741824.0;
    var a, b := Vec4(0.0078125 + tiny, 0.0, 0.0, 0.0078125), Vec4(0.109375 - 8.0 * tiny, 0.0, 0.0, 0.109375);
    assert At(a, b, 1.0) == b;
    assert Excess(PLANES[0], a) == tiny && Excess(PLANES[0], b) == -8.0 * tiny;
  }

  // ---------------------------------------------------------------------------
  // Consequences
  // ---------------------------------------------------------------------------

  lemma TimesAtEnds(half: real)
    ensures Times(1.0, half) == half && Times(-1.0, half) == -half
  {
  }

  lemma TimesGrows(n: real, m: real, half: real)
    requires half > 0.0
    ensures Times(n, half) <= Times(m, half) <==> n <= m
  {
    Scaled(half, n, m);
    assert half * n == Times(n, half);
    assert half * m == Times(m, half);
  }

  /** The products of the projection. */
  lemma HalfScaled(n: real, half: real)
    requires -1.0 <= n <= 1.0 && half > 0.0
    ensures 0.0 <= Stretch(n, half) <= half + half
    ensures Stretch(n, half) < half + half <==> n < 1.0
  {
    hide Times;
    TimesAtEnds(half);
    TimesGrows(-1.0, n, half);
    TimesGrows(n, 1.0, half);
    TimesGrows(1.0, n, half);
  }

  lemma FloorInRange(x: real, size: nat)
    requires 0.0 <= x <= size as real
    ensures 0 <= Truncate(x) <= size && (Truncate(x) < size <==> x < size as real)
  {
  }

  lemma PixelInRange(n: real, size: nat)
    requires -1.0 <= n <= 1.0
    ensures 0 <= Pixel(n, size) <= size
    ensures size > 0 ==> (Pixel(n, size) < size <==> n < 1.0)
  {
    hide Half;
    hide Stretch;
    hide Truncate;
    HalfIsHalf(size);
    if size > 0 {
      HalfScaled(n, Half(size));
      FloorInRange(Stretch(n, Half(size)), size);
    } else {
      EmptySide(n);
    }
  }

  lemma EmptySide(n: real)
    ensures Pixel(n, 0) == 0
  {
    assert Times(n, 0.0) == 0.0;
  }

  lemma HalfIsHalf(size: nat)
    ensures Half(size) >= 0.0 && Half(size) + Half(size) == size as real && (size > 0 ==> Half(size) > 0.0)
  {
  }

  lemma Normalised(x: real, vw: real)
    requires vw > 0.0 && -vw <= x <= vw
    ensures -1.0 <= x / vw <= 1.0 && (x / vw < 1.0 <==> x < vw) && (-(x / vw) < 1.0 <==> -x < vw)
  {
    var n := x / vw;
    assert n * vw == x;
    Scaled(vw, n, 1.0);
    Scaled(vw, 1.0, n);
    Scaled(vw, -1.0, n);
    Scaled(vw, n, -1.0);
  }

  /**
   Any point of the clip cube is drawn in the panel or on its far edge, one pixel outside; on the edge exactly when it
   lies on the right or the lower plane of the cube.
   */
  predicate OnScreen(v: Vec4, width: nat, height: nat) {
    var (sx, sy) := ToScreen(v, width, height);
    && 0 <= sx <= width && 0 <= sy <= height
    && (width > 0 ==> (sx < width <==> v.x < Depth(v)))
    && (height > 0 ==> (sy < height <==> -v.y < Depth(v)))
  }

  lemma InsideIsOnScreen(v: Vec4, width: nat, height: nat)
    requires Inside(v)
    ensures OnScreen(v, width, height)
  {
    hide Pixel;
    Normalised(v.x, Depth(v));
    Normalised(v.y, Depth(v));
    PixelInRange(v.x / Depth(v), width);
    PixelInRange(-(v.y / Depth(v)), height);
  }

  /** Both ends that are drawn are on screen in this sense. */
  lemma PixelsLieInPanel(a: Vec4, b: Vec4, width: nat, height: nat)
    ensures match Clip(a, b)
            case None => true
            case Some((t0, t1)) => OnScreen(At(a, b, t0), width, height) && OnScreen(At(a, b, t1), width, height)
  {
    hide Clip;
    hide At;
    hide OnScreen;
    match Clip(a, b)
    case None =>
    case Some((t0, t1)) =>
      ClipIsExact(a, b, 0.0);
      ClipIsExact(a, b, t0);
      ClipIsExact(a, b, t1);
      InsideIsOnScreen(At(a, b, t0), width, height);
      InsideIsOnScreen(At(a, b, t1), width, height);
  }

  /** The parameter runs along the edge from its first end to its second, in equal steps. */
  lemma AlongTheEdge(a: Vec4, b: Vec4, s: real, t: real)
    ensures At(a, b, 0.0) == a && At(a, b, 1.0) == b
    ensures var p, q, middle := At(a, b, s), At(a, b, t), At(a, b, (s + t) / 2.0);
            && middle.x == (p.x + q.x) / 2.0 && middle.y == (p.y + q.y) / 2.0
            && middle.z == (p.z + q.z) / 2.0 && middle.w == (p.w + q.w) / 2.0
  {
  }

  /** In between the pixels follow the position in equal steps. */
  lemma PixelIsScaled(n: real, size: nat)
    requires -1.0 <= n <= 1.0
    ensures var p := Pixel(n, size);
            p as real <= (n + 1.0) * (size as real / 2.0) < p as real + 1.0
  {
    var half := Half(size);
    assert half == size as real / 2.0;
    assert Stretch(n, half) == (n + 1.0) * half;
    NotNegative(n + 1.0, half);
  }

  lemma NotNegative(x: real, y: real)
    requires x >= 0.0 && y >= 0.0
    ensures x * y >= 0.0
  {
  }

  lemma EndPixels(size: nat)
    ensures Pixel(-1.0, size) == 0 && Pixel(1.0, size) == size
  {
  }

  /** The panel is not mirrored: the upper left corner of the clip cube is drawn at the origin, the lower right one opposite. */
  lemma CornersOfThePanel(w: real, z: real, width: nat, height: nat)
    requires w >= 0.000001
    ensures ToScreen(Vec4(-w, w, z, w), width, height) == (0, 0)
    ensures ToScreen(Vec4(w, -w, z, w), width, height) == (width, height)
  {
    assert -w / w == -1.0 && w / w == 1.0;
    EndPixels(width);
    EndPixels(height);
    hide Pixel;
  }

  /** An edge that leaves the cube at two corners is drawn across the panel, and its lower end one pixel outside of it. */
  lemma DiagonalEndsOutside(width: nat, height: nat)
    ensures var a, b := Vec4(-2.0, 2.0, 0.0, 1.0), Vec4(2.0, -2.0, 0.0, 1.0);
            && Clip(a, b) == Some((0.25, 0.75))
            && ToScreen(At(a, b, 0.25), width, height) == (0, 0)
            && ToScreen(At(a, b, 0.75), width, height) == (width, height)
  {
    var a, b := Vec4(-2.0, 2.0, 0.0, 1.0), Vec4(2.0, -2.0, 0.0, 1.0);
    hide ClipFrom;
    hide ToScreen;
    hide Excess;
    hide CutBelow;
    hide CutAbove;
    DiagonalExcess();
    QuarterCuts();
    CutStep(a, b, 0, 0.0, 1.0, 0.0, 0.75);
    CutStep(a, b, 1, 0.0, 0.75, 0.25, 0.75);
    CutStep(a, b, 2, 0.25, 0.75, 0.25, 0.75);
    CutStep(a, b, 3, 0.25, 0.75, 0.25, 0.75);
    CutStep(a, b, 4, 0.25, 0.75, 0.25, 0.75);
    CutStep(a, b, 5, 0.25, 0.75, 0.25, 0.75);
    CutEnd(a, b, 0.25, 0.75);
    assert At(a, b, 0.25) == Vec4(-1.0, 1.0, 0.0, 1.0) && At(a, b, 0.75) == Vec4(1.0, -1.0, 0.0, 1.0);
    CornersOfThePanel(1.0, 0.0, width, height);
  }

  lemma DiagonalExcess()
    ensures var a, b := Vec4(-2.0, 2.0, 0.0, 1.0), Vec4(2.0, -2.0, 0.0, 1.0);
            && Excess(PLANES[0], a) == Excess(PLANES[1], b) == Excess(PLANES[2], b) == Excess(PLANES[3], a) == -3.0
            && Excess(PLANES[0], b) == Excess(PLANES[1], a) == Excess(PLANES[2], a) == Excess(PLANES[3], b) == 1.0
            && Excess(PLANES[4], a) == Excess(PLANES[4], b) == Excess(PLANES[5], a) == Excess(PLANES[5], b) == -1.0
  {
    hide Excess;
    PlaneExcess(Vec4(-2.0, 2.0, 0.0, 1.0));
    PlaneExcess(Vec4(2.0, -2.0, 0.0, 1.0));
  }

  lemma CutStep(a: Vec4, b: Vec4, k: nat, t0: real, t1: real, s0: real, s1: real)
    requires k < |PLANES| && s0 <= s1
    requires var pa, pb := Excess(PLANES[k], a), Excess(PLANES[k], b);
             if pa <= 0.0 && pb <= 0.0 then s0 == t0 && s1 == t1
             else (pa > 0.0) != (pb > 0.0) && Abs(pa - pb) >= TINY && s0 == CutBelow(pa, pb, t0) && s1 == CutAbove(pa, pb, t1)
    ensures ClipFrom(a, b, k, t0, t1) == ClipFrom(a, b, k + 1, s0, s1)
  {
  }

  lemma CutEnd(a: Vec4, b: Vec4, t0: real, t1: real)
    ensures ClipFrom(a, b, |PLANES|, t0, t1) == Some((t0, t1))
  {
  }

  /** Clipping what is left of a clipped edge takes nothing more away. */
  lemma ClippingTwiceIsOnce(a: Vec4, b: Vec4)
    requires Clip(a, b).Some?
    ensures var (t0, t1) := Clip(a, b).value;
            Clip(At(a, b, t0), At(a, b, t1)) == Some((0.0, 1.0))
  {
    ClipIsExact(a, b, 0.0);
    var (t0, t1) := Clip(a, b).value;
    ClipIsExact(a, b, t0);
    ClipIsExact(a, b, t1);
    var c, d := At(a, b, t0), At(a, b, t1);
    InsideIsWithin(c);
    InsideIsWithin(d);
    InsideEndsKeepAll(c, d, 0);
  }

  lemma {:induction false} InsideEndsKeepAll(c: Vec4, d: Vec4, k: nat)
    requires k <= |PLANES| && WithinFrom(c, k) && WithinFrom(d, k)
    ensures ClipFrom(c, d, k, 0.0, 1.0) == Some((0.0, 1.0))
    decreases |PLANES| - k
  {
    if k < |PLANES| {
      InsideEndsKeepAll(c, d, k + 1);
    }
  }

  lemma AtReversed(a: Vec4, b: Vec4, t: real)
    ensures At(b, a, t) == At(a, b, 1.0 - t)
  {
  }

  lemma {:induction false} FlatReversed(a: Vec4, b: Vec4, k: nat)
    requires k <= |PLANES|
    ensures FlatFrom(a, b, k) <==> FlatFrom(b, a, k)
    decreases |PLANES| - k
  {
    if k < |PLANES| {
      FlatReversed(a, b, k + 1);
    }
  }

  lemma VisibleReversed(a: Vec4, b: Vec4)
    requires Visible(a, b)
    ensures Visible(b, a)
  {
    var t :| 0.0 <= t <= 1.0 && Inside(At(a, b, t));
    AtReversed(a, b, 1.0 - t);
    assert Inside(At(b, a, 1.0 - t));
  }

  lemma SameParameter(a: Vec4, b: Vec4, t: real)
    requires Clip(a, b).Some? && Clip(b, a).Some? && 0.0 <= t <= 1.0
    ensures Clip(a, b).value.0 <= t <= Clip(a, b).value.1 <==> Clip(b, a).value.0 <= 1.0 - t <= Clip(b, a).value.1
  {
    hide Clip;
    hide At;
    ClipIsExact(a, b, t);
    ClipIsExact(b, a, 1.0 - t);
    AtReversed(a, b, 1.0 - t);
    assert 1.0 - (1.0 - t) == t;
  }

  lemma SameEnds(a: Vec4, b: Vec4)
    requires Clip(a, b).Some? && Clip(b, a).Some?
    ensures Clip(b, a).value == (1.0 - Clip(a, b).value.1, 1.0 - Clip(a, b).value.0)
  {
    hide Clip;
    ClipIsExact(a, b, 0.0);
    ClipIsExact(b, a, 0.0);
    var (t0, t1) := Clip(a, b).value;
    var (s0, s1) := Clip(b, a).value;
    SameParameter(a, b, t0);
    SameParameter(a, b, t1);
    SameParameter(a, b, 1.0 - s0);
    SameParameter(a, b, 1.0 - s1);
  }

  /** It does not matter from which end an edge is listed in the mesh. */
  lemma DirectionDoesNotMatter(a: Vec4, b: Vec4)
    ensures Clip(a, b).None? <==> Clip(b, a).None?
    ensures Clip(a, b).Some? ==> Clip(b, a) == Some((1.0 - Clip(a, b).value.1, 1.0 - Clip(a, b).value.0))
  {
    hide Clip;
    NothingDrawnIff(a, b);
    NothingDrawnIff(b, a);
    FlatReversed(a, b, 0);
    if Visible(a, b) {
      VisibleReversed(a, b);
    }
    if Visible(b, a) {
      VisibleReversed(b, a);
    }
    if Clip(a, b).Some? {
      SameEnds(a, b);
    }
  }
}
