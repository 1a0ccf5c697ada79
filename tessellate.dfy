/** The polyline tessellator of vector_display.c as pure definitions: the
    line records that end_draw builds and connects, and the vertices that
    draw_lines and draw_simple_fan append for them. Doubles and floats are
    modelled as reals; the C library functions the tessellator calls
    (atan2, sin, cos, sqrt, round) are the fields of a `Libm` value. */
module Tessellate {

  /** The C math library functions used by the tessellator and the shapes. */
  datatype Libm = Libm(atan2: (real, real) -> real, sin: real -> real, cos: real -> real,
                       sqrt: real -> real, round: real -> int)

  /** M_PI and FLT_EPSILON (2^-23). */
  const Pi: real := 3.141592653589793
  const FltEpsilon: real := 0.00000011920928955078125
  const TextureSize: real := 128.0
  const HalfTextureSize: real := 64.0

  /** The property of the real cosine that the joint shortening relies on:
      it is positive on [-1, 1], which holds every half angle it divides by. */
  ghost predicate CosPositive(lm: Libm)
  {
    forall x: real :: -1.0 <= x <= 1.0 ==> lm.cos(x) > 0.0
  }

  datatype Point = Point(x: real, y: real)
  datatype Color = Color(r: real, g: real, b: real, a: real)
  /** point_t: a position, a colour and texture coordinates. */
  datatype Vertex = Vertex(x: real, y: real, z: real, r: real, g: real, b: real, a: real,
                           u: real, v: real)

  /** The vertex append_texpoint stores: depth 10000, the current colour, and
      the texture coordinates scaled to [0, 1] with v flipped. */
  function TexPoint(x: real, y: real, u: real, v: real, c: Color): Vertex
  {
    Vertex(x, y, 10000.0, c.r, c.g, c.b, c.a, u / TextureSize, 1.0 - v / TextureSize)
  }

  // ---------------------------------------------------------------------
  // normalizef

  function Reduced(a: real): real
    decreases if a > 2.0 * Pi + FltEpsilon then a.Floor else 0
  {
    if a > 2.0 * Pi + FltEpsilon then Reduced(a - 2.0 * Pi) else a
  }

  function Raised(a: real): real
    decreases if a < 0.0 - FltEpsilon then (-a).Floor + 1 else 0
  {
    if a < 0.0 - FltEpsilon then Raised(a + 2.0 * Pi) else a
  }

  /** The angle normalizef returns: first whole turns are taken off while the
      angle is above 2 pi + epsilon, then added while it is below -epsilon. */
  function Normalized(a: real): real
  {
    Raised(Reduced(a))
  }

  /** The number of whole turns normalizef adds (negative when it takes
      turns off). */
  function Turns(a: real): int
  {
    RaisedTurns(Reduced(a)) - ReducedTurns(a)
  }

  function ReducedTurns(a: real): nat
    decreases if a > 2.0 * Pi + FltEpsilon then a.Floor else 0
  {
    if a > 2.0 * Pi + FltEpsilon then 1 + ReducedTurns(a - 2.0 * Pi) else 0
  }

  function RaisedTurns(a: real): nat
    decreases if a < 0.0 - FltEpsilon then (-a).Floor + 1 else 0
  {
    if a < 0.0 - FltEpsilon then 1 + RaisedTurns(a + 2.0 * Pi) else 0
  }

  lemma {:induction false} ReducedProperties(a: real)
    ensures Reduced(a) <= 2.0 * Pi + FltEpsilon
    ensures Reduced(a) == a - ReducedTurns(a) as real * (2.0 * Pi)
    ensures a >= 0.0 - FltEpsilon ==> Reduced(a) >= 0.0 - FltEpsilon
    decreases if a > 2.0 * Pi + FltEpsilon then a.Floor else 0
  {
    if a > 2.0 * Pi + FltEpsilon {
      ReducedProperties(a - 2.0 * Pi);
    }
  }

  lemma {:induction false} RaisedProperties(a: real)
    requires a <= 2.0 * Pi + FltEpsilon
    ensures 0.0 - FltEpsilon <= Raised(a) <= 2.0 * Pi + FltEpsilon
    ensures Raised(a) == a + RaisedTurns(a) as real * (2.0 * Pi)
    decreases if a < 0.0 - FltEpsilon then (-a).Floor + 1 else 0
  {
    if a < 0.0 - FltEpsilon {
      RaisedProperties(a + 2.0 * Pi);
    }
  }

  /** normalizef lands in [-epsilon, 2 pi + epsilon] and only adds or removes
      whole turns. */
  lemma NormalizedProperties(a: real)
    ensures 0.0 - FltEpsilon <= Normalized(a) <= 2.0 * Pi + FltEpsilon
    ensures Normalized(a) == a + Turns(a) as real * (2.0 * Pi)
  {
    ReducedProperties(a);
    RaisedProperties(Reduced(a));
  }

  /** An angle already in [-epsilon, 2 pi + epsilon] is left unchanged, so
      normalizing twice is normalizing once. */
  lemma NormalizedIdempotent(a: real)
    ensures 0.0 - FltEpsilon <= a <= 2.0 * Pi + FltEpsilon ==> Normalized(a) == a
    ensures Normalized(Normalized(a)) == Normalized(a)
  {
    NormalizedProperties(a);
  }

  // ---------------------------------------------------------------------
  // line_t and the two loops of end_draw

  /** line_t, with each (x, y) pair of its fields as one Point: the nominal
      end points p0 and p1, the angle and its trig, the left and right points
      at both ends (l0, r0, l1, r1), the connection flags, the normalised
      angle differences to the neighbours, and the corners of the two caps
      (lt0, rt0, lt1, rt1). The fields end_draw leaves unwritten (the flags
      after the first loop, the cap corners of a connected end) are 0 here;
      nothing reads them before they are written. */
  datatype Line = Line(
    p0: Point, p1: Point,
    a: real, sinA: real, cosA: real,
    l0: Point, l1: Point, r0: Point, r1: Point,
    isFirst: bool, isLast: bool,
    hasNext: bool, hasPrev: bool,
    prevAd: real, nextAd: real,
    lt0: Point, lt1: Point, rt0: Point, rt1: Point,
    len: real)

  const Origin := Point(0.0, 0.0)

  /** p + k * (dx, dy) */
  function Offset(p: Point, k: real, dx: real, dy: real): Point
  {
    Point(p.x + k * dx, p.y + k * dy)
  }

  /** The record the first loop of end_draw builds for the segment p0-p1:
      its angle, the trig of the angle, its length, and left and right points
      offset by the thickness t across the segment at both ends. */
  function InitialLine(p0: Point, p1: Point, t: real, lm: Libm, isFirst: bool, isLast: bool): Line
  {
    var a := lm.atan2(p1.y - p0.y, p1.x - p0.x);
    var s := lm.sin(a);
    var c := lm.cos(a);
    Line(p0, p1, a, s, c,
         Point(p0.x + t * s, p0.y - t * c), Point(p1.x + t * s, p1.y - t * c),
         Point(p0.x - t * s, p0.y + t * c), Point(p1.x - t * s, p1.y + t * c),
         isFirst, isLast, false, false, 0.0, 0.0,
         Origin, Origin, Origin, Origin,
         lm.sqrt((p1.x - p0.x) * (p1.x - p0.x) + (p1.y - p0.y) * (p1.y - p0.y)))
  }

  /** The lines of a polyline through pts, one per consecutive pair. */
  function InitialLines(pts: seq<Point>, t: real, lm: Libm): (ls: seq<Line>)
    requires |pts| >= 2
    ensures |ls| == |pts| - 1
  {
    seq(|pts| - 1, j requires 0 <= j < |pts| - 1 =>
      InitialLine(pts[j], pts[j + 1], t, lm, j == 0, j == |pts| - 2))
  }

  lemma InitialLinesAt(pts: seq<Point>, t: real, lm: Libm, j: nat)
    requires |pts| >= 2 && j < |pts| - 1
    ensures InitialLines(pts, t, lm)[j] == InitialLine(pts[j], pts[j + 1], t, lm, j == 0, j == |pts| - 2)
  {}

  /** The integer part of a double, as a C conversion to int takes it. */
  function Trunc(r: real): int
  {
    if r >= 0.0 then r.Floor else -((-r).Floor)
  }

  function IntAbs(n: int): int { if n < 0 then -n else n }

  /** first_last_same: C's integer abs truncates each difference before the
      comparison with 0.1. */
  function FirstLastSame(pts: seq<Point>): bool
    requires |pts| >= 1
  {
    IntAbs(Trunc(pts[0].x - pts[|pts| - 1].x)) as real < 0.1 &&
    IntAbs(Trunc(pts[0].y - pts[|pts| - 1].y)) as real < 0.1
  }

  /** So the polyline counts as closed when both differences between its
      first and last point lie strictly between -1 and 1. */
  lemma FirstLastSameMeans(pts: seq<Point>)
    requires |pts| >= 1
    ensures FirstLastSame(pts) <==>
            (-1.0 < pts[0].x - pts[|pts| - 1].x < 1.0 && -1.0 < pts[0].y - pts[|pts| - 1].y < 1.0)
  {
    TruncZero(pts[0].x - pts[|pts| - 1].x);
    TruncZero(pts[0].y - pts[|pts| - 1].y);
  }

  lemma TruncZero(r: real)
    ensures IntAbs(Trunc(r)) as real < 0.1 <==> -1.0 < r < 1.0
  {
    if r >= 1.0 {
      assert r.Floor >= 1;
    } else if r <= -1.0 {
      assert (-r).Floor >= 1;
    }
  }

  /** Neighbours on the closed ring of n lines: the line before the first
      is the last, the line after the last is the first. */
  function Prev(i: nat, n: nat): nat requires i < n { if i == 0 then n - 1 else i - 1 }
  function Next(i: nat, n: nat): nat requires i < n { if i == n - 1 then 0 else i + 1 }

  /** Two lines connect when either normalised angle difference between
      them is at most pi / 2 + epsilon. */
  predicate Joinable(ab: real, ba: real)
  {
    ab <= Pi / 2.0 + FltEpsilon || ba <= Pi / 2.0 + FltEpsilon
  }

  /** has_prev after the second loop: not the first line, or a closed
      polyline, and the turn to the previous line joinable. */
  predicate StartJoins(l: Line, pa: real, fls: bool)
  {
    (!l.isFirst || (l.isFirst && fls)) && Joinable(Normalized(l.a - pa), Normalized(pa - l.a))
  }

  /** has_next after the second loop. */
  predicate EndJoins(l: Line, na: real, fls: bool)
  {
    (!l.isLast || (l.isLast && fls)) && Joinable(Normalized(l.a - na), Normalized(na - l.a))
  }

  /** u = t * tan(d / 2) for the smaller normalised difference d. */
  function Shortening(ab: real, ba: real, t: real, lm: Libm): real
    requires CosPositive(lm)
    requires 0.0 - FltEpsilon <= ab && 0.0 - FltEpsilon <= ba && Joinable(ab, ba)
  {
    if ab < ba then t * lm.sin(ab / 2.0) / lm.cos(ab / 2.0)
    else t * lm.sin(ba / 2.0) / lm.cos(ba / 2.0)
  }

  /** The shortening at the joint between a line of angle a and a
      neighbour of angle b. */
  function JointShortening(a: real, b: real, t: real, lm: Libm): real
    requires CosPositive(lm) && Joinable(Normalized(a - b), Normalized(b - a))
  {
    NormalizedProperties(a - b);
    NormalizedProperties(b - a);
    Shortening(Normalized(a - b), Normalized(b - a), t, lm)
  }

  /** Moves both start points u along the segment direction. */
  function ShortenStart(l: Line, u: real): Line
  {
    l.(r0 := Offset(l.r0, u, l.cosA, l.sinA), l0 := Offset(l.l0, u, l.cosA, l.sinA))
  }

  /** Moves both end points u against the segment direction. */
  function ShortenEnd(l: Line, u: real): Line
  {
    l.(l1 := Offset(l.l1, -u, l.cosA, l.sinA), r1 := Offset(l.r1, -u, l.cosA, l.sinA))
  }

  /** The corners of the start cap, t behind the start points. */
  function StartCap(l: Line, t: real): Line
  {
    l.(lt0 := Offset(l.l0, -t, l.cosA, l.sinA), rt0 := Offset(l.r0, -t, l.cosA, l.sinA))
  }

  /** The corners of the end cap, t beyond the end points. */
  function EndCap(l: Line, t: real): Line
  {
    l.(lt1 := Offset(l.l1, t, l.cosA, l.sinA), rt1 := Offset(l.r1, t, l.cosA, l.sinA))
  }

  /** The flags and angle differences the second loop of end_draw sets
      first: a line is provisionally connected at each end unless that end
      is an end of an open polyline. */
  function Flagged(l: Line, pa: real, na: real, fls: bool): Line
  {
    l.(hasPrev := !l.isFirst || (l.isFirst && fls), hasNext := !l.isLast || (l.isLast && fls),
       prevAd := Normalized(l.a - pa), nextAd := Normalized(l.a - na))
  }

  /** The has_prev block: a provisional connection to the previous line (of
      angle pa) shortens the start points when the turn is joinable and is
      dropped otherwise. */
  function PrevJoined(l: Line, pa: real, t: real, lm: Libm): Line
    requires CosPositive(lm)
  {
    if !l.hasPrev then l
    else if Joinable(Normalized(l.a - pa), Normalized(pa - l.a))
    then ShortenStart(l, JointShortening(l.a, pa, t, lm))
    else l.(hasPrev := false)
  }

  /** The has_next block: the same for the end points and the next line. */
  function NextJoined(l: Line, na: real, t: real, lm: Libm): Line
    requires CosPositive(lm)
  {
    if !l.hasNext then l
    else if Joinable(Normalized(l.a - na), Normalized(na - l.a))
    then ShortenEnd(l, JointShortening(l.a, na, t, lm))
    else l.(hasNext := false)
  }

  /** The cap blocks: each end left unconnected gets its cap corners. */
  function Capped(l: Line, t: real): Line
  {
    var l' := if !l.hasPrev then StartCap(l, t) else l;
    if !l'.hasNext then EndCap(l', t) else l'
  }

  /** One pass of the second loop of end_draw on a line whose previous line
      has angle pa and whose next line has angle na. */
  function ConnectLine(l: Line, pa: real, na: real, fls: bool, t: real, lm: Libm): Line
    requires CosPositive(lm)
  {
    Capped(NextJoined(PrevJoined(Flagged(l, pa, na, fls), pa, t, lm), na, t, lm), t)
  }

  /** The lines after the second loop of end_draw: each is connected using
      the angles of its ring neighbours. */
  function Connected(ls: seq<Line>, fls: bool, t: real, lm: Libm): (cs: seq<Line>)
    requires |ls| >= 1 && CosPositive(lm)
    ensures |cs| == |ls|
  {
    seq(|ls|, i requires 0 <= i < |ls| =>
      ConnectLine(ls[i], ls[Prev(i, |ls|)].a, ls[Next(i, |ls|)].a, fls, t, lm))
  }

  /** The connection flags and the angle of a connected line. */
  lemma ConnectFlags(l: Line, pa: real, na: real, fls: bool, t: real, lm: Libm)
    requires CosPositive(lm)
    ensures ConnectLine(l, pa, na, fls, t, lm).hasPrev == StartJoins(l, pa, fls)
    ensures ConnectLine(l, pa, na, fls, t, lm).hasNext == EndJoins(l, na, fls)
    ensures ConnectLine(l, pa, na, fls, t, lm).a == l.a
    ensures ConnectLine(l, pa, na, fls, t, lm).isFirst == l.isFirst
    ensures ConnectLine(l, pa, na, fls, t, lm).isLast == l.isLast
  {}

  /** Connecting keeps every line's angle, so the loop may read its
      neighbours' angles from lines it has already connected. */
  lemma ConnectedAngle(ls: seq<Line>, fls: bool, t: real, lm: Libm, j: nat)
    requires |ls| >= 1 && CosPositive(lm) && j < |ls|
    ensures Connected(ls, fls, t, lm)[j].a == ls[j].a
  {
    ConnectFlags(ls[j], ls[Prev(j, |ls|)].a, ls[Next(j, |ls|)].a, fls, t, lm);
  }

  // ---------------------------------------------------------------------
  // Vertices of draw_simple_fan and draw_lines

  /** nsteps of draw_simple_fan: one step per pi / 8 of arc, at least one. */
  function FanSteps(arc: real, lm: Libm): (n: nat)
    ensures n >= 1
  {
    var r := lm.round(arc / (Pi / 8.0));
    if r > 1 then r else 1
  }

  function FanAngle(start: real, arc: real, n: nat, i: nat): real
    requires n >= 1
  {
    start + (i as real) * arc / (n as real)
  }

  /** Which way draw_simple_fan turns from pa to a, and its parameters: the
      start angle and arc of the rim, the step count, the signed radius and
      the texture u of the rim (s) and of the centre (e). */
  datatype Fan = Fan(start: real, arc: real, steps: nat, t: real, s: real, e: real)

  function FanOf(pa: real, a: real, t: real, lm: Libm): (f: Fan)
    ensures f.steps >= 1
  {
    var pa2a := Normalized(a - pa);
    var a2pa := Normalized(pa - a);
    if a2pa < pa2a then Fan(a, a2pa, FanSteps(a2pa, lm), -t, TextureSize, 0.0)
    else Fan(pa, pa2a, FanSteps(pa2a, lm), t, 0.0, TextureSize)
  }

  /** The point at angle ang and signed distance f.t from (cx, cy). */
  function RimPoint(f: Fan, cx: real, cy: real, ang: real, lm: Libm): Point
  {
    Point(cx + f.t * lm.sin(ang), cy - f.t * lm.cos(ang))
  }

  /** The rim point at angles[i], at distance |t| from the centre. */
  function FanRim(f: Fan, cx: real, cy: real, i: nat, c: Color, lm: Libm): Vertex
    requires f.steps >= 1
  {
    Tex(RimPoint(f, cx, cy, FanAngle(f.start, f.arc, f.steps, i), lm), f.s, HalfTextureSize, c)
  }

  function FanCentre(f: Fan, cx: real, cy: real, c: Color): Vertex
  {
    TexPoint(cx, cy, f.e, HalfTextureSize, c)
  }

  /** The first k triangles of a fan: each is the rim point i - 1, the
      centre and the rim point i. */
  function FanTriangles(f: Fan, cx: real, cy: real, c: Color, lm: Libm, k: nat): seq<Vertex>
    requires f.steps >= 1
  {
    if k == 0 then []
    else FanTriangles(f, cx, cy, c, lm, k - 1)
         + [FanRim(f, cx, cy, k - 1, c, lm), FanCentre(f, cx, cy, c), FanRim(f, cx, cy, k, c, lm)]
  }

  /** Triangle k of a fan follows the first k - 1 after any prefix. */
  lemma FanTrianglesSnoc(pre: seq<Vertex>, f: Fan, cx: real, cy: real, c: Color, lm: Libm, k: nat)
    requires 1 <= k && f.steps >= 1
    ensures pre + FanTriangles(f, cx, cy, c, lm, k - 1)
            + [FanRim(f, cx, cy, k - 1, c, lm), FanCentre(f, cx, cy, c), FanRim(f, cx, cy, k, c, lm)]
            == pre + FanTriangles(f, cx, cy, c, lm, k)
  {
  }

  /** The vertices draw_simple_fan appends for a fan around (cx, cy) from
      angle pa to angle a. */
  function FanVertices(cx: real, cy: real, pa: real, a: real, t: real, c: Color, lm: Libm): seq<Vertex>
  {
    var f := FanOf(pa, a, t, lm);
    FanTriangles(f, cx, cy, c, lm, f.steps)
  }

  /** The start point the joint fan of line l turns around: the right one
      when the short way from the previous line's angle is clockwise, else
      the left one. */
  function JointCentre(l: Line, pl: Line): Point
  {
    if Normalized(l.a - pl.a) < Normalized(pl.a - l.a) then l.r0 else l.l0
  }

  /** The fan that draw_lines draws at the start of a connected line, around
      the right or the left start point, with twice the thickness. */
  function JointFan(l: Line, pl: Line, t: real, c: Color, lm: Libm): seq<Vertex>
  {
    var p := JointCentre(l, pl);
    FanVertices(p.x, p.y, pl.a, l.a, t * 2.0, c, lm)
  }

  function Tex(p: Point, u: real, v: real, c: Color): Vertex
  {
    TexPoint(p.x, p.y, u, v, c)
  }

  /** The two triangles of the segment's body, as RibbonCorners lists them.
      It is written as a comprehension of length 6 over that list so that
      proofs about whole segments see a six-vertex sequence and unfold the
      literal only where they call RibbonIs; the same holds for the two caps
      below. */
  function Ribbon(l: Line, c: Color): seq<Vertex>
  {
    seq(6, k requires 0 <= k < 6 => RibbonCorners(l, c)[k])
  }

  function RibbonCorners(l: Line, c: Color): seq<Vertex>
  {
    [Tex(l.r0, TextureSize, HalfTextureSize, c), Tex(l.r1, TextureSize, HalfTextureSize, c),
     Tex(l.l1, 0.0, HalfTextureSize, c), Tex(l.l0, 0.0, HalfTextureSize, c),
     Tex(l.r0, TextureSize, HalfTextureSize, c), Tex(l.l1, 0.0, HalfTextureSize, c)]
  }

  lemma RibbonIs(l: Line, c: Color)
    ensures Ribbon(l, c) == RibbonCorners(l, c)
  {}

  /** The start cap's two triangles, as StartCapCorners lists them (a
      comprehension for the reason given at Ribbon). */
  function StartCapVertices(l: Line, c: Color): seq<Vertex>
  {
    seq(6, k requires 0 <= k < 6 => StartCapCorners(l, c)[k])
  }

  function StartCapCorners(l: Line, c: Color): seq<Vertex>
  {
    [Tex(l.l0, 0.0, HalfTextureSize, c), Tex(l.lt0, 0.0, 0.0, c),
     Tex(l.r0, TextureSize, HalfTextureSize, c), Tex(l.r0, TextureSize, HalfTextureSize, c),
     Tex(l.lt0, 0.0, 0.0, c), Tex(l.rt0, TextureSize, 0.0, c)]
  }

  lemma StartCapIs(l: Line, c: Color)
    ensures StartCapVertices(l, c) == StartCapCorners(l, c)
  {}

  /** The end cap's two triangles, as EndCapCorners lists them (a
      comprehension for the reason given at Ribbon). */
  function EndCapVertices(l: Line, c: Color): seq<Vertex>
  {
    seq(6, k requires 0 <= k < 6 => EndCapCorners(l, c)[k])
  }

  function EndCapCorners(l: Line, c: Color): seq<Vertex>
  {
    [Tex(l.lt1, 0.0, 0.0, c), Tex(l.l1, 0.0, HalfTextureSize, c),
     Tex(l.r1, TextureSize, HalfTextureSize, c), Tex(l.lt1, 0.0, 0.0, c),
     Tex(l.r1, TextureSize, HalfTextureSize, c), Tex(l.rt1, TextureSize, 0.0, c)]
  }

  lemma EndCapIs(l: Line, c: Color)
    ensures EndCapVertices(l, c) == EndCapCorners(l, c)
  {}

  /** Where a vertex is drawn. */
  function At(v: Vertex): Point
  {
    Point(v.x, v.y)
  }

  /** The body is the quadrilateral r0 r1 l1 l0 cut along its diagonal
      r0-l1 into the triangles (r0, r1, l1) and (l0, r0, l1). Its texture
      runs across the line, u 1 on the right edge and 0 on the left, and
      stays at the middle row v 1/2 along the line. */
  lemma RibbonTriangles(l: Line, c: Color)
    ensures var b := Ribbon(l, c);
      && |b| == 6 && b[4] == b[0] && b[5] == b[2]
      && At(b[0]) == l.r0 && At(b[1]) == l.r1 && At(b[2]) == l.l1 && At(b[3]) == l.l0
      && b[0].u == 1.0 && b[1].u == 1.0 && b[2].u == 0.0 && b[3].u == 0.0
      && (forall k :: 0 <= k < 6 ==> b[k].v == 0.5)
  {
    RibbonIs(l, c);
  }

  /** The start cap is the quadrilateral l0 lt0 rt0 r0 cut along lt0-r0
      into the triangles (l0, lt0, r0) and (r0, lt0, rt0). Its texture keeps
      u 0 on the left and 1 on the right, and goes from the middle row v 1/2
      at the line's end to the edge row v 1 at the cap's outer edge. */
  lemma StartCapTriangles(l: Line, c: Color)
    ensures var b := StartCapVertices(l, c);
      && |b| == 6 && b[3] == b[2] && b[4] == b[1]
      && At(b[0]) == l.l0 && At(b[1]) == l.lt0 && At(b[2]) == l.r0 && At(b[5]) == l.rt0
      && b[0].u == 0.0 && b[1].u == 0.0 && b[2].u == 1.0 && b[5].u == 1.0
      && b[0].v == 0.5 && b[2].v == 0.5 && b[1].v == 1.0 && b[5].v == 1.0
  {
    StartCapIs(l, c);
  }

  /** The end cap is the quadrilateral lt1 l1 r1 rt1 cut along lt1-r1 into
      the triangles (lt1, l1, r1) and (lt1, r1, rt1), textured like the start
      cap: v 1/2 at the line's end and 1 at the cap's outer edge. */
  lemma EndCapTriangles(l: Line, c: Color)
    ensures var b := EndCapVertices(l, c);
      && |b| == 6 && b[3] == b[0] && b[4] == b[2]
      && At(b[0]) == l.lt1 && At(b[1]) == l.l1 && At(b[2]) == l.r1 && At(b[5]) == l.rt1
      && b[0].u == 0.0 && b[1].u == 0.0 && b[2].u == 1.0 && b[5].u == 1.0
      && b[1].v == 0.5 && b[2].v == 0.5 && b[0].v == 1.0 && b[5].v == 1.0
  {
    EndCapIs(l, c);
  }

  /** What one iteration of draw_lines appends for line i: the joint fan if
      it connects to its previous line, its body, and a cap at each end that
      does not connect. */
  function SegmentVertices(ls: seq<Line>, i: nat, t: real, c: Color, lm: Libm): seq<Vertex>
    requires i < |ls|
  {
    var l := ls[i];
    (if l.hasPrev then JointFan(l, ls[Prev(i, |ls|)], t, c, lm) else [])
    + Ribbon(l, c)
    + (if !l.hasPrev then StartCapVertices(l, c) else [])
    + (if !l.hasNext then EndCapVertices(l, c) else [])
  }

  /** What draw_lines appends for its first k lines. */
  function LinesVertices(ls: seq<Line>, k: nat, t: real, c: Color, lm: Libm): seq<Vertex>
    requires k <= |ls|
  {
    if k == 0 then [] else LinesVertices(ls, k - 1, t, c, lm) + SegmentVertices(ls, k - 1, t, c, lm)
  }

  /** Everything end_draw appends for the pending points pts. */
  function Tessellation(pts: seq<Point>, t: real, c: Color, lm: Libm): seq<Vertex>
    requires CosPositive(lm)
  {
    if |pts| < 2 then []
    else
      var ls := Connected(InitialLines(pts, t, lm), FirstLastSame(pts), t, lm);
      LinesVertices(ls, |ls|, t, c, lm)
  }

  // ---------------------------------------------------------------------
  // Properties of the tessellation

  /** The tessellation of two or more points is the vertices of their
      connected lines. */
  lemma TessellationIs(pts: seq<Point>, t: real, c: Color, lm: Libm, cs: seq<Line>)
    requires |pts| >= 2 && CosPositive(lm)
    requires cs == Connected(InitialLines(pts, t, lm), FirstLastSame(pts), t, lm)
    ensures Tessellation(pts, t, c, lm) == LinesVertices(cs, |cs|, t, c, lm)
  {}

  lemma {:induction false} FanTrianglesLength(f: Fan, cx: real, cy: real, c: Color, lm: Libm, k: nat)
    requires f.steps >= 1
    ensures |FanTriangles(f, cx, cy, c, lm, k)| == 3 * k
  {
    if k > 0 {
      FanTrianglesLength(f, cx, cy, c, lm, k - 1);
    }
  }

  /** Triangle j of a fan is rim point j, the centre, rim point j + 1. */
  lemma {:induction false} FanTriangleAt(f: Fan, cx: real, cy: real, c: Color, lm: Libm, k: nat, j: nat)
    requires f.steps >= 1 && j < k
    ensures |FanTriangles(f, cx, cy, c, lm, k)| == 3 * k
    ensures FanTriangles(f, cx, cy, c, lm, k)[3 * j] == FanRim(f, cx, cy, j, c, lm)
    ensures FanTriangles(f, cx, cy, c, lm, k)[3 * j + 1] == FanCentre(f, cx, cy, c)
    ensures FanTriangles(f, cx, cy, c, lm, k)[3 * j + 2] == FanRim(f, cx, cy, j + 1, c, lm)
  {
    FanTrianglesLength(f, cx, cy, c, lm, k);
    FanTrianglesLength(f, cx, cy, c, lm, k - 1);
    if j < k - 1 {
      FanTriangleAt(f, cx, cy, c, lm, k - 1, j);
    }
  }

  /** draw_simple_fan appends nsteps >= 1 triangles, each made of two
      consecutive rim points around the centre; the rim runs from angles[0],
      the start, to angles[nsteps], the start plus the arc. */
  lemma FanFacts(cx: real, cy: real, pa: real, a: real, t: real, c: Color, lm: Libm, j: nat)
    requires j < FanOf(pa, a, t, lm).steps
    ensures var f := FanOf(pa, a, t, lm);
      var fan := FanVertices(cx, cy, pa, a, t, c, lm);
      && |fan| == 3 * f.steps
      && fan[3 * j] == FanRim(f, cx, cy, j, c, lm)
      && fan[3 * j + 1] == FanCentre(f, cx, cy, c)
      && fan[3 * j + 2] == FanRim(f, cx, cy, j + 1, c, lm)
  {
    var f := FanOf(pa, a, t, lm);
    FanTriangleAt(f, cx, cy, c, lm, f.steps, j);
  }

  /** The rim runs from angles[0], the start, to angles[nsteps], the start
      plus the arc, in nsteps equal steps. */
  lemma FanAngleEnds(start: real, arc: real, n: nat, i: nat)
    requires n >= 1 && i < n
    ensures FanAngle(start, arc, n, 0) == start
    ensures FanAngle(start, arc, n, n) == start + arc
    ensures FanAngle(start, arc, n, i + 1) - FanAngle(start, arc, n, i) == arc / (n as real)
  {
    var d := arc / (n as real);
    assert (n as real) * arc / (n as real) == arc;
    assert (i as real) * arc / (n as real) == (i as real) * d;
    assert ((i + 1) as real) * arc / (n as real) == (i as real) * d + d;
  }

  /** The fan turns the short way round, with the thickness as its radius:
      its arc is the smaller of the two normalised differences between pa
      and a, and it is at least -epsilon. */
  lemma FanArcIsShorter(pa: real, a: real, t: real, lm: Libm)
    ensures var f := FanOf(pa, a, t, lm);
      && f.arc <= Normalized(a - pa) && f.arc <= Normalized(pa - a)
      && 0.0 - FltEpsilon <= f.arc
      && (f.t == t || f.t == -t)
      && (f.arc == Normalized(a - pa) ==> f.start == pa)
      && (f.arc != Normalized(a - pa) ==> f.start == a)
  {
    NormalizedProperties(a - pa);
    NormalizedProperties(pa - a);
  }

  function JointFanSteps(l: Line, pl: Line, t: real, lm: Libm): (n: nat)
    ensures n >= 1
  {
    FanOf(pl.a, l.a, t * 2.0, lm).steps
  }

  lemma FanLength(cx: real, cy: real, pa: real, a: real, t: real, c: Color, lm: Libm)
    ensures |FanVertices(cx, cy, pa, a, t, c, lm)| == 3 * FanOf(pa, a, t, lm).steps
  {
    var f := FanOf(pa, a, t, lm);
    FanTrianglesLength(f, cx, cy, c, lm, f.steps);
  }

  /** Vertex count of one iteration of draw_lines: 6 for the body, 6 for the
      start cap of a line with no connected previous joint, 6 for the end cap
      of a line with no connected next joint, and 3 * nsteps (nsteps >= 1) for
      the fan of a connected previous joint. */
  function SegmentTriangles(ls: seq<Line>, i: nat, t: real, lm: Libm): nat
    requires i < |ls|
  {
    2 + (if ls[i].hasPrev then JointFanSteps(ls[i], ls[Prev(i, |ls|)], t, lm) else 2)
      + (if ls[i].hasNext then 0 else 2)
  }

  lemma SegmentCount(ls: seq<Line>, i: nat, t: real, c: Color, lm: Libm)
    requires i < |ls|
    ensures |SegmentVertices(ls, i, t, c, lm)| == 3 * SegmentTriangles(ls, i, t, lm)
    ensures SegmentTriangles(ls, i, t, lm) >= 3
  {
    var l, pl := ls[i], ls[Prev(i, |ls|)];
    var p := JointCentre(l, pl);
    FanLength(p.x, p.y, pl.a, l.a, t * 2.0, c, lm);
  }

  /** The triangles draw_lines emits for its first k lines. */
  function LinesTriangles(ls: seq<Line>, k: nat, t: real, lm: Libm): nat
    requires k <= |ls|
  {
    if k == 0 then 0 else LinesTriangles(ls, k - 1, t, lm) + SegmentTriangles(ls, k - 1, t, lm)
  }

  lemma {:induction false} LinesCount(ls: seq<Line>, k: nat, t: real, c: Color, lm: Libm)
    requires k <= |ls|
    ensures |LinesVertices(ls, k, t, c, lm)| == 3 * LinesTriangles(ls, k, t, lm)
    ensures LinesTriangles(ls, k, t, lm) >= 3 * k
  {
    if k > 0 {
      LinesCount(ls, k - 1, t, c, lm);
      SegmentCount(ls, k - 1, t, c, lm);
    }
  }

  /** The number of triangles end_draw appends for the pending points pts. */
  function TriangleCount(pts: seq<Point>, t: real, lm: Libm): nat
    requires CosPositive(lm)
  {
    if |pts| < 2 then 0
    else
      var ls := Connected(InitialLines(pts, t, lm), FirstLastSame(pts), t, lm);
      LinesTriangles(ls, |ls|, t, lm)
  }

  /** end_draw appends nothing for fewer than two pending points, and a whole
      number of triangles, at least three per segment (two for its body and at
      least one for a fan or two for a cap), otherwise. */
  lemma TessellationTriangles(pts: seq<Point>, t: real, c: Color, lm: Libm)
    requires CosPositive(lm)
    ensures |pts| < 2 ==> Tessellation(pts, t, c, lm) == []
    ensures |Tessellation(pts, t, c, lm)| == 3 * TriangleCount(pts, t, lm)
    ensures |pts| >= 2 ==> TriangleCount(pts, t, lm) >= 3 * (|pts| - 1)
  {
    if |pts| >= 2 {
      var ls := Connected(InitialLines(pts, t, lm), FirstLastSame(pts), t, lm);
      LinesCount(ls, |ls|, t, c, lm);
    }
  }

  /** The modular index expressions of end_draw and draw_lines name the
      ring neighbours. */
  lemma PrevIndex(i: nat, n: nat)
    requires i < n
    ensures (n + i - 1) % n == Prev(i, n)
  {
    if i == 0 {
      ModSmall(n - 1, n);
    } else {
      ModWrap(i - 1, n);
    }
  }

  lemma NextIndex(i: nat, n: nat)
    requires i < n
    ensures (i + 1) % n == Next(i, n)
  {
    if i == n - 1 {
      ModWrap(0, n);
    } else {
      ModSmall(i + 1, n);
    }
  }

  lemma ModSmall(r: nat, n: nat)
    requires r < n
    ensures r % n == r
  {}

  lemma ModWrap(r: nat, n: nat)
    requires r < n
    ensures (n + r) % n == r
  {}

  /** Only the first line is marked first, only the last one last. */
  predicate PolylineFlags(ls: seq<Line>)
  {
    forall j :: 0 <= j < |ls| ==> ls[j].isFirst == (j == 0) && ls[j].isLast == (j == |ls| - 1)
  }

  lemma InitialFlags(pts: seq<Point>, t: real, lm: Libm)
    requires |pts| >= 2
    ensures PolylineFlags(InitialLines(pts, t, lm))
  {}

  /** Line i of the connected lines is line i connected with its ring
      neighbours' angles. */
  lemma ConnectedAt(ls: seq<Line>, fls: bool, t: real, lm: Libm, j: nat)
    requires |ls| >= 1 && CosPositive(lm) && j < |ls|
    ensures Connected(ls, fls, t, lm)[j] == ConnectLine(ls[j], ls[Prev(j, |ls|)].a, ls[Next(j, |ls|)].a, fls, t, lm)
  {}

  /** Both sides of a joint apply the same test: the later line starts
      provisionally connected exactly when the earlier one ends so, and the
      two normalised differences are the same pair in the other order. */
  lemma JoinsSymmetric(l: Line, m: Line, fls: bool)
    requires l.isFirst == m.isLast
    ensures StartJoins(l, m.a, fls) == EndJoins(m, l.a, fls)
  {}

  /** On a ring of lines flagged as one polyline, line i connects to its
      previous line exactly when that line connects to its next one. */
  lemma RingJointsAgree(ls: seq<Line>, fls: bool, t: real, lm: Libm, i: nat)
    requires |ls| >= 1 && CosPositive(lm) && i < |ls| && PolylineFlags(ls)
    ensures Connected(ls, fls, t, lm)[i].hasPrev == Connected(ls, fls, t, lm)[Prev(i, |ls|)].hasNext
  {
    var n := |ls|;
    var p := Prev(i, n);
    assert Next(p, n) == i;
    ConnectedAt(ls, fls, t, lm, i);
    ConnectedAt(ls, fls, t, lm, p);
    ConnectFlags(ls[i], ls[p].a, ls[Next(i, n)].a, fls, t, lm);
    ConnectFlags(ls[p], ls[Prev(p, n)].a, ls[i].a, fls, t, lm);
    assert ls[i].isFirst == ls[p].isLast;
    JoinsSymmetric(ls[i], ls[p], fls);
  }

  /** Joint consistency: line i connects to its previous line exactly when
      that line connects to its next one. The first and last lines begin
      connected only when the polyline closes, the others always, and both
      sides then apply the same test to the same two normalised differences. */
  lemma JointsAgree(pts: seq<Point>, t: real, lm: Libm, i: nat)
    requires |pts| >= 2 && CosPositive(lm) && i < |pts| - 1
    ensures var cs := Connected(InitialLines(pts, t, lm), FirstLastSame(pts), t, lm);
      cs[i].hasPrev == cs[Prev(i, |cs|)].hasNext
  {
    InitialFlags(pts, t, lm);
    RingJointsAgree(InitialLines(pts, t, lm), FirstLastSame(pts), t, lm, i);
  }

  /** At the wraparound joint both flags are first_last_same and the test. */
  lemma RingWraparound(ls: seq<Line>, fls: bool, t: real, lm: Libm)
    requires |ls| >= 1 && CosPositive(lm) && PolylineFlags(ls)
    ensures var n := |ls|;
      var cs := Connected(ls, fls, t, lm);
      && cs[0].hasPrev == (fls && Joinable(Normalized(ls[0].a - ls[n - 1].a), Normalized(ls[n - 1].a - ls[0].a)))
      && cs[n - 1].hasNext == cs[0].hasPrev
  {
    var n := |ls|;
    ConnectFlags(ls[0], ls[n - 1].a, ls[Next(0, n)].a, fls, t, lm);
    RingJointsAgree(ls, fls, t, lm, 0);
  }

  lemma WraparoundJoint(pts: seq<Point>, t: real, lm: Libm, ls: seq<Line>, cs: seq<Line>)
    requires |pts| >= 2 && CosPositive(lm)
    requires ls == InitialLines(pts, t, lm) && cs == Connected(ls, FirstLastSame(pts), t, lm)
    ensures cs[0].hasPrev == (FirstLastSame(pts)
                              && Joinable(Normalized(ls[0].a - ls[|ls| - 1].a), Normalized(ls[|ls| - 1].a - ls[0].a)))
    ensures cs[|ls| - 1].hasNext == cs[0].hasPrev
  {
    InitialFlags(pts, t, lm);
    RingWraparound(ls, FirstLastSame(pts), t, lm);
  }

  /** Ribbon geometry of a fresh line: each end's left and right points are
      the endpoint plus and minus t * (sin a, -cos a), so they are centred on
      the endpoint and 2t apart when sin^2 + cos^2 = 1. */
  lemma InitialGeometry(p0: Point, p1: Point, t: real, lm: Libm, isFirst: bool, isLast: bool)
    ensures var l := InitialLine(p0, p1, t, lm, isFirst, isLast);
      && l.l0.x + l.r0.x == 2.0 * p0.x && l.l0.y + l.r0.y == 2.0 * p0.y
      && l.l1.x + l.r1.x == 2.0 * p1.x && l.l1.y + l.r1.y == 2.0 * p1.y
      && l.l0.x - l.r0.x == 2.0 * t * l.sinA && l.l0.y - l.r0.y == -2.0 * t * l.cosA
      && l.l1.x - l.r1.x == 2.0 * t * l.sinA && l.l1.y - l.r1.y == -2.0 * t * l.cosA
      && (l.sinA * l.sinA + l.cosA * l.cosA == 1.0 ==>
          (l.l0.x - l.r0.x) * (l.l0.x - l.r0.x) + (l.l0.y - l.r0.y) * (l.l0.y - l.r0.y) == 4.0 * t * t)
  {
    var l := InitialLine(p0, p1, t, lm, isFirst, isLast);
    Distance(t, l.sinA, l.cosA);
  }

  lemma Distance(t: real, s: real, c: real)
    ensures (2.0 * t * s) * (2.0 * t * s) + (-2.0 * t * c) * (-2.0 * t * c) == 4.0 * t * t * (s * s + c * c)
  {}

  /** Two points moved by the same multiple of one direction. */
  predicate MovedTogether(p: Point, q: Point, p': Point, q': Point, dx: real, dy: real)
  {
    p'.x - p.x == q'.x - q.x && p'.y - p.y == q'.y - q.y
    && (p'.x - p.x) * dy == (p'.y - p.y) * dx
  }

  lemma OffsetParallel(p: Point, k: real, dx: real, dy: real)
    ensures (Offset(p, k, dx, dy).x - p.x) * dy == (Offset(p, k, dx, dy).y - p.y) * dx
  {
    assert Offset(p, k, dx, dy).x - p.x == k * dx;
    assert Offset(p, k, dx, dy).y - p.y == k * dy;
  }

  /** The has_prev block moves the two start points by the same multiple of
      (cos a, sin a), and only when the connection stays; it touches neither
      the end points nor the end's flag. */
  lemma PrevJoinedGeometry(l: Line, pa: real, t: real, lm: Libm)
    requires CosPositive(lm)
    ensures var k := PrevJoined(l, pa, t, lm);
      && MovedTogether(l.l0, l.r0, k.l0, k.r0, l.cosA, l.sinA)
      && (!k.hasPrev ==> k.l0 == l.l0 && k.r0 == l.r0)
      && k.l1 == l.l1 && k.r1 == l.r1 && k.cosA == l.cosA && k.sinA == l.sinA
      && k.a == l.a && k.hasNext == l.hasNext
  {
    if l.hasPrev && Joinable(Normalized(l.a - pa), Normalized(pa - l.a)) {
      OffsetParallel(l.l0, JointShortening(l.a, pa, t, lm), l.cosA, l.sinA);
    }
  }

  /** The has_next block, the same way for the end points. */
  lemma NextJoinedGeometry(l: Line, na: real, t: real, lm: Libm)
    requires CosPositive(lm)
    ensures var k := NextJoined(l, na, t, lm);
      && MovedTogether(l.l1, l.r1, k.l1, k.r1, l.cosA, l.sinA)
      && (!k.hasNext ==> k.l1 == l.l1 && k.r1 == l.r1)
      && k.l0 == l.l0 && k.r0 == l.r0 && k.cosA == l.cosA && k.sinA == l.sinA
      && k.a == l.a && k.hasPrev == l.hasPrev
  {
    if l.hasNext && Joinable(Normalized(l.a - na), Normalized(na - l.a)) {
      OffsetParallel(l.l1, -JointShortening(l.a, na, t, lm), l.cosA, l.sinA);
    }
  }

  /** Joint shortening moves the left and the right point of an end by the
      same multiple of (cos a, sin a); a cap puts its corners t further out
      along the segment from the end's unmoved points. */
  lemma ConnectGeometry(l: Line, pa: real, na: real, fls: bool, t: real, lm: Libm)
    requires CosPositive(lm)
    ensures var k := ConnectLine(l, pa, na, fls, t, lm);
      && MovedTogether(l.l0, l.r0, k.l0, k.r0, l.cosA, l.sinA)
      && MovedTogether(l.l1, l.r1, k.l1, k.r1, l.cosA, l.sinA)
      && (!k.hasPrev ==> k.l0 == l.l0 && k.r0 == l.r0
                         && k.lt0 == Offset(l.l0, -t, l.cosA, l.sinA) && k.rt0 == Offset(l.r0, -t, l.cosA, l.sinA))
      && (!k.hasNext ==> k.l1 == l.l1 && k.r1 == l.r1
                         && k.lt1 == Offset(l.l1, t, l.cosA, l.sinA) && k.rt1 == Offset(l.r1, t, l.cosA, l.sinA))
  {
    var l1 := Flagged(l, pa, na, fls);
    PrevJoinedGeometry(l1, pa, t, lm);
    var l2 := PrevJoined(l1, pa, t, lm);
    NextJoinedGeometry(l2, na, t, lm);
    var l3 := NextJoined(l2, na, t, lm);
    assert ConnectLine(l, pa, na, fls, t, lm) == Capped(l3, t);
  }

  /** Every vertex of a tessellation has depth 10000, the current colour,
      texture u of 0 or 1, and texture v of 1/2 (body, fan) or 1 (cap tip). */
  predicate Textured(v: Vertex, c: Color)
  {
    v.z == 10000.0 && v.r == c.r && v.g == c.g && v.b == c.b && v.a == c.a
    && (v.u == 0.0 || v.u == 1.0) && (v.v == 0.5 || v.v == 1.0)
  }

  /** Every vertex of s is Textured, stated element by element from the
      front so that the proofs below never look inside a vertex list. */
  predicate AllTextured(s: seq<Vertex>, c: Color)
    decreases |s|
  {
    s == [] || (Textured(s[0], c) && AllTextured(s[1..], c))
  }

  lemma {:induction false} AllTexturedIff(s: seq<Vertex>, c: Color)
    ensures AllTextured(s, c) <==> forall v :: v in s ==> Textured(v, c)
    decreases |s|
  {
    if s != [] {
      AllTexturedIff(s[1..], c);
      assert s == [s[0]] + s[1..];
    }
  }

  lemma {:induction false} AllTexturedAppend(a: seq<Vertex>, b: seq<Vertex>, c: Color)
    requires AllTextured(a, c) && AllTextured(b, c)
    ensures AllTextured(a + b, c)
    decreases |a|
  {
    if a == [] {
      assert a + b == b;
    } else {
      assert (a + b)[1..] == a[1..] + b;
      AllTexturedAppend(a[1..], b, c);
    }
  }

  lemma {:induction false} FanTextured(f: Fan, cx: real, cy: real, c: Color, lm: Libm, k: nat)
    requires f.steps >= 1 && (f.s == 0.0 || f.s == TextureSize) && (f.e == 0.0 || f.e == TextureSize)
    ensures AllTextured(FanTriangles(f, cx, cy, c, lm, k), c)
  {
    if k > 0 {
      FanTextured(f, cx, cy, c, lm, k - 1);
      var tri := [FanRim(f, cx, cy, k - 1, c, lm), FanCentre(f, cx, cy, c), FanRim(f, cx, cy, k, c, lm)];
      AllTexturedIff(tri, c);
      AllTexturedAppend(FanTriangles(f, cx, cy, c, lm, k - 1), tri, c);
    }
  }

  lemma JointFanTextured(l: Line, pl: Line, t: real, c: Color, lm: Libm)
    ensures AllTextured(JointFan(l, pl, t, c, lm), c)
  {
    var f, p := FanOf(pl.a, l.a, t * 2.0, lm), JointCentre(l, pl);
    FanTextured(f, p.x, p.y, c, lm, f.steps);
  }

  /** The body and the caps carry the current colour and texture
      coordinates in the texture. */
  lemma PartsTextured(l: Line, c: Color)
    ensures AllTextured(Ribbon(l, c), c)
    ensures AllTextured(StartCapVertices(l, c), c)
    ensures AllTextured(EndCapVertices(l, c), c)
  {
    RibbonIs(l, c);
    StartCapIs(l, c);
    EndCapIs(l, c);
    AllTexturedIff(Ribbon(l, c), c);
    AllTexturedIff(StartCapVertices(l, c), c);
    AllTexturedIff(EndCapVertices(l, c), c);
  }

  lemma SegmentTextured(ls: seq<Line>, i: nat, t: real, c: Color, lm: Libm)
    requires i < |ls|
    ensures AllTextured(SegmentVertices(ls, i, t, c, lm), c)
  {
    var l := ls[i];
    var joint := if l.hasPrev then JointFan(l, ls[Prev(i, |ls|)], t, c, lm) else [];
    var start := if !l.hasPrev then StartCapVertices(l, c) else [];
    var end := if !l.hasNext then EndCapVertices(l, c) else [];
    JointFanTextured(l, ls[Prev(i, |ls|)], t, c, lm);
    PartsTextured(l, c);
    AllTexturedAppend(joint, Ribbon(l, c), c);
    AllTexturedAppend(joint + Ribbon(l, c), start, c);
    AllTexturedAppend(joint + Ribbon(l, c) + start, end, c);
  }

  lemma {:induction false} LinesTextured(ls: seq<Line>, k: nat, t: real, c: Color, lm: Libm)
    requires k <= |ls|
    ensures AllTextured(LinesVertices(ls, k, t, c, lm), c)
  {
    if k > 0 {
      LinesTextured(ls, k - 1, t, c, lm);
      SegmentTextured(ls, k - 1, t, c, lm);
      AllTexturedAppend(LinesVertices(ls, k - 1, t, c, lm), SegmentVertices(ls, k - 1, t, c, lm), c);
    }
  }

  lemma TessellationTextured(pts: seq<Point>, t: real, c: Color, lm: Libm)
    requires CosPositive(lm)
    ensures forall v :: v in Tessellation(pts, t, c, lm) ==> Textured(v, c)
  {
    if |pts| >= 2 {
      var ls := Connected(InitialLines(pts, t, lm), FirstLastSame(pts), t, lm);
      LinesTextured(ls, |ls|, t, c, lm);
      AllTexturedIff(LinesVertices(ls, |ls|, t, c, lm), c);
    }
  }
}
