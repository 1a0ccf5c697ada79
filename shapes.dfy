/** The shape helpers of vector_shapes.c. Each helper draws its shape as
    polylines through the display's begin_draw / draw_to / end_draw calls;
    the model states the polylines a helper draws (as a sequence of point
    sequences), the calls that draws them, and the vertices the display
    appends for them. The sines and cosines the helpers take come from the
    `Libm` functions passed in, draw_shape's cos(angle) and sin(angle)
    included. */
module Shapes {
  import opened Tessellate
  import opened VectorDisplay

  // ---------------------------------------------------------------------
  // The calls that draw polylines

  /** One draw_to call per point. */
  function DrawTos(p: seq<Point>): (cs: seq<Command>)
    ensures |cs| == |p|
  {
    seq(|p|, j requires 0 <= j < |p| => DrawToCmd(p[j]))
  }

  /** The calls that draw one polyline: begin at its first point, draw to
      every later one, end. */
  function PolylineCommands(p: seq<Point>): seq<Command>
    requires |p| >= 1
  {
    [BeginCmd(p[0])] + DrawTos(p[1..]) + [EndCmd]
  }

  predicate NonEmpty(polys: seq<seq<Point>>)
  {
    forall k :: 0 <= k < |polys| ==> |polys[k]| >= 1
  }

  /** The calls that draw the polylines, one after the other. */
  function Commands(polys: seq<seq<Point>>): seq<Command>
    requires NonEmpty(polys)
  {
    if polys == [] then [] else PolylineCommands(polys[0]) + Commands(polys[1..])
  }

  /** The vertices the display appends for the polylines, one tessellation
      after the other. */
  function Tessellations(polys: seq<seq<Point>>, t: real, c: Color, lm: Libm): seq<Vertex>
    requires CosPositive(lm)
  {
    if polys == [] then [] else Tessellation(polys[0], t, c, lm) + Tessellations(polys[1..], t, c, lm)
  }

  /** The calls alternate correctly: begin_draw only when no polyline is
      open (so it never reaches the abort of a nested begin), draw_to and
      end_draw only when one is, and none is left open at the end. */
  predicate Bracketed(cmds: seq<Command>, open: bool)
    decreases |cmds|
  {
    if cmds == [] then !open
    else match cmds[0]
      case BeginCmd(_) => !open && Bracketed(cmds[1..], true)
      case DrawToCmd(_) => open && Bracketed(cmds[1..], true)
      case EndCmd => open && Bracketed(cmds[1..], false)
  }

  /** The number of end_draw calls. */
  function Ends(cmds: seq<Command>): nat
    decreases |cmds|
  {
    if cmds == [] then 0 else (if cmds[0] == EndCmd then 1 else 0) + Ends(cmds[1..])
  }

  lemma {:induction false} EndsAppend(a: seq<Command>, b: seq<Command>)
    ensures Ends(a + b) == Ends(a) + Ends(b)
    decreases |a|
  {
    if a != [] {
      assert (a + b)[0] == a[0];
      assert (a + b)[1..] == a[1..] + b;
      EndsAppend(a[1..], b);
    } else {
      assert a + b == b;
    }
  }

  /** Inside an open polyline, draw_to calls followed by end_draw close it
      with one end. */
  lemma {:induction false} OpenPolyline(q: seq<Point>, rest: seq<Command>)
    ensures Bracketed(DrawTos(q) + [EndCmd] + rest, true) == Bracketed(rest, false)
    ensures Ends(DrawTos(q) + [EndCmd]) == 1
    decreases |q|
  {
    var cs := DrawTos(q) + [EndCmd] + rest;
    if q == [] {
      assert cs == [EndCmd] + rest;
      assert cs[1..] == rest;
      assert Ends(DrawTos(q) + [EndCmd]) == 1 + Ends([]);
    } else {
      assert cs[0] == DrawToCmd(q[0]);
      assert cs[1..] == DrawTos(q[1..]) + [EndCmd] + rest;
      OpenPolyline(q[1..], rest);
      assert (DrawTos(q) + [EndCmd])[1..] == DrawTos(q[1..]) + [EndCmd];
    }
  }

  /** Drawing one polyline opens and closes it with exactly one end_draw. */
  lemma PolylineBracketed(p: seq<Point>, rest: seq<Command>)
    requires |p| >= 1
    ensures Bracketed(PolylineCommands(p) + rest, false) == Bracketed(rest, false)
    ensures Ends(PolylineCommands(p)) == 1
  {
    var cs := PolylineCommands(p) + rest;
    assert cs[1..] == DrawTos(p[1..]) + [EndCmd] + rest;
    OpenPolyline(p[1..], rest);
    assert PolylineCommands(p)[1..] == DrawTos(p[1..]) + [EndCmd];
  }

  /** Drawing polylines one after the other alternates begin_draw and
      end_draw strictly, with one end_draw per polyline. */
  lemma {:induction false} CommandsBracketed(polys: seq<seq<Point>>)
    requires NonEmpty(polys)
    ensures Bracketed(Commands(polys), false)
    ensures Ends(Commands(polys)) == |polys|
  {
    if polys != [] {
      CommandsBracketed(polys[1..]);
      PolylineBracketed(polys[0], Commands(polys[1..]));
      EndsAppend(PolylineCommands(polys[0]), Commands(polys[1..]));
    }
  }

  lemma {:induction false} CommandsAppend(a: seq<seq<Point>>, b: seq<seq<Point>>)
    requires NonEmpty(a) && NonEmpty(b)
    ensures NonEmpty(a + b) && Commands(a + b) == Commands(a) + Commands(b)
    decreases |a|
  {
    assert NonEmpty(a + b) by {
      forall k | 0 <= k < |a + b| ensures |(a + b)[k]| >= 1 {
        if k < |a| { assert (a + b)[k] == a[k]; } else { assert (a + b)[k] == b[k - |a|]; }
      }
    }
    if a != [] {
      assert (a + b)[0] == a[0];
      assert (a + b)[1..] == a[1..] + b;
      CommandsAppend(a[1..], b);
    } else {
      assert a + b == b;
    }
  }

  lemma NonEmptyCons(p: seq<Point>, rest: seq<seq<Point>>)
    requires |p| >= 1 && NonEmpty(rest)
    ensures NonEmpty([p] + rest)
  {
    forall k | 0 <= k < |[p] + rest| ensures |([p] + rest)[k]| >= 1 {
      if k > 0 { assert ([p] + rest)[k] == rest[k - 1]; }
    }
  }

  // ---------------------------------------------------------------------
  // draw_line, draw_box and draw_wheel

  function LineShape(x0: real, y0: real, x1: real, y1: real): seq<seq<Point>>
  {
    [[Point(x0, y0), Point(x1, y1)]]
  }

  function BoxShape(x: real, y: real, w: real, h: real): seq<seq<Point>>
  {
    [[Point(x, y), Point(x + w, y), Point(x + w, y + h), Point(x, y + h), Point(x, y)]]
  }

  /** A spoke of the wheel: a line through the centre at angle th, sr long
      on each side. */
  function Spoke(x: real, y: real, sr: real, th: real, lm: Libm): seq<Point>
  {
    [Point(x + sr * lm.sin(th), y - sr * lm.cos(th)), Point(x - sr * lm.sin(th), y + sr * lm.cos(th))]
  }

  /** The point at angle th on the circle of radius r around (x, y). */
  function WheelPoint(x: real, y: real, r: real, th: real, lm: Libm): Point
  {
    Point(x + r * lm.sin(th), y - r * lm.cos(th))
  }

  /** The angle of the rim point the k-th iteration of the rim loop draws to. */
  function RimAngle(angle: real, k: nat): real
  {
    angle + (k as real) * (Pi / 4.0) + Pi / 4.0
  }

  /** The rim point at the wheel's angle and the first n points the rim
      loop draws to. */
  function RimPoints(x: real, y: real, r: real, angle: real, lm: Libm, n: nat): (ps: seq<Point>)
    ensures |ps| == n + 1 && ps[0] == WheelPoint(x, y, r, angle, lm)
  {
    if n == 0 then [WheelPoint(x, y, r, angle, lm)]
    else RimPoints(x, y, r, angle, lm, n - 1) + [WheelPoint(x, y, r, RimAngle(angle, n - 1), lm)]
  }

  /** The closed rim: eight steps of 45 degrees. */
  function Rim(x: real, y: real, r: real, angle: real, lm: Libm): seq<Point>
  {
    RimPoints(x, y, r, angle, lm, 8)
  }

  /** Four spokes of half-length sr, 45 degrees apart from angle. */
  function Spokes(angle: real, x: real, y: real, sr: real, lm: Libm): seq<seq<Point>>
  {
    [Spoke(x, y, sr, angle, lm), Spoke(x, y, sr, angle + Pi / 4.0, lm),
     Spoke(x, y, sr, angle + Pi / 2.0, lm), Spoke(x, y, sr, angle + 3.0 * Pi / 4.0, lm)]
  }

  /** Four spokes, 2 units shorter than the radius, then the rim. */
  function WheelShape(angle: real, x: real, y: real, radius: real, lm: Libm): seq<seq<Point>>
  {
    Spokes(angle, x, y, radius - 2.0, lm) + [Rim(x, y, radius, angle, lm)]
  }

  /** draw_line draws one two-point polyline, draw_box one closed five-point
      polyline, and draw_wheel four two-point spokes before a nine-point
      rim; all of them alternate begin_draw and end_draw strictly, one
      end_draw per polyline. */
  lemma HelperShapes(x0: real, y0: real, x1: real, y1: real, w: real, h: real, angle: real, radius: real, lm: Libm)
    ensures var line, box, wheel := LineShape(x0, y0, x1, y1), BoxShape(x0, y0, w, h), WheelShape(angle, x0, y0, radius, lm);
      && NonEmpty(line) && NonEmpty(box) && NonEmpty(wheel)
      && Commands(line) == [BeginCmd(Point(x0, y0)), DrawToCmd(Point(x1, y1)), EndCmd]
      && |box| == 1 && |box[0]| == 5 && box[0][0] == box[0][4]
      && |wheel| == 5 && (forall k :: 0 <= k < 4 ==> |wheel[k]| == 2) && |wheel[4]| == 9
      && Bracketed(Commands(line), false) && Ends(Commands(line)) == 1
      && Bracketed(Commands(box), false) && Ends(Commands(box)) == 1
      && Bracketed(Commands(wheel), false) && Ends(Commands(wheel)) == 5
  {
    var line, box, wheel := LineShape(x0, y0, x1, y1), BoxShape(x0, y0, w, h), WheelShape(angle, x0, y0, radius, lm);
    CommandsBracketed(line);
    CommandsBracketed(box);
    CommandsBracketed(wheel);
    assert Commands(line) == PolylineCommands(line[0]) + Commands([]);
    assert line[0][1..] == [Point(x1, y1)];
  }

  /** The box the tessellator receives is closed: its first and last points
      coincide, so end_draw treats its wraparound joint as a candidate for
      a connection and gives it no cap when the turn is joinable. */
  lemma BoxIsClosed(x: real, y: real, w: real, h: real)
    ensures FirstLastSame(BoxShape(x, y, w, h)[0])
  {
    FirstLastSameMeans(BoxShape(x, y, w, h)[0]);
  }

  /** vector_shape_draw_line. */
  method DrawLine(d: Display, x0: real, y0: real, x1: real, y1: real, lm: Libm) returns (rc: int)
    requires d.Valid() && d.pendingN == 0 && CosPositive(lm)
    modifies d, d.points, d.pending
    ensures d.Valid() && rc == 0 && d.pendingN == 0 && d.pending == old(d.pending)
    ensures d.log == old(d.log) + Commands(LineShape(x0, y0, x1, y1))
    ensures d.Vertices() == old(d.Vertices()) + Tessellations(LineShape(x0, y0, x1, y1), d.thickness, d.CurrentColor(), lm)
    ensures d.points == old(d.points) || fresh(d.points)
    ensures d.Config() == old(d.Config()) && d.SameRing()
  {
    ghost var p := LineShape(x0, y0, x1, y1)[0];
    OnePolyline(old(d.log), p, d.thickness, d.CurrentColor(), lm);
    assert DrawTos(p[1..]) == [DrawToCmd(Point(x1, y1))];
    rc := d.BeginDraw(x0, y0);
    rc := d.DrawTo(x1, y1);
    assert d.Pending() == p;
    rc := d.EndDraw(lm);
    rc := 0;
  }

  /** The calls and vertices of a single polyline. */
  lemma OnePolyline(log: seq<Command>, p: seq<Point>, t: real, c: Color, lm: Libm)
    requires |p| >= 1 && CosPositive(lm)
    ensures NonEmpty([p]) && log + [BeginCmd(p[0])] + DrawTos(p[1..]) + [EndCmd] == log + Commands([p])
    ensures Tessellations([p], t, c, lm) == Tessellation(p, t, c, lm)
  {
    assert Commands([p]) == PolylineCommands(p) + Commands([]);
    assert log + [BeginCmd(p[0])] + DrawTos(p[1..]) + [EndCmd] == log + ([BeginCmd(p[0])] + DrawTos(p[1..]) + [EndCmd]);
    assert Tessellations([p], t, c, lm) == Tessellation(p, t, c, lm) + Tessellations([], t, c, lm);
  }

  /** The pen strokes of vector_shape_draw_box: begin_draw at the corner
      (x, y), then draw_to round the other three corners and back. */
  method TraceBox(d: Display, x: real, y: real, w: real, h: real)
    requires d.Valid() && d.pendingN == 0
    modifies d, d.pending
    ensures d.Valid() && d.pending == old(d.pending)
    ensures d.Pending() == BoxShape(x, y, w, h)[0]
    ensures d.log == old(d.log) + [BeginCmd(Point(x, y))] + DrawTos(BoxShape(x, y, w, h)[0][1..])
    ensures d.Config() == old(d.Config()) && d.SameVertices() && d.SameRing()
  {
    ghost var box := BoxShape(x, y, w, h)[0];
    BoxStrokes(d.log, x, y, w, h);
    var rc := d.BeginDraw(x, y);
    rc := d.DrawTo(x + w, y);
    assert d.Pending() == box[..2];
    rc := d.DrawTo(x + w, y + h);
    assert d.Pending() == box[..3];
    rc := d.DrawTo(x, y + h);
    assert d.Pending() == box[..4];
    rc := d.DrawTo(x, y);
  }

  /** The four draw_to calls after begin_draw are the box's draw_tos. */
  lemma BoxStrokes(log: seq<Command>, x: real, y: real, w: real, h: real)
    ensures log + [BeginCmd(Point(x, y))] + [DrawToCmd(Point(x + w, y))] + [DrawToCmd(Point(x + w, y + h))]
              + [DrawToCmd(Point(x, y + h))] + [DrawToCmd(Point(x, y))]
         == log + [BeginCmd(Point(x, y))] + DrawTos(BoxShape(x, y, w, h)[0][1..])
  {
    var box := BoxShape(x, y, w, h)[0];
    assert DrawTos(box[1..]) == [DrawToCmd(box[1]), DrawToCmd(box[2]), DrawToCmd(box[3]), DrawToCmd(box[4])];
  }

  /** vector_shape_draw_box: the traced box, then end_draw. */
  method DrawBox(d: Display, x: real, y: real, w: real, h: real, lm: Libm) returns (rc: int)
    requires d.Valid() && d.pendingN == 0 && CosPositive(lm)
    modifies d, d.points, d.pending
    ensures d.Valid() && rc == 0 && d.pendingN == 0 && d.pending == old(d.pending)
    ensures d.log == old(d.log) + Commands(BoxShape(x, y, w, h))
    ensures d.Vertices() == old(d.Vertices()) + Tessellations(BoxShape(x, y, w, h), d.thickness, d.CurrentColor(), lm)
    ensures d.points == old(d.points) || fresh(d.points)
    ensures d.Config() == old(d.Config()) && d.SameRing()
  {
    OnePolyline(old(d.log), BoxShape(x, y, w, h)[0], d.thickness, d.CurrentColor(), lm);
    TraceBox(d, x, y, w, h);
    rc := d.EndDraw(lm);
    rc := 0;
  }

  /** One more polyline drawn after others: the calls of the longer list. */
  lemma CommandsOneMore(done: seq<seq<Point>>, p: seq<Point>)
    requires NonEmpty(done) && |p| >= 1
    ensures NonEmpty(done + [p])
    ensures Commands(done + [p]) == Commands(done) + PolylineCommands(p)
  {
    CommandsAppend(done, [p]);
    assert Commands([p]) == PolylineCommands(p) + Commands([]);
  }

  /** The rim strokes of vector_shape_draw_wheel: begin_draw at the wheel's
      angle, then draw_to in steps of 45 degrees while the edge angle stays
      below 2 pi - 0.001, which is 8 times. */
  method TraceRim(d: Display, angle: real, x: real, y: real, radius: real, lm: Libm)
    requires d.Valid() && d.pendingN == 0
    modifies d, d.pending
    ensures d.Valid() && d.pending == old(d.pending)
    ensures d.log == old(d.log) + [BeginCmd(Rim(x, y, radius, angle, lm)[0])] + DrawTos(Rim(x, y, radius, angle, lm)[1..])
    ensures d.Config() == old(d.Config()) && d.SameVertices() && d.SameRing()
  {
    var edgeangle := 0.0;
    var angadjust := 0.0;
    var p := WheelPoint(x, y, radius, angle + edgeangle + angadjust, lm);
    var rc := d.BeginDraw(p.x, p.y);
    assert angle + edgeangle + angadjust == angle;
    ghost var log0 := d.log;
    ghost var k: nat := 0;
    while edgeangle < 2.0 * Pi - 0.001
      invariant k <= 8 && edgeangle == (k as real) * (Pi / 4.0)
      invariant d.Valid() && d.pendingN == k + 1 && d.pending == old(d.pending)
      invariant d.log == log0 + DrawTos(RimPoints(x, y, radius, angle, lm, k)[1..])
      invariant d.Config() == old(d.Config()) && d.SameVertices() && d.SameRing()
      decreases 8 - k
    {
      edgeangle, k := DrawRimPoint(d, x, y, radius, angle, edgeangle, angadjust, lm, k, log0);
    }
    RimLoopBound(k);
  }

  /** The rim loop's test edgeangle < 2 pi - 0.001 holds for the first 8
      multiples of 45 degrees and fails at the ninth. */
  lemma RimLoopBound(k: nat)
    requires k <= 8
    ensures ((k as real) * (Pi / 4.0) < 2.0 * Pi - 0.001) == (k < 8)
  {
  }

  /** One pass of the rim loop: draw_to the next rim point, then add 45
      degrees to the edge angle. */
  method DrawRimPoint(d: Display, x: real, y: real, radius: real, angle: real, edgeangle: real, angadjust: real,
                      lm: Libm, ghost k: nat, ghost log0: seq<Command>)
    returns (edgeangle': real, ghost k': nat)
    requires k <= 8 && edgeangle == (k as real) * (Pi / 4.0) && angadjust == 0.0
    requires edgeangle < 2.0 * Pi - 0.001
    requires d.Valid() && d.pendingN == k + 1
    requires d.log == log0 + DrawTos(RimPoints(x, y, radius, angle, lm, k)[1..])
    modifies d, d.pending
    ensures k' == k + 1 <= 8 && edgeangle' == (k' as real) * (Pi / 4.0)
    ensures d.Valid() && d.pendingN == k' + 1 && d.pending == old(d.pending)
    ensures d.log == log0 + DrawTos(RimPoints(x, y, radius, angle, lm, k')[1..])
    ensures d.Config() == old(d.Config()) && d.SameVertices() && d.SameRing()
  {
    RimLoopBound(k);
    var p := NextRimPoint(x, y, radius, angle, edgeangle, angadjust, lm, k);
    var rc := d.DrawTo(p.x, p.y);
    DrawTosSnoc(log0, RimPoints(x, y, radius, angle, lm, k)[1..], p);
    edgeangle' := edgeangle + Pi / 4.0;
    k' := k + 1;
  }

  /** The point the rim loop draws to next: on the circle at the rim angle
      after edge angle k * 45 degrees, extending the rim's points by one. */
  method NextRimPoint(x: real, y: real, radius: real, angle: real, edgeangle: real, angadjust: real, lm: Libm, ghost k: nat) returns (p: Point)
    requires edgeangle == (k as real) * (Pi / 4.0) && angadjust == 0.0
    ensures RimPoints(x, y, radius, angle, lm, k + 1)[1..] == RimPoints(x, y, radius, angle, lm, k)[1..] + [p]
  {
    assert angle + edgeangle + Pi / 4.0 - angadjust == RimAngle(angle, k);
    p := WheelPoint(x, y, radius, angle + edgeangle + Pi / 4.0 - angadjust, lm);
    RimStep(x, y, radius, angle, lm, k);
  }

  lemma DrawTosSnoc(log: seq<Command>, p: seq<Point>, q: Point)
    ensures log + DrawTos(p) + [DrawToCmd(q)] == log + DrawTos(p + [q])
  {
    assert DrawTos(p + [q]) == DrawTos(p) + [DrawToCmd(q)];
  }

  /** The rim loop's next point extends the points drawn to so far. */
  lemma RimStep(x: real, y: real, r: real, angle: real, lm: Libm, k: nat)
    ensures RimPoints(x, y, r, angle, lm, k + 1)[1..]
         == RimPoints(x, y, r, angle, lm, k)[1..] + [WheelPoint(x, y, r, RimAngle(angle, k), lm)]
  {
    var before := RimPoints(x, y, r, angle, lm, k);
    assert (before + [WheelPoint(x, y, r, RimAngle(angle, k), lm)])[1..]
        == before[1..] + [WheelPoint(x, y, r, RimAngle(angle, k), lm)];
  }

  /** The line draw_line draws between two points is the two-point
      polyline. */
  lemma SpokeLine(a: Point, b: Point, p: seq<Point>)
    requires |p| == 2 && p[0] == a && p[1] == b
    ensures Commands(LineShape(a.x, a.y, b.x, b.y)) == PolylineCommands(p)
  {
    assert p == [Point(a.x, a.y), Point(b.x, b.y)];
    assert Commands([p]) == PolylineCommands(p) + Commands([]);
  }

  /** The ends of a spoke as draw_wheel computes them. */
  method SpokeEnds(x: real, y: real, sr: real, th: real, lm: Libm) returns (a: Point, b: Point)
    ensures |Spoke(x, y, sr, th, lm)| == 2 && a == Spoke(x, y, sr, th, lm)[0] && b == Spoke(x, y, sr, th, lm)[1]
  {
    a := Point(x + sr * lm.sin(th), y - sr * lm.cos(th));
    b := Point(x - sr * lm.sin(th), y + sr * lm.cos(th));
  }

  /** One spoke of vector_shape_draw_wheel: a draw_line call between the
      two points at distance sr from the centre along angle th. */
  method DrawSpoke(d: Display, x: real, y: real, sr: real, th: real, lm: Libm)
    requires d.Valid() && d.pendingN == 0 && CosPositive(lm)
    modifies d, d.points, d.pending
    ensures d.Valid() && d.pendingN == 0 && d.pending == old(d.pending)
    ensures d.log == old(d.log) + PolylineCommands(Spoke(x, y, sr, th, lm))
    ensures d.points == old(d.points) || fresh(d.points)
    ensures d.Config() == old(d.Config()) && d.SameRing()
  {
    var a, b := SpokeEnds(x, y, sr, th, lm);
    SpokeLine(a, b, Spoke(x, y, sr, th, lm));
    var rc := DrawLine(d, a.x, a.y, b.x, b.y, lm);
  }

  /** The four spokes of vector_shape_draw_wheel, 45 degrees apart from the
      wheel's angle, 2 units shorter than the radius. */
  method DrawSpokes(d: Display, angle: real, x: real, y: real, radius: real, lm: Libm)
    requires d.Valid() && d.pendingN == 0 && CosPositive(lm)
    modifies d, d.points, d.pending
    ensures d.Valid() && d.pendingN == 0 && d.pending == old(d.pending)
    ensures d.log == old(d.log) + Commands(Spokes(angle, x, y, radius - 2.0, lm))
    ensures d.points == old(d.points) || fresh(d.points)
    ensures d.Config() == old(d.Config()) && d.SameRing()
  {
    var spokeradius := radius - 2.0;
    SpokesCommands(old(d.log), angle, x, y, spokeradius, lm);
    DrawSpoke(d, x, y, spokeradius, angle, lm);
    DrawSpoke(d, x, y, spokeradius, angle + Pi / 4.0, lm);
    DrawSpoke(d, x, y, spokeradius, angle + Pi / 2.0, lm);
    DrawSpoke(d, x, y, spokeradius, angle + 3.0 * Pi / 4.0, lm);
  }

  /** The calls for the four spokes, one polyline after another. */
  lemma SpokesCommands(log: seq<Command>, angle: real, x: real, y: real, sr: real, lm: Libm)
    ensures log + PolylineCommands(Spoke(x, y, sr, angle, lm)) + PolylineCommands(Spoke(x, y, sr, angle + Pi / 4.0, lm))
          + PolylineCommands(Spoke(x, y, sr, angle + Pi / 2.0, lm)) + PolylineCommands(Spoke(x, y, sr, angle + 3.0 * Pi / 4.0, lm))
         == log + Commands(Spokes(angle, x, y, sr, lm))
  {
    var s := Spokes(angle, x, y, sr, lm);
    assert s[3..][1..] == [];
    assert Commands(s[3..]) == PolylineCommands(s[3]);
    assert s[2..][1..] == s[3..];
    assert Commands(s[2..]) == PolylineCommands(s[2]) + Commands(s[3..]);
    assert s[1..][1..] == s[2..];
    assert Commands(s[1..]) == PolylineCommands(s[1]) + Commands(s[2..]);
    assert Commands(s) == PolylineCommands(s[0]) + PolylineCommands(s[1]) + PolylineCommands(s[2]) + PolylineCommands(s[3]);
  }

  /** The rim of vector_shape_draw_wheel: its strokes, then end_draw. */
  method DrawRim(d: Display, angle: real, x: real, y: real, radius: real, lm: Libm)
    requires d.Valid() && d.pendingN == 0 && CosPositive(lm)
    modifies d, d.points, d.pending
    ensures d.Valid() && d.pendingN == 0 && d.pending == old(d.pending)
    ensures d.log == old(d.log) + PolylineCommands(Rim(x, y, radius, angle, lm))
    ensures d.points == old(d.points) || fresh(d.points)
    ensures d.Config() == old(d.Config()) && d.SameRing()
  {
    TraceRim(d, angle, x, y, radius, lm);
    var rc := d.EndDraw(lm);
  }

  /** vector_shape_draw_wheel: four spokes, then the traced rim and
      end_draw. */
  method DrawWheel(d: Display, angle: real, x: real, y: real, radius: real, lm: Libm) returns (rc: int)
    requires d.Valid() && d.pendingN == 0 && CosPositive(lm)
    modifies d, d.points, d.pending
    ensures d.Valid() && rc == 0 && d.pendingN == 0 && d.pending == old(d.pending)
    ensures d.log == old(d.log) + Commands(WheelShape(angle, x, y, radius, lm))
    ensures d.points == old(d.points) || fresh(d.points)
    ensures d.Config() == old(d.Config()) && d.SameRing()
  {
    WheelCommands(old(d.log), angle, x, y, radius, lm);
    DrawSpokes(d, angle, x, y, radius, lm);
    DrawRim(d, angle, x, y, radius, lm);
    rc := 0;
  }

  /** The calls for the wheel: the spokes' polylines, then the rim's. */
  lemma WheelCommands(log: seq<Command>, angle: real, x: real, y: real, radius: real, lm: Libm)
    ensures log + Commands(Spokes(angle, x, y, radius - 2.0, lm)) + PolylineCommands(Rim(x, y, radius, angle, lm))
         == log + Commands(WheelShape(angle, x, y, radius, lm))
  {
    CommandsOneMore(Spokes(angle, x, y, radius - 2.0, lm), Rim(x, y, radius, angle, lm));
  }

  // ---------------------------------------------------------------------
  // draw_shape

  /** Where draw_shape puts a shape: its scale (sx, sy), the cosine and sine
      of its rotation, and the position (x, y) of its origin. */
  datatype Placement = Placement(x: real, y: real, sx: real, sy: real, cs: real, sn: real)

  /** A shape point scaled, rotated and moved into place. */
  function Transform(px: real, py: real, pl: Placement): Point
  {
    var xx := px * pl.sx;
    var yy := py * pl.sy;
    var rx := xx * pl.cs - yy * pl.sn;
    var ry := xx * pl.sn + yy * pl.cs;
    Point(rx + pl.x, ry + pl.y)
  }


  /** The vertex count at index i, converted to int by truncation. */
  function Count(data: seq<real>, i: nat): int
    requires i < |data|
  {
    Trunc(data[i])
  }

  /** The number of points a record with count n draws: draw_shape reads
      and draws its first pair whatever the count, then one more pair for
      each further count. */
  function RecordLength(n: int): (k: nat)
    ensures k >= 1 && k >= n
    ensures n >= 1 ==> k == n
  {
    if n >= 1 then n else 1
  }

  /** While total is positive, every read draw_shape makes from index i on
      lies inside the data: the count, then the pairs of that record, then
      the records after it with the count taken off the total. A count of
      0 or below still draws one point and leaves the total as it is or
      raises it; the index always moves on, so the data's length bounds the
      recursion. */
  predicate Decodable(data: seq<real>, i: nat, total: int)
    decreases |data| - i
  {
    total <= 0 ||
    (i < |data| && i + 1 + 2 * RecordLength(Count(data, i)) <= |data|
     && Decodable(data, i + 1 + 2 * RecordLength(Count(data, i)), total - Count(data, i)))
  }

  /** The n placed points whose coordinates start at index i. */
  function RecordPoints(data: seq<real>, i: nat, n: nat, pl: Placement): (p: seq<Point>)
    requires i + 2 * n <= |data|
    ensures |p| == n
  {
    seq(n, j requires 0 <= j < n => Transform(data[i + 2 * j], data[i + 2 * j + 1], pl))
  }

  /** The polylines of the records from index i on, while total stays
      positive; each record takes its count off the total. */
  function ShapePolylines(data: seq<real>, i: nat, total: int, pl: Placement): (polys: seq<seq<Point>>)
    requires Decodable(data, i, total)
    ensures NonEmpty(polys)
    decreases |data| - i
  {
    if total <= 0 then []
    else
      var n := Count(data, i);
      var k := RecordLength(n);
      var rest := ShapePolylines(data, i + 1 + 2 * k, total - n, pl);
      NonEmptyCons(RecordPoints(data, i + 1, k, pl), rest);
      [RecordPoints(data, i + 1, k, pl)] + rest
  }

  /** A shape: the total point count, then the records. */
  predicate IsShape(data: seq<real>)
  {
    |data| >= 1 && Decodable(data, 1, Trunc(data[0]))
  }

  function ShapeOf(data: seq<real>, pl: Placement): seq<seq<Point>>
    requires IsShape(data)
  {
    ShapePolylines(data, 1, Trunc(data[0]), pl)
  }

  /** While the total is positive, the count at index i and the pairs of
      its record lie inside the data. */
  lemma RecordBounds(data: seq<real>, i: nat, total: int)
    requires Decodable(data, i, total) && total > 0
    ensures i < |data| && i + 1 + 2 * RecordLength(Count(data, i)) <= |data|
  {
  }

  /** One step of draw_shape's outer loop on the model: the record at index
      i is well formed, and its polyline joins those drawn before it. */
  lemma ShapeStep(data: seq<real>, i: nat, total: int, pl: Placement, done: seq<seq<Point>>, whole: seq<seq<Point>>,
                  n: int, p: seq<Point>, next: nat, total': int, done': seq<seq<Point>>, log0: seq<Command>)
    requires Decodable(data, i, total) && total > 0
    requires NonEmpty(done) && done + ShapePolylines(data, i, total, pl) == whole
    requires i < |data| && n == Count(data, i) && i + 1 + 2 * RecordLength(n) <= |data|
    requires p == RecordPoints(data, i + 1, RecordLength(n), pl)
    requires next == i + 1 + 2 * RecordLength(n) && total' == total - n && done' == done + [p]
    ensures Decodable(data, next, total')
    ensures NonEmpty(done')
    ensures done' + ShapePolylines(data, next, total', pl) == whole
    ensures log0 + Commands(done) + PolylineCommands(p) == log0 + Commands(done')
  {
    var rest := ShapePolylines(data, next, total', pl);
    assert ShapePolylines(data, i, total, pl) == [p] + rest;
    assert done + [p] + rest == done + ([p] + rest);
    CommandsOneMore(done, p);
    assert log0 + Commands(done) + PolylineCommands(p) == log0 + (Commands(done) + PolylineCommands(p));
  }

  /** vector_shape_draw_shape: for each record, begin_draw at its first
      placed point, draw_to each further one, and end_draw, until the
      counts have used up the total. */
  method DrawShape(d: Display, data: seq<real>, x: real, y: real, sx: real, sy: real, angle: real, lm: Libm)
    returns (rc: int)
    requires d.Valid() && d.pendingN == 0 && CosPositive(lm) && IsShape(data)
    modifies d, d.points, d.pending
    ensures d.Valid() && rc == 0 && d.pendingN == 0
    ensures d.log == old(d.log) + Commands(ShapeOf(data, Placement(x, y, sx, sy, lm.cos(angle), lm.sin(angle))))
    ensures d.pending == old(d.pending) || fresh(d.pending)
    ensures d.points == old(d.points) || fresh(d.points)
    ensures d.Config() == old(d.Config()) && d.SameRing()
  {
    var cs := lm.cos(angle);
    var sn := lm.sin(angle);
    var pl := Placement(x, y, sx, sy, cs, sn);
    var i: nat := 0;
    var total := Trunc(data[i]);
    i := i + 1;
    ghost var done: seq<seq<Point>> := [];
    while total > 0
      invariant i <= |data| && Decodable(data, i, total)
      invariant NonEmpty(done) && done + ShapePolylines(data, i, total, pl) == ShapeOf(data, pl)
      invariant d.Valid() && d.pendingN == 0
      invariant d.pending == old(d.pending) || fresh(d.pending)
      invariant d.points == old(d.points) || fresh(d.points)
      invariant d.Config() == old(d.Config()) && d.SameRing()
      invariant d.log == old(d.log) + Commands(done)
      decreases |data| - i
    {
      i, total, done := DrawShapeRecord(d, data, i, total, pl, lm, done, ShapeOf(data, pl), old(d.log));
    }
    assert done + [] == done;
    rc := 0;
  }

  /** One pass of draw_shape's outer loop: reads the point count at index i
      and draws that record; the polylines drawn so far grow by its one. */
  method DrawShapeRecord(d: Display, data: seq<real>, i: nat, total: int, pl: Placement, lm: Libm,
                         ghost done: seq<seq<Point>>, ghost whole: seq<seq<Point>>, ghost log0: seq<Command>)
    returns (i': nat, total': int, ghost done': seq<seq<Point>>)
    requires Decodable(data, i, total) && total > 0
    requires NonEmpty(done) && done + ShapePolylines(data, i, total, pl) == whole
    requires d.Valid() && d.pendingN == 0 && CosPositive(lm) && d.log == log0 + Commands(done)
    modifies d, d.points, d.pending
    ensures i < i' <= |data| && Decodable(data, i', total') && total' == total - Count(data, i)
    ensures NonEmpty(done') && done' + ShapePolylines(data, i', total', pl) == whole
    ensures d.Valid() && d.pendingN == 0
    ensures d.log == log0 + Commands(done')
    ensures d.pending == old(d.pending) || fresh(d.pending)
    ensures d.points == old(d.points) || fresh(d.points)
    ensures d.Config() == old(d.Config()) && d.SameRing()
  {
    RecordBounds(data, i, total);
    var vcnt := Count(data, i);
    ghost var p := RecordPoints(data, i + 1, RecordLength(vcnt), pl);
    i' := DrawRecord(d, data, i + 1, vcnt, pl, lm);
    total' := total - vcnt;
    done' := done + [p];
    ShapeStep(data, i, total, pl, done, whole, vcnt, p, i', total', done', log0);
  }

  /** One record of draw_shape with count n: begin_draw at the first placed
      point whose coordinates start at index i, draw_to each further one
      while j < n, end_draw; returns the index after the record. */
  method DrawRecord(d: Display, data: seq<real>, i: nat, n: int, pl: Placement, lm: Libm) returns (next: nat)
    requires d.Valid() && d.pendingN == 0 && CosPositive(lm)
    requires i + 2 * RecordLength(n) <= |data|
    modifies d, d.points, d.pending
    ensures next == i + 2 * RecordLength(n)
    ensures d.Valid() && d.pendingN == 0
    ensures d.log == old(d.log) + PolylineCommands(RecordPoints(data, i, RecordLength(n), pl))
    ensures d.pending == old(d.pending) || fresh(d.pending)
    ensures d.points == old(d.points) || fresh(d.points)
    ensures d.Config() == old(d.Config()) && d.SameRing()
  {
    ghost var p := RecordPoints(data, i, RecordLength(n), pl);
    next := i;
    var q := PlacedPoint(data, next, pl);
    assert q == p[0];
    var rc := d.BeginDraw(q.x, q.y);
    next := next + 2;
    var j := 1;
    while j < n
      invariant 1 <= j <= RecordLength(n) && next == i + 2 * j
      invariant d.Valid()
      invariant d.pending == old(d.pending) || fresh(d.pending)
      invariant d.points == old(d.points)
      invariant d.Config() == old(d.Config()) && d.SameRing()
      invariant d.log == old(d.log) + [BeginCmd(p[0])] + DrawTos(p[1..j])
    {
      DrawRecordPoint(d, data, i, RecordLength(n), j, pl, old(d.log), p);
      j := j + 1;
      next := next + 2;
    }
    assert p[1..j] == p[1..];
    PolylineLog(old(d.log), p);
    rc := d.EndDraw(lm);
  }

  lemma PolylineLog(log: seq<Command>, p: seq<Point>)
    requires |p| >= 1
    ensures log + [BeginCmd(p[0])] + DrawTos(p[1..]) + [EndCmd] == log + PolylineCommands(p)
  {
  }

  /** One iteration of the inner loop of draw_shape: draw_to the j-th placed
      point of the record whose coordinates start at index i. */
  method DrawRecordPoint(d: Display, data: seq<real>, i: nat, n: nat, j: nat, pl: Placement,
                         ghost log0: seq<Command>, ghost p: seq<Point>)
    requires d.Valid() && 1 <= j < n && i + 2 * n <= |data| && p == RecordPoints(data, i, n, pl)
    requires d.log == log0 + [BeginCmd(p[0])] + DrawTos(p[1..j])
    modifies d, d.pending
    ensures d.Valid() && d.points == old(d.points)
    ensures d.pending == old(d.pending) || fresh(d.pending)
    ensures d.Config() == old(d.Config()) && d.SameRing()
    ensures d.log == log0 + [BeginCmd(p[0])] + DrawTos(p[1..j + 1])
  {
    var q := PlacedPoint(data, i + 2 * j, pl);
    assert q == p[j];
    var rc := d.DrawTo(q.x, q.y);
    assert p[1..j + 1] == p[1..j] + [p[j]];
    DrawTosSnoc(log0 + [BeginCmd(p[0])], p[1..j], p[j]);
  }

  /** The statements of draw_shape that read the pair at index k and place
      it: scale, rotate, move. */
  method PlacedPoint(data: seq<real>, k: nat, pl: Placement) returns (q: Point)
    requires k + 1 < |data|
    ensures q == Transform(data[k], data[k + 1], pl)
  {
    var xx := data[k] * pl.sx;
    var yy := data[k + 1] * pl.sy;
    var rx := xx * pl.cs - yy * pl.sn;
    var ry := xx * pl.sn + yy * pl.cs;
    q := Point(rx + pl.x, ry + pl.y);
  }

  // ---------------------------------------------------------------------
  // Shape data for given polylines, and what draw_shape makes of it

  /** The (x, y) pairs of the points, in order. */
  function Coords(p: seq<Point>): (cs: seq<real>)
    ensures |cs| == 2 * |p|
  {
    if p == [] then [] else [p[0].x, p[0].y] + Coords(p[1..])
  }

  /** The records of the polylines: each one's point count, then its pairs. */
  function EncodeRecords(polys: seq<seq<Point>>): seq<real>
  {
    if polys == [] then [] else [|polys[0]| as real] + Coords(polys[0]) + EncodeRecords(polys[1..])
  }

  /** The number of points of all the polylines. */
  function PointCount(polys: seq<seq<Point>>): nat
  {
    if polys == [] then 0 else |polys[0]| + PointCount(polys[1..])
  }

  /** The shape data that draws the polylines: the total count, then the records. */
  function EncodeShape(polys: seq<seq<Point>>): seq<real>
  {
    [PointCount(polys) as real] + EncodeRecords(polys)
  }

  /** The pairs of the points are stored from index i on. */
  predicate PairsAt(data: seq<real>, i: nat, p: seq<Point>)
  {
    i + 2 * |p| <= |data| && forall j :: 0 <= j < |p| ==> data[i + 2 * j] == p[j].x && data[i + 2 * j + 1] == p[j].y
  }

  /** The records of the polylines are stored from index i on. */
  predicate RecordsAt(data: seq<real>, i: nat, polys: seq<seq<Point>>)
    decreases |polys|
  {
    polys == [] ||
    (i < |data| && data[i] == |polys[0]| as real && PairsAt(data, i + 1, polys[0])
     && RecordsAt(data, i + 1 + 2 * |polys[0]|, polys[1..]))
  }

  lemma {:induction false} CoordsAt(p: seq<Point>, j: nat)
    requires j < |p|
    ensures Coords(p)[2 * j] == p[j].x && Coords(p)[2 * j + 1] == p[j].y
    decreases |p|
  {
    if j > 0 {
      CoordsAt(p[1..], j - 1);
    }
  }

  /** The pairs of the points are where Coords puts them. */
  lemma PairsOfCoords(pre: seq<real>, p: seq<Point>, post: seq<real>)
    ensures PairsAt(pre + Coords(p) + post, |pre|, p)
  {
    var data := pre + Coords(p) + post;
    forall j | 0 <= j < |p|
      ensures data[|pre| + 2 * j] == p[j].x && data[|pre| + 2 * j + 1] == p[j].y
    {
      CoordsAt(p, j);
    }
  }

  /** Data that ends with the records of the polylines holds them there. */
  lemma {:induction false} EncodedRecordsAt(pre: seq<real>, polys: seq<seq<Point>>)
    ensures RecordsAt(pre + EncodeRecords(polys), |pre|, polys)
    decreases |polys|
  {
    if polys != [] {
      var p := polys[0];
      var head := pre + [|p| as real];
      var pre' := head + Coords(p);
      assert pre + EncodeRecords(polys) == pre' + EncodeRecords(polys[1..]);
      PairsOfCoords(head, p, EncodeRecords(polys[1..]));
      EncodedRecordsAt(pre', polys[1..]);
    }
  }

  /** The identity placement leaves a point where it is. */
  lemma TransformIdentity(px: real, py: real)
    ensures Transform(px, py, Placement(0.0, 0.0, 1.0, 1.0, 1.0, 0.0)) == Point(px, py)
  {
  }

  /** With no scaling, rotation or offset, a record's points are the pairs
      it holds. */
  lemma RecordPointsAsIs(data: seq<real>, i: nat, p: seq<Point>, id: Placement)
    requires PairsAt(data, i, p) && id == Placement(0.0, 0.0, 1.0, 1.0, 1.0, 0.0)
    ensures RecordPoints(data, i, |p|, id) == p
  {
    var q := RecordPoints(data, i, |p|, id);
    forall j | 0 <= j < |p|
      ensures q[j] == p[j]
    {
      TransformIdentity(data[i + 2 * j], data[i + 2 * j + 1]);
    }
  }

  /** Stored records of polylines with at least one point each can be
      decoded for their point count. */
  lemma {:induction false} RecordsDecodable(data: seq<real>, i: nat, polys: seq<seq<Point>>)
    requires NonEmpty(polys) && RecordsAt(data, i, polys)
    ensures Decodable(data, i, PointCount(polys))
    decreases |polys|
  {
    if polys != [] {
      var n := |polys[0]|;
      assert NonEmpty(polys[1..]);
      RecordsDecodable(data, i + 1 + 2 * n, polys[1..]);
      assert Count(data, i) == n && RecordLength(n) == n;
      assert PointCount(polys) == n + PointCount(polys[1..]);
    }
  }

  /** Stored records decode back to the polylines at the identity placement. */
  lemma {:induction false} RecordsDecode(data: seq<real>, i: nat, polys: seq<seq<Point>>, id: Placement)
    requires NonEmpty(polys) && RecordsAt(data, i, polys) && id == Placement(0.0, 0.0, 1.0, 1.0, 1.0, 0.0)
    ensures Decodable(data, i, PointCount(polys))
    ensures ShapePolylines(data, i, PointCount(polys), id) == polys
    decreases |polys|
  {
    RecordsDecodable(data, i, polys);
    if polys != [] {
      var p := polys[0];
      var j := i + 1 + 2 * |p|;
      var rest := PointCount(polys[1..]);
      assert NonEmpty(polys[1..]);
      RecordsDecode(data, j, polys[1..], id);
      RecordPointsAsIs(data, i + 1, p, id);
      assert Count(data, i) == |p| && RecordLength(|p|) == |p|;
      RecordUnfold(data, i, PointCount(polys), id, |p|, j, rest);
      assert [p] + polys[1..] == polys;
    }
  }

  /** A record with count n at index i followed by decodable data makes the
      data decodable from i, and its polyline comes first. */
  lemma RecordUnfold(data: seq<real>, i: nat, total: int, pl: Placement, n: int, j: nat, rest: int)
    requires i < |data| && Count(data, i) == n && j == i + 1 + 2 * RecordLength(n) && j <= |data|
    requires rest == total - n && total > 0 && Decodable(data, j, rest)
    ensures Decodable(data, i, total)
    ensures ShapePolylines(data, i, total, pl)
         == [RecordPoints(data, i + 1, RecordLength(n), pl)] + ShapePolylines(data, j, rest, pl)
  {
  }

  /** draw_shape round trip: the data made from any polylines (each with at
      least one point) is a shape, and at the identity placement draw_shape
      draws exactly those polylines. */
  lemma ShapeRoundTrip(polys: seq<seq<Point>>)
    requires NonEmpty(polys)
    ensures IsShape(EncodeShape(polys))
    ensures ShapeOf(EncodeShape(polys), Placement(0.0, 0.0, 1.0, 1.0, 1.0, 0.0)) == polys
  {
    var data := EncodeShape(polys);
    EncodedRecordsAt([PointCount(polys) as real], polys);
    assert Trunc(data[0]) == PointCount(polys);
    RecordsDecode(data, 1, polys, Placement(0.0, 0.0, 1.0, 1.0, 1.0, 0.0));
  }

  /** The polylines draw_shape draws hold at least the total count of
      points: the last record may overshoot the total, and a record with a
      count below one draws a point the total does not count, but they never
      fall short. */
  lemma {:induction false} ShapeCovers(data: seq<real>, i: nat, total: int, pl: Placement)
    requires Decodable(data, i, total)
    ensures PointCount(ShapePolylines(data, i, total, pl)) >= total
    decreases |data| - i
  {
    if total > 0 {
      var n := Count(data, i);
      var j := i + 1 + 2 * RecordLength(n);
      var rest := ShapePolylines(data, j, total - n, pl);
      RecordUnfold(data, i, total, pl, n, j, total - n);
      ShapeCovers(data, j, total - n, pl);
      assert ([RecordPoints(data, i + 1, RecordLength(n), pl)] + rest)[1..] == rest;
    }
  }

  /** A record with count 0 draws its one stored point and leaves the total
      as it was, so the loop goes on to the next record: [1, 0, 5, 5, 1, 7, 7]
      is a shape whose polylines are the one-point records at indices 2
      and 5, wherever it is placed. */
  lemma ZeroCountRecord(data: seq<real>, pl: Placement)
    requires data == [1.0, 0.0, 5.0, 5.0, 1.0, 7.0, 7.0]
    ensures IsShape(data)
    ensures ShapeOf(data, pl) == [RecordPoints(data, 2, 1, pl), RecordPoints(data, 5, 1, pl)]
  {
    assert 1.0.Floor == 1 && 0.0.Floor == 0;
    assert Trunc(data[0]) == 1 && Count(data, 1) == 0 && Count(data, 4) == 1;
    assert RecordLength(0) == 1 && RecordLength(1) == 1;
    assert Decodable(data, 7, 0) && ShapePolylines(data, 7, 0, pl) == [];
    RecordUnfold(data, 4, 1, pl, 1, 7, 0);
    RecordUnfold(data, 1, 1, pl, 0, 4, 1);
  }

  /** The same data at the identity placement draws the point (5, 5), then
      the point (7, 7). */
  lemma ZeroCountAsIs(data: seq<real>, id: Placement)
    requires data == [1.0, 0.0, 5.0, 5.0, 1.0, 7.0, 7.0] && id == Placement(0.0, 0.0, 1.0, 1.0, 1.0, 0.0)
    ensures IsShape(data)
    ensures ShapeOf(data, id) == [[Point(5.0, 5.0)], [Point(7.0, 7.0)]]
  {
    ZeroCountRecord(data, id);
    assert PairsAt(data, 2, [Point(5.0, 5.0)]);
    assert PairsAt(data, 5, [Point(7.0, 7.0)]);
    RecordPointsAsIs(data, 2, [Point(5.0, 5.0)], id);
    RecordPointsAsIs(data, 5, [Point(7.0, 7.0)], id);
  }

  /** draw_shape's calls alternate begin_draw and end_draw strictly, one
      end_draw per polyline, and its polylines cover the total count. */
  lemma ShapeCalls(data: seq<real>, pl: Placement)
    requires IsShape(data)
    ensures Bracketed(Commands(ShapeOf(data, pl)), false)
    ensures Ends(Commands(ShapeOf(data, pl))) == |ShapeOf(data, pl)|
    ensures PointCount(ShapeOf(data, pl)) >= Trunc(data[0])
  {
    CommandsBracketed(ShapeOf(data, pl));
    ShapeCovers(data, 1, Trunc(data[0]), pl);
  }
}
