/** The host-side state of a vector display (vector_display.c): the drawing
    parameters, the growable vertex and pending-point buffers, the polyline
    lifecycle that tessellates pending points into textured triangles, and
    the ring of per-frame vertex buffers that update draws with decaying
    alpha. OpenGL objects are not modelled; uploading a buffer is recorded
    as storing the current vertices in its slot. */
module VectorDisplay {
  import opened Tessellate

  const MaxSteps: nat := 60
  const DefaultSteps: nat := 5
  const DefaultDecay: real := 0.8
  const DefaultInitialDecay: real := 0.04
  const DefaultThickness: real := 8.0
  /** Initial capacity of both point buffers. */
  const InitialCapacity: nat := 60

  /** The display calls a shape helper makes, in order. */
  datatype Command = BeginCmd(p: Point) | DrawToCmd(p: Point) | EndCmd

  /** The scalar drawing parameters. */
  datatype Settings = Settings(width: real, height: real, glowWidth: real, glowHeight: real,
                               decay: real, initialDecay: real, thickness: real, color: Color)

  /** One glDrawArrays of update: the ring slot drawn, its alpha and its
      vertex count. */
  datatype DrawCall = DrawCall(slot: nat, alpha: real, count: nat)

  // ---------------------------------------------------------------------
  // normalizef and one pass of the connecting loop of end_draw

  /** normalizef: brings an angle into [-epsilon, 2 pi + epsilon] by whole turns. */
  method Normalizef(a0: real) returns (a: real)
    ensures a == Normalized(a0)
    ensures 0.0 - FltEpsilon <= a <= 2.0 * Pi + FltEpsilon
  {
    a := a0;
    while a > 2.0 * Pi + FltEpsilon
      invariant Reduced(a) == Reduced(a0)
      decreases a.Floor
    {
      a := a - 2.0 * Pi;
    }
    assert a == Reduced(a0);
    while a < 0.0 - FltEpsilon
      invariant Raised(a) == Raised(Reduced(a0))
      decreases (-a).Floor + 1
    {
      a := a + 2.0 * Pi;
    }
    NormalizedProperties(a0);
  }

  /** The tangent computation shared by both joint blocks: t * tan(d / 2)
      for the smaller of the two normalised angle differences. */
  method Shorten(ab: real, ba: real, t: real, lm: Libm) returns (u: real)
    requires CosPositive(lm)
    requires 0.0 - FltEpsilon <= ab && 0.0 - FltEpsilon <= ba && Joinable(ab, ba)
    ensures u == Shortening(ab, ba, t, lm)
  {
    if ab < ba {
      u := t * lm.sin(ab / 2.0) / lm.cos(ab / 2.0);
    } else {
      u := t * lm.sin(ba / 2.0) / lm.cos(ba / 2.0);
    }
  }

  /** The `has_prev` block of the second loop of end_draw. */
  method JoinPrevious(line: Line, pa: real, t: real, lm: Libm) returns (l: Line)
    requires CosPositive(lm)
    ensures l == PrevJoined(line, pa, t, lm)
  {
    l := line;
    if l.hasPrev {
      var pa2a := Normalizef(pa - l.a);
      var a2pa := Normalizef(l.a - pa);
      if a2pa <= Pi / 2.0 + FltEpsilon || pa2a <= Pi / 2.0 + FltEpsilon {
        var u := Shorten(a2pa, pa2a, t, lm);
        l := ShortenStart(l, u);
      } else {
        l := l.(hasPrev := false);
      }
    }
  }

  /** The `has_next` block: the same for the end points and the next line,
      moving against the segment direction. */
  method JoinNext(line: Line, na: real, t: real, lm: Libm) returns (l: Line)
    requires CosPositive(lm)
    ensures l == NextJoined(line, na, t, lm)
  {
    l := line;
    if l.hasNext {
      var na2a := Normalizef(na - l.a);
      var a2na := Normalizef(l.a - na);
      if a2na <= Pi / 2.0 + FltEpsilon || na2a <= Pi / 2.0 + FltEpsilon {
        var u := Shorten(a2na, na2a, t, lm);
        l := ShortenEnd(l, u);
      } else {
        l := l.(hasNext := false);
      }
    }
  }

  /** The body of the second loop of end_draw for one line, whose previous
      line has angle pa and whose next line has angle na: flag the
      connections, shorten the connected ends, and cap the others. */
  method Connect(line: Line, pa: real, na: real, fls: bool, t: real, lm: Libm) returns (l: Line)
    requires CosPositive(lm)
    ensures l == ConnectLine(line, pa, na, fls, t, lm)
  {
    l := line.(hasPrev := !line.isFirst || (line.isFirst && fls),
               hasNext := !line.isLast || (line.isLast && fls));
    var prevAd := Normalizef(l.a - pa);
    var nextAd := Normalizef(l.a - na);
    l := l.(prevAd := prevAd, nextAd := nextAd);
    assert l == Flagged(line, pa, na, fls);
    l := JoinPrevious(l, pa, t, lm);
    l := JoinNext(l, na, t, lm);
    ghost var l3 := l;
    if !l.hasPrev {
      l := StartCap(l, t);
    }
    if !l.hasNext {
      l := EndCap(l, t);
    }
    assert l == Capped(l3, t);
  }

  /** The indices of the lines before and after line i on the ring of n
      lines, as end_draw and draw_lines compute them. */
  method RingNeighbours(i: nat, n: nat) returns (p: nat, q: nat)
    requires i < n
    ensures p == Prev(i, n) && q == Next(i, n)
  {
    p := (n + i - 1) % n;
    q := (i + 1) % n;
    PrevIndex(i, n);
    NextIndex(i, n);
  }

  /** The first loop of end_draw: one line record per consecutive pair of
      the n pending points. */
  method BuildLines(pending: array<Point>, n: nat, t: real, lm: Libm) returns (lines: array<Line>)
    requires 2 <= n <= pending.Length
    ensures fresh(lines)
    ensures lines[..] == InitialLines(pending[..n], t, lm)
  {
    ghost var ls := InitialLines(pending[..n], t, lm);
    lines := new Line[n - 1];
    for i := 1 to n
      invariant lines[..i - 1] == ls[..i - 1]
    {
      lines[i - 1] := InitialLine(pending[i - 1], pending[i], t, lm, i == 1, i == n - 1);
      InitialLinesAt(pending[..n], t, lm, i - 1);
      PrefixStep(lines[..], ls, i - 1);
    }
    assert lines[..] == lines[..n - 1];
  }

  /** The first two loops of end_draw: the lines through the n pending
      points, connected at their joints. */
  method JoinedLines(pending: array<Point>, n: nat, t: real, lm: Libm) returns (lines: array<Line>)
    requires 2 <= n <= pending.Length && CosPositive(lm)
    ensures fresh(lines) && lines.Length >= 1
    ensures lines[..] == Connected(InitialLines(pending[..n], t, lm), FirstLastSame(pending[..n]), t, lm)
  {
    var fls := FirstLastSame(pending[..n]);
    lines := BuildLines(pending, n, t, lm);
    ConnectLines(lines, fls, t, lm);
  }

  /** The second loop of end_draw, in place: each line is connected using
      the angles of its ring neighbours, which the loop never changes. */
  method ConnectLines(lines: array<Line>, fls: bool, t: real, lm: Libm)
    requires lines.Length >= 1 && CosPositive(lm)
    modifies lines
    ensures lines[..] == Connected(old(lines[..]), fls, t, lm)
  {
    ghost var ls := lines[..];
    ghost var cs := Connected(ls, fls, t, lm);
    var nlines := lines.Length;
    for i := 0 to nlines
      invariant lines[..] == cs[..i] + ls[i..]
    {
      ConnectAt(lines, fls, t, lm, i, ls, cs);
    }
    assert ls[nlines..] == [];
    assert cs[..nlines] == cs;
  }

  /** One pass of the connecting loop: line i is connected, from the
      unchanged angles of its neighbours. */
  method ConnectAt(lines: array<Line>, fls: bool, t: real, lm: Libm, i: nat, ghost ls: seq<Line>, ghost cs: seq<Line>)
    requires i < lines.Length == |ls| && CosPositive(lm) && cs == Connected(ls, fls, t, lm)
    requires lines[..] == cs[..i] + ls[i..]
    modifies lines
    ensures lines[..] == cs[..i + 1] + ls[i + 1..]
  {
    var nlines := lines.Length;
    var p, q := RingNeighbours(i, nlines);
    SpliceAt(cs, ls, i, p);
    SpliceAt(cs, ls, i, q);
    SpliceAt(cs, ls, i, i);
    ConnectedAngle(ls, fls, t, lm, p);
    ConnectedAngle(ls, fls, t, lm, q);
    var l := Connect(lines[i], lines[p].a, lines[q].a, fls, t, lm);
    ghost var before := lines[..];
    lines[i] := l;
    assert lines[..] == before[i := l];
    SpliceStep(cs, ls, i, l);
  }

  // Splicing facts for the loops that fill or rewrite a line array.

  lemma PrefixStep<T>(s: seq<T>, r: seq<T>, k: nat)
    requires k < |s| && k < |r| && s[..k] == r[..k] && s[k] == r[k]
    ensures s[..k + 1] == r[..k + 1]
  {
    assert s[..k + 1] == s[..k] + [s[k]];
    assert r[..k + 1] == r[..k] + [r[k]];
  }

  lemma SpliceAt<T>(a: seq<T>, b: seq<T>, i: nat, j: nat)
    requires i <= |a| == |b| && j < |a|
    ensures (a[..i] + b[i..])[j] == if j < i then a[j] else b[j]
  {}

  lemma SpliceStep<T>(a: seq<T>, b: seq<T>, i: nat, x: T)
    requires i < |a| == |b| && x == a[i]
    ensures (a[..i] + b[i..])[i := x] == a[..i + 1] + b[i + 1..]
  {
    var lhs, rhs := (a[..i] + b[i..])[i := x], a[..i + 1] + b[i + 1..];
    assert |lhs| == |rhs|;
    forall j | 0 <= j < |a|
      ensures lhs[j] == rhs[j]
    {
      SpliceAt(a, b, i, j);
      SpliceAt(a, b, i + 1, j);
    }
  }

  /** A corner of a triangle: a point and its texture coordinates. */
  datatype Corner = Corner(p: Point, u: real, v: real)

  /** The angle loop of draw_simple_fan: n + 1 evenly spaced angles from
      start over arc. */
  method FanAngles(start: real, arc: real, n: nat) returns (angles: array<real>)
    requires n >= 1
    ensures fresh(angles) && angles.Length == n + 1
    ensures forall j :: 0 <= j <= n ==> angles[j] == FanAngle(start, arc, n, j)
  {
    angles := new real[n + 1];
    for i := 0 to n + 1
      invariant forall j :: 0 <= j < i ==> angles[j] == FanAngle(start, arc, n, j)
    {
      angles[i] := start + (i as real) * arc / (n as real);
      assert angles[i] == FanAngle(start, arc, n, i);
    }
  }

  /** The four parts draw_lines appends for line i add up to its segment. */
  lemma SegmentParts(v0: seq<Vertex>, v1: seq<Vertex>, v2: seq<Vertex>, v3: seq<Vertex>,
                     v4: seq<Vertex>, ls: seq<Line>, i: nat, t: real, c: Color, lm: Libm)
    requires i < |ls|
    requires v1 == v0 + (if ls[i].hasPrev then JointFan(ls[i], ls[Prev(i, |ls|)], t, c, lm) else [])
    requires v2 == v1 + Ribbon(ls[i], c)
    requires v3 == v2 + (if !ls[i].hasPrev then StartCapVertices(ls[i], c) else [])
    requires v4 == v3 + (if !ls[i].hasNext then EndCapVertices(ls[i], c) else [])
    ensures v4 == v0 + SegmentVertices(ls, i, t, c, lm)
  {}

  /** After line i's segment the buffer holds the first i + 1 segments. */
  lemma LinesStep(o: seq<Vertex>, v0: seq<Vertex>, v4: seq<Vertex>, ls: seq<Line>, i: nat, t: real, c: Color, lm: Libm)
    requires i < |ls| && v0 == o + LinesVertices(ls, i, t, c, lm)
    requires v4 == v0 + SegmentVertices(ls, i, t, c, lm)
    ensures v4 == o + LinesVertices(ls, i + 1, t, c, lm)
  {
    Assoc(o, LinesVertices(ls, i, t, c, lm), SegmentVertices(ls, i, t, c, lm));
  }

  lemma Assoc<T>(a: seq<T>, b: seq<T>, c: seq<T>)
    ensures a + b + c == a + (b + c)
  {}

  // ---------------------------------------------------------------------
  // The ring of frames drawn by update

  /** The age of ring slot s when the newest frame is in slot step. */
  function Age(step: nat, n: nat, s: nat): nat
    requires n > 0
  {
    (step + n - s) % n
  }

  /** The slot update draws at the given age. */
  function SlotAt(step: nat, n: nat, age: nat): nat
    requires n > 0 && step < n && age < n
  {
    (step + n - age) % n
  }

  function Power(x: real, k: nat): real
  {
    if k == 0 then 1.0 else x * Power(x, k - 1)
  }

  /** The alpha update draws a frame of the given age with. */
  function Alpha(age: nat, initialDecay: real, decay: real): real
  {
    if age == 0 then 1.0
    else if age == 1 then initialDecay
    else Power(decay, age - 1) * initialDecay
  }

  /** The alpha computation of update for the frame of the given age. */
  method FrameAlpha(age: nat, initialDecay: real, decay: real) returns (alpha: real)
    ensures alpha == Alpha(age, initialDecay, decay)
  {
    if age == 0 {
      alpha := 1.0;
    } else if age == 1 {
      alpha := initialDecay;
    } else {
      alpha := Power(decay, age - 1) * initialDecay;
    }
  }

  /** The draws of the first k iterations of the drawing loop of update:
      iteration loopvar draws the slot of age n - loopvar - 1, unless its
      vertex count is 0. */
  function Frames(counts: seq<nat>, step: nat, initialDecay: real, decay: real, k: nat): seq<DrawCall>
    requires step < |counts| && k <= |counts|
  {
    if k == 0 then []
    else
      var n := |counts|;
      var age := n - (k - 1) - 1;
      var i := SlotAt(step, n, age);
      Frames(counts, step, initialDecay, decay, k - 1)
      + (if counts[i] == 0 then [] else [DrawCall(i, Alpha(age, initialDecay, decay), counts[i])])
  }

  /** Slot and age are inverse: the slot drawn at a given age has that age,
      and the slot of age 0 is the newest, step itself. */
  lemma SlotAge(step: nat, n: nat, age: nat)
    requires n > 0 && step < n && age < n
    ensures SlotAt(step, n, age) < n
    ensures Age(step, n, SlotAt(step, n, age)) == age
    ensures age == 0 ==> SlotAt(step, n, age) == step
  {
    var s := SlotAt(step, n, age);
    if age <= step {
      ModWrap(step - age, n);
      assert s == step - age;
      ModWrap(age, n);
      assert step + n - s == n + age;
    } else {
      ModSmall(step + n - age, n);
      assert s == step + n - age;
      ModSmall(age, n);
    }
  }

  /** Every slot is the one drawn at its own age. */
  lemma AgeSlot(step: nat, n: nat, s: nat)
    requires n > 0 && step < n && s < n
    ensures Age(step, n, s) < n && SlotAt(step, n, Age(step, n, s)) == s
  {
    var age := Age(step, n, s);
    if s <= step {
      ModWrap(step - s, n);
      assert age == step - s;
      ModWrap(s, n);
      assert step + n - age == n + s;
    } else {
      ModSmall(step + n - s, n);
      assert age == step + n - s;
      ModSmall(s, n);
      assert step + n - age == s;
    }
  }

  /** A draw made within the first k iterations of the drawing loop of
      update: a slot of age n - 1 down to n - k that holds vertices, drawn
      with the alpha of its age and its stored vertex count. */
  predicate DrawnWithin(counts: seq<nat>, step: nat, initialDecay: real, decay: real, k: nat, call: DrawCall)
    requires |counts| > 0
  {
    var n := |counts|;
    && call.slot < n && counts[call.slot] != 0 && call.count == counts[call.slot]
    && n - k <= Age(step, n, call.slot)
    && call.alpha == Alpha(Age(step, n, call.slot), initialDecay, decay)
  }

  /** The first k iterations of the drawing loop of update draw only slots
      of ages n - 1 down to n - k that hold vertices, with the alpha of
      their age and their stored vertex count. */
  lemma {:induction false} FramesSlots(counts: seq<nat>, step: nat, initialDecay: real, decay: real, k: nat)
    requires step < |counts| && k <= |counts|
    ensures forall j :: 0 <= j < |Frames(counts, step, initialDecay, decay, k)| ==>
      DrawnWithin(counts, step, initialDecay, decay, k, Frames(counts, step, initialDecay, decay, k)[j])
  {
    var n := |counts|;
    if k > 0 {
      FramesSlots(counts, step, initialDecay, decay, k - 1);
      var age := n - k;
      var i := SlotAt(step, n, age);
      SlotAge(step, n, age);
      var f0 := Frames(counts, step, initialDecay, decay, k - 1);
      var f := Frames(counts, step, initialDecay, decay, k);
      assert f == f0 + (if counts[i] == 0 then [] else [DrawCall(i, Alpha(age, initialDecay, decay), counts[i])]);
      forall j | 0 <= j < |f|
        ensures DrawnWithin(counts, step, initialDecay, decay, k, f[j])
      {
        if j < |f0| {
          assert f[j] == f0[j];
        } else {
          assert f[j] == DrawCall(i, Alpha(age, initialDecay, decay), counts[i]);
        }
      }
    }
  }

  /** The first k iterations of the drawing loop of update draw the oldest
      frame first: ages strictly decrease along the draws. */
  lemma {:induction false} FramesOldestFirst(counts: seq<nat>, step: nat, initialDecay: real, decay: real, k: nat)
    requires step < |counts| && k <= |counts|
    ensures forall j1, j2 :: 0 <= j1 < j2 < |Frames(counts, step, initialDecay, decay, k)| ==>
      Age(step, |counts|, Frames(counts, step, initialDecay, decay, k)[j1].slot)
      > Age(step, |counts|, Frames(counts, step, initialDecay, decay, k)[j2].slot)
  {
    var n := |counts|;
    if k > 0 {
      FramesOldestFirst(counts, step, initialDecay, decay, k - 1);
      FramesSlots(counts, step, initialDecay, decay, k - 1);
      var age := n - k;
      var i := SlotAt(step, n, age);
      SlotAge(step, n, age);
      var f0 := Frames(counts, step, initialDecay, decay, k - 1);
      var f := Frames(counts, step, initialDecay, decay, k);
      assert f == f0 + (if counts[i] == 0 then [] else [DrawCall(i, Alpha(age, initialDecay, decay), counts[i])]);
      forall j1, j2 | 0 <= j1 < j2 < |f|
        ensures Age(step, n, f[j1].slot) > Age(step, n, f[j2].slot)
      {
        assert f[j1] == f0[j1];
        if j2 < |f0| {
          assert f[j2] == f0[j2];
        } else {
          assert f[j2].slot == i;
        }
      }
    }
  }

  /** Some call of the list draws slot s. */
  predicate DrawsSlot(f: seq<DrawCall>, s: nat)
  {
    exists j :: 0 <= j < |f| && f[j].slot == s
  }

  /** The first k iterations of the drawing loop of update draw every slot
      of age n - 1 down to n - k that holds vertices. */
  lemma {:induction false} FramesComplete(counts: seq<nat>, step: nat, initialDecay: real, decay: real, k: nat)
    requires step < |counts| && k <= |counts|
    ensures forall s :: 0 <= s < |counts| && counts[s] != 0 && |counts| - k <= Age(step, |counts|, s) ==>
      DrawsSlot(Frames(counts, step, initialDecay, decay, k), s)
  {
    var n := |counts|;
    if k > 0 {
      FramesComplete(counts, step, initialDecay, decay, k - 1);
      var age := n - k;
      var i := SlotAt(step, n, age);
      SlotAge(step, n, age);
      var f0 := Frames(counts, step, initialDecay, decay, k - 1);
      var f := Frames(counts, step, initialDecay, decay, k);
      assert f == f0 + (if counts[i] == 0 then [] else [DrawCall(i, Alpha(age, initialDecay, decay), counts[i])]);
      forall s | 0 <= s < n && counts[s] != 0 && n - k <= Age(step, n, s)
        ensures DrawsSlot(f, s)
      {
        if Age(step, n, s) == age {
          AgeSlot(step, n, s);
          assert f[|f| - 1].slot == s;
        } else {
          var j :| 0 <= j < |f0| && f0[j].slot == s;
          assert f[j].slot == s;
        }
      }
    }
  }

  /** The whole drawing loop of update draws exactly the slots that hold
      vertices, each once, oldest first; the newest slot, if it holds any,
      is drawn last with alpha 1. */
  lemma UpdateDrawsEverySlotOnce(counts: seq<nat>, step: nat, initialDecay: real, decay: real)
    requires step < |counts|
    ensures var n, f := |counts|, Frames(counts, step, initialDecay, decay, |counts|);
      && (forall j :: 0 <= j < |f| ==>
            f[j].slot < n && counts[f[j].slot] != 0 && f[j].count == counts[f[j].slot]
            && f[j].alpha == Alpha(Age(step, n, f[j].slot), initialDecay, decay))
      && (forall s :: 0 <= s < n ==> (counts[s] != 0 <==> exists j :: 0 <= j < |f| && f[j].slot == s))
      && (forall j1, j2 :: 0 <= j1 < j2 < |f| ==> f[j1].slot != f[j2].slot)
      && (counts[step] != 0 ==> |f| > 0 && f[|f| - 1] == DrawCall(step, 1.0, counts[step]))
  {
    var n, f := |counts|, Frames(counts, step, initialDecay, decay, |counts|);
    FramesSlots(counts, step, initialDecay, decay, n);
    FramesOldestFirst(counts, step, initialDecay, decay, n);
    FramesComplete(counts, step, initialDecay, decay, n);
    forall s | 0 <= s < n
      ensures counts[s] != 0 <==> exists j :: 0 <= j < |f| && f[j].slot == s
    {
      AgeSlot(step, n, s);
    }
    if counts[step] != 0 {
      AgeSlot(step, n, step);
      var j :| 0 <= j < |f| && f[j].slot == step;
      ghost var lastAge := Age(step, n, f[|f| - 1].slot);
      if j < |f| - 1 {
        assert false;
      }
    }
  }

  lemma {:induction false} PowerBounds(x: real, k: nat)
    requires 0.0 <= x < 1.0
    ensures 0.0 <= Power(x, k + 1) <= Power(x, k) <= 1.0
  {
    if k > 0 {
      PowerBounds(x, k - 1);
    }
    ScaleDown(x, Power(x, k));
  }

  lemma ScaleDown(x: real, p: real)
    requires 0.0 <= x < 1.0 && 0.0 <= p <= 1.0
    ensures 0.0 <= x * p <= p
  {}

  /** With decay and initial_decay in [0, 1), as the setters guarantee, the
      alpha of a frame never grows with its age and stays in [0, 1]. */
  lemma AlphaNonIncreasing(age: nat, initialDecay: real, decay: real)
    requires 0.0 <= initialDecay < 1.0 && 0.0 <= decay < 1.0
    ensures 0.0 <= Alpha(age + 1, initialDecay, decay) <= Alpha(age, initialDecay, decay) <= 1.0
  {
    if age >= 1 {
      PowerBounds(decay, age - 1);
      ScaleDown(initialDecay, Power(decay, age - 1));
      ScaleDown(initialDecay, Power(decay, age));
      assert Power(decay, age) * initialDecay <= Power(decay, age - 1) * initialDecay;
    }
  }

  lemma {:induction false} AlphaMonotone(younger: nat, older: nat, initialDecay: real, decay: real)
    requires 0.0 <= initialDecay < 1.0 && 0.0 <= decay < 1.0 && younger <= older
    ensures 0.0 <= Alpha(older, initialDecay, decay) <= Alpha(younger, initialDecay, decay)
    decreases older - younger
  {
    AlphaNonIncreasing(younger, initialDecay, decay);
    if younger < older {
      AlphaMonotone(younger + 1, older, initialDecay, decay);
    }
  }

  /** So the frames update draws, oldest first, get ever brighter. */
  lemma UpdateAlphasRise(counts: seq<nat>, step: nat, initialDecay: real, decay: real, j1: nat, j2: nat)
    requires step < |counts| && 0.0 <= initialDecay < 1.0 && 0.0 <= decay < 1.0
    requires j1 < j2 < |Frames(counts, step, initialDecay, decay, |counts|)|
    ensures var f := Frames(counts, step, initialDecay, decay, |counts|);
      0.0 <= f[j1].alpha <= f[j2].alpha <= 1.0
  {
    var n, f := |counts|, Frames(counts, step, initialDecay, decay, |counts|);
    FramesSlots(counts, step, initialDecay, decay, n);
    FramesOldestFirst(counts, step, initialDecay, decay, n);
    FramesComplete(counts, step, initialDecay, decay, n);
    AlphaMonotone(Age(step, n, f[j2].slot), Age(step, n, f[j1].slot), initialDecay, decay);
    AlphaNonIncreasing(0, initialDecay, decay);
    AlphaMonotone(0, Age(step, n, f[j2].slot), initialDecay, decay);
  }

  /** The default settings (decay 0.8, initial decay 0.04) give a frame the
      alphas 1, 0.04, 0.032, 0.0256 and 0.02048 over its first five ages. */
  lemma DefaultAlphas()
    ensures Alpha(0, DefaultInitialDecay, DefaultDecay) == 1.0
    ensures Alpha(1, DefaultInitialDecay, DefaultDecay) == 0.04
    ensures Alpha(2, DefaultInitialDecay, DefaultDecay) == 0.032
    ensures Alpha(3, DefaultInitialDecay, DefaultDecay) == 0.0256
    ensures Alpha(4, DefaultInitialDecay, DefaultDecay) == 0.02048
  {
    assert Power(0.8, 2) == 0.64;
    assert Power(0.8, 3) == 0.512;
  }

  // ---------------------------------------------------------------------
  // The display

  /** The drawing loop of vector_display_update over the vertex counts of
      the ring slots, the newest in slot step: every slot that holds
      vertices, oldest first, with the alpha of its age. */
  method DrawFrames(counts: array<nat>, step: nat, initialDecay: real, decay: real) returns (draws: seq<DrawCall>)
    requires step < counts.Length
    ensures draws == Frames(counts[..], step, initialDecay, decay, counts.Length)
  {
    var steps := counts.Length;
    draws := [];
    for loopvar := 0 to steps
      invariant draws == Frames(counts[..], step, initialDecay, decay, loopvar)
    {
      var stepi := steps - loopvar - 1;
      var i := (step + steps - stepi) % steps;
      assert i == SlotAt(step, steps, stepi);
      if counts[i] != 0 {
        var alpha := FrameAlpha(stepi, initialDecay, decay);
        draws := draws + [DrawCall(i, alpha, counts[i])];
      }
    }
  }

  class Display {
    var width: real
    var height: real
    var glowWidth: real
    var glowHeight: real
    var steps: nat
    var decay: real
    var r: real
    var g: real
    var b: real
    var a: real
    /** The vertex buffer; its length is the capacity cpoints. */
    var points: array<Vertex>
    var npoints: nat
    /** The pending points of the polyline being drawn. */
    var pending: array<Point>
    var pendingN: nat
    var step: nat
    /** The vertices uploaded to each ring slot's buffer. */
    var slots: array<seq<Vertex>>
    /** buffernpoints: the vertex count of each ring slot. */
    var slotCounts: array<nat>
    var initialDecay: real
    var thickness: real
    /** The begin_draw / draw_to / end_draw calls made so far. */
    ghost var log: seq<Command>

    ghost predicate Valid()
      reads this
    {
      && InitialCapacity <= points.Length && npoints <= points.Length
      && InitialCapacity <= pending.Length && pendingN <= pending.Length
      && steps <= MaxSteps && slots.Length == steps && slotCounts.Length == steps
      && (if steps == 0 then step == 0 else step < steps)
      && 0.0 <= decay < 1.0 && 0.0 <= initialDecay < 1.0 && 0.0 < thickness
    }

    /** The vertices of the current frame. */
    function Vertices(): seq<Vertex>
      reads this`points, this`npoints, points
      requires npoints <= points.Length
    {
      points[..npoints]
    }

    function Pending(): seq<Point>
      reads this`pending, this`pendingN, pending
      requires pendingN <= pending.Length
    {
      pending[..pendingN]
    }

    function CurrentColor(): Color
      reads this`r, this`g, this`b, this`a
    {
      Color(r, g, b, a)
    }

    function Config(): Settings
      reads this`width, this`height, this`glowWidth, this`glowHeight, this`decay,
            this`initialDecay, this`thickness, this`r, this`g, this`b, this`a
    {
      Settings(width, height, glowWidth, glowHeight, decay, initialDecay, thickness, CurrentColor())
    }

    /** The vertex buffer and its count are as they were. */
    twostate predicate SameVertices()
      reads this
    {
      points == old(points) && npoints == old(npoints)
    }

    /** The pending buffer and its count are as they were. */
    twostate predicate SamePending()
      reads this
    {
      pending == old(pending) && pendingN == old(pendingN)
    }

    /** The frame ring is as it was. */
    twostate predicate SameRing()
      reads this
    {
      steps == old(steps) && step == old(step) && slots == old(slots) && slotCounts == old(slotCounts)
    }

    /** vector_display_new, with allocation assumed to succeed. */
    constructor (width: real, height: real)
      ensures Valid() && fresh(points) && fresh(pending) && fresh(slots) && fresh(slotCounts)
      ensures Vertices() == [] && Pending() == [] && log == []
      ensures points.Length == InitialCapacity && pending.Length == InitialCapacity
      ensures steps == DefaultSteps && step == 0
      ensures slotCounts[..] == seq(DefaultSteps, _ => 0) && slots[..] == seq(DefaultSteps, _ => [])
      ensures Config() == Settings(width, height, width / 3.0, height / 3.0, DefaultDecay,
                                   DefaultInitialDecay, DefaultThickness, Color(1.0, 1.0, 1.0, 1.0))
    {
      this.width := width;
      this.height := height;
      glowWidth := width / 3.0;
      glowHeight := height / 3.0;
      steps := DefaultSteps;
      slots := new seq<Vertex>[DefaultSteps](_ => []);
      slotCounts := new nat[DefaultSteps](_ => 0);
      points := new Vertex[InitialCapacity];
      npoints := 0;
      pending := new Point[InitialCapacity];
      pendingN := 0;
      step := 0;
      decay := DefaultDecay;
      r, g, b, a := 1.0, 1.0, 1.0, 1.0;
      initialDecay := DefaultInitialDecay;
      thickness := DefaultThickness;
      log := [];
    }

    // -------------------------------------------------------------------
    // Setters

    /** vector_display_set_initial_decay: accepts values in [0, 1). */
    method SetInitialDecay(d: real) returns (rc: int)
      requires Valid()
      modifies this
      ensures Valid() && rc == (if 0.0 <= d < 1.0 then 0 else -1)
      ensures Config() == if rc == 0 then old(Config()).(initialDecay := d) else old(Config())
      ensures SameVertices() && SamePending() && SameRing() && log == old(log)
    {
      if d < 0.0 || d >= 1.0 {
        return -1;
      }
      initialDecay := d;
      return 0;
    }

    /** vector_display_set_thickness: accepts positive values. */
    method SetThickness(t: real) returns (rc: int)
      requires Valid()
      modifies this
      ensures Valid() && rc == (if t > 0.0 then 0 else -1)
      ensures Config() == if rc == 0 then old(Config()).(thickness := t) else old(Config())
      ensures SameVertices() && SamePending() && SameRing() && log == old(log)
    {
      if t <= 0.0 {
        return -1;
      }
      thickness := t;
      return 0;
    }

    /** vector_display_set_decay: accepts values in [0, 1). */
    method SetDecay(d: real) returns (rc: int)
      requires Valid()
      modifies this
      ensures Valid() && rc == (if 0.0 <= d < 1.0 then 0 else -1)
      ensures Config() == if rc == 0 then old(Config()).(decay := d) else old(Config())
      ensures SameVertices() && SamePending() && SameRing() && log == old(log)
    {
      if d < 0.0 || d >= 1.0 {
        return -1;
      }
      decay := d;
      return 0;
    }

    /** vector_display_set_color: sets r, g and b, never alpha. */
    method SetColor(r: real, g: real, b: real) returns (rc: int)
      requires Valid()
      modifies this
      ensures Valid() && rc == 0
      ensures Config() == old(Config()).(color := Color(r, g, b, old(a)))
      ensures SameVertices() && SamePending() && SameRing() && log == old(log)
    {
      this.r := r;
      this.g := g;
      this.b := b;
      return 0;
    }

    /** vector_display_clear: only the vertex count is reset. */
    method Clear() returns (rc: int)
      requires Valid()
      modifies this
      ensures Valid() && rc == 0
      ensures npoints == 0 && points == old(points) && Vertices() == []
      ensures Config() == old(Config()) && SamePending() && SameRing() && log == old(log)
    {
      npoints := 0;
      return 0;
    }

    /** vector_display_set_steps: accepts 0 to 60 steps; on success the ring
        restarts at slot 0 with every slot empty. */
    method SetSteps(n: int) returns (rc: int)
      requires Valid()
      modifies this
      ensures Valid() && rc == (if 0 <= n <= MaxSteps then 0 else -1)
      ensures rc == 0 ==> steps == n && step == 0 && fresh(slots) && fresh(slotCounts)
                          && slotCounts[..] == seq(n, _ => 0) && slots[..] == seq(n, _ => [])
      ensures rc != 0 ==> SameRing()
      ensures Config() == old(Config()) && SameVertices() && SamePending() && log == old(log)
    {
      if n < 0 || n > MaxSteps {
        return -1;
      }
      step := 0;
      steps := n;
      slots := new seq<Vertex>[n](_ => []);
      slotCounts := new nat[n](_ => 0);
      return 0;
    }

    // -------------------------------------------------------------------
    // Buffers

    /** ensure_points: doubles the vertex buffer, once, when it holds fewer
        than need vertices, copying the current vertices over. */
    method EnsurePoints(need: nat)
      requires Valid()
      modifies this
      ensures Valid() && Vertices() == old(Vertices()) && npoints == old(npoints)
      ensures points.Length == if old(points.Length) < need then 2 * old(points.Length) else old(points.Length)
      ensures if old(points.Length) < need then fresh(points) else points == old(points)
      ensures Config() == old(Config()) && SamePending() && SameRing() && log == old(log)
    {
      if points.Length < need {
        var newPoints := new Vertex[2 * points.Length];
        for j := 0 to npoints
          modifies newPoints
          invariant newPoints[..j] == points[..j]
        {
          newPoints[j] := points[j];
        }
        points := newPoints;
      }
    }

    /** ensure_pending_points: doubles the pending buffer, once, when it holds
        fewer than need points. The copy reads the vertex buffer instead of
        the pending buffer, so after a growth the old pending points are not
        kept: the model leaves the zeros of the fresh buffer, and the contract
        says nothing about those entries. */
    method EnsurePendingPoints(need: nat)
      requires Valid()
      modifies this
      ensures Valid() && pendingN == old(pendingN)
      ensures pending.Length == if old(pending.Length) < need then 2 * old(pending.Length) else old(pending.Length)
      ensures if old(pending.Length) < need then fresh(pending) else pending == old(pending)
      ensures Config() == old(Config()) && SameVertices() && SameRing() && log == old(log)
    {
      if pending.Length < need {
        var newPending := new Point[2 * pending.Length];
        pending := newPending;
      }
    }

    /** append_texpoint: stores one vertex at depth 10000 with the current
        colour and texture coordinates scaled by the texture size, v flipped. */
    method AppendTexpoint(x: real, y: real, u: real, v: real)
      requires Valid()
      modifies this, points
      ensures Valid()
      ensures Vertices() == old(Vertices()) + [TexPoint(x, y, u, v, CurrentColor())]
      ensures npoints == old(npoints) + 1
      ensures points.Length == if old(npoints) == old(points.Length) then 2 * old(points.Length) else old(points.Length)
      ensures points == old(points) || fresh(points)
      ensures Config() == old(Config()) && SamePending() && SameRing() && log == old(log)
    {
      EnsurePoints(npoints + 1);
      points[npoints] := Vertex(x, y, 10000.0, r, g, b, a, u / TextureSize, 1.0 - v / TextureSize);
      npoints := npoints + 1;
    }

    /** Three consecutive append_texpoint calls: one triangle. */
    method AppendTriangle(c0: Corner, c1: Corner, c2: Corner)
      requires Valid()
      modifies this, points
      ensures Valid()
      ensures Vertices() == old(Vertices()) + [Tex(c0.p, c0.u, c0.v, CurrentColor()),
                                               Tex(c1.p, c1.u, c1.v, CurrentColor()),
                                               Tex(c2.p, c2.u, c2.v, CurrentColor())]
      ensures points == old(points) || fresh(points)
      ensures Config() == old(Config()) && SamePending() && SameRing() && log == old(log)
    {
      AppendTexpoint(c0.p.x, c0.p.y, c0.u, c0.v);
      AppendTexpoint(c1.p.x, c1.p.y, c1.u, c1.v);
      AppendTexpoint(c2.p.x, c2.p.y, c2.u, c2.v);
    }

    // -------------------------------------------------------------------
    // Polylines

    /** vector_display_begin_draw. The source aborts when a polyline is
        already open; that is this method's precondition. */
    method BeginDraw(x: real, y: real) returns (rc: int)
      requires Valid() && pendingN == 0
      modifies this, pending
      ensures Valid() && rc == 0 && Pending() == [Point(x, y)]
      ensures pending == old(pending)
      ensures Config() == old(Config()) && SameVertices() && SameRing()
      ensures log == old(log) + [BeginCmd(Point(x, y))]
    {
      EnsurePendingPoints(pendingN + 1);
      pending[pendingN] := Point(x, y);
      pendingN := pendingN + 1;
      log := log + [BeginCmd(Point(x, y))];
      return 0;
    }

    /** vector_display_draw_to: appends one pending point. The earlier points
        are kept only while the buffer does not grow. */
    method DrawTo(x: real, y: real) returns (rc: int)
      requires Valid()
      modifies this, pending
      ensures Valid() && rc == 0 && pendingN == old(pendingN) + 1
      ensures Pending()[old(pendingN)] == Point(x, y)
      ensures old(pendingN) < old(pending.Length) ==>
                pending == old(pending) && Pending() == old(Pending()) + [Point(x, y)]
      ensures pending == old(pending) || fresh(pending)
      ensures Config() == old(Config()) && SameVertices() && SameRing()
      ensures log == old(log) + [DrawToCmd(Point(x, y))]
    {
      EnsurePendingPoints(pendingN + 1);
      pending[pendingN] := Point(x, y);
      pendingN := pendingN + 1;
      log := log + [DrawToCmd(Point(x, y))];
      return 0;
    }

    /** The triangle loop of draw_simple_fan over precomputed angles:
        triangle i is the rim point at angles[i - 1], the centre and the rim
        point at angles[i]. */
    method DrawFanTriangles(f: Fan, angles: array<real>, cx: real, cy: real, lm: Libm)
      requires Valid() && f.steps >= 1 && angles.Length == f.steps + 1
      requires forall j :: 0 <= j <= f.steps ==> angles[j] == FanAngle(f.start, f.arc, f.steps, j)
      modifies this, points
      ensures Valid()
      ensures Vertices() == old(Vertices()) + FanTriangles(f, cx, cy, CurrentColor(), lm, f.steps)
      ensures points == old(points) || fresh(points)
      ensures Config() == old(Config()) && SamePending() && SameRing() && log == old(log)
    {
      for i := 1 to f.steps + 1
        invariant Valid() && Config() == old(Config())
        invariant points == old(points) || fresh(points)
        invariant SamePending() && SameRing() && log == old(log)
        invariant Vertices() == old(Vertices()) + FanTriangles(f, cx, cy, CurrentColor(), lm, i - 1)
      {
        DrawFanTriangle(f, angles, cx, cy, lm, i, old(Vertices()));
      }
    }

    /** One pass of the triangle loop: triangle i of the fan. */
    method DrawFanTriangle(f: Fan, angles: array<real>, cx: real, cy: real, lm: Libm, i: nat, ghost o: seq<Vertex>)
      requires Valid() && 1 <= i <= f.steps && angles.Length == f.steps + 1
      requires angles[i - 1] == FanAngle(f.start, f.arc, f.steps, i - 1)
      requires angles[i] == FanAngle(f.start, f.arc, f.steps, i)
      requires Vertices() == o + FanTriangles(f, cx, cy, CurrentColor(), lm, i - 1)
      modifies this, points
      ensures Valid() && Vertices() == o + FanTriangles(f, cx, cy, CurrentColor(), lm, i)
      ensures points == old(points) || fresh(points)
      ensures Config() == old(Config()) && SamePending() && SameRing() && log == old(log)
    {
      FanTrianglesSnoc(o, f, cx, cy, CurrentColor(), lm, i);
      AppendTriangle(Corner(RimPoint(f, cx, cy, angles[i - 1], lm), f.s, HalfTextureSize),
                     Corner(Point(cx, cy), f.e, HalfTextureSize),
                     Corner(RimPoint(f, cx, cy, angles[i], lm), f.s, HalfTextureSize));
    }

    /** draw_simple_fan: a fan of nsteps triangles around (cx, cy), turning
        the short way from angle pa to angle a with radius t. */
    method DrawSimpleFan(cx: real, cy: real, pa: real, a: real, t: real, lm: Libm)
      requires Valid()
      modifies this, points
      ensures Valid() && Vertices() == old(Vertices()) + FanVertices(cx, cy, pa, a, t, CurrentColor(), lm)
      ensures points == old(points) || fresh(points)
      ensures Config() == old(Config()) && SamePending() && SameRing() && log == old(log)
    {
      var pa2a := Normalizef(a - pa);
      var a2pa := Normalizef(pa - a);
      var f;
      var angles: array<real>;
      if a2pa < pa2a {
        var rounded := lm.round(a2pa / (Pi / 8.0));
        var nsteps: nat := if 1 > rounded then 1 else rounded;
        angles := FanAngles(a, a2pa, nsteps);
        f := Fan(a, a2pa, nsteps, -t, TextureSize, 0.0);
      } else {
        var rounded := lm.round(pa2a / (Pi / 8.0));
        var nsteps: nat := if 1 > rounded then 1 else rounded;
        angles := FanAngles(pa, pa2a, nsteps);
        f := Fan(pa, pa2a, nsteps, t, 0.0, TextureSize);
      }
      assert f == FanOf(pa, a, t, lm);
      DrawFanTriangles(f, angles, cx, cy, lm);
    }

    /** The two triangles of a line's body. */
    method DrawRibbon(l: Line)
      requires Valid()
      modifies this, points
      ensures Valid() && Vertices() == old(Vertices()) + Ribbon(l, CurrentColor())
      ensures points == old(points) || fresh(points)
      ensures Config() == old(Config()) && SamePending() && SameRing() && log == old(log)
    {
      RibbonIs(l, CurrentColor());
      AppendTriangle(Corner(l.r0, TextureSize, HalfTextureSize), Corner(l.r1, TextureSize, HalfTextureSize),
                     Corner(l.l1, 0.0, HalfTextureSize));
      AppendTriangle(Corner(l.l0, 0.0, HalfTextureSize), Corner(l.r0, TextureSize, HalfTextureSize),
                     Corner(l.l1, 0.0, HalfTextureSize));
    }

    /** The two triangles of a line's start cap. */
    method DrawStartCap(l: Line)
      requires Valid()
      modifies this, points
      ensures Valid() && Vertices() == old(Vertices()) + StartCapVertices(l, CurrentColor())
      ensures points == old(points) || fresh(points)
      ensures Config() == old(Config()) && SamePending() && SameRing() && log == old(log)
    {
      StartCapIs(l, CurrentColor());
      AppendTriangle(Corner(l.l0, 0.0, HalfTextureSize), Corner(l.lt0, 0.0, 0.0),
                     Corner(l.r0, TextureSize, HalfTextureSize));
      AppendTriangle(Corner(l.r0, TextureSize, HalfTextureSize), Corner(l.lt0, 0.0, 0.0),
                     Corner(l.rt0, TextureSize, 0.0));
    }

    /** The two triangles of a line's end cap. */
    method DrawEndCap(l: Line)
      requires Valid()
      modifies this, points
      ensures Valid() && Vertices() == old(Vertices()) + EndCapVertices(l, CurrentColor())
      ensures points == old(points) || fresh(points)
      ensures Config() == old(Config()) && SamePending() && SameRing() && log == old(log)
    {
      EndCapIs(l, CurrentColor());
      AppendTriangle(Corner(l.lt1, 0.0, 0.0), Corner(l.l1, 0.0, HalfTextureSize),
                     Corner(l.r1, TextureSize, HalfTextureSize));
      AppendTriangle(Corner(l.lt1, 0.0, 0.0), Corner(l.r1, TextureSize, HalfTextureSize),
                     Corner(l.rt1, TextureSize, 0.0));
    }

    /** The has_prev block of draw_lines: the joint fan around the right or
        the left start point, at twice the thickness. */
    method DrawJoint(line: Line, pline: Line, t: real, lm: Libm)
      requires Valid()
      modifies this, points
      ensures Valid()
      ensures Vertices() == old(Vertices()) + (if line.hasPrev then JointFan(line, pline, t, CurrentColor(), lm) else [])
      ensures points == old(points) || fresh(points)
      ensures Config() == old(Config()) && SamePending() && SameRing() && log == old(log)
    {
      if line.hasPrev {
        var pa2a := Normalizef(pline.a - line.a);
        var a2pa := Normalizef(line.a - pline.a);
        ghost var c := CurrentColor();
        var p := if a2pa < pa2a then line.r0 else line.l0;
        assert JointCentre(line, pline) == p;
        assert JointFan(line, pline, t, c, lm) == FanVertices(p.x, p.y, pline.a, line.a, t * 2.0, c, lm);
        ghost var v0 := Vertices();
        DrawSimpleFan(p.x, p.y, pline.a, line.a, t * 2.0, lm);
        assert CurrentColor() == c;
        assert Vertices() == v0 + JointFan(line, pline, t, c, lm);
      }
    }

    /** One iteration of draw_lines, for line i of ls and its previous line
        pline: the joint fan if it connects to pline, its body, and the caps
        of its unconnected ends. */
    method DrawSegment(ghost ls: seq<Line>, ghost i: nat, line: Line, pline: Line, t: real, lm: Libm)
      requires Valid() && i < |ls| && line == ls[i] && pline == ls[Prev(i, |ls|)]
      modifies this, points
      ensures Valid()
      ensures Vertices() == old(Vertices()) + SegmentVertices(ls, i, t, CurrentColor(), lm)
      ensures points == old(points) || fresh(points)
      ensures Config() == old(Config()) && SamePending() && SameRing() && log == old(log)
    {
      ghost var v0 := Vertices();
      DrawJoint(line, pline, t, lm);
      ghost var v1 := Vertices();
      DrawRibbon(line);
      ghost var v2 := Vertices();
      if !line.hasPrev {
        DrawStartCap(line);
      }
      ghost var v3 := Vertices();
      if !line.hasNext {
        DrawEndCap(line);
      }
      SegmentParts(v0, v1, v2, v3, Vertices(), ls, i, t, CurrentColor(), lm);
    }

    /** draw_lines: for each line, the joint fan if it connects to its
        previous line, its body, and the caps of its unconnected ends. */
    method DrawLines(lines: array<Line>, lm: Libm)
      requires Valid() && lines.Length >= 1
      modifies this, points
      ensures Valid()
      ensures Vertices() == old(Vertices()) + LinesVertices(lines[..], lines.Length, thickness, CurrentColor(), lm)
      ensures points == old(points) || fresh(points)
      ensures Config() == old(Config()) && SamePending() && SameRing() && log == old(log)
    {
      var t := thickness;
      var nlines := lines.Length;
      for i := 0 to nlines
        invariant Valid() && Config() == old(Config()) && t == thickness
        invariant points == old(points) || fresh(points)
        invariant SamePending() && SameRing() && log == old(log)
        invariant Vertices() == old(Vertices()) + LinesVertices(lines[..], i, t, CurrentColor(), lm)
      {
        DrawLinesPass(lines, i, t, lm, old(Vertices()));
      }
    }

    /** One pass of the loop of draw_lines: line i with its previous line. */
    method DrawLinesPass(lines: array<Line>, i: nat, t: real, lm: Libm, ghost o: seq<Vertex>)
      requires Valid() && i < lines.Length
      requires Vertices() == o + LinesVertices(lines[..], i, t, CurrentColor(), lm)
      modifies this, points
      ensures Valid() && Vertices() == o + LinesVertices(lines[..], i + 1, t, CurrentColor(), lm)
      ensures points == old(points) || fresh(points)
      ensures Config() == old(Config()) && SamePending() && SameRing() && log == old(log)
    {
      ghost var c := CurrentColor();
      ghost var v0 := Vertices();
      var nlines := lines.Length;
      var p := (nlines + i - 1) % nlines;
      PrevIndex(i, nlines);
      DrawSegment(lines[..], i, lines[i], lines[p], t, lm);
      LinesStep(o, v0, Vertices(), lines[..], i, t, c, lm);
    }

    /** The tessellating part of end_draw for at least two pending points:
        build one line per pair of consecutive points, connect the lines on
        the ring, and draw them. */
    method TessellatePending(lm: Libm, ghost pts: seq<Point>)
      requires Valid() && pendingN >= 2 && CosPositive(lm) && pts == Pending()
      modifies this, points
      ensures Valid() && SamePending()
      ensures Vertices() == old(Vertices()) + Tessellation(pts, thickness, CurrentColor(), lm)
      ensures points == old(points) || fresh(points)
      ensures Config() == old(Config()) && SameRing() && log == old(log)
    {
      var lines := JoinedLines(pending, pendingN, thickness, lm);
      TessellationIs(pts, thickness, CurrentColor(), lm, lines[..]);
      DrawLines(lines, lm);
    }

    /** vector_display_end_draw: tessellates the pending polyline into the
        vertex buffer and empties the pending buffer. */
    method EndDraw(lm: Libm) returns (rc: int)
      requires Valid() && CosPositive(lm)
      modifies this, points
      ensures Valid() && rc == 0 && pendingN == 0 && pending == old(pending)
      ensures Vertices() == old(Vertices()) + Tessellation(old(Pending()), thickness, CurrentColor(), lm)
      ensures points == old(points) || fresh(points)
      ensures Config() == old(Config()) && SameRing()
      ensures log == old(log) + [EndCmd]
    {
      ghost var pts := Pending();
      log := log + [EndCmd];
      if pendingN < 2 {
        assert Tessellation(pts, thickness, CurrentColor(), lm) == [];
        pendingN := 0;
        return 0;
      }
      ghost var v := Vertices() + Tessellation(pts, thickness, CurrentColor(), lm);
      TessellatePending(lm, pts);
      assert Vertices() == v;
      pendingN := 0;
      return 0;
    }

    /** vector_display_draw: one two-point polyline. */
    method Draw(x0: real, y0: real, x1: real, y1: real, lm: Libm) returns (rc: int)
      requires Valid() && pendingN == 0 && CosPositive(lm)
      modifies this, points, pending
      ensures Valid() && rc == 0 && pendingN == 0 && pending == old(pending)
      ensures Vertices() == old(Vertices()) + Tessellation([Point(x0, y0), Point(x1, y1)], thickness, CurrentColor(), lm)
      ensures points == old(points) || fresh(points)
      ensures Config() == old(Config()) && SameRing()
      ensures log == old(log) + [BeginCmd(Point(x0, y0)), DrawToCmd(Point(x1, y1)), EndCmd]
    {
      rc := BeginDraw(x0, y0);
      rc := DrawTo(x1, y1);
      assert Pending() == [Point(x0, y0), Point(x1, y1)];
      ghost var l0 := log;
      rc := EndDraw(lm);
      assert log == l0 + [EndCmd];
      rc := 0;
    }

    // -------------------------------------------------------------------
    // The frame ring

    /** The ring bookkeeping of vector_display_update: advance to the next
        slot, store the current vertices there, then draw every slot that
        holds vertices, oldest first, with the alpha of its age. */
    method Update() returns (draws: seq<DrawCall>)
      requires Valid() && steps > 0
      modifies this, slots, slotCounts
      ensures Valid() && steps == old(steps) && step == Next(old(step), steps)
      ensures slots == old(slots) && slotCounts == old(slotCounts)
      ensures slotCounts[..] == old(slotCounts[..])[step := npoints]
      ensures slots[..] == old(slots[..])[step := Vertices()]
      ensures draws == Frames(slotCounts[..], step, initialDecay, decay, steps)
      ensures Config() == old(Config()) && SameVertices() && SamePending() && log == old(log)
    {
      var _, next := RingNeighbours(step, steps);
      step := next;
      slots[step] := points[..npoints];
      slotCounts[step] := npoints;
      draws := DrawFrames(slotCounts, step, initialDecay, decay);
    }
  }
}
